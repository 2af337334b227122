/** How the reported stretches of nested subexpressions lie to one another
    (src/common/regex_engine.cpp, dissect). */
module Nesting {
  import opened Strip
  import opened Capturing
  import opened Captured
  import opened Ere
  import opened Grammar
  import opened Numbering
  import opened Regex
  import opened Reporting

  /** Subexpression h of e is inside subexpression g, n parentheses having been opened before e. */
  ghost predicate Encloses(e: Ere, n: nat, g: nat, h: nat) {
    n < g <= n + Groups(e) && g < h <= g + Groups(Body(e, n, g))
  }

  ghost predicate EnclosesAll(bs: seq<Ere>, n: nat, g: nat, h: nat) {
    n < g <= n + GroupsAll(bs) && g < h <= g + Groups(BodyAll(bs, n, g))
  }

  /** Within every subexpression of e, those it encloses are ones that all its words go through. */
  ghost predicate Firm(e: Ere, n: nat) {
    forall g: nat, h: nat {:trigger Encloses(e, n, g, h)} :: Encloses(e, n, g, h) ==> Required(Body(e, n, g), g, h)
  }

  ghost predicate FirmAll(bs: seq<Ere>, n: nat) {
    forall g: nat, h: nat {:trigger EnclosesAll(bs, n, g, h)} ::
      EnclosesAll(bs, n, g, h) ==> Required(BodyAll(bs, n, g), g, h)
  }

  /** A repetition count makes copies only of subexpressions that record all they enclose anew. */
  ghost predicate Uncopied(e: Ere, n: nat) {
    match e
    case Group(_, b) => Uncopied(b, n + 1)
    case Star(b) => Uncopied(b, n)
    case More(b) => Uncopied(b, n)
    case Opt(b) => Uncopied(b, n)
    case Bound(b, lo, hi) => Firm(b, n) || (Uncopied(b, n) && lo <= 1 && (hi.AtMost? ==> hi.n <= 1))
    case Cat(l, r) => Uncopied(l, n) && Uncopied(r, n + Groups(l))
    case Alt(bs) => UncopiedAll(bs, n)
    case _ => true
  }

  ghost predicate UncopiedAll(bs: seq<Ere>, n: nat) {
    bs != [] ==> Uncopied(bs[0], n) && UncopiedAll(bs[1..], n + Groups(bs[0]))
  }

  // ----- Nested offsets -----

  type Pairs = iset<(nat, nat)>

  ghost function Pairings(e: Ere, n: nat): Pairs {
    iset g: nat, h: nat | Encloses(e, n, g, h) :: (g, h)
  }

  ghost function PairingsAll(bs: seq<Ere>, n: nat): Pairs {
    iset g: nat, h: nat | EnclosesAll(bs, n, g, h) :: (g, h)
  }

  /** Nothing is known of subexpressions n+1 to n+m. */
  ghost predicate Blank(pm: seq<Span>, n: nat, m: nat) {
    forall g: nat :: n < g <= n + m && g < |pm| ==> pm[g] == Span(-1, -1)
  }

  ghost predicate Inside(inner: Span, outer: Span) {
    inner == Span(-1, -1) || (outer.so <= inner.so && inner.eo <= outer.eo)
  }

  ghost predicate Nested(pm: seq<Span>, P: Pairs) {
    forall g: nat, h: nat :: (g, h) in P && g < |pm| && h < |pm| ==> Inside(pm[h], pm[g])
  }

  /** What is known to begin with: the pairs are nested, or nothing is known of n+1 to n+m. */
  ghost predicate Fit(pm: seq<Span>, P: Pairs, n: nat, m: nat, anew: bool) {
    if anew then Nested(pm, P) else Blank(pm, n, m)
  }

  /** Taking apart a match of xs then leaves the pairs nested. */
  ghost predicate Nests(xs: seq<Node>, t: seq<char>, P: Pairs, n: nat, m: nat, anew: bool) {
    forall i, j, pm: seq<Span> :: 0 <= i <= j <= |t| && M(xs, t, i, j) && Fit(pm, P, n, m, anew) ==>
      Nested(Captures(xs, t, i, j, pm), P)
  }

  /** All of a pair is among n+1 to n+m. */
  ghost predicate Within(P: Pairs, n: nat, m: nat) {
    forall g: nat, h: nat :: (g, h) in P ==> n < g <= n + m && n < h <= n + m
  }

  lemma FitNested(pm: seq<Span>, P: Pairs, n: nat, m: nat, anew: bool)
    requires Fit(pm, P, n, m, anew) && Within(P, n, m)
    ensures Nested(pm, P)
  {
  }

  lemma NestsBlank(xs: seq<Node>, t: seq<char>, P: Pairs, n: nat, m: nat)
    requires Nests(xs, t, P, n, m, true) && Within(P, n, m)
    ensures Nests(xs, t, P, n, m, false)
  {
    forall pm: seq<Span> | Blank(pm, n, m) ensures Fit(pm, P, n, m, true) { FitNested(pm, P, n, m, false); }
  }

  lemma {:induction false} NestsThen(xs: seq<Node>, ys: seq<Node>, t: seq<char>, P: Pairs, n: nat, m: nat)
    requires Nests(xs, t, P, n, m, true) && Nests(ys, t, P, n, m, true)
    ensures Nests(xs + ys, t, P, n, m, true)
  {
    forall i, j, pm: seq<Span> | 0 <= i <= j <= |t| && M(xs + ys, t, i, j) && Nested(pm, P)
      ensures Nested(Captures(xs + ys, t, i, j, pm), P)
    {
      var k := CapturesCut(xs, ys, t, i, j, pm);
      assert Fit(pm, P, n, m, true) && Fit(Captures(xs, t, i, k, pm), P, n, m, true);
    }
  }

  lemma {:induction false} NestsPlus(body: seq<Node>, t: seq<char>, P: Pairs, n: nat, m: nat, anew: bool)
    requires Nests(body, t, P, n, m, anew)
    ensures Nests([Plus(body)], t, P, n, m, anew)
  {
    var x := Plus(body);
    forall i, j, pm: seq<Span> | 0 <= i <= j <= |t| && M([x], t, i, j) && Fit(pm, P, n, m, anew)
      ensures Nested(Captures([x], t, i, j, pm), P)
    {
      MSingle(x, t, i, j);
      CapturesOne(x, t, i, j, pm);
      PlusLastPass(body, t, i, j);
      var (a, z) := LastPass(body, t, i, i, j);
      assert Nested(Captures(body, t, a, z, pm), P);
    }
  }

  lemma {:induction false} NestsQuest(body: seq<Node>, t: seq<char>, P: Pairs, n: nat, m: nat, anew: bool)
    requires Nests(body, t, P, n, m, anew) && Within(P, n, m)
    ensures Nests([Quest(body)], t, P, n, m, anew)
  {
    var x := Quest(body);
    forall i, j, pm: seq<Span> | 0 <= i <= j <= |t| && M([x], t, i, j) && Fit(pm, P, n, m, anew)
      ensures Nested(Captures([x], t, i, j, pm), P)
    {
      MSingle(x, t, i, j);
      CapturesOne(x, t, i, j, pm);
      MaxEndIs(body, t, i, j);
      if M(body, t, i, j) {
        assert Nested(Captures(body, t, i, j, pm), P);
      } else {
        FitNested(pm, P, n, m, anew);
      }
    }
  }

  lemma {:induction false} NestsChoice(f: seq<Node>, mid: seq<Branch>, l: seq<Node>, t: seq<char>, P: Pairs, n: nat,
                                       m: nat, anew: bool)
    requires Nests(f, t, P, n, m, anew) && Nests(l, t, P, n, m, anew)
    requires forall k :: 0 <= k < |mid| ==> Nests(mid[k].items, t, P, n, m, anew)
    ensures Nests([Choice(f, mid, l)], t, P, n, m, anew)
  {
    var x := Choice(f, mid, l);
    forall i, j, pm: seq<Span> | 0 <= i <= j <= |t| && M([x], t, i, j) && Fit(pm, P, n, m, anew)
      ensures Nested(Captures([x], t, i, j, pm), P)
    {
      MSingle(x, t, i, j);
      CapturesOne(x, t, i, j, pm);
      ChosenInner(f, mid, l, t, i, j, pm);
      ChosenIs(f, mid, l, t, i, j);
      ChosenNests(f, mid, l, t, i, j, P, n, m, anew);
      assert Nested(Captures(Chosen(f, mid, l, t, i, j), t, i, j, pm), P);
    }
  }

  lemma {:induction false} ChosenNests(f: seq<Node>, mid: seq<Branch>, l: seq<Node>, t: seq<char>, i: int, j: int,
                                       P: Pairs, n: nat, m: nat, anew: bool)
    requires Nests(f, t, P, n, m, anew) && Nests(l, t, P, n, m, anew)
    requires forall k :: 0 <= k < |mid| ==> Nests(mid[k].items, t, P, n, m, anew)
    ensures Nests(Chosen(f, mid, l, t, i, j), t, P, n, m, anew)
    decreases |mid|
  {
    if !M(f, t, i, j) && mid != [] { ChosenNests(mid[0].items, mid[1..], l, t, i, j, P, n, m, anew); }
  }

  lemma NestsNothing(t: seq<char>, P: Pairs, n: nat, m: nat, anew: bool)
    requires Within(P, n, m)
    ensures Nests([], t, P, n, m, anew)
  {
  }

  lemma {:induction false} NestsOpt(x: seq<Node>, t: seq<char>, P: Pairs, n: nat, m: nat, anew: bool)
    requires Nests(x, t, P, n, m, anew) && Within(P, n, m)
    ensures Nests([Choice(x, [], [])], t, P, n, m, anew)
  {
    NestsNothing(t, P, n, m, anew);
    NestsChoice(x, [], [], t, P, n, m, anew);
  }

  /** A repetition that makes no copies, or copies that record all anew. */
  lemma {:induction false} NestsRep(x: seq<Node>, from: nat, to: nat, t: seq<char>, P: Pairs, n: nat, m: nat,
                                    anew: bool)
    requires Nests(x, t, P, n, m, anew) && Within(P, n, m) && from <= to <= INFINITY && from <= DUPMAX
    requires anew || (from <= 1 && (to <= 1 || to == INFINITY))
    ensures Nests(Rep(x, from, to), t, P, n, m, anew)
    decreases if from == 0 then 1 else 0, if to == INFINITY then from else to
  {
    if to == 0 {
      NestsNothing(t, P, n, m, anew);
    } else if from == 0 {
      NestsRep(x, 1, to, t, P, n, m, anew);
      NestsOpt(Rep(x, 1, to), t, P, n, m, anew);
    } else if from == 1 && to == INFINITY {
      NestsPlus(x, t, P, n, m, anew);
    } else if from == 1 && to != 1 {
      NestsRep(x, 1, to - 1, t, P, n, m, anew);
      NestsOpt(x, t, P, n, m, anew);
      NestsThen([Choice(x, [], [])], Rep(x, 1, to - 1), t, P, n, m);
    } else if from > 1 {
      var to' := if to == INFINITY then INFINITY else to - 1;
      NestsRep(x, from - 1, to', t, P, n, m, anew);
      NestsThen(x, Rep(x, from - 1, to'), t, P, n, m);
    }
  }

  // ----- Subexpressions of subexpressions -----

  /** The subexpressions inside one of e are subexpressions of e. */
  lemma {:induction false} BodyGroups(e: Ere, n: nat, g: nat)
    requires Numbered(e, n) && n < g <= n + Groups(e)
    ensures g + Groups(Body(e, n, g)) <= n + Groups(e)
    decreases e, 1
  {
    match e
    case Group(i, b) => if g != i { BodyGroups(b, n + 1, g); }
    case Star(b) => BodyGroups(b, n, g);
    case More(b) => BodyGroups(b, n, g);
    case Opt(b) => BodyGroups(b, n, g);
    case Bound(b, _, _) => BodyGroups(b, n, g);
    case Cat(l, r) => if g <= n + Groups(l) { BodyGroups(l, n, g); } else { BodyGroups(r, n + Groups(l), g); }
    case Alt(bs) => BodyAllGroups(bs, n, g);
  }

  lemma {:induction false} BodyAllGroups(bs: seq<Ere>, n: nat, g: nat)
    requires NumberedAll(bs, n) && n < g <= n + GroupsAll(bs)
    ensures g + Groups(BodyAll(bs, n, g)) <= n + GroupsAll(bs)
    decreases bs, 0
  {
    if g <= n + Groups(bs[0]) { BodyGroups(bs[0], n, g); } else { BodyAllGroups(bs[1..], n + Groups(bs[0]), g); }
  }

  lemma PairingsWithin(e: Ere, n: nat)
    requires Numbered(e, n)
    ensures Within(Pairings(e, n), n, Groups(e))
  {
    forall g: nat, h: nat | (g, h) in Pairings(e, n) ensures n < h <= n + Groups(e) { BodyGroups(e, n, g); }
  }

  lemma PairingsAllWithin(bs: seq<Ere>, n: nat)
    requires NumberedAll(bs, n)
    ensures Within(PairingsAll(bs, n), n, GroupsAll(bs))
  {
    forall g: nat, h: nat | (g, h) in PairingsAll(bs, n) ensures n < h <= n + GroupsAll(bs) { BodyAllGroups(bs, n, g); }
  }

  /** What is recorded for b goes to its own subexpressions; the others keep what they have. */
  ghost predicate Elsewhere(pm: seq<Span>, pm': seq<Span>, n: nat, m: nat) {
    |pm'| == |pm| && forall g: nat :: g < |pm| && !(n < g <= n + m) ==> pm'[g] == pm[g]
  }

  lemma {:induction false} LowerElsewhere(e: Ere, n: nat, t: seq<char>, i: int, j: int, pm: seq<Span>)
    requires Ok(e) && Numbered(e, n) && 0 <= i <= j <= |t| && M(Lower(e), t, i, j)
    ensures Elsewhere(pm, Captures(Lower(e), t, i, j, pm), n, Groups(e))
  {
    LowerSound(e, n, t, i, j);
    assert Records(Stretches(e, n, t, i, j), pm, Captures(Lower(e), t, i, j, pm));
  }

  /** Pairs none of which the change concerns stay nested. */
  lemma ElsewhereNested(pm: seq<Span>, pm': seq<Span>, P: Pairs, n: nat, m: nat, n': nat, m': nat)
    requires Nested(pm, P) && Within(P, n, m) && Elsewhere(pm, pm', n', m') && (n + m <= n' || n' + m' <= n)
    ensures Nested(pm', P)
  {
  }

  // ----- Each construct keeps them nested -----

  lemma {:induction false} GroupNests(b: Ere, n: nat, t: seq<char>, anew: bool)
    requires Ok(b) && Numbered(b, n + 1) && Nests(Lower(b), t, Pairings(b, n + 1), n + 1, Groups(b), anew)
    requires anew ==> Firm(Group(n + 1, b), n)
    ensures Nests(Lower(Group(n + 1, b)), t, Pairings(Group(n + 1, b), n), n, Groups(b) + 1, anew)
  {
    var e, xs := Group(n + 1, b), Lower(b);
    forall i, j, pm: seq<Span> | 0 <= i <= j <= |t| && M(Lower(e), t, i, j)
        && Fit(pm, Pairings(e, n), n, Groups(b) + 1, anew)
      ensures Nested(Captures(Lower(e), t, i, j, pm), Pairings(e, n))
    {
      GroupIs(n + 1, xs, t, i, j);
      GroupCaptures(n + 1, xs, t, i, j, pm);
      GroupNested(b, n, t, i, j, pm, if n + 1 < |pm| then pm[n + 1 := pm[n + 1].(so := i)] else pm, anew);
    }
  }

  lemma {:induction false} GroupNested(b: Ere, n: nat, t: seq<char>, i: int, j: int, pm: seq<Span>, pm1: seq<Span>,
                                       anew: bool)
    requires Ok(b) && Numbered(b, n + 1) && Nests(Lower(b), t, Pairings(b, n + 1), n + 1, Groups(b), anew)
    requires anew ==> Firm(Group(n + 1, b), n)
    requires 0 <= i <= j <= |t| && M(Lower(b), t, i, j)
    requires Fit(pm, Pairings(Group(n + 1, b), n), n, Groups(b) + 1, anew)
    requires pm1 == if n + 1 < |pm| then pm[n + 1 := pm[n + 1].(so := i)] else pm
    ensures var pm2 := Captures(Lower(b), t, i, j, pm1);
            Nested(if n + 1 < |pm| then pm2[n + 1 := pm2[n + 1].(eo := j)] else pm2, Pairings(Group(n + 1, b), n))
  {
    var e, pm2 := Group(n + 1, b), Captures(Lower(b), t, i, j, pm1);
    GroupFit(b, n, pm, pm1, anew);
    assert Nested(pm2, Pairings(b, n + 1));
    LowerElsewhere(b, n + 1, t, i, j, pm1);
    var pm3 := if n + 1 < |pm| then pm2[n + 1 := pm2[n + 1].(eo := j)] else pm2;
    forall g: nat, h: nat | (g, h) in Pairings(e, n) && g < |pm| && h < |pm| ensures Inside(pm3[h], pm3[g]) {
      if g == n + 1 {
        GroupWithin(b, n, t, i, j, pm1, h, anew);
        assert pm3[g] == Span(i, j) && pm3[h] == pm2[h];
      } else {
        assert (g, h) in Pairings(b, n + 1);
      }
    }
  }

  lemma {:induction false} GroupFit(b: Ere, n: nat, pm: seq<Span>, pm1: seq<Span>, anew: bool)
    requires Numbered(b, n + 1) && Fit(pm, Pairings(Group(n + 1, b), n), n, Groups(b) + 1, anew)
    requires |pm1| == |pm| && forall g: nat :: g < |pm| && g != n + 1 ==> pm1[g] == pm[g]
    ensures Fit(pm1, Pairings(b, n + 1), n + 1, Groups(b), anew)
  {
    PairingsWithin(b, n + 1);
    if anew {
      forall g: nat, h: nat | (g, h) in Pairings(b, n + 1) && g < |pm| && h < |pm| ensures Inside(pm1[h], pm1[g]) {
        assert (g, h) in Pairings(Group(n + 1, b), n);
      }
    }
  }

  /** A subexpression h of b, once b has matched i..j, is unknown or lies within i..j. */
  lemma {:induction false} GroupWithin(b: Ere, n: nat, t: seq<char>, i: int, j: int, pm: seq<Span>, h: nat, anew: bool)
    requires Ok(b) && Numbered(b, n + 1) && 0 <= i <= j <= |t| && M(Lower(b), t, i, j)
    requires Encloses(Group(n + 1, b), n, n + 1, h) && h < |pm|
    requires if anew then Firm(Group(n + 1, b), n) else pm[h] == Span(-1, -1)
    ensures Inside(Captures(Lower(b), t, i, j, pm)[h], Span(i, j))
  {
    if anew {
      assert Body(Group(n + 1, b), n, n + 1) == b;
      RequiredSure(b, n + 1, t, h);
      assert Known(Captures(Lower(b), t, i, j, pm), h, i, j);
    } else {
      LowerSound(b, n + 1, t, i, j);
      assert Records(Stretches(b, n + 1, t, i, j), pm, Captures(Lower(b), t, i, j, pm));
    }
  }

  lemma {:induction false} CatNests(l: Ere, r: Ere, n: nat, t: seq<char>, anew: bool)
    requires Ok(l) && Ok(r) && Numbered(l, n) && Numbered(r, n + Groups(l))
    requires Nests(Lower(l), t, Pairings(l, n), n, Groups(l), anew)
    requires Nests(Lower(r), t, Pairings(r, n + Groups(l)), n + Groups(l), Groups(r), anew)
    ensures Nests(Lower(l) + Lower(r), t, Pairings(Cat(l, r), n), n, Groups(l) + Groups(r), anew)
  {
    var xs, ys := Lower(l), Lower(r);
    forall i, j, pm: seq<Span> | 0 <= i <= j <= |t| && M(xs + ys, t, i, j)
        && Fit(pm, Pairings(Cat(l, r), n), n, Groups(l) + Groups(r), anew)
      ensures Nested(Captures(xs + ys, t, i, j, pm), Pairings(Cat(l, r), n))
    {
      var k := CapturesCut(xs, ys, t, i, j, pm);
      var pm1 := Captures(xs, t, i, k, pm);
      LowerElsewhere(l, n, t, i, k, pm);
      CatFit(l, r, n, pm, pm1, anew);
      assert Nested(pm1, Pairings(l, n));
      LowerElsewhere(r, n + Groups(l), t, k, j, pm1);
      CatNested(l, r, n, pm1, Captures(ys, t, k, j, pm1));
    }
  }

  lemma {:induction false} CatFit(l: Ere, r: Ere, n: nat, pm: seq<Span>, pm1: seq<Span>, anew: bool)
    requires Numbered(l, n) && Numbered(r, n + Groups(l))
    requires Fit(pm, Pairings(Cat(l, r), n), n, Groups(l) + Groups(r), anew) && Elsewhere(pm, pm1, n, Groups(l))
    ensures Fit(pm, Pairings(l, n), n, Groups(l), anew)
    ensures Fit(pm1, Pairings(r, n + Groups(l)), n + Groups(l), Groups(r), anew)
  {
    if anew {
      var Q := Pairings(Cat(l, r), n);
      PairingsWithin(r, n + Groups(l));
      forall g: nat, h: nat | (g, h) in Pairings(l, n) ensures (g, h) in Q {
      }
      forall g: nat, h: nat | (g, h) in Pairings(r, n + Groups(l)) ensures (g, h) in Q {
      }
      ElsewhereNested(pm, pm1, Pairings(r, n + Groups(l)), n + Groups(l), Groups(r), n, Groups(l));
    }
  }

  lemma {:induction false} CatNested(l: Ere, r: Ere, n: nat, pm: seq<Span>, pm': seq<Span>)
    requires Numbered(l, n) && Nested(pm, Pairings(l, n)) && Nested(pm', Pairings(r, n + Groups(l)))
    requires Elsewhere(pm, pm', n + Groups(l), Groups(r))
    ensures Nested(pm', Pairings(Cat(l, r), n))
  {
    forall g: nat, h: nat | (g, h) in Pairings(Cat(l, r), n) && g < |pm'| && h < |pm'| ensures Inside(pm'[h], pm'[g]) {
      CatEncloses(l, r, n, g, h);
      if g <= n + Groups(l) {
        assert (g, h) in Pairings(l, n) && pm'[g] == pm[g] && pm'[h] == pm[h];
      } else {
        assert (g, h) in Pairings(r, n + Groups(l));
      }
    }
  }

  lemma CatEncloses(l: Ere, r: Ere, n: nat, g: nat, h: nat)
    requires Numbered(l, n) && Encloses(Cat(l, r), n, g, h)
    ensures if g <= n + Groups(l) then Encloses(l, n, g, h) && h <= n + Groups(l)
            else Encloses(r, n + Groups(l), g, h)
  {
    if g <= n + Groups(l) { BodyGroups(l, n, g); }
  }

  /** Alternatives: one is taken, and nothing is recorded for the others. */
  lemma {:induction false} LowersNest(bs: seq<Ere>, n: nat, t: seq<char>, k: nat, anew: bool)
    requires OkAll(bs) && NumberedAll(bs, n) && k < |bs|
    requires if anew then FirmAll(bs, n) else UncopiedAll(bs, n)
    ensures Nests(Lower(bs[k]), t, PairingsAll(bs, n), n, GroupsAll(bs), anew)
    decreases bs, 0
  {
    var tl := bs[1..];
    if anew { FirmTail(bs, n); }
    if k == 0 {
      LowerNests(bs[0], n, t, anew);
      FirstNests(bs, n, t, anew);
    } else {
      assert bs[k] == tl[k - 1];
      LowersNest(tl, n + Groups(bs[0]), t, k - 1, anew);
      LowersSound(tl, n + Groups(bs[0]), t, 0, |t|);
      LaterNests(bs, n, t, Lower(bs[k]), anew);
    }
  }

  lemma FirmTail(bs: seq<Ere>, n: nat)
    requires bs != [] && NumberedAll(bs, n) && FirmAll(bs, n)
    ensures Firm(bs[0], n) && FirmAll(bs[1..], n + Groups(bs[0]))
  {
    forall g: nat, h: nat | Encloses(bs[0], n, g, h) ensures Required(Body(bs[0], n, g), g, h) {
      assert EnclosesAll(bs, n, g, h);
    }
    var tl, m := bs[1..], n + Groups(bs[0]);
    forall g: nat, h: nat | EnclosesAll(tl, m, g, h) ensures Required(BodyAll(tl, m, g), g, h) {
      assert EnclosesAll(bs, n, g, h);
    }
  }

  /** What fits all alternatives fits the first, and the others. */
  lemma {:induction false} FitTail(bs: seq<Ere>, n: nat, pm: seq<Span>, anew: bool)
    requires bs != [] && Fit(pm, PairingsAll(bs, n), n, GroupsAll(bs), anew)
    ensures Fit(pm, Pairings(bs[0], n), n, Groups(bs[0]), anew)
    ensures Fit(pm, PairingsAll(bs[1..], n + Groups(bs[0])), n + Groups(bs[0]), GroupsAll(bs[1..]), anew)
  {
    if anew {
      forall g: nat, h: nat | (g, h) in Pairings(bs[0], n) ensures (g, h) in PairingsAll(bs, n) {
      }
      forall g: nat, h: nat | (g, h) in PairingsAll(bs[1..], n + Groups(bs[0])) ensures (g, h) in PairingsAll(bs, n) {
      }
    }
  }

  lemma {:induction false} FirstNests(bs: seq<Ere>, n: nat, t: seq<char>, anew: bool)
    requires bs != [] && OkAll(bs) && NumberedAll(bs, n)
    requires Nests(Lower(bs[0]), t, Pairings(bs[0], n), n, Groups(bs[0]), anew)
    ensures Nests(Lower(bs[0]), t, PairingsAll(bs, n), n, GroupsAll(bs), anew)
  {
    var m, tl, xs := n + Groups(bs[0]), bs[1..], Lower(bs[0]);
    PairingsAllWithin(tl, m);
    forall i, j, pm: seq<Span> | 0 <= i <= j <= |t| && M(xs, t, i, j)
        && Fit(pm, PairingsAll(bs, n), n, GroupsAll(bs), anew)
      ensures Nested(Captures(xs, t, i, j, pm), PairingsAll(bs, n))
    {
      var pm' := Captures(xs, t, i, j, pm);
      FitTail(bs, n, pm, anew);
      LowerElsewhere(bs[0], n, t, i, j, pm);
      FitNested(pm, PairingsAll(tl, m), m, GroupsAll(tl), anew);
      ElsewhereNested(pm, pm', PairingsAll(tl, m), m, GroupsAll(tl), n, Groups(bs[0]));
      assert Nested(pm', Pairings(bs[0], n));
      ConsNested(bs, n, pm');
    }
  }

  lemma {:induction false} LaterNests(bs: seq<Ere>, n: nat, t: seq<char>, xs: seq<Node>, anew: bool)
    requires bs != [] && NumberedAll(bs, n)
    requires Nests(xs, t, PairingsAll(bs[1..], n + Groups(bs[0])), n + Groups(bs[0]), GroupsAll(bs[1..]), anew)
    requires Sound(xs, t, 0, |t|, StretchesAll(bs[1..], n + Groups(bs[0]), t, 0, |t|))
    ensures Nests(xs, t, PairingsAll(bs, n), n, GroupsAll(bs), anew)
  {
    var m, tl := n + Groups(bs[0]), bs[1..];
    PairingsWithin(bs[0], n);
    forall i, j, pm: seq<Span> | 0 <= i <= j <= |t| && M(xs, t, i, j)
        && Fit(pm, PairingsAll(bs, n), n, GroupsAll(bs), anew)
      ensures Nested(Captures(xs, t, i, j, pm), PairingsAll(bs, n))
    {
      var pm' := Captures(xs, t, i, j, pm);
      FitTail(bs, n, pm, anew);
      assert Records(StretchesAll(tl, m, t, 0, |t|), pm, pm');
      FitNested(pm, Pairings(bs[0], n), n, Groups(bs[0]), anew);
      ElsewhereNested(pm, pm', Pairings(bs[0], n), n, Groups(bs[0]), m, GroupsAll(tl));
      assert Nested(pm', PairingsAll(tl, m));
      ConsNested(bs, n, pm');
    }
  }

  lemma {:induction false} ConsNested(bs: seq<Ere>, n: nat, pm: seq<Span>)
    requires bs != [] && Nested(pm, Pairings(bs[0], n)) && Nested(pm, PairingsAll(bs[1..], n + Groups(bs[0])))
    ensures Nested(pm, PairingsAll(bs, n))
  {
    forall g: nat, h: nat | (g, h) in PairingsAll(bs, n) && g < |pm| && h < |pm| ensures Inside(pm[h], pm[g]) {
      if g <= n + Groups(bs[0]) {
        assert (g, h) in Pairings(bs[0], n);
      } else {
        assert (g, h) in PairingsAll(bs[1..], n + Groups(bs[0]));
      }
    }
  }

  lemma {:induction false} AltNests(bs: seq<Ere>, n: nat, t: seq<char>, anew: bool)
    requires |bs| >= 2 && OkAll(bs) && NumberedAll(bs, n)
    requires if anew then FirmAll(bs, n) else UncopiedAll(bs, n)
    ensures Nests([Choice(Lower(bs[0]), LowerMid(bs[1..|bs| - 1]), Lower(bs[|bs| - 1]))], t,
                  PairingsAll(bs, n), n, GroupsAll(bs), anew)
    decreases bs, 1
  {
    var P, m := PairingsAll(bs, n), GroupsAll(bs);
    forall k | 0 <= k < |bs| ensures Nests(Lower(bs[k]), t, P, n, m, anew) { LowersNest(bs, n, t, k, anew); }
    MidNests(bs[1..|bs| - 1], t, P, n, m, anew);
    NestsChoice(Lower(bs[0]), LowerMid(bs[1..|bs| - 1]), Lower(bs[|bs| - 1]), t, P, n, m, anew);
  }

  lemma {:induction false} MidNests(mid: seq<Ere>, t: seq<char>, P: Pairs, n: nat, m: nat, anew: bool)
    requires OkAll(mid) && forall k :: 0 <= k < |mid| ==> Nests(Lower(mid[k]), t, P, n, m, anew)
    ensures |LowerMid(mid)| == |mid| && forall k :: 0 <= k < |mid| ==> Nests(LowerMid(mid)[k].items, t, P, n, m, anew)
    decreases |mid|
  {
    if mid != [] { MidNests(mid[1..], t, P, n, m, anew); }
  }

  /** With pairs nested to begin with, or nothing known, they are nested in the end. */
  lemma {:induction false} LowerNests(e: Ere, n: nat, t: seq<char>, anew: bool)
    requires Ok(e) && Numbered(e, n) && if anew then Firm(e, n) else Uncopied(e, n)
    ensures Nests(Lower(e), t, Pairings(e, n), n, Groups(e), anew)
    decreases e, 1
  {
    var P, m := Pairings(e, n), Groups(e);
    PairingsWithin(e, n);
    match e
    case Group(_, b) =>
      if anew { FirmBody(b, n); }
      LowerNests(b, n + 1, t, anew);
      GroupNests(b, n, t, anew);
    case Star(b) =>
      SameNests(e, b, n, t, anew);
      NestsPlus(Lower(b), t, P, n, m, anew);
      NestsQuest([Plus(Lower(b))], t, P, n, m, anew);
    case More(b) =>
      SameNests(e, b, n, t, anew);
      NestsPlus(Lower(b), t, P, n, m, anew);
    case Opt(b) =>
      SameNests(e, b, n, t, anew);
      NestsOpt(Lower(b), t, P, n, m, anew);
    case Bound(b, lo, hi) => BoundNests(b, lo, hi, n, t, anew);
    case Cat(l, r) =>
      var k := n + Groups(l);
      if anew { FirmParts(l, r, n, k); }
      LowerNests(l, n, t, anew);
      LowerNests(r, k, t, anew);
      CatNests(l, r, n, t, anew);
    case Alt(bs) =>
      assert P == PairingsAll(bs, n);
      if anew { FirmAlternatives(bs, n); }
      AltNests(bs, n, t, anew);
    case _ => assert P == iset{};
  }

  lemma FirmBody(b: Ere, n: nat)
    requires Firm(Group(n + 1, b), n)
    ensures Firm(b, n + 1)
  {
    var m := n + 1;
    forall g: nat, h: nat | Encloses(b, m, g, h) ensures Required(Body(b, m, g), g, h) {
      assert Encloses(Group(n + 1, b), n, g, h);
    }
  }

  lemma FirmParts(l: Ere, r: Ere, n: nat, m: nat)
    requires Firm(Cat(l, r), n) && m == n + Groups(l)
    ensures Firm(l, n) && Firm(r, m)
  {
    FirmPart(l, r, Cat(l, r), n, l, n);
    FirmPart(l, r, Cat(l, r), n, r, m);
  }

  lemma FirmPart(l: Ere, r: Ere, e: Ere, n: nat, x: Ere, m: nat)
    requires Firm(e, n) && e == Cat(l, r) && ((x == l && m == n) || (x == r && m == n + Groups(l)))
    ensures Firm(x, m)
  {
    var k := n + Groups(l);
    forall g: nat, h: nat | Encloses(x, m, g, h) ensures Required(Body(x, m, g), g, h) {
      PartEncloses(l, r, e, n, k, g, h);
      FirmAt(e, n, g, h, Body(x, m, g));
    }
  }

  lemma FirmAt(e: Ere, n: nat, g: nat, h: nat, b: Ere)
    requires Firm(e, n) && Encloses(e, n, g, h) && b == Body(e, n, g)
    ensures Required(b, g, h)
  {
  }

  lemma PartEncloses(l: Ere, r: Ere, e: Ere, n: nat, m: nat, g: nat, h: nat)
    requires e == Cat(l, r) && m == n + Groups(l)
    ensures Encloses(l, n, g, h) ==> Encloses(e, n, g, h) && Body(e, n, g) == Body(l, n, g)
    ensures Encloses(r, m, g, h) ==> Encloses(e, n, g, h) && Body(e, n, g) == Body(r, m, g)
  {
  }

  lemma FirmAlternatives(bs: seq<Ere>, n: nat)
    requires Firm(Alt(bs), n)
    ensures FirmAll(bs, n)
  {
    forall g: nat, h: nat | EnclosesAll(bs, n, g, h) ensures Required(BodyAll(bs, n, g), g, h) {
      assert Encloses(Alt(bs), n, g, h);
    }
  }

  /** A loop or an option has the subexpressions of its body. */
  lemma {:induction false} SameNests(e: Ere, b: Ere, n: nat, t: seq<char>, anew: bool)
    requires e == Star(b) || e == More(b) || e == Opt(b)
    requires Ok(b) && Numbered(b, n) && if anew then Firm(e, n) else Uncopied(b, n)
    ensures Pairings(e, n) == Pairings(b, n) && Nests(Lower(b), t, Pairings(b, n), n, Groups(b), anew)
    decreases b, 2
  {
    if anew {
      forall g: nat, h: nat | Encloses(b, n, g, h) ensures Required(Body(b, n, g), g, h) {
        assert Encloses(e, n, g, h);
      }
    }
    LowerNests(b, n, t, anew);
  }

  lemma {:induction false} BoundNests(b: Ere, lo: nat, hi: Limit, n: nat, t: seq<char>, anew: bool)
    requires Ok(b) && BoundOk(lo, hi) && Numbered(b, n)
    requires if anew then Firm(Bound(b, lo, hi), n) else Uncopied(Bound(b, lo, hi), n)
    ensures Nests(Rep(Lower(b), lo, LimitOf(hi)), t, Pairings(Bound(b, lo, hi), n), n, Groups(b), anew)
    decreases b, 2
  {
    var P, m := Pairings(b, n), Groups(b);
    assert Pairings(Bound(b, lo, hi), n) == P;
    PairingsWithin(b, n);
    if anew { FirmCounted(b, lo, hi, n); }
    if Firm(b, n) {
      LowerNests(b, n, t, true);
      NestsRep(Lower(b), lo, LimitOf(hi), t, P, n, m, true);
      NestsBlank(Rep(Lower(b), lo, LimitOf(hi)), t, P, n, m);
    } else {
      LowerNests(b, n, t, false);
      NestsRep(Lower(b), lo, LimitOf(hi), t, P, n, m, false);
    }
  }

  lemma FirmCounted(b: Ere, lo: nat, hi: Limit, n: nat)
    requires Firm(Bound(b, lo, hi), n)
    ensures Firm(b, n)
  {
    forall g: nat, h: nat | Encloses(b, n, g, h) ensures Required(Body(b, n, g), g, h) {
      assert Encloses(Bound(b, lo, hi), n, g, h);
    }
  }

  /** A reported subexpression lies within the reported stretch of every one that encloses it,
      unless a repetition count has copied them, and not all its words go through it. */
  lemma {:induction false} ReportsNest(e: Ere, t: seq<char>, i: nat, j: nat, nmatch: nat, g: nat, h: nat)
    requires Ok(e) && Numbered(e, 0) && Uncopied(e, 0) && i <= j <= |t| && Occurs(e, t, i, j)
    requires Encloses(e, 0, g, h) && h < nmatch
    ensures var r := Report(Lower(e), t, i, j, nmatch, Groups(e));
            r[h] == Span(-1, -1) || (r[g].so <= r[h].so <= r[h].eo <= r[g].eo)
  {
    LowerIs(e, t, i, j);
    LowerNests(e, 0, t, false);
    BodyGroups(e, 0, g);
    var pm := seq(Groups(e) + 1, _ => Span(-1, -1));
    var pm' := Captures(Lower(e), t, i, j, pm);
    assert Fit(pm, Pairings(e, 0), 0, Groups(e), false) && Nested(pm', Pairings(e, 0));
    assert (g, h) in Pairings(e, 0) && Inside(pm'[h], pm'[g]);
    CapturedIsWord(e, t, i, j, nmatch, h);
  }
}
