/** What the recorded offsets mean: each is the stretch some pass through that parenthesis
    matched (src/common/regex_engine.cpp, dissect). */
module Captured {
  import opened Strip
  import opened Capturing
  import opened Ere
  import opened Grammar
  import opened Numbering
  import opened Regex

  // ----- Taking a concatenation apart -----

  /** A share that is longest with ys to follow is longest for the stretch left to tl. */
  lemma {:induction false} ShareCut(x: Node, tl: seq<Node>, ys: seq<Node>, t: seq<char>, i: int, r: int, k: int, j: int)
    requires 0 <= i <= r <= k <= j && r == Share(x, tl + ys, t, i, j, j)
    requires MNode(x, t, i, r) && M(tl, t, r, k) && M(ys, t, k, j)
    ensures Share(x, tl, t, i, k, k) == r
  {
    ShareIs(x, tl + ys, t, i, j, j);
    ShareIs(x, tl, t, i, k, k);
    var r' := Share(x, tl, t, i, k, k);
    MJoin(tl, ys, t, r', k, j);
  }

  /** Taking xs + ys apart is taking xs apart, then ys. */
  lemma {:induction false} CapturesCut(xs: seq<Node>, ys: seq<Node>, t: seq<char>, i: int, j: int, pm: seq<Span>)
    returns (k: int)
    requires 0 <= i && M(xs + ys, t, i, j)
    ensures i <= k <= j && M(xs, t, i, k) && M(ys, t, k, j)
    ensures Captures(xs + ys, t, i, j, pm) == Captures(ys, t, k, j, Captures(xs, t, i, k, pm))
    decreases |xs|, 1
  {
    if xs == [] {
      assert xs + ys == ys;
      MOrder(ys, t, i, j);
      k := i;
    } else {
      var x, tl := xs[0], xs[1..];
      assert (xs + ys)[0] == x && (xs + ys)[1..] == tl + ys;
      assert xs == [x] + tl && xs + ys == [x] + (tl + ys);
      k := NodeCut(x, tl, ys, t, i, j, pm);
    }
  }

  lemma {:induction false} NodeCut(x: Node, tl: seq<Node>, ys: seq<Node>, t: seq<char>, i: int, j: int, pm: seq<Span>)
    returns (k: int)
    requires 0 <= i && M([x] + (tl + ys), t, i, j)
    ensures i <= k <= j && M([x] + tl, t, i, k) && M(ys, t, k, j)
    ensures Captures([x] + (tl + ys), t, i, j, pm) == Captures(ys, t, k, j, Captures([x] + tl, t, i, k, pm))
    decreases |tl| + 1, 0
  {
    MUnfold(x, tl + ys, t, i, j);
    var whole, part := [x] + (tl + ys), [x] + tl;
    assert whole[0] == x && whole[1..] == tl + ys && part[0] == x && part[1..] == tl;
    if x.Plus? || x.Quest? || x.Choice? {
      ShareIs(x, tl + ys, t, i, j, j);
      var r := Share(x, tl + ys, t, i, j, j);
      var pm' := Inner(x, t, i, r, pm);
      k := CapturesCut(tl, ys, t, r, j, pm');
      ShareCut(x, tl, ys, t, i, r, k, j);
      MUnfold(x, tl, t, i, k);
    } else {
      var r :| i <= r <= j && MNode(x, t, i, r) && M(tl + ys, t, r, j);
      var pm' := match x
        case LPar(n) => if n < |pm| then pm[n := pm[n].(so := i)] else pm
        case RPar(n) => if n < |pm| then pm[n := pm[n].(eo := i)] else pm
        case _ => pm;
      k := CapturesCut(tl, ys, t, r, j, pm');
      MUnfold(x, tl, t, i, k);
    }
  }

  // ----- Which offsets may be recorded -----

  type Spans = iset<(nat, Span)>

  /** Every offset that changed is an allowed one. */
  ghost predicate Records(A: Spans, pm: seq<Span>, pm': seq<Span>) {
    |pm'| == |pm| && forall g: nat :: g < |pm| ==> pm'[g] == pm[g] || (g, pm'[g]) in A
  }

  /** Taking apart a match of xs within lo..hi records only allowed offsets. */
  ghost predicate Sound(xs: seq<Node>, t: seq<char>, lo: int, hi: int, A: Spans) {
    forall i, j, pm: seq<Span> :: lo <= i <= j <= hi && M(xs, t, i, j) ==> Records(A, pm, Captures(xs, t, i, j, pm))
  }

  lemma RecordsThen(A: Spans, pm: seq<Span>, pm': seq<Span>, pm'': seq<Span>)
    requires Records(A, pm, pm') && Records(A, pm', pm'')
    ensures Records(A, pm, pm'')
  {
  }

  lemma SoundMore(xs: seq<Node>, t: seq<char>, lo: int, hi: int, A: Spans, B: Spans)
    requires Sound(xs, t, lo, hi, A) && A <= B
    ensures Sound(xs, t, lo, hi, B)
  {
    forall i, j, pm: seq<Span> | lo <= i <= j <= hi && M(xs, t, i, j)
      ensures Records(B, pm, Captures(xs, t, i, j, pm))
    {
      assert Records(A, pm, Captures(xs, t, i, j, pm));
    }
  }

  lemma {:induction false} SoundConcat(xs: seq<Node>, ys: seq<Node>, t: seq<char>, lo: int, hi: int, A: Spans)
    requires 0 <= lo && Sound(xs, t, lo, hi, A) && Sound(ys, t, lo, hi, A)
    ensures Sound(xs + ys, t, lo, hi, A)
  {
    forall i, j, pm: seq<Span> | lo <= i <= j <= hi && M(xs + ys, t, i, j)
      ensures Records(A, pm, Captures(xs + ys, t, i, j, pm))
    {
      var k := CapturesCut(xs, ys, t, i, j, pm);
      var pm' := Captures(xs, t, i, k, pm);
      assert Records(A, pm, pm');
      RecordsThen(A, pm, pm', Captures(ys, t, k, j, pm'));
    }
  }

  /** A single item records what its inside does. */
  lemma {:induction false} CapturesOne(x: Node, t: seq<char>, i: int, j: int, pm: seq<Span>)
    requires 0 <= i <= j && MNode(x, t, i, j) && (x.Plus? || x.Quest? || x.Choice?)
    ensures Captures([x], t, i, j, pm) == Inner(x, t, i, j, pm)
  {
    assert [x][1..] == [];
    ShareIs(x, [], t, i, j, j);
    assert M([], t, j, j);
  }

  lemma {:induction false} SoundPlus(body: seq<Node>, t: seq<char>, lo: int, hi: int, A: Spans)
    requires 0 <= lo && Sound(body, t, lo, hi, A)
    ensures Sound([Plus(body)], t, lo, hi, A)
  {
    var x := Plus(body);
    forall i, j, pm: seq<Span> | lo <= i <= j <= hi && M([x], t, i, j)
      ensures Records(A, pm, Captures([x], t, i, j, pm))
    {
      MSingle(x, t, i, j);
      CapturesOne(x, t, i, j, pm);
      PlusLastPass(body, t, i, j);
      var (a, z) := LastPass(body, t, i, i, j);
      assert Records(A, pm, Captures(body, t, a, z, pm));
    }
  }

  lemma {:induction false} SoundQuest(body: seq<Node>, t: seq<char>, lo: int, hi: int, A: Spans)
    requires 0 <= lo && Sound(body, t, lo, hi, A)
    ensures Sound([Quest(body)], t, lo, hi, A)
  {
    var x := Quest(body);
    forall i, j, pm: seq<Span> | lo <= i <= j <= hi && M([x], t, i, j)
      ensures Records(A, pm, Captures([x], t, i, j, pm))
    {
      MSingle(x, t, i, j);
      CapturesOne(x, t, i, j, pm);
      MaxEndIs(body, t, i, j);
      if M(body, t, i, j) { assert Records(A, pm, Captures(body, t, i, j, pm)); }
    }
  }

  lemma {:induction false} SoundStar(body: seq<Node>, t: seq<char>, lo: int, hi: int, A: Spans)
    requires 0 <= lo && Sound(body, t, lo, hi, A)
    ensures Sound([Quest([Plus(body)])], t, lo, hi, A)
  {
    SoundPlus(body, t, lo, hi, A);
    SoundQuest([Plus(body)], t, lo, hi, A);
  }

  lemma {:induction false} SoundChoice(f: seq<Node>, m: seq<Branch>, l: seq<Node>, t: seq<char>, lo: int, hi: int,
                                       A: Spans)
    requires 0 <= lo && Sound(f, t, lo, hi, A) && Sound(l, t, lo, hi, A)
    requires forall k :: 0 <= k < |m| ==> Sound(m[k].items, t, lo, hi, A)
    ensures Sound([Choice(f, m, l)], t, lo, hi, A)
  {
    var x := Choice(f, m, l);
    forall i, j, pm: seq<Span> | lo <= i <= j <= hi && M([x], t, i, j)
      ensures Records(A, pm, Captures([x], t, i, j, pm))
    {
      MSingle(x, t, i, j);
      CapturesOne(x, t, i, j, pm);
      ChosenInner(f, m, l, t, i, j, pm);
      ChosenIs(f, m, l, t, i, j);
      ChosenSound(f, m, l, t, i, j, lo, hi, A);
      assert Records(A, pm, Captures(Chosen(f, m, l, t, i, j), t, i, j, pm));
    }
  }

  lemma {:induction false} ChosenSound(f: seq<Node>, m: seq<Branch>, l: seq<Node>, t: seq<char>, i: int, j: int,
                                       lo: int, hi: int, A: Spans)
    requires Sound(f, t, lo, hi, A) && Sound(l, t, lo, hi, A)
    requires forall k :: 0 <= k < |m| ==> Sound(m[k].items, t, lo, hi, A)
    ensures Sound(Chosen(f, m, l, t, i, j), t, lo, hi, A)
    decreases |m|
  {
    if !M(f, t, i, j) && m != [] { ChosenSound(m[0].items, m[1..], l, t, i, j, lo, hi, A); }
  }

  lemma {:induction false} SoundRep(x: seq<Node>, from: nat, to: nat, t: seq<char>, lo: int, hi: int, A: Spans)
    requires from <= to <= INFINITY && from <= DUPMAX && 0 <= lo && Sound(x, t, lo, hi, A)
    ensures Sound(Rep(x, from, to), t, lo, hi, A)
    decreases if from == 0 then 1 else 0, if to == INFINITY then from else to
  {
    assert Sound([], t, lo, hi, A);
    if to != 0 && from == 0 {
      SoundRep(x, 1, to, t, lo, hi, A);
      SoundChoice(Rep(x, 1, to), [], [], t, lo, hi, A);
    } else if from == 1 && to == INFINITY {
      SoundPlus(x, t, lo, hi, A);
    } else if from == 1 && to != 1 {
      SoundRep(x, 1, to - 1, t, lo, hi, A);
      SoundChoice(x, [], [], t, lo, hi, A);
      SoundConcat([Choice(x, [], [])], Rep(x, 1, to - 1), t, lo, hi, A);
    } else if from > 1 {
      var to' := if to == INFINITY then INFINITY else to - 1;
      SoundRep(x, from - 1, to', t, lo, hi, A);
      SoundConcat(x, Rep(x, from - 1, to'), t, lo, hi, A);
    }
  }

  /** A parenthesised xs records its own stretch, if no parenthesis within has its number. */
  lemma {:induction false} SoundGroup(n: nat, xs: seq<Node>, t: seq<char>, lo: int, hi: int, A: Spans, B: Spans)
    requires 0 <= lo && Sound(xs, t, lo, hi, A) && A <= B && forall s :: (n, s) !in A
    requires forall i, j :: lo <= i <= j <= hi && M(xs, t, i, j) ==> (n, Span(i, j)) in B
    ensures Sound([LPar(n)] + xs + [RPar(n)], t, lo, hi, B)
  {
    var ys := [LPar(n)] + xs + [RPar(n)];
    forall i, j, pm: seq<Span> | lo <= i <= j <= hi && M(ys, t, i, j)
      ensures Records(B, pm, Captures(ys, t, i, j, pm))
    {
      GroupIs(n, xs, t, i, j);
      var pm1 := if n < |pm| then pm[n := pm[n].(so := i)] else pm;
      var pm2 := Captures(xs, t, i, j, pm1);
      assert Records(A, pm1, pm2);
      GroupCaptures(n, xs, t, i, j, pm);
      if n < |pm| { assert pm2[n] == pm1[n]; }
    }
  }

  lemma {:induction false} GroupCaptures(n: nat, xs: seq<Node>, t: seq<char>, i: int, j: int, pm: seq<Span>)
    requires 0 <= i <= j && M(xs, t, i, j)
    ensures Captures([LPar(n)] + xs + [RPar(n)], t, i, j, pm) ==
            var pm2 := Captures(xs, t, i, j, if n < |pm| then pm[n := pm[n].(so := i)] else pm);
            if n < |pm| then pm2[n := pm2[n].(eo := j)] else pm2
  {
    var pm1 := if n < |pm| then pm[n := pm[n].(so := i)] else pm;
    var zs := xs + [RPar(n)];
    assert [LPar(n)] + xs + [RPar(n)] == [LPar(n)] + zs;
    assert ([LPar(n)] + zs)[1..] == zs;
    MSingle(RPar(n), t, j, j);
    MJoin(xs, [RPar(n)], t, i, j, j);
    var k := CapturesCut(xs, [RPar(n)], t, i, j, pm1);
    MSingle(RPar(n), t, k, j);
    assert [RPar(n)][1..] == [];
  }

  lemma {:induction false} GroupRecords(n: nat, xs: seq<Node>, t: seq<char>, i: int, j: int, pm: seq<Span>,
                                        pm': seq<Span>)
    requires 0 <= i <= j && M(xs, t, i, j) && n < |pm|
    requires pm' == Captures(xs, t, i, j, pm[n := pm[n].(so := i)]) && pm'[n].so == i
    ensures Captures([LPar(n)] + xs + [RPar(n)], t, i, j, pm) == pm'[n := Span(i, j)]
  {
    GroupCaptures(n, xs, t, i, j, pm);
  }

  // ----- The offsets of a subexpression are a stretch it matched -----

  /** The body of subexpression g of e, n parentheses having been opened before e. */
  ghost function Body(e: Ere, n: nat, g: nat): Ere {
    match e
    case Group(i, b) => if g == i then b else Body(b, n + 1, g)
    case Star(b) => Body(b, n, g)
    case More(b) => Body(b, n, g)
    case Opt(b) => Body(b, n, g)
    case Bound(b, _, _) => Body(b, n, g)
    case Cat(l, r) => if g <= n + Groups(l) then Body(l, n, g) else Body(r, n + Groups(l), g)
    case Alt(bs) => BodyAll(bs, n, g)
    case _ => Eps
  }

  ghost function BodyAll(bs: seq<Ere>, n: nat, g: nat): Ere {
    if bs == [] then Eps
    else if g <= n + Groups(bs[0]) then Body(bs[0], n, g)
    else BodyAll(bs[1..], n + Groups(bs[0]), g)
  }

  /** Offsets of a subexpression of e, number n+1 or later, that its body matches. */
  ghost function Stretches(e: Ere, n: nat, t: seq<char>, lo: int, hi: int): Spans {
    iset g: nat, s: Span | n < g <= n + Groups(e) && lo <= s.so && s.eo <= hi
        && Occurs(Body(e, n, g), t, s.so, s.eo) :: (g, s)
  }

  ghost function StretchesAll(bs: seq<Ere>, n: nat, t: seq<char>, lo: int, hi: int): Spans {
    iset g: nat, s: Span | n < g <= n + GroupsAll(bs) && lo <= s.so && s.eo <= hi
        && Occurs(BodyAll(bs, n, g), t, s.so, s.eo) :: (g, s)
  }

  lemma {:induction false} GroupLowerSound(b: Ere, n: nat, t: seq<char>, lo: int, hi: int)
    requires Ok(b) && 0 <= lo && hi <= |t| && Sound(Lower(b), t, lo, hi, Stretches(b, n + 1, t, lo, hi))
    ensures Sound(Lower(Group(n + 1, b)), t, lo, hi, Stretches(Group(n + 1, b), n, t, lo, hi))
  {
    var A, B := Stretches(Group(n + 1, b), n, t, lo, hi), Stretches(b, n + 1, t, lo, hi);
    forall i, j | lo <= i <= j <= hi && M(Lower(b), t, i, j) ensures (n + 1, Span(i, j)) in A {
      LowerIs(b, t, i, j);
    }
    SoundGroup(n + 1, Lower(b), t, lo, hi, B, A);
  }

  lemma {:induction false} CatLowerSound(l: Ere, r: Ere, n: nat, t: seq<char>, lo: int, hi: int)
    requires Ok(l) && Ok(r) && 0 <= lo && hi <= |t| && Sound(Lower(l), t, lo, hi, Stretches(l, n, t, lo, hi))
    requires Sound(Lower(r), t, lo, hi, Stretches(r, n + Groups(l), t, lo, hi))
    ensures Sound(Lower(l) + Lower(r), t, lo, hi, Stretches(Cat(l, r), n, t, lo, hi))
  {
    var A := Stretches(Cat(l, r), n, t, lo, hi);
    SoundMore(Lower(l), t, lo, hi, Stretches(l, n, t, lo, hi), A);
    SoundMore(Lower(r), t, lo, hi, Stretches(r, n + Groups(l), t, lo, hi), A);
    SoundConcat(Lower(l), Lower(r), t, lo, hi, A);
  }

  lemma {:induction false} LowerSound(e: Ere, n: nat, t: seq<char>, lo: int, hi: int)
    requires Ok(e) && Numbered(e, n) && 0 <= lo && hi <= |t|
    ensures Sound(Lower(e), t, lo, hi, Stretches(e, n, t, lo, hi))
    decreases e, 1
  {
    var A := Stretches(e, n, t, lo, hi);
    match e
    case Eps =>
    case Chr(c) => SoundAtom(Char(c), t, lo, hi, A);
    case Dot => SoundAtom(Any, t, lo, hi, A);
    case Bracket(cs) => SoundAtom(BracketNode(cs), t, lo, hi, A);
    case Group(g, b) =>
      LowerSound(b, n + 1, t, lo, hi);
      GroupLowerSound(b, n, t, lo, hi);
    case Star(b) => LowerSound(b, n, t, lo, hi); SoundStar(Lower(b), t, lo, hi, A);
    case More(b) => LowerSound(b, n, t, lo, hi); SoundPlus(Lower(b), t, lo, hi, A);
    case Opt(b) =>
      LowerSound(b, n, t, lo, hi);
      SoundChoice(Lower(b), [], [], t, lo, hi, A);
    case Bound(b, l, h) => LowerSound(b, n, t, lo, hi); SoundRep(Lower(b), l, LimitOf(h), t, lo, hi, A);
    case Cat(l, r) =>
      LowerSound(l, n, t, lo, hi);
      LowerSound(r, n + Groups(l), t, lo, hi);
      CatLowerSound(l, r, n, t, lo, hi);
    case Alt(bs) =>
      LowersSound(bs, n, t, lo, hi);
      AltLowerSound(bs, t, lo, hi, A);
  }

  lemma {:induction false} AltLowerSound(bs: seq<Ere>, t: seq<char>, lo: int, hi: int, A: Spans)
    requires |bs| >= 2 && OkAll(bs) && 0 <= lo && forall k :: 0 <= k < |bs| ==> Sound(Lower(bs[k]), t, lo, hi, A)
    ensures Sound([Choice(Lower(bs[0]), LowerMid(bs[1..|bs| - 1]), Lower(bs[|bs| - 1]))], t, lo, hi, A)
  {
    MidSound(bs[1..|bs| - 1], t, lo, hi, A);
    SoundChoice(Lower(bs[0]), LowerMid(bs[1..|bs| - 1]), Lower(bs[|bs| - 1]), t, lo, hi, A);
  }

  lemma SoundAtom(x: Node, t: seq<char>, lo: int, hi: int, A: Spans)
    requires x.Char? || x.Any? || x.AnyOf?
    ensures Sound([x], t, lo, hi, A)
  {
    assert [x][1..] == [];
  }

  lemma {:induction false} LowersSound(bs: seq<Ere>, n: nat, t: seq<char>, lo: int, hi: int)
    requires OkAll(bs) && NumberedAll(bs, n) && 0 <= lo && hi <= |t|
    ensures forall k :: 0 <= k < |bs| ==> Sound(Lower(bs[k]), t, lo, hi, StretchesAll(bs, n, t, lo, hi))
    decreases bs, 0
  {
    var A := StretchesAll(bs, n, t, lo, hi);
    if bs != [] {
      var m := n + Groups(bs[0]);
      LowerSound(bs[0], n, t, lo, hi);
      SoundMore(Lower(bs[0]), t, lo, hi, Stretches(bs[0], n, t, lo, hi), A);
      LowersSound(bs[1..], m, t, lo, hi);
      forall k | 1 <= k < |bs| ensures Sound(Lower(bs[k]), t, lo, hi, A) {
        assert bs[1..][k - 1] == bs[k];
        SoundMore(Lower(bs[k]), t, lo, hi, StretchesAll(bs[1..], m, t, lo, hi), A);
      }
    }
  }

  lemma {:induction false} MidSound(m: seq<Ere>, t: seq<char>, lo: int, hi: int, A: Spans)
    requires OkAll(m) && forall k :: 0 <= k < |m| ==> Sound(Lower(m[k]), t, lo, hi, A)
    ensures |LowerMid(m)| == |m| && forall k :: 0 <= k < |m| ==> Sound(LowerMid(m)[k].items, t, lo, hi, A)
    decreases |m|
  {
    if m != [] { MidSound(m[1..], t, lo, hi, A); }
  }

  /** What is reported for subexpression g: nothing, or a stretch of the match that is a word
      of that subexpression. */
  lemma {:induction false} CapturedIsWord(e: Ere, t: seq<char>, i: nat, j: nat, nmatch: nat, g: nat)
    requires Ok(e) && Numbered(e, 0) && i <= j <= |t| && Occurs(e, t, i, j) && 0 < g < nmatch
    ensures var s := Report(Lower(e), t, i, j, nmatch, Groups(e))[g];
            s == Span(-1, -1) || (g <= Groups(e) && i <= s.so && s.eo <= j && Occurs(Body(e, 0, g), t, s.so, s.eo))
  {
    var A := Stretches(e, 0, t, i, j);
    LowerSound(e, 0, t, i, j);
    LowerIs(e, t, i, j);
    var pm := seq(Groups(e) + 1, _ => Span(-1, -1));
    assert Records(A, pm, Captures(Lower(e), t, i, j, pm));
  }

  // ----- The walk through a repetition may stop short of its end -----

  /** The walk by longest passes from i gets to p. */
  ghost predicate WalksTo(body: seq<Node>, t: seq<char>, i: int, rest: int, p: int)
    decreases rest - i
  {
    i == p || (i < MaxEnd(body, t, i, rest) <= rest && WalksTo(body, t, MaxEnd(body, t, i, rest), rest, p))
  }

  lemma {:induction false} WalksUp(body: seq<Node>, t: seq<char>, i: int, rest: int, p: int)
    requires WalksTo(body, t, i, rest, p)
    ensures i <= p
    decreases rest - i
  {
    if i != p { WalksUp(body, t, MaxEnd(body, t, i, rest), rest, p); }
  }

  /** The walk from i gets to p, before rest, and no pass leads on from there. */
  ghost predicate Stuck(body: seq<Node>, t: seq<char>, i: int, rest: int, p: int) {
    WalksTo(body, t, i, rest, p) && p < rest && forall q :: p < q <= rest ==> !M(body, t, p, q)
  }

  /** The last pass recorded ends where the repetition does exactly when the walk nowhere
      gets stuck before. */
  lemma {:induction false} LastPassReaches(body: seq<Node>, t: seq<char>, before: int, i: int, rest: int)
    requires 0 <= before <= i <= rest
    ensures LastPass(body, t, before, i, rest).1 == rest <==> forall p :: !Stuck(body, t, i, rest, p)
    decreases rest - i
  {
    MaxEndIs(body, t, i, rest);
    var e := MaxEnd(body, t, i, rest);
    if i < e <= rest {
      LastPassReaches(body, t, i, e, rest);
      assert M(body, t, i, e);
      forall p ensures Stuck(body, t, i, rest, p) <==> Stuck(body, t, e, rest, p) {
      }
    } else if i < rest {
      assert Stuck(body, t, i, rest, i);
    } else {
      forall p ensures !Stuck(body, t, i, rest, p) {
        if WalksTo(body, t, i, rest, p) { WalksUp(body, t, i, rest, p); }
      }
    }
  }
}
