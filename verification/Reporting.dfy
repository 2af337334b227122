/** Which subexpressions are sure to be reported, and where the last pass of a repetition is
    sure to end (src/common/regex_engine.cpp, dissect). */
module Reporting {
  import opened Strip
  import opened Reach
  import opened Capturing
  import opened Captured
  import opened Ere
  import opened Grammar
  import opened Numbering
  import opened Regex

  // ----- What changes lies within the match -----

  /** Either end of a span in pm' is what it was in pm, or within i..j. */
  ghost predicate Keeps(pm: seq<Span>, pm': seq<Span>, i: int, j: int) {
    |pm'| == |pm| && forall g: nat :: g < |pm| ==>
      (pm'[g].so == pm[g].so || i <= pm'[g].so <= j) && (pm'[g].eo == pm[g].eo || i <= pm'[g].eo <= j)
  }

  lemma KeepsThen(pm: seq<Span>, pm': seq<Span>, pm'': seq<Span>, i: int, k: int, l: int, j: int)
    requires i <= k <= l <= j && Keeps(pm, pm', i, k) && Keeps(pm', pm'', l, j)
    ensures Keeps(pm, pm'', i, j)
  {
  }

  lemma {:induction false} CapturesKeep(xs: seq<Node>, t: seq<char>, i: int, j: int, pm: seq<Span>)
    requires 0 <= i && M(xs, t, i, j)
    ensures Keeps(pm, Captures(xs, t, i, j, pm), i, j)
    decreases Len(xs), 1
  {
    if xs != [] {
      var x, tl := xs[0], xs[1..];
      var k := MSplit(xs, t, i, j);
      if x.Plus? || x.Quest? || x.Choice? {
        ShareIs(x, tl, t, i, j, j);
        var r := Share(x, tl, t, i, j, j);
        InnerKeeps(x, t, i, r, pm);
        CapturesKeep(tl, t, r, j, Inner(x, t, i, r, pm));
        KeepsThen(pm, Inner(x, t, i, r, pm), Captures(xs, t, i, j, pm), i, r, r, j);
      } else {
        var pm' := match x
          case LPar(n) => if n < |pm| then pm[n := pm[n].(so := i)] else pm
          case RPar(n) => if n < |pm| then pm[n := pm[n].(eo := i)] else pm
          case _ => pm;
        CapturesKeep(tl, t, k, j, pm');
        KeepsThen(pm, pm', Captures(xs, t, i, j, pm), i, i, k, j);
      }
    }
  }

  lemma {:induction false} InnerKeeps(x: Node, t: seq<char>, i: int, r: int, pm: seq<Span>)
    requires 0 <= i <= r && MNode(x, t, i, r) && (x.Plus? || x.Quest? || x.Choice?)
    ensures Keeps(pm, Inner(x, t, i, r, pm), i, r)
    decreases NodeLen(x), 0
  {
    match x
    case Quest(body) =>
      MaxEndIs(body, t, i, r);
      if M(body, t, i, r) { CapturesKeep(body, t, i, r, pm); }
    case Plus(body) =>
      PlusLastPass(body, t, i, r);
      var (a, z) := LastPass(body, t, i, i, r);
      CapturesKeep(body, t, a, z, pm);
    case Choice(f, m, l) =>
      if M(f, t, i, r) { CapturesKeep(f, t, i, r, pm); } else { MidKeeps(m, l, t, i, r, pm); }
  }

  lemma {:induction false} MidKeeps(m: seq<Branch>, l: seq<Node>, t: seq<char>, i: int, r: int, pm: seq<Span>)
    requires 0 <= i && (MMid(m, t, i, r) || M(l, t, i, r))
    ensures Keeps(pm, InnerMid(m, l, t, i, r, pm), i, r)
    decreases MidLen(m) + Len(l), 2
  {
    if m == [] {
      CapturesKeep(l, t, i, r, pm);
    } else if M(m[0].items, t, i, r) {
      CapturesKeep(m[0].items, t, i, r, pm);
    } else {
      MidKeeps(m[1..], l, t, i, r, pm);
    }
  }

  // ----- Subexpressions that every match goes through -----

  ghost predicate Known(pm: seq<Span>, g: nat, i: int, j: int) {
    g < |pm| ==> i <= pm[g].so <= j && i <= pm[g].eo <= j
  }

  /** Taking apart any match of xs records subexpression g, within the match. */
  ghost predicate Sure(xs: seq<Node>, t: seq<char>, g: nat) {
    forall i, j, pm: seq<Span> :: 0 <= i <= j && M(xs, t, i, j) ==> Known(Captures(xs, t, i, j, pm), g, i, j)
  }

  lemma {:induction false} SureFirst(xs: seq<Node>, ys: seq<Node>, t: seq<char>, g: nat)
    requires Sure(xs, t, g)
    ensures Sure(xs + ys, t, g)
  {
    forall i, j, pm: seq<Span> | 0 <= i <= j && M(xs + ys, t, i, j)
      ensures Known(Captures(xs + ys, t, i, j, pm), g, i, j)
    {
      var k := CapturesCut(xs, ys, t, i, j, pm);
      CapturesKeep(ys, t, k, j, Captures(xs, t, i, k, pm));
      assert Known(Captures(xs, t, i, k, pm), g, i, k);
    }
  }

  lemma {:induction false} SureSecond(xs: seq<Node>, ys: seq<Node>, t: seq<char>, g: nat)
    requires Sure(ys, t, g)
    ensures Sure(xs + ys, t, g)
  {
    forall i, j, pm: seq<Span> | 0 <= i <= j && M(xs + ys, t, i, j)
      ensures Known(Captures(xs + ys, t, i, j, pm), g, i, j)
    {
      var k := CapturesCut(xs, ys, t, i, j, pm);
      assert Known(Captures(ys, t, k, j, Captures(xs, t, i, k, pm)), g, k, j);
    }
  }

  lemma {:induction false} SureGroup(n: nat, xs: seq<Node>, t: seq<char>, g: nat)
    requires g == n || Sure(xs, t, g)
    ensures Sure([LPar(n)] + xs + [RPar(n)], t, g)
  {
    var ys := [LPar(n)] + xs + [RPar(n)];
    forall i, j, pm: seq<Span> | 0 <= i <= j && M(ys, t, i, j) ensures Known(Captures(ys, t, i, j, pm), g, i, j) {
      GroupIs(n, xs, t, i, j);
      GroupCaptures(n, xs, t, i, j, pm);
      var pm1 := if n < |pm| then pm[n := pm[n].(so := i)] else pm;
      CapturesKeep(xs, t, i, j, pm1);
      if g != n { assert Known(Captures(xs, t, i, j, pm1), g, i, j); }
    }
  }

  lemma {:induction false} SurePlus(body: seq<Node>, t: seq<char>, g: nat)
    requires Sure(body, t, g)
    ensures Sure([Plus(body)], t, g)
  {
    var x := Plus(body);
    forall i, j, pm: seq<Span> | 0 <= i <= j && M([x], t, i, j) ensures Known(Captures([x], t, i, j, pm), g, i, j) {
      MSingle(x, t, i, j);
      CapturesOne(x, t, i, j, pm);
      PlusLastPass(body, t, i, j);
      var (a, z) := LastPass(body, t, i, i, j);
      assert Known(Captures(body, t, a, z, pm), g, a, z);
    }
  }

  lemma {:induction false} SureRep(x: seq<Node>, from: nat, to: nat, t: seq<char>, g: nat)
    requires 1 <= from <= to <= INFINITY && from <= DUPMAX && Sure(x, t, g)
    ensures Sure(Rep(x, from, to), t, g)
    decreases if to == INFINITY then from else to
  {
    if from == 1 && to == INFINITY {
      SurePlus(x, t, g);
    } else if from == 1 && to != 1 {
      SureRep(x, 1, to - 1, t, g);
      SureSecond([Choice(x, [], [])], Rep(x, 1, to - 1), t, g);
    } else if from > 1 {
      SureFirst(x, Rep(x, from - 1, if to == INFINITY then INFINITY else to - 1), t, g);
    }
  }

  /** Every word of e goes through subexpression g: it is not inside a choice, an option, or a
      repetition that may be skipped. */
  predicate Required(e: Ere, n: nat, g: nat) {
    match e
    case Group(i, b) => g == i || Required(b, n + 1, g)
    case More(b) => Required(b, n, g)
    case Bound(b, lo, _) => lo >= 1 && Required(b, n, g)
    case Cat(l, r) => Required(l, n, g) || Required(r, n + Groups(l), g)
    case _ => false
  }

  lemma {:induction false} RequiredSure(e: Ere, n: nat, t: seq<char>, g: nat)
    requires Ok(e) && Required(e, n, g)
    ensures Sure(Lower(e), t, g)
    decreases e
  {
    match e
    case Group(i, b) =>
      if g != i { RequiredSure(b, n + 1, t, g); }
      SureGroup(i, Lower(b), t, g);
    case More(b) =>
      RequiredSure(b, n, t, g);
      SurePlus(Lower(b), t, g);
    case Bound(b, lo, hi) =>
      RequiredSure(b, n, t, g);
      SureRep(Lower(b), lo, LimitOf(hi), t, g);
    case Cat(l, r) =>
      if Required(l, n, g) {
        RequiredSure(l, n, t, g);
        SureFirst(Lower(l), Lower(r), t, g);
      } else {
        RequiredSure(r, n + Groups(l), t, g);
        SureSecond(Lower(l), Lower(r), t, g);
      }
  }

  lemma {:induction false} RequiredThere(e: Ere, n: nat, g: nat)
    requires Required(e, n, g) && Numbered(e, n)
    ensures n < g <= n + Groups(e)
    decreases e
  {
    match e
    case Group(i, b) => if g != i { RequiredThere(b, n + 1, g); }
    case More(b) => RequiredThere(b, n, g);
    case Bound(b, _, _) => RequiredThere(b, n, g);
    case Cat(l, r) =>
      if Required(l, n, g) { RequiredThere(l, n, g); } else { RequiredThere(r, n + Groups(l), g); }
  }

  /** A subexpression every word goes through is reported, as a stretch of the match that is
      a word of it. */
  lemma {:induction false} RequiredReported(e: Ere, t: seq<char>, i: nat, j: nat, nmatch: nat, g: nat)
    requires Ok(e) && Numbered(e, 0) && i <= j <= |t| && Occurs(e, t, i, j) && 0 < g < nmatch && Required(e, 0, g)
    ensures var s := Report(Lower(e), t, i, j, nmatch, Groups(e))[g];
            i <= s.so <= s.eo <= j && Occurs(Body(e, 0, g), t, s.so, s.eo)
  {
    CapturedIsWord(e, t, i, j, nmatch, g);
    RequiredThere(e, 0, g);
    RequiredSure(e, 0, t, g);
    LowerIs(e, t, i, j);
    var pm := seq(Groups(e) + 1, _ => Span(-1, -1));
    assert Known(Captures(Lower(e), t, i, j, pm), g, i, j);
  }

  /** A subexpression that is the whole expression is reported as the whole match. */
  lemma {:induction false} WholeReported(b: Ere, t: seq<char>, i: nat, j: nat, nmatch: nat, e: Ere)
    requires Ok(e) && Numbered(e, 0) && e == Cat(Eps, Group(1, b))
    requires i <= j <= |t| && Occurs(e, t, i, j) && 1 < nmatch
    ensures Report(Lower(e), t, i, j, nmatch, Groups(e))[1] == Span(i, j)
  {
    var g := Group(1, b);
    LowerIs(e, t, i, j);
    assert Ok(g) && Numbered(g, 0) && Groups(e) == Groups(g);
    assert Lower(e) == [] + Lower(g) == Lower(g);
    var pm := seq(Groups(e) + 1, _ => Span(-1, -1));
    WholeCaptures(b, g, 0, t, i, j, pm);
  }

  lemma {:induction false} WholeCaptures(b: Ere, g: Ere, n: nat, t: seq<char>, i: nat, j: nat, pm: seq<Span>)
    requires Ok(g) && Numbered(g, n) && g == Group(n + 1, b) && i <= j <= |t| && M(Lower(g), t, i, j)
    requires n + 1 < |pm|
    ensures Captures(Lower(g), t, i, j, pm)[n + 1] == Span(i, j)
  {
    var xs, pm1 := Lower(b), pm[n + 1 := pm[n + 1].(so := i)];
    GroupIs(n + 1, xs, t, i, j);
    LowerSound(b, n + 1, t, i, j);
    var pm' := Captures(xs, t, i, j, pm1);
    assert Records(Stretches(b, n + 1, t, i, j), pm1, pm') && pm'[n + 1] == pm1[n + 1];
    GroupRecords(n + 1, xs, t, i, j, pm, pm');
  }

  // ----- Where the last pass ends -----

  /** No match of body goes on where another from the same start ends. */
  ghost predicate PrefixFree(body: seq<Node>, t: seq<char>) {
    forall i, j, k :: 0 <= i && M(body, t, i, j) && M(body, t, i, k) ==> j == k
  }

  /** Then the last pass ends where the repetition does. */
  lemma {:induction false} LastPassWhole(body: seq<Node>, t: seq<char>, i: int, rest: int)
    requires 0 <= i <= rest && PrefixFree(body, t) && MNode(Plus(body), t, i, rest)
    ensures LastPass(body, t, i, i, rest).1 == rest
  {
    var n: nat :| n >= 1 && MPow(body, n, t, i, rest);
    PassesReach(body, n, t, i, i, rest);
  }

  lemma {:induction false} PassesReach(body: seq<Node>, n: nat, t: seq<char>, before: int, i: int, rest: int)
    requires 0 <= before <= i <= rest && PrefixFree(body, t) && MPow(body, n, t, i, rest)
    ensures LastPass(body, t, before, i, rest).1 == rest
    decreases n
  {
    MaxEndIs(body, t, i, rest);
    if n > 0 {
      var k := PowUnfront(body, n, t, i, rest);
      if k == i { StaysPut(body, n - 1, t, i, rest); } else { PassesReach(body, n - 1, t, i, k, rest); }
    }
  }

  lemma {:induction false} StaysPut(body: seq<Node>, n: nat, t: seq<char>, i: int, j: int)
    requires 0 <= i <= j && PrefixFree(body, t) && M(body, t, i, i) && MPow(body, n, t, i, j)
    ensures i == j
  {
    if n > 0 {
      var k := PowUnfront(body, n, t, i, j);
      StaysPut(body, n - 1, t, k, j);
    }
  }
}
