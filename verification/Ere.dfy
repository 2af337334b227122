/** Extended regular expressions: their meaning (section 9.4 of IEEE Std 1003.1, XBD), and
    the code items each is compiled to (src/common/regcomp.cpp). */
module Ere {
  import opened Strip

  datatype Limit = AtMost(n: nat) | Unlimited

  datatype Ere =
    | Eps
    | Chr(c: char)
    | Dot
    | Bracket(cs: set<char>)
    | Group(i: nat, e: Ere)        // (e), or () with Eps for e
    | Star(e: Ere)
    | More(e: Ere)                 // e+
    | Opt(e: Ere)
    | Bound(e: Ere, lo: nat, hi: Limit)
    | Cat(l: Ere, r: Ere)
    | Alt(bs: seq<Ere>)             // bs[0]|bs[1]|...

  // ----- Meaning -----

  ghost predicate Lang(e: Ere, w: seq<char>)
    decreases e, 0, 0
  {
    match e
    case Eps => w == []
    case Chr(c) => w == [c]
    case Dot => |w| == 1
    case Bracket(cs) => |w| == 1 && w[0] in cs
    case Group(_, b) => Lang(b, w)
    case Star(b) => exists n: nat :: Power(b, n, w)
    case More(b) => exists n: nat :: n >= 1 && Power(b, n, w)
    case Opt(b) => w == [] || Lang(b, w)
    case Bound(b, lo, hi) => exists n: nat :: lo <= n && (hi.AtMost? ==> n <= hi.n) && Power(b, n, w)
    case Cat(l, r) => exists k :: 0 <= k <= |w| && Lang(l, w[..k]) && Lang(r, w[k..])
    case Alt(bs) => LangAny(bs, w)
  }

  ghost predicate LangAny(bs: seq<Ere>, w: seq<char>)
    decreases bs, 0, 0
  {
    bs != [] && (Lang(bs[0], w) || LangAny(bs[1..], w))
  }

  /** w is n words of e one after the other. */
  ghost predicate Power(e: Ere, n: nat, w: seq<char>)
    decreases e, 1, n
  {
    if n == 0 then w == []
    else exists k :: 0 <= k <= |w| && Power(e, n - 1, w[..k]) && Lang(e, w[k..])
  }

  // ----- Compilation to items -----

  const DUPMAX: nat := 255
  const INFINITY: nat := 256

  /** x repeated from..to times, as repeat unrolls it. */
  function Rep(x: seq<Node>, from: nat, to: nat): seq<Node>
    requires from <= to <= INFINITY && from <= DUPMAX
    decreases if from == 0 then 1 else 0, if to == INFINITY then from else to
  {
    if to == 0 then []
    else if from == 0 then [Choice(Rep(x, 1, to), [], [])]
    else if to == 1 then x
    else if from == 1 then
      if to == INFINITY then [Plus(x)] else [Choice(x, [], [])] + Rep(x, 1, to - 1)
    else x + Rep(x, from - 1, if to == INFINITY then INFINITY else to - 1)
  }

  function LimitOf(hi: Limit): nat {
    match hi case AtMost(n) => n case Unlimited => INFINITY
  }

  /** Nothing is compiled for e: every piece of it is repeated {0}. */
  predicate Dropped(e: Ere) {
    match e
    case Eps => true
    case Bound(_, _, hi) => hi == AtMost(0)
    case Cat(l, r) => Dropped(l) && Dropped(r)
    case _ => false
  }

  /** Repetition counts in order and within DUPMAX, as the parser leaves them. */
  predicate BoundOk(lo: nat, hi: Limit) {
    lo <= DUPMAX && (hi.AtMost? ==> lo <= hi.n <= DUPMAX)
  }

  /** What the parser makes sure of. */
  predicate Ok(e: Ere) {
    match e
    case Group(_, b) => Ok(b)
    case Star(b) => Ok(b)
    case More(b) => Ok(b)
    case Opt(b) => Ok(b)
    case Bound(b, lo, hi) => Ok(b) && BoundOk(lo, hi) && !Dropped(b)
    case Cat(l, r) => Ok(l) && Ok(r)
    case Alt(bs) => |bs| >= 2 && forall k :: 0 <= k < |bs| ==> Ok(bs[k])
    case _ => true
  }

  predicate OkAll(bs: seq<Ere>) {
    forall k :: 0 <= k < |bs| ==> Ok(bs[k])
  }

  ghost function Lower(e: Ere): seq<Node>
    requires Ok(e)
  {
    match e
    case Eps => []
    case Chr(c) => [Char(c)]
    case Dot => [Any]
    case Bracket(cs) => [BracketNode(cs)]
    case Group(i, b) => [LPar(i)] + Lower(b) + [RPar(i)]
    case Star(b) => [Quest([Plus(Lower(b))])]
    case More(b) => [Plus(Lower(b))]
    case Opt(b) => [Choice(Lower(b), [], [])]
    case Bound(b, lo, hi) => Rep(Lower(b), lo, LimitOf(hi))
    case Cat(l, r) => Lower(l) + Lower(r)
    case Alt(bs) => [Choice(Lower(bs[0]), LowerMid(bs[1..|bs| - 1]), Lower(bs[|bs| - 1]))]
  }

  ghost function LowerMid(m: seq<Ere>): seq<Branch>
    requires OkAll(m)
  {
    if m == [] then [] else [Strip.Branch(Lower(m[0]))] + LowerMid(m[1..])
  }

  /** A set of one character is compiled as that character. */
  ghost function BracketNode(cs: set<char>): Node {
    if |cs| == 1 then (var c :| c in cs; Char(c)) else AnyOf(cs)
  }

  /** Nothing is compiled exactly for what is dropped. */
  lemma {:induction false} DroppedIs(e: Ere)
    requires Ok(e)
    ensures Lower(e) == [] <==> Dropped(e)
  {
    match e
    case Cat(l, r) => DroppedIs(l); DroppedIs(r);
    case Bound(b, lo, hi) => DroppedIs(b); RepSome(Lower(b), lo, LimitOf(hi));
    case _ =>
  }

  lemma {:induction false} RepSome(x: seq<Node>, from: nat, to: nat)
    requires x != [] && from <= to <= INFINITY && from <= DUPMAX
    ensures Rep(x, from, to) == [] <==> to == 0
  {
  }

  // ----- Compilation preserves meaning -----

  lemma {:induction false} PowFront(xs: seq<Node>, n: nat, t: seq<char>, i: int, k: int, j: int)
    requires i <= k <= j && M(xs, t, i, k) && MPow(xs, n, t, k, j)
    ensures MPow(xs, n + 1, t, i, j)
    decreases n
  {
    if n == 0 {
      assert MPow(xs, 0, t, i, i);
    } else {
      var k' := PowSplit(xs, n, t, k, j);
      PowFront(xs, n - 1, t, i, k, k');
      assert MPow(xs, n, t, i, k') && M(xs, t, k', j);
    }
  }

  lemma {:induction false} PowUnfront(xs: seq<Node>, n: nat, t: seq<char>, i: int, j: int) returns (k: int)
    requires n > 0 && MPow(xs, n, t, i, j)
    ensures i <= k <= j && M(xs, t, i, k) && MPow(xs, n - 1, t, k, j)
  {
    var k' := PowSplit(xs, n, t, i, j);
    if n == 1 {
      k := j;
    } else {
      k := PowUnfront(xs, n - 1, t, i, k');
      assert MPow(xs, n - 2, t, k, k') && M(xs, t, k', j);
    }
  }

  ghost predicate Times(n: nat, from: nat, to: nat) {
    from <= n && (to == INFINITY || n <= to)
  }

  ghost predicate MTimes(x: seq<Node>, from: nat, to: nat, t: seq<char>, i: int, j: int) {
    exists n: nat :: Times(n, from, to) && MPow(x, n, t, i, j)
  }

  lemma {:induction false} MOptional(x: seq<Node>, t: seq<char>, i: int, j: int)
    requires i <= j
    ensures M([Choice(x, [], [])], t, i, j) <==> M(x, t, i, j) || i == j
  {
    MSingle(Choice(x, [], []), t, i, j);
    assert M([], t, i, j) <==> i == j;
  }

  /** repeat(x, from, to) matches exactly the from- to to-fold concatenations of x. */
  lemma {:induction false} RepIs(x: seq<Node>, from: nat, to: nat, t: seq<char>, i: int, j: int)
    requires from <= to <= INFINITY && from <= DUPMAX && i <= j
    ensures M(Rep(x, from, to), t, i, j) <==> MTimes(x, from, to, t, i, j)
    decreases if from == 0 then 1 else 0, if to == INFINITY then from else to
  {
    if to == 0 {
      assert M([], t, i, j) <==> i == j;
      assert MPow(x, 0, t, i, j) <==> i == j;
      if MTimes(x, 0, 0, t, i, j) { var n: nat :| Times(n, 0, 0) && MPow(x, n, t, i, j); }
      if i == j { assert Times(0, 0, 0) && MPow(x, 0, t, i, j); }
    } else if from == 0 {
      RepIs(x, 1, to, t, i, j);
      MOptional(Rep(x, 1, to), t, i, j);
      assert MPow(x, 0, t, i, j) <==> i == j;
      if i == j { assert Times(0, 0, to); }
      if MTimes(x, 0, to, t, i, j) {
        var n: nat :| Times(n, 0, to) && MPow(x, n, t, i, j);
        if n > 0 { assert Times(n, 1, to); }
      }
      if MTimes(x, 1, to, t, i, j) {
        var n: nat :| Times(n, 1, to) && MPow(x, n, t, i, j);
        assert Times(n, 0, to);
      }
    } else if to == 1 {
      RepOne(x, t, i, j);
    } else if from == 1 && to == INFINITY {
      MSingle(Plus(x), t, i, j);
      if MNode(Plus(x), t, i, j) {
        var n: nat :| n >= 1 && MPow(x, n, t, i, j);
        assert Times(n, 1, to);
      }
    } else if from == 1 {
      RepOptional(x, to, t, i, j);
    } else {
      RepFront(x, from, to, t, i, j);
    }
  }

  lemma {:induction false} RepOne(x: seq<Node>, t: seq<char>, i: int, j: int)
    requires i <= j
    ensures M(x, t, i, j) <==> MTimes(x, 1, 1, t, i, j)
  {
    if M(x, t, i, j) {
      assert MPow(x, 0, t, i, i);
      assert MPow(x, 1, t, i, j) && Times(1, 1, 1);
    }
    if MTimes(x, 1, 1, t, i, j) {
      var n: nat :| Times(n, 1, 1) && MPow(x, n, t, i, j);
      var k := PowUnfront(x, 1, t, i, j);
      assert MPow(x, 0, t, k, j);
    }
  }

  /** x{1,n} as x?x{1,n-1}. */
  lemma {:induction false} RepOptional(x: seq<Node>, to: nat, t: seq<char>, i: int, j: int)
    requires 2 <= to <= DUPMAX && i <= j
    ensures M(Rep(x, 1, to), t, i, j) <==> MTimes(x, 1, to, t, i, j)
    decreases 0, to, 0
  {
    var opt, rest := [Choice(x, [], [])], Rep(x, 1, to - 1);
    MConcat(opt, rest, t, i, j);
    if M(opt + rest, t, i, j) {
      var k :| i <= k <= j && M(opt, t, i, k) && M(rest, t, k, j);
      MOptional(x, t, i, k);
      RepIs(x, 1, to - 1, t, k, j);
      var n: nat :| Times(n, 1, to - 1) && MPow(x, n, t, k, j);
      if i == k {
        assert Times(n, 1, to);
      } else {
        PowFront(x, n, t, i, k, j);
        assert Times(n + 1, 1, to);
      }
    }
    if MTimes(x, 1, to, t, i, j) {
      var n: nat :| Times(n, 1, to) && MPow(x, n, t, i, j);
      if n == 1 {
        RepIs(x, 1, to - 1, t, i, j);
        MOptional(x, t, i, i);
        assert Times(1, 1, to - 1);
        assert M(opt, t, i, i) && M(rest, t, i, j);
      } else {
        var k := PowUnfront(x, n, t, i, j);
        RepIs(x, 1, to - 1, t, k, j);
        MOptional(x, t, i, k);
        assert Times(n - 1, 1, to - 1);
        assert M(opt, t, i, k) && M(rest, t, k, j);
      }
    }
  }

  /** x{m,n} as xx{m-1,n-1}. */
  lemma {:induction false} RepFront(x: seq<Node>, from: nat, to: nat, t: seq<char>, i: int, j: int)
    requires 2 <= from <= to <= INFINITY && from <= DUPMAX && i <= j
    ensures M(Rep(x, from, to), t, i, j) <==> MTimes(x, from, to, t, i, j)
    decreases 0, if to == INFINITY then from else to, 0
  {
    var to' := if to == INFINITY then INFINITY else to - 1;
    var rest := Rep(x, from - 1, to');
    MConcat(x, rest, t, i, j);
    if M(x + rest, t, i, j) {
      var k :| i <= k <= j && M(x, t, i, k) && M(rest, t, k, j);
      RepIs(x, from - 1, to', t, k, j);
      var n: nat :| Times(n, from - 1, to') && MPow(x, n, t, k, j);
      PowFront(x, n, t, i, k, j);
      assert Times(n + 1, from, to);
    }
    if MTimes(x, from, to, t, i, j) {
      var n: nat :| Times(n, from, to) && MPow(x, n, t, i, j);
      var k := PowUnfront(x, n, t, i, j);
      RepIs(x, from - 1, to', t, k, j);
      assert Times(n - 1, from - 1, to');
      assert M(x, t, i, k) && M(rest, t, k, j);
    }
  }

  /** The items e is compiled to match exactly the words of e, wherever they stand. */
  lemma {:induction false} LowerIs(e: Ere, t: seq<char>, i: nat, j: nat)
    requires Ok(e) && i <= j <= |t|
    ensures M(Lower(e), t, i, j) <==> Lang(e, t[i..j])
    decreases e, 3
  {
    match e
    case Eps =>
    case Chr(c) => MSingle(Char(c), t, i, j); WordOne(t, i, j);
    case Dot => MSingle(Any, t, i, j);
    case Bracket(cs) =>
      MSingle(BracketNode(cs), t, i, j);
      WordOne(t, i, j);
      if |cs| == 1 { Singleton(cs, BracketNode(cs).c); }
    case Group(n, b) =>
      GroupIs(n, Lower(b), t, i, j);
      LowerIs(b, t, i, j);
    case Star(b) => StarIs(b, t, i, j);
    case More(b) => MoreIs(b, t, i, j);
    case Opt(b) =>
      MOptional(Lower(b), t, i, j);
      LowerIs(b, t, i, j);
    case Bound(b, lo, hi) => BoundIs(b, lo, hi, t, i, j);
    case Cat(l, r) =>
      CatSound(l, r, t, i, j);
      CatComplete(l, r, t, i, j);
    case Alt(bs) =>
      var f, m, l := bs[0], bs[1..|bs| - 1], bs[|bs| - 1];
      MSingle(Choice(Lower(f), LowerMid(m), Lower(l)), t, i, j);
      LowerIs(f, t, i, j);
      LowerMidIs(m, t, i, j);
      LowerIs(l, t, i, j);
      assert bs[1..] == m + [l];
      LangAnySnoc(m, l, t[i..j]);
  }

  lemma WordOne(t: seq<char>, i: nat, j: nat)
    requires i <= j <= |t|
    ensures |t[i..j]| == 1 <==> j == i + 1
    ensures j == i + 1 ==> t[i..j] == [t[i]]
  {
  }

  lemma Singleton<T>(cs: set<T>, c: T)
    requires |cs| == 1 && c in cs
    ensures cs == {c}
  {
    assert |cs - {c}| == 0;
  }

  lemma {:induction false} GroupIs(n: nat, xs: seq<Node>, t: seq<char>, i: int, j: int)
    requires i <= j
    ensures M([LPar(n)] + xs + [RPar(n)], t, i, j) <==> M(xs, t, i, j)
  {
    assert [LPar(n)] + xs + [RPar(n)] == [LPar(n)] + (xs + [RPar(n)]);
    MUnfold(LPar(n), xs + [RPar(n)], t, i, j);
    MConcat(xs, [RPar(n)], t, i, j);
    forall k | k <= j ensures M([RPar(n)], t, k, j) <==> k == j { MSingle(RPar(n), t, k, j); }
    if M(xs, t, i, j) {
      assert M([RPar(n)], t, j, j);
      assert M(xs + [RPar(n)], t, i, j);
    }
  }

  lemma {:induction false} LangAnySnoc(m: seq<Ere>, l: Ere, w: seq<char>)
    ensures LangAny(m + [l], w) <==> LangAny(m, w) || Lang(l, w)
    decreases |m|
  {
    if m == [] {
      assert (m + [l])[1..] == [];
    } else {
      assert (m + [l])[0] == m[0] && (m + [l])[1..] == m[1..] + [l];
      LangAnySnoc(m[1..], l, w);
    }
  }

  lemma {:induction false} LowerMidIs(m: seq<Ere>, t: seq<char>, i: nat, j: nat)
    requires OkAll(m) && i <= j <= |t|
    ensures MMid(LowerMid(m), t, i, j) <==> LangAny(m, t[i..j])
    decreases m, 3
  {
    if m != [] {
      assert LowerMid(m)[0] == Strip.Branch(Lower(m[0])) && LowerMid(m)[1..] == LowerMid(m[1..]);
      LowerIs(m[0], t, i, j);
      LowerMidIs(m[1..], t, i, j);
    }
  }

  lemma Cut(t: seq<char>, i: nat, k: nat, j: nat)
    requires i <= k <= j <= |t|
    ensures t[i..j][..k - i] == t[i..k] && t[i..j][k - i..] == t[k..j]
  {
  }

  lemma {:induction false} CatSplit(l: Ere, r: Ere, w: seq<char>) returns (k: nat)
    ensures Lang(Cat(l, r), w) ==> k <= |w| && Lang(l, w[..k]) && Lang(r, w[k..])
  {
    k := 0;
    if Lang(Cat(l, r), w) {
      k :| 0 <= k <= |w| && Lang(l, w[..k]) && Lang(r, w[k..]);
    }
  }

  lemma {:induction false} CatJoin(l: Ere, r: Ere, w: seq<char>, k: nat)
    requires k <= |w|
    ensures Lang(l, w[..k]) && Lang(r, w[k..]) ==> Lang(Cat(l, r), w)
  {
  }

  lemma {:induction false} PowerSplit(e: Ere, n: nat, w: seq<char>) returns (k: nat)
    requires n > 0 && Power(e, n, w)
    ensures k <= |w| && Power(e, n - 1, w[..k]) && Lang(e, w[k..])
  {
    k :| 0 <= k <= |w| && Power(e, n - 1, w[..k]) && Lang(e, w[k..]);
  }

  lemma {:induction false} CatComplete(l: Ere, r: Ere, t: seq<char>, i: nat, j: nat)
    requires Ok(l) && Ok(r) && i <= j <= |t|
    ensures Lang(Cat(l, r), t[i..j]) ==> M(Lower(l) + Lower(r), t, i, j)
    decreases Cat(l, r), 2
  {
    var k := CatPieces(l, r, t, i, j);
    MJoin(Lower(l), Lower(r), t, i, k, j);
  }

  lemma {:induction false} CatPieces(l: Ere, r: Ere, t: seq<char>, i: nat, j: nat) returns (k: nat)
    requires Ok(l) && Ok(r) && i <= j <= |t|
    ensures Lang(Cat(l, r), t[i..j]) ==> M(Lower(l), t, i, k) && M(Lower(r), t, k, j)
    decreases Cat(l, r), 1
  {
    var d := CatSplit(l, r, t[i..j]);
    k := if d <= j - i then i + d else i;
    CatCut(l, r, t, i, k, j);
  }

  lemma {:induction false} CatSound(l: Ere, r: Ere, t: seq<char>, i: nat, j: nat)
    requires Ok(l) && Ok(r) && i <= j <= |t|
    ensures M(Lower(l) + Lower(r), t, i, j) ==> Lang(Cat(l, r), t[i..j])
    decreases Cat(l, r), 1
  {
    if M(Lower(l) + Lower(r), t, i, j) {
      var k := MCut(Lower(l), Lower(r), t, i, j);
      CatCut(l, r, t, i, k, j);
      CatJoin(l, r, t[i..j], k - i);
    }
  }

  lemma {:induction false} CatCut(l: Ere, r: Ere, t: seq<char>, i: nat, k: nat, j: nat)
    requires Ok(l) && Ok(r) && i <= k <= j <= |t|
    ensures M(Lower(l), t, i, k) <==> Lang(l, t[i..j][..k - i])
    ensures M(Lower(r), t, k, j) <==> Lang(r, t[i..j][k - i..])
    decreases Cat(l, r), 0
  {
    Cut(t, i, k, j);
    LowerIs(l, t, i, k);
    LowerIs(r, t, k, j);
  }

  lemma {:induction false} PowerIs(e: Ere, n: nat, t: seq<char>, i: nat, j: nat)
    requires Ok(e) && i <= j <= |t|
    ensures MPow(Lower(e), n, t, i, j) <==> Power(e, n, t[i..j])
    decreases e, 4, n, 1
  {
    var x, w := Lower(e), t[i..j];
    if n > 0 && MPow(x, n, t, i, j) {
      var k := PowSplit(x, n, t, i, j);
      PowerCut(e, n, t, i, k, j);
      assert Power(e, n - 1, w[..k - i]) && Lang(e, w[k - i..]);
    }
    if n > 0 && Power(e, n, w) {
      var k := PowerSplit(e, n, w);
      PowerCut(e, n, t, i, i + k, j);
    }
  }

  lemma {:induction false} PowerCut(e: Ere, n: nat, t: seq<char>, i: nat, k: nat, j: nat)
    requires Ok(e) && i <= k <= j <= |t| && n > 0
    ensures MPow(Lower(e), n - 1, t, i, k) <==> Power(e, n - 1, t[i..j][..k - i])
    ensures M(Lower(e), t, k, j) <==> Lang(e, t[i..j][k - i..])
    decreases e, 4, n, 0
  {
    Cut(t, i, k, j);
    PowerIs(e, n - 1, t, i, k);
    LowerIs(e, t, k, j);
  }

  lemma {:induction false} MoreIs(b: Ere, t: seq<char>, i: nat, j: nat)
    requires Ok(b) && i <= j <= |t|
    ensures M([Plus(Lower(b))], t, i, j) <==> Lang(More(b), t[i..j])
    decreases More(b), 2
  {
    MSingle(Plus(Lower(b)), t, i, j);
    forall n: nat ensures MPow(Lower(b), n, t, i, j) <==> Power(b, n, t[i..j]) { PowerIs(b, n, t, i, j); }
  }

  lemma {:induction false} StarIs(b: Ere, t: seq<char>, i: nat, j: nat)
    requires Ok(b) && i <= j <= |t|
    ensures M([Quest([Plus(Lower(b))])], t, i, j) <==> Lang(Star(b), t[i..j])
    decreases Star(b), 2
  {
    MSingle(Quest([Plus(Lower(b))]), t, i, j);
    MSingle(Plus(Lower(b)), t, i, j);
    forall n: nat ensures MPow(Lower(b), n, t, i, j) <==> Power(b, n, t[i..j]) { PowerIs(b, n, t, i, j); }
    if i == j { assert MPow(Lower(b), 0, t, i, j); }
  }

  lemma {:induction false} BoundSplit(b: Ere, lo: nat, hi: Limit, w: seq<char>) returns (n: nat)
    requires Lang(Bound(b, lo, hi), w)
    ensures lo <= n && (hi.AtMost? ==> n <= hi.n) && Power(b, n, w)
  {
    n :| lo <= n && (hi.AtMost? ==> n <= hi.n) && Power(b, n, w);
  }

  lemma {:induction false} BoundIs(b: Ere, lo: nat, hi: Limit, t: seq<char>, i: nat, j: nat)
    requires Ok(b) && BoundOk(lo, hi) && i <= j <= |t|
    ensures M(Rep(Lower(b), lo, LimitOf(hi)), t, i, j) <==> Lang(Bound(b, lo, hi), t[i..j])
    decreases Bound(b, lo, hi), 2
  {
    var x, to := Lower(b), LimitOf(hi);
    RepIs(x, lo, to, t, i, j);
    forall n: nat ensures MPow(x, n, t, i, j) <==> Power(b, n, t[i..j]) { PowerIs(b, n, t, i, j); }
    if MTimes(x, lo, to, t, i, j) {
      var n: nat :| Times(n, lo, to) && MPow(x, n, t, i, j);
      assert Power(b, n, t[i..j]);
    }
    if Lang(Bound(b, lo, hi), t[i..j]) {
      var n := BoundSplit(b, lo, hi, t[i..j]);
      assert Times(n, lo, to) && MPow(x, n, t, i, j);
    }
  }
}
