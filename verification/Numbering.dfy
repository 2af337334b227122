/** Parenthesised subexpressions are numbered in the order their parentheses open
    (src/common/regcomp.cpp, p_ere_exp). */
module Numbering {
  import opened Strip
  import opened Capturing
  import opened Ere
  import opened Grammar

  predicate Numbered(e: Ere, n: nat) {
    match e
    case Group(g, b) => g == n + 1 && Numbered(b, n + 1)
    case Star(b) => Numbered(b, n)
    case More(b) => Numbered(b, n)
    case Opt(b) => Numbered(b, n)
    case Bound(b, _, _) => Numbered(b, n)
    case Cat(l, r) => Numbered(l, n) && Numbered(r, n + Groups(l))
    case Alt(bs) => NumberedAll(bs, n)
    case _ => true
  }

  predicate NumberedAll(bs: seq<Ere>, n: nat) {
    bs != [] ==> Numbered(bs[0], n) && NumberedAll(bs[1..], n + Groups(bs[0]))
  }

  // ----- What the grammar derives is numbered so -----

  lemma {:induction false} WholeNumbered(r: Reader, p: seq<char>, i: nat, j: nat, n: nat, e: Ere)
    requires Whole(r, p, i, j, n, e)
    ensures Numbered(e, n)
    decreases e, 4
  {
    if e.Alt? { AllNumbered(r, p, i, j, n, e.bs); } else { PiecesNumbered(r, p, i, j, n, e); }
  }

  lemma {:induction false} AllNumbered(r: Reader, p: seq<char>, i: nat, j: nat, n: nat, bs: seq<Ere>)
    requires Separated(r, p, i, j, n, bs)
    ensures NumberedAll(bs, n)
    decreases bs, 4
  {
    if |bs| == 1 {
      PiecesNumbered(r, p, i, j, n, bs[0]);
    } else {
      var k: nat :| k < j <= |p| && p[k] == '|' && Alternative(r, p, i, k, n, bs[0]) &&
                    Separated(r, p, k + 1, j, n + Groups(bs[0]), bs[1..]);
      PiecesNumbered(r, p, i, k, n, bs[0]);
      AllNumbered(r, p, k + 1, j, n + Groups(bs[0]), bs[1..]);
    }
  }

  lemma {:induction false} PiecesNumbered(r: Reader, p: seq<char>, i: nat, j: nat, n: nat, e: Ere)
    requires Pieces(r, p, i, j, n, e)
    ensures Numbered(e, n)
    decreases e, 2
  {
    if e.Cat? {
      var k: nat :| Pieces(r, p, i, k, n, e.l) && Piece(r, p, k, j, n + Groups(e.l), e.r);
      PiecesNumbered(r, p, i, k, n, e.l);
      PieceNumbered(r, p, k, j, n + Groups(e.l), e.r);
    }
  }

  lemma {:induction false} PieceNumbered(r: Reader, p: seq<char>, i: nat, j: nat, n: nat, e: Ere)
    requires Piece(r, p, i, j, n, e)
    ensures Numbered(e, n)
    decreases e, 1
  {
    if e.Star? || e.More? || e.Opt? {
      AtomNumbered(r, p, i, j - 1, n, e.e);
    } else if e.Bound? {
      var k: nat :| Counted(p, k, j, e.lo, e.hi) && Atom(r, p, i, k, n, e.e);
      AtomNumbered(r, p, i, k, n, e.e);
    } else {
      AtomNumbered(r, p, i, j, n, e);
    }
  }

  lemma {:induction false} AtomNumbered(r: Reader, p: seq<char>, i: nat, j: nat, n: nat, e: Ere)
    requires Atom(r, p, i, j, n, e)
    ensures Numbered(e, n)
    decreases e, 0
  {
    if e.Group? && Whole(r, p, i + 1, j - 1, n + 1, e.e) {
      WholeNumbered(r, p, i + 1, j - 1, n + 1, e.e);
    }
  }

  // ----- Every parenthesis in the code has a number up to the count -----

  lemma {:induction false} BelowConcat(xs: seq<Node>, ys: seq<Node>, n: nat)
    ensures GroupsBelow(xs + ys, n) <==> GroupsBelow(xs, n) && GroupsBelow(ys, n)
    decreases |xs|
  {
    if xs == [] {
      assert xs + ys == ys;
    } else {
      assert (xs + ys)[0] == xs[0] && (xs + ys)[1..] == xs[1..] + ys;
      BelowConcat(xs[1..], ys, n);
    }
  }

  lemma {:induction false} BelowOne(x: Node, n: nat)
    ensures GroupsBelow([x], n) <==> NodeGroupsBelow(x, n)
  {
    assert [x][1..] == [];
  }

  lemma {:induction false} BelowRep(x: seq<Node>, from: nat, to: nat, n: nat)
    requires from <= to <= INFINITY && from <= DUPMAX && GroupsBelow(x, n)
    ensures GroupsBelow(Rep(x, from, to), n)
    decreases if from == 0 then 1 else 0, if to == INFINITY then from else to
  {
    if to != 0 && from == 0 {
      BelowRep(x, 1, to, n);
      BelowOne(Choice(Rep(x, 1, to), [], []), n);
    } else if from == 1 && to == INFINITY {
      BelowOne(Plus(x), n);
    } else if from == 1 && to != 1 {
      BelowRep(x, 1, to - 1, n);
      BelowOne(Choice(x, [], []), n);
      BelowConcat([Choice(x, [], [])], Rep(x, 1, to - 1), n);
    } else if from > 1 {
      var to' := if to == INFINITY then INFINITY else to - 1;
      BelowRep(x, from - 1, to', n);
      BelowConcat(x, Rep(x, from - 1, to'), n);
    }
  }

  lemma {:induction false} LowerBelow(e: Ere, k: nat, n: nat)
    requires Ok(e) && Numbered(e, k) && k + Groups(e) < n
    ensures GroupsBelow(Lower(e), n)
    decreases e
  {
    match e
    case Eps =>
    case Chr(c) => BelowOne(Char(c), n);
    case Dot => BelowOne(Any, n);
    case Bracket(cs) => BelowOne(BracketNode(cs), n);
    case Group(i, b) =>
      LowerBelow(b, k + 1, n);
      BelowOne(LPar(i), n);
      BelowOne(RPar(i), n);
      BelowConcat([LPar(i)], Lower(b), n);
      BelowConcat([LPar(i)] + Lower(b), [RPar(i)], n);
    case Star(b) =>
      LowerBelow(b, k, n);
      BelowOne(Plus(Lower(b)), n);
      BelowOne(Quest([Plus(Lower(b))]), n);
    case More(b) => LowerBelow(b, k, n); BelowOne(Plus(Lower(b)), n);
    case Opt(b) => LowerBelow(b, k, n); BelowOne(Choice(Lower(b), [], []), n);
    case Bound(b, lo, hi) => LowerBelow(b, k, n); BelowRep(Lower(b), lo, LimitOf(hi), n);
    case Cat(l, r) =>
      LowerBelow(l, k, n);
      LowerBelow(r, k + Groups(l), n);
      BelowConcat(Lower(l), Lower(r), n);
    case Alt(bs) => AltBelow(bs, k, n);
  }

  lemma {:induction false} AltBelow(bs: seq<Ere>, k: nat, n: nat)
    requires |bs| >= 2 && OkAll(bs) && NumberedAll(bs, k) && k + GroupsAll(bs) < n
    ensures GroupsBelow([Choice(Lower(bs[0]), LowerMid(bs[1..|bs| - 1]), Lower(bs[|bs| - 1]))], n)
    decreases bs
  {
    LowersBelow(bs, k, n);
    var m := bs[1..|bs| - 1];
    MidBelow(m, n);
    BelowOne(Choice(Lower(bs[0]), LowerMid(m), Lower(bs[|bs| - 1])), n);
  }

  lemma {:induction false} LowersBelow(bs: seq<Ere>, k: nat, n: nat)
    requires OkAll(bs) && NumberedAll(bs, k) && k + GroupsAll(bs) < n
    ensures forall i :: 0 <= i < |bs| ==> GroupsBelow(Lower(bs[i]), n)
    decreases bs, 0
  {
    if bs != [] {
      LowerBelow(bs[0], k, n);
      LowersBelow(bs[1..], k + Groups(bs[0]), n);
      assert forall i :: 1 <= i < |bs| ==> bs[i] == bs[1..][i - 1];
    }
  }

  lemma {:induction false} MidBelow(m: seq<Ere>, n: nat)
    requires OkAll(m) && forall i :: 0 <= i < |m| ==> GroupsBelow(Lower(m[i]), n)
    ensures MidGroupsBelow(LowerMid(m), n)
    decreases |m|
  {
    if m != [] {
      assert LowerMid(m)[0] == Strip.Branch(Lower(m[0])) && LowerMid(m)[1..] == LowerMid(m[1..]);
      MidBelow(m[1..], n);
    }
  }
}
