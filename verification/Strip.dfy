/** The strip: the flat sequence of operators a compiled expression is made of
    (src/common/regex2.h), the tree it is a rendering of, and the meaning of that tree. */
module Strip {

  /** Strip operators with their operands.  OPLUS_, OQUEST_, OCH_ and OOR2 point forward,
      O_PLUS, O_QUEST, OOR1 and O_CH point back; the operand is the distance. */
  datatype Sop =
    | OEND
    | OCHAR(c: char)
    | OANY
    | OANYOF(cs: set<char>)
    | OPLUS_(n: nat)
    | O_PLUS(n: nat)
    | OQUEST_(n: nat)
    | O_QUEST(n: nat)
    | OLPAREN(n: nat)
    | ORPAREN(n: nat)
    | OCH_(n: nat)
    | OOR1(n: nat)
    | OOR2(n: nat)
    | O_CH(n: nat)

  /** One item of a concatenation.  Parentheses are items of their own, so that every
      stretch of code between two items is again the code of a sequence of items. */
  datatype Node =
    | Char(c: char)
    | Any
    | AnyOf(cs: set<char>)
    | LPar(i: nat)
    | RPar(i: nat)
    | Plus(body: seq<Node>)
    | Quest(body: seq<Node>)
    | Choice(first: seq<Node>, mid: seq<Branch>, last: seq<Node>)

  /** An alternative that is neither the first nor the last of its choice. */
  datatype Branch = Branch(items: seq<Node>)

  /** The rendering of a sequence of items, nesting as regex2.h lays it down. */
  function Code(xs: seq<Node>): seq<Sop> {
    if xs == [] then [] else NodeCode(xs[0]) + Code(xs[1..])
  }

  function NodeCode(x: Node): (c: seq<Sop>)
    ensures c != []
  {
    match x
    case Char(c) => [OCHAR(c)]
    case Any => [OANY]
    case AnyOf(cs) => [OANYOF(cs)]
    case LPar(i) => [OLPAREN(i)]
    case RPar(i) => [ORPAREN(i)]
    case Plus(body) =>
      var c := Code(body);
      [OPLUS_(|c| + 1)] + c + [O_PLUS(|c| + 1)]
    case Quest(body) =>
      var c := Code(body);
      [OQUEST_(|c| + 1)] + c + [O_QUEST(|c| + 1)]
    case Choice(f, m, l) =>
      HeadCode(Code(f)) + MidCode(m) + LastCode(Code(l))
  }

  /** The first alternative, from OCH_ to its OOR1. */
  function HeadCode(c: seq<Sop>): seq<Sop> {
    [OCH_(|c| + 2)] + c + [OOR1(|c| + 1)]
  }

  /** A middle alternative, from its OOR2 to its OOR1. */
  function SegCode(c: seq<Sop>): seq<Sop> {
    [OOR2(|c| + 2)] + c + [OOR1(|c| + 2)]
  }

  /** The last alternative, from its OOR2 to the closing O_CH. */
  function LastCode(c: seq<Sop>): seq<Sop> {
    [OOR2(|c| + 1)] + c + [O_CH(|c| + 2)]
  }

  function MidCode(m: seq<Branch>): seq<Sop> {
    if m == [] then [] else SegCode(Code(m[0].items)) + MidCode(m[1..])
  }

  // ----- Meaning: which stretches t[i..j] a sequence of items matches -----

  ghost predicate M(xs: seq<Node>, t: seq<char>, i: int, j: int)
    decreases xs, 0, 0
  {
    if xs == [] then i == j
    else exists k :: i <= k <= j && MNode(xs[0], t, i, k) && M(xs[1..], t, k, j)
  }

  ghost predicate MNode(x: Node, t: seq<char>, i: int, j: int)
    decreases x, 0, 0
  {
    match x
    case Char(c) => 0 <= i < |t| && t[i] == c && j == i + 1
    case Any => 0 <= i < |t| && j == i + 1
    case AnyOf(cs) => 0 <= i < |t| && t[i] in cs && j == i + 1
    case LPar(_) => i == j
    case RPar(_) => i == j
    case Plus(body) => exists n: nat :: n >= 1 && MPow(body, n, t, i, j)
    case Quest(body) => i == j || M(body, t, i, j)
    case Choice(f, m, l) => M(f, t, i, j) || MMid(m, t, i, j) || M(l, t, i, j)
  }

  ghost predicate MMid(m: seq<Branch>, t: seq<char>, i: int, j: int)
    decreases m, 0, 0
  {
    m != [] && (M(m[0].items, t, i, j) || MMid(m[1..], t, i, j))
  }

  /** The n-fold concatenation of xs. */
  ghost predicate MPow(xs: seq<Node>, n: nat, t: seq<char>, i: int, j: int)
    decreases xs, 1, n
  {
    if n == 0 then i == j
    else exists k :: i <= k <= j && MPow(xs, n - 1, t, i, k) && M(xs, t, k, j)
  }

  // ----- Elementary facts -----

  lemma {:induction false} MOrder(xs: seq<Node>, t: seq<char>, i: int, j: int)
    requires M(xs, t, i, j)
    ensures i <= j
  {
  }

  lemma {:induction false} MNodeBounds(x: Node, t: seq<char>, i: int, j: int)
    requires MNode(x, t, i, j) && 0 <= i <= |t|
    ensures i <= j <= |t|
    decreases x, 0, 0
  {
    match x
    case Plus(body) =>
      var n: nat :| n >= 1 && MPow(body, n, t, i, j);
      MPowBounds(body, n, t, i, j);
    case Quest(body) => if i != j { MBounds(body, t, i, j); }
    case Choice(f, m, l) =>
      if M(f, t, i, j) { MBounds(f, t, i, j); }
      else if MMid(m, t, i, j) { MMidBounds(m, t, i, j); }
      else { MBounds(l, t, i, j); }
    case _ =>
  }

  lemma {:induction false} MMidBounds(m: seq<Branch>, t: seq<char>, i: int, j: int)
    requires MMid(m, t, i, j) && 0 <= i <= |t|
    ensures i <= j <= |t|
    decreases m, 0, 0
  {
    if M(m[0].items, t, i, j) { MBounds(m[0].items, t, i, j); } else { MMidBounds(m[1..], t, i, j); }
  }

  lemma {:induction false} MPowBounds(xs: seq<Node>, n: nat, t: seq<char>, i: int, j: int)
    requires MPow(xs, n, t, i, j) && 0 <= i <= |t|
    ensures i <= j <= |t|
    decreases xs, 1, n
  {
    if n > 0 {
      var k :| i <= k <= j && MPow(xs, n - 1, t, i, k) && M(xs, t, k, j);
      MPowBounds(xs, n - 1, t, i, k);
      MBounds(xs, t, k, j);
    }
  }

  lemma {:induction false} MBounds(xs: seq<Node>, t: seq<char>, i: int, j: int)
    requires M(xs, t, i, j) && 0 <= i <= |t|
    ensures i <= j <= |t|
    decreases xs, 0, 0
  {
    if xs != [] {
      var k :| i <= k <= j && MNode(xs[0], t, i, k) && M(xs[1..], t, k, j);
      MNodeBounds(xs[0], t, i, k);
      MBounds(xs[1..], t, k, j);
    }
  }

  lemma {:induction false} MSingle(x: Node, t: seq<char>, i: int, j: int)
    requires i <= j
    ensures M([x], t, i, j) <==> MNode(x, t, i, j)
  {
    assert [x][1..] == [];
    if MNode(x, t, i, j) { assert M([], t, j, j); }
  }

  lemma {:induction false} MSplit(xs: seq<Node>, t: seq<char>, i: int, j: int) returns (k: int)
    requires xs != [] && M(xs, t, i, j)
    ensures i <= k <= j && MNode(xs[0], t, i, k) && M(xs[1..], t, k, j)
  {
    k :| i <= k <= j && MNode(xs[0], t, i, k) && M(xs[1..], t, k, j);
  }

  lemma {:induction false} PowSplit(xs: seq<Node>, n: nat, t: seq<char>, i: int, j: int) returns (k: int)
    requires n > 0 && MPow(xs, n, t, i, j)
    ensures i <= k <= j && MPow(xs, n - 1, t, i, k) && M(xs, t, k, j)
  {
    k :| i <= k <= j && MPow(xs, n - 1, t, i, k) && M(xs, t, k, j);
  }

  lemma {:induction false} PlusSplit(body: seq<Node>, t: seq<char>, i: int, j: int) returns (n: nat, k: int)
    requires MNode(Plus(body), t, i, j)
    ensures i <= k <= j && MPow(body, n, t, i, k) && M(body, t, k, j)
  {
    var n': nat :| n' >= 1 && MPow(body, n', t, i, j);
    n := n' - 1;
    k := PowSplit(body, n', t, i, j);
  }

  /** A repetition's first pass matches from where the repetition starts. */
  lemma {:induction false} FirstPass(body: seq<Node>, n: nat, t: seq<char>, i: int, r: int) returns (k: int)
    requires n > 0 && MPow(body, n, t, i, r)
    ensures i <= k <= r && M(body, t, i, k)
  {
    var k' := PowSplit(body, n, t, i, r);
    if n == 1 { k := r; } else { k := FirstPass(body, n - 1, t, i, k'); }
  }

  lemma {:induction false} MUnfold(x: Node, xs: seq<Node>, t: seq<char>, i: int, j: int)
    ensures M([x] + xs, t, i, j) <==> exists k :: i <= k <= j && MNode(x, t, i, k) && M(xs, t, k, j)
  {
    var ys := [x] + xs;
    assert ys != [] && ys[0] == x && ys[1..] == xs;
    if M(ys, t, i, j) {
      var k := MSplit(ys, t, i, j);
      assert MNode(x, t, i, k) && M(xs, t, k, j);
    }
  }

  /** Juxtaposition of item sequences is concatenation of what they match. */
  lemma {:induction false} MConcat(xs: seq<Node>, ys: seq<Node>, t: seq<char>, i: int, j: int)
    ensures M(xs + ys, t, i, j) <==> exists k :: i <= k <= j && M(xs, t, i, k) && M(ys, t, k, j)
    decreases |xs|
  {
    if xs == [] {
      assert xs + ys == ys;
      if M(ys, t, i, j) {
        MOrder(ys, t, i, j);
        assert M(xs, t, i, i);
      }
    } else {
      var tl := xs[1..];
      assert xs + ys == [xs[0]] + (tl + ys);
      MUnfold(xs[0], tl + ys, t, i, j);
      assert xs == [xs[0]] + tl;
      if M(xs + ys, t, i, j) {
        var k :| i <= k <= j && MNode(xs[0], t, i, k) && M(tl + ys, t, k, j);
        MConcat(tl, ys, t, k, j);
        var k2 :| k <= k2 <= j && M(tl, t, k, k2) && M(ys, t, k2, j);
        MUnfold(xs[0], tl, t, i, k2);
        assert M(xs, t, i, k2);
      }
      if k :| i <= k <= j && M(xs, t, i, k) && M(ys, t, k, j) {
        MUnfold(xs[0], tl, t, i, k);
        var k1 :| i <= k1 <= k && MNode(xs[0], t, i, k1) && M(tl, t, k1, k);
        MConcat(tl, ys, t, k1, j);
        assert k1 <= k <= j && M(tl, t, k1, k) && M(ys, t, k, j);
        assert M(tl + ys, t, k1, j);
      }
    }
  }

  lemma {:induction false} MJoin(xs: seq<Node>, ys: seq<Node>, t: seq<char>, i: int, k: int, j: int)
    ensures M(xs, t, i, k) && M(ys, t, k, j) ==> M(xs + ys, t, i, j)
  {
    if M(xs, t, i, k) && M(ys, t, k, j) {
      MOrder(xs, t, i, k);
      MOrder(ys, t, k, j);
      MConcat(xs, ys, t, i, j);
      assert i <= k <= j && M(xs, t, i, k) && M(ys, t, k, j);
      var both := xs + ys;
      assert M(both, t, i, j);
    }
  }

  lemma {:induction false} MCut(xs: seq<Node>, ys: seq<Node>, t: seq<char>, i: int, j: int) returns (k: int)
    requires M(xs + ys, t, i, j)
    ensures i <= k <= j && M(xs, t, i, k) && M(ys, t, k, j)
  {
    MConcat(xs, ys, t, i, j);
    k :| i <= k <= j && M(xs, t, i, k) && M(ys, t, k, j);
  }

  lemma {:induction false} CodeConcat(xs: seq<Node>, ys: seq<Node>)
    ensures Code(xs + ys) == Code(xs) + Code(ys)
    decreases |xs|
  {
    if xs == [] {
      assert xs + ys == ys;
    } else {
      assert (xs + ys)[0] == xs[0] && (xs + ys)[1..] == xs[1..] + ys;
      CodeConcat(xs[1..], ys);
    }
  }

  lemma {:induction false} MidCodeSnoc(m: seq<Branch>, b: seq<Node>)
    ensures MidCode(m + [Branch(b)]) == MidCode(m) + SegCode(Code(b))
    decreases |m|
  {
    if m == [] {
      assert (m + [Branch(b)])[1..] == [];
    } else {
      assert (m + [Branch(b)])[0] == m[0] && (m + [Branch(b)])[1..] == m[1..] + [Branch(b)];
      MidCodeSnoc(m[1..], b);
    }
  }
}
