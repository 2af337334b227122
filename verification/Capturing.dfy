/** What dissect is to find: longest shares, last passes, first alternatives, and the
    offsets of parenthesised subexpressions they lead to
    (src/common/regex_engine.cpp, dissect). */
module Capturing {
  import opened Strip
  import opened Reach

  /** Recorded offsets of a subexpression; -1 when it took no part. */
  datatype Span = Span(so: int, eo: int)

  const NULL: int := -1

  // ----- What the search procedures are to find -----

  /** The end of the longest match of xs that starts at i and ends at k or before. */
  ghost function MaxEnd(xs: seq<Node>, t: seq<char>, i: int, k: int): int
    decreases k - i
  {
    if k < i then NULL else if M(xs, t, i, k) then k else MaxEnd(xs, t, i, k - 1)
  }

  lemma {:induction false} MaxEndIs(xs: seq<Node>, t: seq<char>, i: int, k: int)
    requires 0 <= i
    ensures var r := MaxEnd(xs, t, i, k);
            && (r == NULL || (i <= r <= k && M(xs, t, i, r)))
            && (forall j :: i <= j <= k && M(xs, t, i, j) ==> j <= r)
    decreases k - i
  {
    if k >= i && !M(xs, t, i, k) { MaxEndIs(xs, t, i, k - 1); }
  }

  /** The end of the longest match of x from i, no later than k, after which tl matches up to j. */
  ghost function Share(x: Node, tl: seq<Node>, t: seq<char>, i: int, j: int, k: int): int
    decreases k - i
  {
    if k < i then NULL
    else if MNode(x, t, i, k) && M(tl, t, k, j) then k
    else Share(x, tl, t, i, j, k - 1)
  }

  lemma {:induction false} ShareIs(x: Node, tl: seq<Node>, t: seq<char>, i: int, j: int, k: int)
    requires 0 <= i
    ensures var r := Share(x, tl, t, i, j, k);
            && (r == NULL || (i <= r <= k && MNode(x, t, i, r) && M(tl, t, r, j)))
            && (forall r' :: i <= r' <= k && MNode(x, t, i, r') && M(tl, t, r', j) ==> r' <= r)
    decreases k - i
  {
    if k >= i && !(MNode(x, t, i, k) && M(tl, t, k, j)) { ShareIs(x, tl, t, i, j, k - 1); }
  }

  /** The last step of going through body from ssp as far as longest matches lead. */
  ghost function LastPass(body: seq<Node>, t: seq<char>, oldssp: int, ssp: int, rest: int): (int, int)
    decreases rest - ssp
  {
    var sep := MaxEnd(body, t, ssp, rest);
    if sep == NULL then (oldssp, ssp)
    else if sep <= ssp || sep > rest then (ssp, ssp)
    else LastPass(body, t, ssp, sep, rest)
  }

  /** Offsets recorded while taking t[i..j] apart along xs. */
  ghost function Captures(xs: seq<Node>, t: seq<char>, i: int, j: int, pm: seq<Span>): (r: seq<Span>)
    ensures |r| == |pm|
    decreases Len(xs), 1
  {
    if xs == [] then pm
    else
      var x, tl := xs[0], xs[1..];
      match x
      case Char(_) => Captures(tl, t, i + 1, j, pm)
      case Any => Captures(tl, t, i + 1, j, pm)
      case AnyOf(_) => Captures(tl, t, i + 1, j, pm)
      case LPar(n) => Captures(tl, t, i, j, if n < |pm| then pm[n := pm[n].(so := i)] else pm)
      case RPar(n) => Captures(tl, t, i, j, if n < |pm| then pm[n := pm[n].(eo := i)] else pm)
      case _ =>
        var r := Share(x, tl, t, i, j, j);
        Captures(tl, t, r, j, Inner(x, t, i, r, pm))
  }

  /** Offsets recorded inside one item that matched t[i..r]. */
  ghost function Inner(x: Node, t: seq<char>, i: int, r: int, pm: seq<Span>): (r': seq<Span>)
    ensures |r'| == |pm|
    decreases NodeLen(x), 0
  {
    match x
    case Quest(body) => if MaxEnd(body, t, i, r) != NULL then Captures(body, t, i, r, pm) else pm
    case Plus(body) =>
      var (a, z) := LastPass(body, t, i, i, r);
      Captures(body, t, a, z, pm)
    case Choice(f, m, l) => if M(f, t, i, r) then Captures(f, t, i, r, pm) else InnerMid(m, l, t, i, r, pm)
    case _ => pm
  }

  ghost function InnerMid(m: seq<Branch>, l: seq<Node>, t: seq<char>, i: int, r: int, pm: seq<Span>): (r': seq<Span>)
    ensures |r'| == |pm|
    decreases MidLen(m) + Len(l), 2
  {
    if m == [] then Captures(l, t, i, r, pm)
    else if M(m[0].items, t, i, r) then Captures(m[0].items, t, i, r, pm)
    else InnerMid(m[1..], l, t, i, r, pm)
  }

  /** Every parenthesis in xs has a number below n. */
  predicate GroupsBelow(xs: seq<Node>, n: nat) {
    xs != [] ==> NodeGroupsBelow(xs[0], n) && GroupsBelow(xs[1..], n)
  }

  predicate NodeGroupsBelow(x: Node, n: nat) {
    match x
    case LPar(i) => i < n
    case RPar(i) => i < n
    case Plus(body) => GroupsBelow(body, n)
    case Quest(body) => GroupsBelow(body, n)
    case Choice(f, m, l) => GroupsBelow(f, n) && MidGroupsBelow(m, n) && GroupsBelow(l, n)
    case _ => true
  }

  predicate MidGroupsBelow(m: seq<Branch>, n: nat) {
    m != [] ==> GroupsBelow(m[0].items, n) && MidGroupsBelow(m[1..], n)
  }

  /** The last pass is a match of the body within the repetition's share. */
  lemma {:induction false} LastPassIs(body: seq<Node>, t: seq<char>, oldssp: int, ssp: int, rest: int)
    requires 0 <= oldssp <= ssp <= rest
    requires M(body, t, oldssp, ssp) || MaxEnd(body, t, ssp, rest) != NULL
    ensures var (a, z) := LastPass(body, t, oldssp, ssp, rest);
            oldssp <= a <= z <= rest && M(body, t, a, z)
    decreases rest - ssp
  {
    var sep := MaxEnd(body, t, ssp, rest);
    MaxEndIs(body, t, ssp, rest);
    if ssp < sep <= rest { LastPassIs(body, t, ssp, sep, rest); }
  }

  lemma {:induction false} PlusLastPass(body: seq<Node>, t: seq<char>, i: int, r: int)
    requires 0 <= i <= r && MNode(Plus(body), t, i, r)
    ensures var (a, z) := LastPass(body, t, i, i, r);
            i <= a <= z <= r && M(body, t, a, z)
  {
    var n: nat :| n >= 1 && MPow(body, n, t, i, r);
    var k := FirstPass(body, n, t, i, r);
    MaxEndIs(body, t, i, r);
    LastPassIs(body, t, i, i, r);
  }

  /** The first alternative that matches t[i..r]; the last one if none before it does. */
  ghost function Chosen(f: seq<Node>, m: seq<Branch>, l: seq<Node>, t: seq<char>, i: int, r: int): seq<Node>
    decreases |m|
  {
    if M(f, t, i, r) then f else if m == [] then l else Chosen(m[0].items, m[1..], l, t, i, r)
  }

  lemma {:induction false} ChosenIs(f: seq<Node>, m: seq<Branch>, l: seq<Node>, t: seq<char>, i: int, r: int)
    requires M(f, t, i, r) || MMid(m, t, i, r) || M(l, t, i, r)
    ensures M(Chosen(f, m, l, t, i, r), t, i, r)
    decreases |m|
  {
    if !M(f, t, i, r) && m != [] { ChosenIs(m[0].items, m[1..], l, t, i, r); }
  }

  lemma {:induction false} ChosenInner(f: seq<Node>, m: seq<Branch>, l: seq<Node>, t: seq<char>, i: int, r: int,
                                       pm: seq<Span>)
    ensures Captures(Chosen(f, m, l, t, i, r), t, i, r, pm) ==
            if M(f, t, i, r) then Captures(f, t, i, r, pm) else InnerMid(m, l, t, i, r, pm)
    decreases |m|
  {
    if !M(f, t, i, r) && m != [] { ChosenInner(m[0].items, m[1..], l, t, i, r, pm); }
  }

  lemma {:induction false} ChosenBelow(f: seq<Node>, m: seq<Branch>, l: seq<Node>, t: seq<char>, i: int, r: int, n: nat)
    requires GroupsBelow(f, n) && MidGroupsBelow(m, n) && GroupsBelow(l, n)
    ensures GroupsBelow(Chosen(f, m, l, t, i, r), n)
    decreases |m|
  {
    if !M(f, t, i, r) && m != [] { ChosenBelow(m[0].items, m[1..], l, t, i, r, n); }
  }
}
