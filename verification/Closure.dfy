/** The reader's states are exactly the least closed set the machine can compute. */
module Closure {
  import opened Strip
  import opened Reach

  // ----- Every offset lands on its partner -----

  /** The operator at q and the operators its operand leads to agree, inside lo..hi. */
  predicate Paired(s: seq<Sop>, lo: nat, hi: nat, q: nat)
    requires q < hi <= |s|
  {
    match s[q]
    case OPLUS_(n) => q + n < hi && s[q + n] == O_PLUS(n)
    case O_PLUS(n) => lo <= q - n && s[q - n] == OPLUS_(n)
    case OQUEST_(n) => q + n < hi && s[q + n] == O_QUEST(n)
    case O_QUEST(n) => lo <= q - n && s[q - n] == OQUEST_(n)
    case OCH_(n) => n > 1 && q + n < hi && s[q + n].OOR2? && s[q + n - 1] == OOR1(n - 1)
    case OOR1(n) =>
      && n > 0 && lo <= q - n && (s[q - n] == OCH_(n + 1) || (q - n + 1 < q && s[q - n + 1] == OOR2(n)))
      && q + 1 < hi && s[q + 1].OOR2? && lo <= q < ChoiceEnd(s, q + 1) < hi && s[ChoiceEnd(s, q + 1)].O_CH?
    case OOR2(n) =>
      n > 0 && q + n < hi && ((s[q + n].OOR2? && s[q + n - 1] == OOR1(n)) || s[q + n] == O_CH(n + 1))
    case O_CH(n) => n > 1 && lo <= q - n && s[q - n].OOR1? && s[q - n + 1] == OOR2(n - 1)
    case OEND => false
    case _ => true
  }

  ghost function Pairs(s: seq<Sop>, lo: nat, hi: nat): set<int>
    requires hi <= |s|
  {
    set q | lo <= q < hi && Paired(s, lo, hi, q)
  }

  ghost predicate PairedOn(s: seq<Sop>, lo: nat, hi: nat, x: nat, y: nat)
    requires hi <= |s|
  {
    forall q :: x <= q < y ==> q in Pairs(s, lo, hi)
  }

  ghost predicate AllPaired(s: seq<Sop>, lo: nat, hi: nat)
    requires hi <= |s|
  {
    PairedOn(s, lo, hi, lo, hi)
  }

  lemma PairedWider(s: seq<Sop>, lo: nat, hi: nat, lo': nat, hi': nat)
    requires lo' <= lo <= hi <= hi' <= |s| && AllPaired(s, lo, hi)
    ensures PairedOn(s, lo', hi', lo, hi)
  {
    forall q | lo <= q < hi ensures q in Pairs(s, lo', hi') {
      assert q in Pairs(s, lo, hi) && Paired(s, lo, hi, q);
    }
  }

  /** Walking OOR2 offsets through the middle alternatives leads to the last one. */
  lemma {:induction false} ChainMid(s: seq<Sop>, b: nat, m: seq<Branch>)
    requires MidLaid(s, b, m) && b + MidLen(m) < |s|
    ensures ChoiceEnd(s, b) == ChoiceEnd(s, b + MidLen(m))
    decreases |m|
  {
    if m != [] {
      var F := Len(m[0].items);
      ChainMid(s, b + F + 2, m[1..]);
    }
  }

  /** Compiled code is paired throughout, wherever it stands in the strip. */
  lemma {:induction false} CodePaired(s: seq<Sop>, b: nat, xs: seq<Node>)
    requires Laid(s, b, xs)
    ensures AllPaired(s, b, b + Len(xs))
    decreases xs, 0
  {
    if xs != [] {
      var e, mid := b + Len(xs), b + NodeLen(xs[0]);
      NodePaired(s, b, xs[0]);
      CodePaired(s, mid, xs[1..]);
      PairedWider(s, b, mid, b, e);
      PairedWider(s, mid, e, b, e);
    }
  }

  lemma {:induction false} NodePaired(s: seq<Sop>, b: nat, x: Node)
    requires NodeLaid(s, b, x)
    ensures AllPaired(s, b, b + NodeLen(x))
    decreases x, 0
  {
    var e := b + NodeLen(x);
    match x
    case Plus(body) =>
      CodePaired(s, b + 1, body);
      PairedWider(s, b + 1, e - 1, b, e);
    case Quest(body) =>
      CodePaired(s, b + 1, body);
      PairedWider(s, b + 1, e - 1, b, e);
    case Choice(f, m, l) => ChoicePaired(s, b, f, m, l);
    case _ =>
  }

  lemma {:induction false} ChoicePaired(s: seq<Sop>, b: nat, f: seq<Node>, m: seq<Branch>, l: seq<Node>)
    requires NodeLaid(s, b, Choice(f, m, l))
    ensures AllPaired(s, b, b + NodeLen(Choice(f, m, l)))
    decreases Choice(f, m, l), -1
  {
    var F, D, L := Len(f), MidLen(m), Len(l);
    var u, e := b + 2 + F + D, b + F + D + L + 4;
    ChainMid(s, b + 2 + F, m);
    MidStarts(s, b + 2 + F, m);
    LastPaired(s, b, e, u, l);
    MidPaired(s, b, e, b + 2 + F, m);
    HeadPaired(s, b, e, f);
  }

  lemma {:induction false} HeadPaired(s: seq<Sop>, b: nat, e: nat, f: seq<Node>)
    requires HeadLaid(s, b, f) && b + 2 + Len(f) < e <= |s|
    requires s[b + 2 + Len(f)].OOR2?
    requires b + 2 + Len(f) < ChoiceEnd(s, b + 2 + Len(f)) < e && s[ChoiceEnd(s, b + 2 + Len(f))].O_CH?
    ensures PairedOn(s, b, e, b, b + 2 + Len(f))
    decreases f, 1
  {
    CodePaired(s, b + 1, f);
    PairedWider(s, b + 1, b + 1 + Len(f), b, e);
    assert b in Pairs(s, b, e) && b + 1 + Len(f) in Pairs(s, b, e);
  }

  lemma {:induction false} LastPaired(s: seq<Sop>, lo: nat, hi: nat, u: nat, l: seq<Node>)
    requires LastLaid(s, u, l) && lo < u && u + Len(l) + 2 == hi
    requires s[u - 1].OOR1?
    ensures PairedOn(s, lo, hi, u, hi) && ChoiceEnd(s, u) == hi - 1
    decreases l, 1
  {
    CodePaired(s, u + 1, l);
    PairedWider(s, u + 1, hi - 1, lo, hi);
    assert u in Pairs(s, lo, hi) && hi - 1 in Pairs(s, lo, hi);
  }

  /** What stands just after an OOR1 is an OOR2, and the other way round. */
  lemma {:induction false} MidStarts(s: seq<Sop>, b: nat, m: seq<Branch>)
    requires MidLaid(s, b, m) && b > 0 && b + MidLen(m) < |s|
    requires s[b - 1].OOR1? && s[b + MidLen(m)].OOR2?
    ensures s[b].OOR2? && s[b + MidLen(m) - 1].OOR1?
    decreases |m|
  {
    if m != [] { MidStarts(s, b + 2 + Len(m[0].items), m[1..]); }
  }

  /** The middle alternatives m, at b, of a choice that fills lo..hi. */
  lemma {:induction false} MidPaired(s: seq<Sop>, lo: nat, hi: nat, b: nat, m: seq<Branch>)
    requires lo < b && b + MidLen(m) + 1 < hi <= |s|
    requires MidLaid(s, b, m) && s[b - 1].OOR1?
    requires s[b + MidLen(m)].OOR2?
    requires b + MidLen(m) < ChoiceEnd(s, b + MidLen(m)) < hi && s[ChoiceEnd(s, b + MidLen(m))].O_CH?
    ensures s[b + MidLen(m) - 1].OOR1?
    ensures PairedOn(s, lo, hi, b, b + MidLen(m))
    decreases m, 0
  {
    if m != [] {
      var F := Len(m[0].items);
      CodePaired(s, b + 1, m[0].items);
      PairedWider(s, b + 1, b + 1 + F, lo, hi);
      var b' := b + F + 2;
      MidPaired(s, lo, hi, b', m[1..]);
      assert b in Pairs(s, lo, hi);
      assert b' - 1 in Pairs(s, lo, hi) by { ChainMid(s, b', m[1..]); }
    }
  }

  // ----- Soundness: moves stay within the reader's states -----

  lemma {:induction false} MPowSnoc(xs: seq<Node>, n: nat, t: seq<char>, i: int, k: int, j: int)
    requires i <= k <= j && MPow(xs, n, t, i, k) && M(xs, t, k, j)
    ensures MPow(xs, n + 1, t, i, j)
  {
  }

  /** NodeAt, extended to the state just past the node. */
  ghost predicate NodeAtX(x: Node, b: int, pc: int, t: seq<char>, i: int, p: int) {
    if pc < b + NodeLen(x) then NodeAt(x, b, pc, t, i, p) else MNode(x, t, i, p)
  }

  lemma {:induction false} AtFromNode(xs: seq<Node>, b: int, pc: int, t: seq<char>, i: int, p: int)
    requires xs != [] && i <= p && pc <= b + NodeLen(xs[0]) && NodeAtX(xs[0], b, pc, t, i, p)
    ensures At(xs, b, pc, t, i, p)
  {
    if pc == b + NodeLen(xs[0]) { AtStart(xs[1..], pc, t, p); }
  }

  lemma {:induction false} AtEps(s: seq<Sop>, b: nat, xs: seq<Node>, pc: nat, t: seq<char>, i: int, p: int, q: int)
    requires Laid(s, b, xs) && b <= pc < b + Len(xs) && i <= p
    requires At(xs, b, pc, t, i, p) && q in EpsTo(s, pc)
    ensures b <= q <= b + Len(xs) && At(xs, b, q, t, i, p)
    decreases xs, 0
  {
    var n := NodeLen(xs[0]);
    if pc < b + n {
      NodeEps(s, b, xs[0], pc, t, i, p, q);
      AtFromNode(xs, b, q, t, i, p);
    } else {
      var k :| i <= k <= p && MNode(xs[0], t, i, k) && At(xs[1..], b + n, pc, t, k, p);
      AtEps(s, b + n, xs[1..], pc, t, k, p, q);
    }
  }

  lemma {:induction false} NodeEps(s: seq<Sop>, b: nat, x: Node, pc: nat, t: seq<char>, i: int, p: int, q: int)
    requires NodeLaid(s, b, x) && b <= pc < b + NodeLen(x) && i <= p
    requires NodeAt(x, b, pc, t, i, p) && q in EpsTo(s, pc)
    ensures b <= q <= b + NodeLen(x) && NodeAtX(x, b, q, t, i, p)
    decreases x, 0
  {
    match x
    case Plus(body) => PlusEps(s, b, body, pc, t, i, p, q);
    case Quest(body) =>
      AtStart(body, b + 1, t, i);
      AtEnd(body, b + 1, t, i, p);
      if b < pc <= b + Len(body) { AtEps(s, b + 1, body, pc, t, i, p, q); }
    case Choice(f, m, l) => ChoiceEps(s, b, f, m, l, pc, t, i, p, q);
    case _ =>
  }

  lemma {:induction false} PlusEps(s: seq<Sop>, b: nat, body: seq<Node>, pc: nat, t: seq<char>, i: int, p: int, q: int)
    requires NodeLaid(s, b, Plus(body)) && b <= pc < b + NodeLen(Plus(body)) && i <= p
    requires NodeAt(Plus(body), b, pc, t, i, p) && q in EpsTo(s, pc)
    ensures b <= q <= b + NodeLen(Plus(body)) && NodeAtX(Plus(body), b, q, t, i, p)
    decreases body, 1
  {
    if pc == b {
      var n: nat :| MPow(body, n, t, i, p);
      AtStart(body, b + 1, t, p);
      assert At(body, b + 1, q, t, p, p);
    } else {
      var n: nat, k :| i <= k <= p && MPow(body, n, t, i, k) && At(body, b + 1, pc, t, k, p);
      if pc <= b + Len(body) {
        AtEps(s, b + 1, body, pc, t, k, p, q);
      } else {
        AtEnd(body, b + 1, t, k, p);
        MPowSnoc(body, n, t, i, k, p);
      }
    }
  }

  lemma {:induction false} ChoiceEps(s: seq<Sop>, b: nat, f: seq<Node>, m: seq<Branch>, l: seq<Node>,
                                     pc: nat, t: seq<char>, i: int, p: int, q: int)
    requires var x := Choice(f, m, l);
             && NodeLaid(s, b, x) && b <= pc < b + NodeLen(x) && i <= p
             && NodeAt(x, b, pc, t, i, p) && q in EpsTo(s, pc)
    ensures var x := Choice(f, m, l); b <= q <= b + NodeLen(x) && NodeAtX(x, b, q, t, i, p)
    decreases Choice(f, m, l), -1
  {
    var F, D := Len(f), MidLen(m);
    var u := b + 2 + F + D;
    if pc <= b + 1 + F {
      HeadEps(s, b, f, m, l, pc, t, i, p, q);
    } else if pc < u {
      MidEps(s, b + 2 + F, m, u + 1 + Len(l), pc, t, i, p, q);
    } else if pc <= u + Len(l) {
      LastEps(s, u, l, pc, t, i, p, q);
    }
  }

  lemma {:induction false} LastEps(s: seq<Sop>, u: nat, l: seq<Node>, pc: nat, t: seq<char>, i: int, p: int, q: int)
    requires LastLaid(s, u, l) && u <= pc <= u + Len(l) && i <= p && q in EpsTo(s, pc)
    requires if pc == u then i == p else At(l, u + 1, pc, t, i, p)
    ensures u < q <= u + 1 + Len(l)
    ensures if q <= u + Len(l) then At(l, u + 1, q, t, i, p) else M(l, t, i, p)
    decreases l, 2
  {
    BranchEps(s, u, l, pc, t, i, p, q);
    AtEnd(l, u + 1, t, i, p);
  }

  lemma {:induction false} HeadEps(s: seq<Sop>, b: nat, f: seq<Node>, m: seq<Branch>, l: seq<Node>,
                                   pc: nat, t: seq<char>, i: int, p: int, q: int)
    requires HeadLaid(s, b, f) && MidLaid(s, b + 2 + Len(f), m) && LastLaid(s, b + 2 + Len(f) + MidLen(m), l)
    requires b <= pc <= b + 1 + Len(f) && i <= p && q in EpsTo(s, pc)
    requires if pc == b then i == p else At(f, b + 1, pc, t, i, p)
    ensures pc == b ==> (q == b + 1 && At(f, b + 1, q, t, i, p)) || q == b + 2 + Len(f)
    ensures b < pc <= b + Len(f) ==> b < q <= b + 1 + Len(f) && At(f, b + 1, q, t, i, p)
    ensures pc == b + 1 + Len(f) ==> M(f, t, i, p) && q == b + Len(f) + MidLen(m) + Len(l) + 3
    decreases f, 2
  {
    BranchEps(s, b, f, pc, t, i, p, q);
    ChainMid(s, b + 2 + Len(f), m);
  }

  /** One alternative: the operator before it at b, its items, the operator after it. */
  lemma {:induction false} BranchEps(s: seq<Sop>, b: nat, xs: seq<Node>, pc: nat, t: seq<char>, i: int, p: int, q: int)
    requires Laid(s, b + 1, xs) && b <= pc <= b + 1 + Len(xs) < |s| && i <= p
    requires pc == b ==> i == p && (s[b].OCH_? || s[b].OOR2?)
    requires pc > b ==> At(xs, b + 1, pc, t, i, p)
    requires q in EpsTo(s, pc)
    ensures pc == b && q == b + 1 ==> At(xs, b + 1, q, t, i, p)
    ensures b < pc <= b + Len(xs) ==> b < q <= b + 1 + Len(xs) && At(xs, b + 1, q, t, i, p)
    ensures pc == b + 1 + Len(xs) ==> M(xs, t, i, p)
    decreases xs, 1
  {
    AtStart(xs, b + 1, t, i);
    AtEnd(xs, b + 1, t, i, p);
    if b < pc <= b + Len(xs) { AtEps(s, b + 1, xs, pc, t, i, p, q); }
  }

  lemma {:induction false} MidEps(s: seq<Sop>, b: nat, m: seq<Branch>, e: nat,
                                  pc: nat, t: seq<char>, i: int, p: int, q: int)
    requires MidLaid(s, b, m) && b <= pc < b + MidLen(m) < e < |s| && i <= p
    requires s[b + MidLen(m)].OOR2? && ChoiceEnd(s, b + MidLen(m)) == e
    requires MidAt(m, b, pc, t, i, p) && q in EpsTo(s, pc)
    ensures b <= q
    ensures q < b + MidLen(m) ==> MidAt(m, b, q, t, i, p)
    ensures q == b + MidLen(m) ==> i == p
    ensures q > b + MidLen(m) ==> q == e && MMid(m, t, i, p)
    decreases m, 0
  {
    var F := Len(m[0].items);
    ChainMid(s, b + F + 2, m[1..]);
    if pc <= b + 1 + F {
      BranchEps(s, b, m[0].items, pc, t, i, p, q);
    } else {
      MidEps(s, b + F + 2, m[1..], e, pc, t, i, p, q);
    }
  }
}
