/** The states a set-of-states search is in after each character, in terms of what the
    expression matches. */
module Live {
  import opened Strip
  import opened Reach
  import opened Closure

  // ----- Soundness: reading a character -----

  lemma {:induction false} AtEats(s: seq<Sop>, b: nat, xs: seq<Node>, pc: nat, t: seq<char>, i: int, p: nat)
    requires Laid(s, b, xs) && b <= pc < b + Len(xs) && i <= p < |t|
    requires At(xs, b, pc, t, i, p) && Eats(s[pc], t[p])
    ensures At(xs, b, pc + 1, t, i, p + 1)
    decreases xs, 0
  {
    var n := NodeLen(xs[0]);
    if pc < b + n {
      NodeEats(s, b, xs[0], pc, t, i, p);
      AtFromNode(xs, b, pc + 1, t, i, p + 1);
    } else {
      var k :| i <= k <= p && MNode(xs[0], t, i, k) && At(xs[1..], b + n, pc, t, k, p);
      AtEats(s, b + n, xs[1..], pc, t, k, p);
    }
  }

  lemma {:induction false} NodeEats(s: seq<Sop>, b: nat, x: Node, pc: nat, t: seq<char>, i: int, p: nat)
    requires NodeLaid(s, b, x) && b <= pc < b + NodeLen(x) && i <= p < |t|
    requires NodeAt(x, b, pc, t, i, p) && Eats(s[pc], t[p])
    ensures NodeAtX(x, b, pc + 1, t, i, p + 1)
    decreases x, 0
  {
    match x
    case Plus(body) =>
      var n: nat, k :| i <= k <= p && MPow(body, n, t, i, k) && At(body, b + 1, pc, t, k, p);
      AtEats(s, b + 1, body, pc, t, k, p);
    case Quest(body) => AtEats(s, b + 1, body, pc, t, i, p);
    case Choice(f, m, l) => ChoiceEats(s, b, f, m, l, pc, t, i, p);
    case _ =>
  }

  lemma {:induction false} ChoiceEats(s: seq<Sop>, b: nat, f: seq<Node>, m: seq<Branch>, l: seq<Node>,
                                      pc: nat, t: seq<char>, i: int, p: nat)
    requires var x := Choice(f, m, l);
             && NodeLaid(s, b, x) && b <= pc < b + NodeLen(x) && i <= p < |t|
             && NodeAt(x, b, pc, t, i, p) && Eats(s[pc], t[p])
    ensures NodeAtX(Choice(f, m, l), b, pc + 1, t, i, p + 1)
    decreases Choice(f, m, l), -1
  {
    var u := b + 2 + Len(f) + MidLen(m);
    if pc < b + 1 + Len(f) { AtEats(s, b + 1, f, pc, t, i, p); }
    else if pc < u { MidEats(s, b + 2 + Len(f), m, pc, t, i, p); }
    else {
      AtEats(s, u + 1, l, pc, t, i, p);
      AtEnd(l, u + 1, t, i, p + 1);
    }
  }

  lemma {:induction false} MidEats(s: seq<Sop>, b: nat, m: seq<Branch>, pc: nat, t: seq<char>, i: int, p: nat)
    requires MidLaid(s, b, m) && b <= pc < b + MidLen(m) && i <= p < |t|
    requires MidAt(m, b, pc, t, i, p) && Eats(s[pc], t[p])
    ensures pc + 1 < b + MidLen(m) && MidAt(m, b, pc + 1, t, i, p + 1)
    decreases m, 0
  {
    var F := Len(m[0].items);
    if pc <= b + F { AtEats(s, b + 1, m[0].items, pc, t, i, p); }
    else { MidEats(s, b + F + 2, m[1..], pc, t, i, p); }
  }

  // ----- Completeness: a family of closed sets that follows the text holds every state -----

  /** Sets F[0], F[1], ... of states within lo..hi of the strip, one for each position of
      the text: each closed, each holding what the one before can read. */
  datatype Run = Run(s: seq<Sop>, lo: nat, hi: nat, t: seq<char>, F: seq<set<int>>) {
    ghost predicate Ok() {
      && lo <= hi <= |s|
      && |F| <= |t| + 1
      && (forall k :: 0 <= k < |F| ==> Closed(s, lo, hi, F[k]))
      && (forall k :: 0 <= k < |F| - 1 ==> Eaten(s, lo, hi, F[k], t[k]) <= F[k + 1])
    }
  }

  type Family = r: Run | r.Ok() witness Run([], 0, 0, [], [])

  lemma {:induction false} AtIn(r: Family,
                                b: nat, xs: seq<Node>, pc: int, i: int, p: int)
    requires r.lo <= b && b + Len(xs) <= r.hi && Laid(r.s, b, xs)
    requires 0 <= i <= p < |r.F| && b in r.F[i] && b <= pc <= b + Len(xs) && At(xs, b, pc, r.t, i, p)
    ensures pc in r.F[p]
    decreases xs, 0
  {
    if xs != [] {
      var n := NodeLen(xs[0]);
      if pc < b + n {
        NodeIn(r, b, xs[0], pc, i, p);
      } else {
        var k :| i <= k <= p && MNode(xs[0], r.t, i, k) && At(xs[1..], b + n, pc, r.t, k, p);
        NodeIn(r, b, xs[0], b + n, i, k);
        AtIn(r, b + n, xs[1..], pc, k, p);
      }
    }
  }

  /** Matching carries membership from the start of the code to its end. */
  lemma {:induction false} MIn(r: Family, b: nat, xs: seq<Node>, i: int, p: int)
    requires r.lo <= b && b + Len(xs) <= r.hi && Laid(r.s, b, xs)
    requires 0 <= i <= p < |r.F| && b in r.F[i] && M(xs, r.t, i, p)
    ensures b + Len(xs) in r.F[p]
    decreases xs, 1
  {
    AtEnd(xs, b, r.t, i, p);
    AtIn(r, b, xs, b + Len(xs), i, p);
  }

  lemma {:induction false} NodeIn(r: Family,
                                  b: nat, x: Node, pc: int, i: int, p: int)
    requires r.lo <= b && b + NodeLen(x) <= r.hi && NodeLaid(r.s, b, x)
    requires 0 <= i <= p < |r.F| && b in r.F[i] && b <= pc <= b + NodeLen(x) && NodeAtX(x, b, pc, r.t, i, p)
    ensures pc in r.F[p]
    decreases x, 3
  {
    assert EpsTo(r.s, b) <= r.F[i];
    match x
    case Plus(body) => PlusIn(r, b, body, pc, i, p);
    case Quest(body) => QuestIn(r, b, body, pc, i, p);
    case Choice(f, m, l) => ChoiceIn(r, b, f, m, l, pc, i, p);
    case LPar(_) =>
    case RPar(_) =>
    case _ =>
      if pc > b { assert pc in Eaten(r.s, r.lo, r.hi, r.F[i], r.t[i]); }
  }

  lemma {:induction false} QuestIn(r: Family, b: nat, body: seq<Node>, pc: int, i: int, p: int)
    requires var x := Quest(body);
             && r.lo <= b && b + NodeLen(x) <= r.hi && NodeLaid(r.s, b, x)
             && 0 <= i <= p < |r.F| && b in r.F[i] && b <= pc <= b + NodeLen(x) && NodeAtX(x, b, pc, r.t, i, p)
    ensures pc in r.F[p]
    decreases body, 3
  {
    var e := b + 1 + Len(body);
    StepIn(r, b, i);
    if pc == b {
    } else if pc <= e {
      if At(body, b + 1, pc, r.t, i, p) { AtIn(r, b + 1, body, pc, i, p); }
    } else {
      if i != p { MIn(r, b + 1, body, i, p); }
      StepIn(r, e, p);
    }
  }

  lemma {:induction false} PlusIn(r: Family,
                                  b: nat, body: seq<Node>, pc: int, i: int, p: int)
    requires var x := Plus(body);
             && r.lo <= b && b + NodeLen(x) <= r.hi && NodeLaid(r.s, b, x)
             && 0 <= i <= p < |r.F| && b in r.F[i] && b <= pc <= b + NodeLen(x) && NodeAtX(x, b, pc, r.t, i, p)
    ensures pc in r.F[p]
    decreases body, 3
  {
    var e := b + 1 + Len(body);
    if pc == b {
      var n: nat :| MPow(body, n, r.t, i, p);
      PowIn(r, b, body, n, i, p);
    } else if pc <= e {
      var n: nat, k :| i <= k <= p && MPow(body, n, r.t, i, k) && At(body, b + 1, pc, r.t, k, p);
      PowIn(r, b, body, n, i, k);
      assert EpsTo(r.s, b) <= r.F[k];
      AtIn(r, b + 1, body, pc, k, p);
    } else {
      var n, k := PlusSplit(body, r.t, i, p);
      PowIn(r, b, body, n, i, k);
      assert EpsTo(r.s, b) <= r.F[k];
      MIn(r, b + 1, body, k, p);
      assert EpsTo(r.s, e) <= r.F[p];
    }
  }

  /** Going round a loop n times leads back to its head. */
  lemma {:induction false} PowIn(r: Family,
                                 b: nat, body: seq<Node>, n: nat, i: int, p: int)
    requires r.lo <= b && b + NodeLen(Plus(body)) <= r.hi && NodeLaid(r.s, b, Plus(body))
    requires 0 <= i <= p < |r.F| && b in r.F[i] && MPow(body, n, r.t, i, p)
    ensures b in r.F[p]
    decreases body, 2, n
  {
    if n > 0 {
      var k :| i <= k <= p && MPow(body, n - 1, r.t, i, k) && M(body, r.t, k, p);
      PowIn(r, b, body, n - 1, i, k);
      assert EpsTo(r.s, b) <= r.F[k];
      MIn(r, b + 1, body, k, p);
      assert EpsTo(r.s, b + 1 + Len(body)) <= r.F[p];
    }
  }

  lemma {:induction false} ChoiceIn(r: Family, b: nat, f: seq<Node>, m: seq<Branch>, l: seq<Node>, pc: int, i: int,
                                    p: int)
    requires r.lo <= b && b + NodeLen(Choice(f, m, l)) <= r.hi && NodeLaid(r.s, b, Choice(f, m, l))
    requires 0 <= i <= p < |r.F| && b in r.F[i] && NodeAtX(Choice(f, m, l), b, pc, r.t, i, p)
    requires b <= pc <= b + NodeLen(Choice(f, m, l))
    ensures pc in r.F[p]
    decreases Choice(f, m, l), 2
  {
    if pc < b + 2 + Len(f) { ChoiceHeadIn(r, b, f, m, l, pc, i, p); }
    else if pc < b + 2 + Len(f) + MidLen(m) { ChoiceMidIn(r, b, f, m, l, pc, i, p); }
    else if pc < b + 3 + Len(f) + MidLen(m) + Len(l) { ChoiceLastIn(r, b, f, m, l, pc, i, p); }
    else { ChoiceEndIn(r, b, f, m, l, pc, i, p); }
  }

  lemma {:induction false} ChoiceSplit(f: seq<Node>, m: seq<Branch>, l: seq<Node>, t: seq<char>, i: int, p: int)
    requires MNode(Choice(f, m, l), t, i, p)
    ensures M(f, t, i, p) || MMid(m, t, i, p) || M(l, t, i, p)
  {
  }

  lemma {:induction false} ChoiceHeadIn(r: Family, b: nat, f: seq<Node>, m: seq<Branch>, l: seq<Node>, pc: int,
                                        i: int, p: int)
    requires r.lo <= b && b + NodeLen(Choice(f, m, l)) <= r.hi && NodeLaid(r.s, b, Choice(f, m, l))
    requires 0 <= i <= p < |r.F| && b in r.F[i] && NodeAtX(Choice(f, m, l), b, pc, r.t, i, p)
    requires b <= pc < b + 2 + Len(f)
    ensures pc in r.F[p]
    decreases Choice(f, m, l), 1
  {
    HeadIn(r, b, f, pc, i, p);
  }

  lemma {:induction false} ChoiceMidIn(r: Family, b: nat, f: seq<Node>, m: seq<Branch>, l: seq<Node>, pc: int,
                                       i: int, p: int)
    requires r.lo <= b && b + NodeLen(Choice(f, m, l)) <= r.hi && NodeLaid(r.s, b, Choice(f, m, l))
    requires 0 <= i <= p < |r.F| && b in r.F[i] && NodeAtX(Choice(f, m, l), b, pc, r.t, i, p)
    requires b + 2 + Len(f) <= pc < b + 2 + Len(f) + MidLen(m)
    ensures pc in r.F[p]
    decreases Choice(f, m, l), 1
  {
    StepIn(r, b, i);
    MidIn(r, b + 2 + Len(f), m, b + 2 + Len(f) + MidLen(m), pc, i, p);
  }

  lemma {:induction false} ChoiceLastIn(r: Family, b: nat, f: seq<Node>, m: seq<Branch>, l: seq<Node>, pc: int,
                                        i: int, p: int)
    requires r.lo <= b && b + NodeLen(Choice(f, m, l)) <= r.hi && NodeLaid(r.s, b, Choice(f, m, l))
    requires 0 <= i <= p < |r.F| && b in r.F[i] && NodeAtX(Choice(f, m, l), b, pc, r.t, i, p)
    requires b + 2 + Len(f) + MidLen(m) <= pc < b + 3 + Len(f) + MidLen(m) + Len(l)
    ensures pc in r.F[p]
    decreases Choice(f, m, l), 1
  {
    var c, u := b + 2 + Len(f), b + 2 + Len(f) + MidLen(m);
    FrontIn(r, b, c, u, f, m, i);
    LastIn(r, u, l, pc, i, p);
  }

  lemma {:induction false} ChoiceEndIn(r: Family, b: nat, f: seq<Node>, m: seq<Branch>, l: seq<Node>, pc: int,
                                       i: int, p: int)
    requires r.lo <= b && b + NodeLen(Choice(f, m, l)) <= r.hi && NodeLaid(r.s, b, Choice(f, m, l))
    requires 0 <= i <= p < |r.F| && b in r.F[i] && NodeAtX(Choice(f, m, l), b, pc, r.t, i, p)
    requires b + 3 + Len(f) + MidLen(m) + Len(l) <= pc <= b + NodeLen(Choice(f, m, l))
    ensures pc in r.F[p]
    decreases Choice(f, m, l), 1
  {
    var c, u := b + 2 + Len(f), b + 2 + Len(f) + MidLen(m);
    var e := u + 1 + Len(l);
    ChoiceSplit(f, m, l, r.t, i, p);
    EndIn(r, b, c, u, e, f, m, l, i, p);
    if pc != e {
      LastEnd(r.s, u, l);
      StepIn(r, e, p);
    }
  }

  /** The OCH_ opens every alternative. */
  lemma {:induction false} FrontIn(r: Family, b: nat, c: nat, u: nat, f: seq<Node>, m: seq<Branch>, i: int)
    requires r.lo <= b && c == b + 2 + Len(f) && u == c + MidLen(m) < r.hi
    requires r.s[b] == OCH_(Len(f) + 2) && MidLaid(r.s, c, m) && r.s[u].OOR2?
    requires 0 <= i < |r.F| && b in r.F[i]
    ensures c in r.F[i] && u in r.F[i]
  {
    StepIn(r, b, i);
    ChainIn(r, c, m, u, i);
  }

  lemma {:induction false} ChainIn(r: Family, c: nat, m: seq<Branch>, u: nat, i: int)
    requires r.lo <= c && u == c + MidLen(m) < r.hi && MidLaid(r.s, c, m) && r.s[u].OOR2?
    requires 0 <= i < |r.F| && c in r.F[i]
    ensures u in r.F[i]
    decreases |m|
  {
    if m != [] {
      StepIn(r, c, i);
      ChainIn(r, c + 2 + Len(m[0].items), m[1..], u, i);
    }
  }

  /** A member's moves are members. */
  lemma StepIn(r: Family, b: nat, i: int)
    requires r.lo <= b < r.hi && 0 <= i < |r.F| && b in r.F[i]
    ensures EpsTo(r.s, b) <= r.F[i]
  {
  }

  lemma {:induction false} HeadIn(r: Family, b: nat, f: seq<Node>, pc: int, i: int, p: int)
    requires r.lo <= b && b + 2 + Len(f) < r.hi && HeadLaid(r.s, b, f)
    requires 0 <= i <= p < |r.F| && b in r.F[i] && b <= pc < b + 2 + Len(f)
    requires if pc == b then i == p else At(f, b + 1, pc, r.t, i, p)
    ensures pc in r.F[p]
    decreases f, 1
  {
    StepIn(r, b, i);
    if b < pc { AtIn(r, b + 1, f, pc, i, p); }
  }

  lemma {:induction false} LastIn(r: Family, u: nat, l: seq<Node>, pc: int, i: int, p: int)
    requires r.lo <= u && u + 1 + Len(l) < r.hi && LastLaid(r.s, u, l)
    requires 0 <= i <= p < |r.F| && u in r.F[i] && u <= pc <= u + 1 + Len(l)
    requires if pc == u then i == p else At(l, u + 1, pc, r.t, i, p)
    ensures pc in r.F[p]
    decreases l, 1
  {
    StepIn(r, u, i);
    if pc > u { AtIn(r, u + 1, l, pc, i, p); }
  }

  lemma {:induction false} LastEnd(s: seq<Sop>, u: nat, l: seq<Node>)
    requires LastLaid(s, u, l)
    ensures s[u].OOR2? && ChoiceEnd(s, u) == u + 1 + Len(l) && s[u + 1 + Len(l)] == O_CH(Len(l) + 2)
  {
  }

  /** Every alternative's end leads to the O_CH. */
  lemma {:induction false} EndIn(r: Family, b: nat, c: nat, u: nat, e: nat,
                                 f: seq<Node>, m: seq<Branch>, l: seq<Node>, i: int, p: int)
    requires r.lo <= b && c == b + 2 + Len(f) && u == c + MidLen(m) && e == u + 1 + Len(l) < r.hi
    requires HeadLaid(r.s, b, f) && MidLaid(r.s, c, m) && LastLaid(r.s, u, l)
    requires 0 <= i <= p < |r.F| && (M(f, r.t, i, p) || MMid(m, r.t, i, p) || M(l, r.t, i, p))
    requires b in r.F[i]
    ensures e in r.F[p]
    decreases Choice(f, m, l), 0
  {
    FrontIn(r, b, c, u, f, m, i);
    ChainMid(r.s, c, m);
    LastEnd(r.s, u, l);
    if M(f, r.t, i, p) {
      HeadEndIn(r, b, c, e, f, i, p);
    } else if M(l, r.t, i, p) {
      LastEndIn(r, u, l, i, p);
    } else {
      MidEndIn(r, c, m, u, e, i, p);
    }
  }

  lemma {:induction false} LastEndIn(r: Family, u: nat, l: seq<Node>, i: int, p: int)
    requires r.lo <= u && u + 1 + Len(l) < r.hi && LastLaid(r.s, u, l)
    requires 0 <= i <= p < |r.F| && u in r.F[i] && M(l, r.t, i, p)
    ensures u + 1 + Len(l) in r.F[p]
    decreases l, 2
  {
    StepIn(r, u, i);
    MIn(r, u + 1, l, i, p);
  }

  lemma {:induction false} HeadEndIn(r: Family, b: nat, c: nat, e: nat, f: seq<Node>, i: int, p: int)
    requires r.lo <= b && c == b + 2 + Len(f) < r.hi && HeadLaid(r.s, b, f) && ChoiceEnd(r.s, c) == e
    requires 0 <= i <= p < |r.F| && b in r.F[i] && M(f, r.t, i, p)
    ensures e in r.F[p]
    decreases f, 2
  {
    StepIn(r, b, i);
    MIn(r, b + 1, f, i, p);
    StepIn(r, b + 1 + Len(f), p);
  }

  lemma {:induction false} MidIn(r: Family,
                                 b: nat, m: seq<Branch>, u: nat, pc: int, i: int, p: int)
    requires r.lo <= b && b + MidLen(m) == u < r.hi && MidLaid(r.s, b, m) && r.s[u].OOR2?
    requires 0 <= i <= p < |r.F| && b in r.F[i] && b <= pc < u && MidAt(m, b, pc, r.t, i, p)
    ensures pc in r.F[p]
    decreases m, 0
  {
    var c := b + 2 + Len(m[0].items);
    assert r.s[c].OOR2?;
    StepIn(r, b, i);
    if pc == b {
    } else if pc < c {
      AtIn(r, b + 1, m[0].items, pc, i, p);
    } else {
      MidIn(r, c, m[1..], u, pc, i, p);
    }
  }

  lemma {:induction false} MidEndIn(r: Family, b: nat, m: seq<Branch>, u: nat, e: nat, i: int, p: int)
    requires r.lo <= b && b + MidLen(m) == u < r.hi && MidLaid(r.s, b, m) && ChoiceEnd(r.s, u) == e && r.s[u].OOR2?
    requires 0 <= i <= p < |r.F| && b in r.F[i] && MMid(m, r.t, i, p)
    ensures e in r.F[p]
    decreases m, 1
  {
    var c := b + 2 + Len(m[0].items);
    StepIn(r, b, i);
    if M(m[0].items, r.t, i, p) {
      MIn(r, b + 1, m[0].items, i, p);
      ChainMid(r.s, c, m[1..]);
      StepIn(r, c - 1, p);
    } else {
      assert r.s[c].OOR2?;
      MidEndIn(r, c, m[1..], u, e, i, p);
    }
  }
}
