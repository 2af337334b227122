/** Sequences without repetition, and linked segments. */
module Sequences {

  predicate NoDup<T(==)>(list: seq<T>) {
    list == [] || (list[0] !in list[1..] && NoDup(list[1..]))
  }

  lemma Assoc<T>(a: seq<T>, b: seq<T>, c: seq<T>)
    ensures a + b + c == a + (b + c)
  {
  }

  lemma TailItems<T>(list: seq<T>)
    requires NoDup(list) && list != []
    ensures NoDup(list[1..]) && forall x :: x in list[1..] <==> x in list && x != list[0]
  {
    assert forall x :: x in list ==> x == list[0] || x in list[1..];
  }

  lemma ConsItems<T>(x: T, list: seq<T>)
    requires NoDup(list) && x !in list
    ensures NoDup([x] + list) && ([x] + list)[1..] == list && forall y :: y in [x] + list <==> y == x || y in list
  {
  }

  lemma {:induction false} NoDupSnoc<T>(list: seq<T>, x: T)
    ensures NoDup(list + [x]) <==> NoDup(list) && x !in list
    decreases |list|
  {
    if list == [] {
      assert (list + [x])[1..] == [];
    } else {
      assert (list + [x])[1..] == list[1..] + [x] && (list + [x])[0] == list[0];
      NoDupSnoc(list[1..], x);
      assert forall y :: y in list[1..] + [x] <==> y in list[1..] || y == x;
    }
  }

  lemma {:induction false} NoDupDistinct<T>(list: seq<T>, i: nat, k: nat)
    requires NoDup(list) && i < |list| && k < |list| && i != k
    ensures list[i] != list[k]
    decreases |list|
  {
    if i > 0 && k > 0 { NoDupDistinct(list[1..], i - 1, k - 1); }
  }

  lemma {:induction false} NoDupAppend<T>(a: seq<T>, b: seq<T>)
    ensures NoDup(a + b) <==> NoDup(a) && NoDup(b) && forall x :: x in a ==> x !in b
    decreases |a|
  {
    if a == [] {
      assert a + b == b;
    } else {
      assert (a + b)[1..] == a[1..] + b && (a + b)[0] == a[0];
      NoDupAppend(a[1..], b);
      assert forall x :: x in a <==> x == a[0] || x in a[1..];
    }
  }

  /** Following nx from the first of bs leads through bs in order and then to end. */
  ghost predicate Segment<T>(nx: map<T, T>, bs: seq<T>, end: T)
    decreases |bs|
  {
    bs == [] || (bs[0] in nx && nx[bs[0]] == (if |bs| > 1 then bs[1] else end) && Segment(nx, bs[1..], end))
  }

  lemma {:induction false} SegmentSnoc<T>(nx: map<T, T>, bs: seq<T>, x: T, end: T)
    ensures Segment(nx, bs + [x], end) <==> Segment(nx, bs, x) && x in nx && nx[x] == end
    decreases |bs|
  {
    if bs == [] {
      assert (bs + [x])[1..] == [];
    } else {
      assert (bs + [x])[1..] == bs[1..] + [x] && (bs + [x])[0] == bs[0] &&
             (bs + [x])[1] == (if |bs| > 1 then bs[1] else x);
      SegmentSnoc(nx, bs[1..], x, end);
    }
  }

  /** h is where a leads: to b, or to the end if there is none. */
  lemma {:induction false} SegmentAppend<T>(nx: map<T, T>, a: seq<T>, b: seq<T>, h: T, end: T)
    requires if b == [] then h == end else h == b[0]
    ensures Segment(nx, a + b, end) <==> Segment(nx, a, h) && Segment(nx, b, end)
    decreases |a|
  {
    if a == [] {
      assert a + b == b;
    } else {
      assert (a + b)[1..] == a[1..] + b && (a + b)[0] == a[0];
      SegmentAppend(nx, a[1..], b, h, end);
      if |a| == 1 && b != [] { assert (a + b)[1] == b[0]; }
    }
  }

  lemma {:induction false} SegmentFrame<T>(nx: map<T, T>, nx': map<T, T>, bs: seq<T>, end: T)
    requires forall x :: x in bs && x in nx ==> x in nx' && nx'[x] == nx[x]
    requires Segment(nx, bs, end)
    ensures Segment(nx', bs, end)
    decreases |bs|
  {
    if bs != [] { SegmentFrame(nx, nx', bs[1..], end); }
  }

  /** A cycle may be read from any of its members. */
  lemma SegmentRotate<T>(nx: map<T, T>, a: seq<T>, b: seq<T>)
    requires b != [] && NoDup(a + b) && Segment(nx, a + b, (a + b)[0])
    ensures NoDup(b + a) && Segment(nx, b + a, b[0])
    ensures forall x :: x in b + a <==> x in a + b
  {
    NoDupAppend(a, b);
    NoDupAppend(b, a);
    SegmentAppend(nx, a, b, b[0], (a + b)[0]);
    SegmentAppend(nx, b, a, (a + b)[0], b[0]);
  }

  /** Linking p over c takes c out of the cycle. */
  lemma SegmentCut<T>(nx: map<T, T>, a: seq<T>, p: T, c: T, b: seq<T>, first: T)
    requires NoDup(a + [p] + [c] + b) && Segment(nx, a + [p] + [c] + b, first)
    ensures NoDup(a + [p] + b) && c !in a + [p] + b
    ensures Segment(nx[p := if b == [] then first else b[0]], a + [p] + b, first)
  {
    var h := if b == [] then first else b[0];
    var nx' := nx[p := h];
    NoDupAppend(a + [p] + [c], b);
    NoDupSnoc(a + [p], c);
    NoDupSnoc(a, p);
    NoDupAppend(a + [p], b);
    SegmentAppend(nx, a + [p] + [c], b, h, first);
    SegmentSnoc(nx, a + [p], c, h);
    SegmentSnoc(nx, a, p, c);
    SegmentFrame(nx, nx', a, p);
    SegmentFrame(nx, nx', b, first);
    SegmentSnoc(nx', a, p, h);
    SegmentAppend(nx', a + [p], b, h, first);
  }

  /** Linking b between t and what follows it puts b into the cycle. */
  lemma SegmentGrow<T>(nx: map<T, T>, t: T, tl: seq<T>, b: T)
    requires NoDup([t] + tl) && Segment(nx, [t] + tl, t) && b !in [t] + tl
    ensures t in nx && NoDup([b] + tl + [t]) && Segment(nx[b := nx[t]][t := b], [b] + tl + [t], b)
    ensures forall x :: x in [b] + tl + [t] <==> x == b || x in [t] + tl
  {
    var h := if tl == [] then t else tl[0];
    var nx' := nx[b := h][t := b];
    NoDupAppend([t], tl);
    SegmentAppend(nx, [t], tl, h, t);
    assert nx[t] == h;
    SegmentFrame(nx, nx', tl, t);
    NoDupAppend([b], tl);
    NoDupSnoc([b] + tl, t);
    SegmentAppend(nx', [b], tl, h, t);
    SegmentSnoc(nx', [b] + tl, t, b);
  }

  lemma CutItems<T>(a: seq<T>, p: T, c: T, b: seq<T>)
    ensures forall x :: x in a + [p] + [c] + b <==> x in a + [p] + b || x == c
  {
    var whole := a + [p] + [c] + b;
    assert whole[|a| + 1] == c;
    forall x | x in a + [p] + b ensures x in whole {
      var k :| 0 <= k < |a + [p] + b| && (a + [p] + b)[k] == x;
      assert whole[if k <= |a| then k else k + 1] == x;
    }
    forall x | x in whole ensures x in a + [p] + b || x == c {
      var k :| 0 <= k < |whole| && whole[k] == x;
      if k <= |a| { assert (a + [p] + b)[k] == x; } else if k > |a| + 1 { assert (a + [p] + b)[k - 1] == x; }
    }
  }

  lemma NotFirst<T>(a: seq<T>, p: T, b: seq<T>)
    requires NoDup(a + [p] + b)
    ensures (a + [p] + b)[0] == p <==> a == []
  {
    NoDupAppend(a + [p], b);
    NoDupSnoc(a, p);
    if a != [] { assert (a + [p] + b)[0] == a[0] && a[0] in a; }
  }

  lemma RotateItems<T>(b: T, tl: seq<T>, t: T)
    ensures forall x :: x in [b] + tl + [t] <==> x == b || x in [t] + tl
  {
    forall x ensures x in [b] + tl + [t] <==> x == b || x in tl || x == t {
      if x == t { assert ([b] + tl + [t])[|tl| + 1] == t; }
    }
  }
}
