/** Scatter/gather byte vectors (src/common/vec_t.cpp, src/common/vec_mkchunk.cpp): what they
    mean is the bytes of their parts one after the other, however they are cut into parts. */
module Vectors {
  import opened Sequences
  import opened Wrappers

  type Byte = b: int | 0 <= b < 256 witness 0

  const WORD: nat := 0x1_0000_0000

  function Flat(parts: seq<seq<Byte>>): seq<Byte> {
    if parts == [] then [] else parts[0] + Flat(parts[1..])
  }

  lemma {:induction false} FlatAppend(a: seq<seq<Byte>>, b: seq<seq<Byte>>)
    ensures Flat(a + b) == Flat(a) + Flat(b)
  {
    if a == [] {
      assert a + b == b;
    } else {
      assert (a + b)[0] == a[0] && (a + b)[1..] == a[1..] + b;
      FlatAppend(a[1..], b);
    }
  }

  lemma {:induction false} FlatOne(p: seq<Byte>)
    ensures Flat([p]) == p
  {
    assert [p][1..] == [];
    assert Flat([p]) == p + [];
  }

  lemma {:induction false} FlatSnoc(a: seq<seq<Byte>>, p: seq<Byte>)
    ensures Flat(a + [p]) == Flat(a) + p
  {
    FlatAppend(a, [p]);
    FlatOne(p);
  }

  /** The number of bytes before part i. */
  function Offset(parts: seq<seq<Byte>>, i: nat): (n: nat)
    requires i <= |parts|
    ensures n <= |Flat(parts)|
  {
    FlatAppend(parts[..i], parts[i..]);
    assert parts == parts[..i] + parts[i..];
    |Flat(parts[..i])|
  }

  lemma {:induction false} OffsetNext(parts: seq<seq<Byte>>, i: nat)
    requires i < |parts|
    ensures Offset(parts, i + 1) == Offset(parts, i) + |parts[i]|
    ensures Flat(parts[..i + 1]) == Flat(parts[..i]) + parts[i]
  {
    assert parts[..i + 1] == parts[..i] + [parts[i]];
    FlatSnoc(parts[..i], parts[i]);
  }

  /** Part i within the whole. */
  lemma {:induction false} PartAt(parts: seq<seq<Byte>>, i: nat)
    requires i < |parts|
    ensures var o := Offset(parts, i);
      && o + |parts[i]| <= |Flat(parts)| && Flat(parts)[o..o + |parts[i]|] == parts[i]
      && Flat(parts)[..o] == Flat(parts[..i]) && Flat(parts)[o..] == Flat(parts[i..])
  {
    assert parts == parts[..i] + parts[i..];
    FlatAppend(parts[..i], parts[i..]);
    assert parts[i..][0] == parts[i];
  }

  /** The whole up to n bytes into part i. */
  lemma {:induction false} Taken(parts: seq<seq<Byte>>, i: nat, n: nat)
    requires i < |parts| && n <= |parts[i]|
    ensures Offset(parts, i) + n <= |Flat(parts)|
    ensures Flat(parts)[..Offset(parts, i) + n] == Flat(parts)[..Offset(parts, i)] + parts[i][..n]
    ensures Flat(parts)[Offset(parts, i) + n..] == Flat(parts[i..])[n..]
  {
    PartAt(parts, i);
    var o, w := Offset(parts, i), Flat(parts);
    assert w[o..o + |parts[i]|][..n] == w[o..o + n];
    assert w[..o + n] == w[..o] + w[o..o + n];
    assert w[o + n..] == w[o..][n..];
  }

  /** What is left after n bytes of part i. */
  function Rest(parts: seq<seq<Byte>>, i: nat, n: nat): seq<Byte>
    requires i < |parts| ==> n <= |parts[i]|
  {
    if i < |parts| then parts[i][n..] + Flat(parts[i + 1..]) else []
  }

  lemma {:induction false} RestIs(parts: seq<seq<Byte>>, i: nat, n: nat)
    requires i < |parts| && n <= |parts[i]|
    ensures Offset(parts, i) + n <= |Flat(parts)| && Rest(parts, i, n) == Flat(parts)[Offset(parts, i) + n..]
  {
    Taken(parts, i, n);
    assert parts[i..][0] == parts[i] && parts[i..][1..] == parts[i + 1..];
  }

  lemma {:induction false} RestNext(parts: seq<seq<Byte>>, i: nat, n: nat)
    requires i < |parts| && n <= |parts[i]|
    ensures Rest(parts, i, n) == parts[i][n..] + Rest(parts, i + 1, 0)
  {
    if i + 1 < |parts| {
      var tl := parts[i + 1..];
      assert tl[0] == parts[i + 1] && tl[1..] == parts[i + 2..];
    } else {
      assert parts[i + 1..] == [];
    }
  }

  lemma {:induction false} OffsetEnd(parts: seq<seq<Byte>>)
    ensures Offset(parts, |parts|) == |Flat(parts)|
  {
    assert parts[..|parts|] == parts;
  }

  // ----- Order -----

  /** a is before b in the order of the first byte that differs; a proper prefix comes first. */
  ghost predicate Below(a: seq<Byte>, b: seq<Byte>) {
    exists k :: Splits(a, b, k)
  }

  predicate Splits(a: seq<Byte>, b: seq<Byte>, k: nat) {
    k <= |a| && k < |b| && a[..k] == b[..k] && (k == |a| || a[k] < b[k])
  }

  lemma Agree(a: seq<Byte>, b: seq<Byte>, k: nat)
    requires k <= |a| && k <= |b| && a[..k] == b[..k]
    ensures forall i :: 0 <= i < k ==> a[i] == b[i]
  {
    forall i | 0 <= i < k ensures a[i] == b[i] {
      assert a[..k][i] == b[..k][i];
    }
  }

  lemma SplitsOnce(a: seq<Byte>, b: seq<Byte>, k: nat)
    requires Splits(a, b, k)
    ensures Below(a, b) && !Below(b, a) && a != b
  {
    Agree(a, b, k);
    if Below(b, a) {
      var m :| Splits(b, a, m);
      Agree(b, a, m);
    }
  }

  /** The length of the longest common prefix. */
  function Common(a: seq<Byte>, b: seq<Byte>): (k: nat)
    ensures k <= |a| && k <= |b| && a[..k] == b[..k]
    ensures k == |a| || k == |b| || a[k] != b[k]
  {
    if a == [] || b == [] || a[0] != b[0] then 0
    else
      var k := Common(a[1..], b[1..]);
      assert a[..k + 1] == [a[0]] + a[1..][..k] && b[..k + 1] == [b[0]] + b[1..][..k];
      k + 1
  }

  lemma CommonIs(a: seq<Byte>, b: seq<Byte>, k: nat)
    requires k <= |a| && k <= |b| && a[..k] == b[..k] && (k == |a| || k == |b| || a[k] != b[k])
    ensures k == Common(a, b)
  {
    Agree(a, b, k);
    Agree(a, b, Common(a, b));
  }

  /** d is the difference of the first bytes, of the first n, that differ. */
  predicate FirstDiffers(p: seq<Byte>, q: seq<Byte>, n: nat, k: int, d: int) {
    0 <= k < n && k < |p| && k < |q| && p[..k] == q[..k] && d == p[k] as int - q[k] as int
  }

  /** The sign of the first difference of unsigned bytes. */
  method MemCmp(p: seq<Byte>, q: seq<Byte>, n: nat) returns (d: int)
    requires n <= |p| && n <= |q|
    ensures d == 0 <==> Agreed(p, q, n)
    ensures d != 0 ==> exists k :: FirstDiffers(p, q, n, k, d)
  {
    var i := 0;
    while i < n && p[i] == q[i]
      invariant 0 <= i <= n && p[..i] == q[..i]
    {
      i := i + 1;
    }
    if i < n {
      assert p[..n][i] == p[i] && q[..n][i] == q[i];
      d := p[i] as int - q[i] as int;
      assert FirstDiffers(p, q, n, i, d);
      return;
    }
    return 0;
  }

  // ----- The 32-bit value a key is remembered by -----

  function Folded(h: nat): nat {
    if h / 0x800_0000 % 32 != 0 then h % 0x800_0000 + h / 0x800_0000 else h
  }

  function Hash(h: nat, s: seq<Byte>): nat
    decreases |s|
  {
    if s == [] then h else Hash((Folded(h) * 32 + s[0]) % WORD, s[1..])
  }

  lemma {:induction false} HashAppend(h: nat, a: seq<Byte>, b: seq<Byte>)
    ensures Hash(h, a + b) == Hash(Hash(h, a), b)
    decreases |a|
  {
    if a == [] {
      assert a + b == b;
    } else {
      assert (a + b)[0] == a[0] && (a + b)[1..] == a[1..] + b;
      HashAppend((Folded(h) * 32 + a[0]) % WORD, a[1..], b);
    }
  }

  /** The bytes as a little-endian number. */
  function LittleEndian(s: seq<Byte>): nat {
    if s == [] then 0 else s[0] + 256 * LittleEndian(s[1..])
  }

  function Kvl(s: seq<Byte>): nat {
    if |s| <= 4 then LittleEndian(s) else Hash(0, s)
  }

  function Span(n: nat): (p: nat)
    ensures p >= 1
  {
    if n == 0 then 1 else 256 * Span(n - 1)
  }

  lemma {:induction false} LittleEndianBound(s: seq<Byte>)
    ensures LittleEndian(s) < Span(|s|)
    ensures |s| <= 4 ==> Span(|s|) <= WORD
  {
    if s != [] { LittleEndianBound(s[1..]); }
    SpanBound(|s|);
  }

  lemma SpanBound(n: nat)
    ensures n <= 4 ==> Span(n) <= WORD
  {
    assert Span(1) == 256 && Span(2) == 0x1_0000 && Span(3) == 0x100_0000 && Span(4) == WORD;
  }

  // ----- Chunks -----

  /** At most max bytes of w, after the first offset. */
  function Chunk(w: seq<Byte>, max: nat, offset: nat): seq<Byte> {
    var o := Min(offset, |w|);
    w[o..Min(o + max, |w|)]
  }

  /** The chunks at offset, offset + max, ... up to the end. */
  function Chunks(w: seq<Byte>, max: nat, offset: nat): seq<Byte>
    requires max > 0
    decreases |w| - offset
  {
    if offset >= |w| then [] else Chunk(w, max, offset) + Chunks(w, max, offset + max)
  }

  /** Successive chunks are the whole. */
  lemma {:induction false} ChunksJoin(w: seq<Byte>, max: nat, offset: nat)
    requires max > 0
    ensures Chunks(w, max, offset) == w[Min(offset, |w|)..]
    decreases |w| - offset
  {
    if offset < |w| { ChunksJoin(w, max, offset + max); }
  }

  // ----- Vectors -----

  function Min(a: nat, b: nat): nat { if a < b then a else b }

  class Vec {
    var parts: seq<seq<Byte>>
    var size: nat

    ghost predicate Valid()
      reads this
    {
      size == |Contents()|
    }

    function Contents(): seq<Byte>
      reads this
    {
      Flat(parts)
    }

    constructor ()
      ensures Valid() && Contents() == [] && parts == []
    {
      parts, size := [], 0;
    }

    method Reset()
      modifies this
      ensures Valid() && Contents() == [] && parts == []
    {
      parts, size := [], 0;
    }

    /** Appends a part; an empty one leaves no trace. */
    method Put(p: seq<Byte>)
      requires Valid()
      modifies this
      ensures Valid() && Contents() == old(Contents()) + p
      ensures parts == if p == [] then old(parts) else old(parts) + [p]
    {
      FlatSnoc(parts, p);
      if |p| > 0 {
        parts := parts + [p];
        size := size + |p|;
      }
    }

    /** Appends the parts of v. */
    method PutVec(v: Vec)
      requires Valid() && v.Valid()
      modifies this
      ensures Valid() && Contents() == old(Contents() + v.Contents()) && parts == old(parts + v.parts)
    {
      FlatAppend(parts, v.parts);
      ghost var was, vp := parts, v.parts;
      var n := |v.parts|;
      var added := v.size;
      for i := 0 to n
        invariant n == |vp| && |v.parts| >= n && v.parts[..n] == vp && parts == was + vp[..i] && size == old(size)
      {
        assert vp[..i + 1] == vp[..i] + [vp[i]] && v.parts[i] == vp[i];
        parts := parts + [v.parts[i]];
      }
      assert vp[..n] == vp;
      size := size + added;
    }
  
    /** The first l1 bytes to the end of v1, the others to the end of v2, which may be the same. */
    method Split(l1: nat, v1: Vec, v2: Vec)
      requires Valid() && v1.Valid() && v2.Valid() && v1 != this && v2 != this
      modifies v1, v2
      ensures v1.Valid() && v2.Valid()
      ensures v1 != v2 ==> v1.Contents() == old(v1.Contents()) + Contents()[..Min(l1, size)]
      ensures v1 != v2 ==> v2.Contents() == old(v2.Contents()) + Contents()[Min(l1, size)..]
      ensures v1 == v2 ==> v1.Contents() == old(v1.Contents()) + Contents()
    {
      ghost var was, m := v1.Contents(), Min(l1, size);
      var i, least := SplitFront(l1, v1);
      if i < |parts| { RestIs(parts, i, least); }
      SplitRest(i, least, v2);
      Assoc(was, Contents()[..m], Contents()[m..]);
      assert Contents()[..m] + Contents()[m..] == Contents();
    }

    /** Up to l1 bytes to the end of v1; they end least bytes into part i. */
    method SplitFront(l1: nat, v1: Vec) returns (i: nat, least: nat)
      requires Valid() && v1.Valid() && v1 != this
      modifies v1
      ensures v1.Valid() && v1.Contents() == old(v1.Contents()) + Contents()[..Min(l1, size)]
      ensures if i < |parts| then least <= |parts[i]| && Min(l1, size) == Offset(parts, i) + least
              else Min(l1, size) == size
    {
      var l: nat := l1;
      ghost var was := v1.Contents();
      i, least := 0, 0;
      while i < |parts|
        invariant i <= |parts| && (i == 0 ==> least == 0) && (i > 0 ==> l > 0)
        invariant l + Offset(parts, i) == l1
        invariant v1.Valid() && v1.Contents() == was + Contents()[..Offset(parts, i)]
      {
        OffsetNext(parts, i);
        ghost var n := Min(l, |parts[i]|);
        Taken(parts, i, n);
        Assoc(was, Contents()[..Offset(parts, i)], parts[i][..n]);
        if l > 0 {
          least := if |parts[i]| > l then l else |parts[i]|;
          v1.Put(parts[i][..least]);
          l := l - least;
        }
        if l <= 0 { return; }
        i := i + 1;
      }
      OffsetEnd(parts);
    }

    /** What is left after most bytes of the first part, and the parts after it. */
    method SplitRest(first: nat, most: nat, v2: Vec)
      requires v2.Valid() && v2 != this && (first < |parts| ==> most <= |parts[first]|)
      modifies v2
      ensures v2.Valid() && v2.Contents() == old(v2.Contents()) + Rest(parts, first, most)
    {
      var i: nat, least: nat := first, most;
      ghost var was, done: seq<Byte> := v2.Contents(), [];
      while i < |parts|
        invariant v2.Valid() && (i < |parts| ==> least <= |parts[i]|)
        invariant v2.Contents() == was + done && done + Rest(parts, i, least) == Rest(parts, first, most)
      {
        var p := parts[i][least..];
        RestNext(parts, i, least);
        Assoc(done, p, Rest(parts, i + 1, 0));
        Assoc(was, done, p);
        v2.Put(p);
        done := done + p;
        least := 0;
        i := i + 1;
      }
    }

    /** Appends the n bytes of v from start on. */
    method PutRange(v: Vec, start: nat, n: nat)
      requires Valid() && v.Valid() && |v.parts| > 0 && start + n <= v.size
      modifies this
      ensures Valid() && Contents() == old(Contents() + v.Contents()[start..start + n])
    {
      var vp := v.parts;
      var s := FindPart(vp, start);
      OffsetNext(vp, s);
      var from := start - Offset(vp, s);
      var more := Gather(vp, s, from, n);
      FlatAppend(parts, more);
      parts := parts + more;
      size := size + n;
    }

    /** The part that the byte after the first start is in; the last one if there is none. */
    static method FindPart(vp: seq<seq<Byte>>, start: nat) returns (s: nat)
      requires |vp| > 0 && start <= |Flat(vp)|
      ensures s < |vp| && Offset(vp, s) <= start <= Offset(vp, s + 1)
    {
      var i, total := 0, 0;
      while i < |vp| && total <= start
        invariant i <= |vp| && total == Offset(vp, i)
        invariant i > 0 ==> Offset(vp, i - 1) <= start
      {
        OffsetNext(vp, i);
        total := total + |vp[i]|;
        i := i + 1;
      }
      OffsetEnd(vp);
      s := i - 1;
    }

    /** n bytes from byte from of part s on, as parts of their own. */
    static method Gather(vp: seq<seq<Byte>>, s: nat, from: nat, n: nat) returns (more: seq<seq<Byte>>)
      requires s < |vp| && from <= |vp[s]| && Offset(vp, s) + from + n <= |Flat(vp)|
      ensures Flat(more) == Flat(vp)[Offset(vp, s) + from..Offset(vp, s) + from + n]
    {
      ghost var start := Offset(vp, s) + from;
      var last := vp[s][from..];
      var total: nat, i: nat := |last|, 1;
      more := [];
      OffsetNext(vp, s);
      PieceIs(vp, s, from);
      ghost var had: nat := 0;
      while total < n
        invariant 1 <= i && s + i <= |vp| && Offset(vp, s + i) == start + total && total == had + |last|
        invariant Gathered(Flat(vp), start, more, last, had) && had <= n
        decreases |vp| - i
      {
        OffsetEnd(vp);
        GatherOn(vp, s + i, start, more, last, had);
        more, had := more + [last], total;
        last := vp[s + i];
        total := total + |last|;
        i := i + 1;
      }
      GatherEnd(Flat(vp), start, more, last, had, n);
      last := last[..|last| - (total - n)];
      more := more + [last];
    }

    /** The first limit bytes. */
    method CopyTo(limit: nat) returns (s: seq<Byte>)
      requires Valid()
      ensures s == Contents()[..Min(limit, size)]
    {
      var left: nat, i: nat := limit, 0;
      s := [];
      while i < |parts| && left > 0
        invariant i <= |parts| && left + |s| == limit
        invariant |s| <= size && (left == 0 ==> |s| == limit)
        invariant s == Contents()[..if left > 0 then Offset(parts, i) else |s|]
      {
        OffsetNext(parts, i);
        var n := if left > |parts[i]| then |parts[i]| else left;
        Taken(parts, i, n);
        s := s + parts[i][..n];
        left := left - n;
        i := i + 1;
      }
      OffsetEnd(parts);
    }

    /** What the vector stands for in comparisons: pos and neg stand for the infinities. */
    function AsKey(pos: Vec, neg: Vec): Key
      reads this
    {
      if this == pos then PosInf else if this == neg then NegInf else Bytes(Contents())
    }

    /** The comparison goes wrong: this is the positive infinity, which counts as empty, and v is
        not empty; or one is a prefix of the other, and the difference of the sizes loses its
        sign in an int. */
    predicate Misjudged(v: Vec, pos: Vec, neg: Vec)
      reads this, v
    {
      || (this == pos && v.size != 0)
      || (this != pos && this != neg && v != pos && v != neg && size > 0
          && Prefixed(Contents(), v.Contents()) && !SignKept(size - v.size))
    }

    /** The sign of the order of the bytes, and how many the two have in common where that is told. */
    method Cmp(v: Vec, pos: Vec, neg: Vec) returns (r: int, common: Option<nat>)
      requires Valid() && v.Valid() && pos != neg && pos.Valid() && neg.Valid() && pos.size == neg.size == 0
      ensures KeyOrdered(r, AsKey(pos, neg), v.AsKey(pos, neg)) <==> !Misjudged(v, pos, neg)
      ensures this == pos && v.size != 0 ==> r < 0
      ensures common == if v == this then Some(size)
                        else if r == 0 || size == 0 || v == pos || v == neg then None
                        else Some(Common(Contents(), v.Contents()))
    {
      ghost var a, b := Contents(), v.Contents();
      if v == this {
        NotBelowSelf(a);
        PrefixOrder(a, a, size);
        return 0, Some(v.size);
      }
      if size == 0 && v.size != 0 {
        assert Splits(a, b, 0);
        SplitsOnce(a, b, 0);
        return -1, None;
      }
      if this == neg || v == pos { return -1, None; }
      if this == pos || v == neg { return 1, None; }
      r, common := Compare(v);
      ToldOrdered(r, a, b);
    }

    /** cmp past its special cases. */
    method Compare(v: Vec) returns (r: int, common: Option<nat>)
      requires Valid() && v.Valid() && (size == 0 ==> v.size == 0)
      ensures Told(r, Contents(), v.Contents())
      ensures common == if r == 0 then None else Some(Common(Contents(), v.Contents()))
    {
      ghost var p: nat := 0;
      var l1: nat, l2: nat := size, v.size;
      var i1: nat, i2: nat, j1: nat, j2: nat := 0, 0, 0, 0;
      while l1 > 0 && l2 > 0
        invariant l1 + p == size && l2 + p == v.size && Agreed(Contents(), v.Contents(), p)
        invariant Stands(parts, i1, j1, p) && Stands(v.parts, i2, j2, p)
        decreases l1 + (|parts| - i1) + (|v.parts| - i2)
      {
        var least;
        least, r, common := Meet(v, i1, j1, i2, j2, l1, p);
        if r != 0 { return; }
        i1, j1 := Advance(i1, j1, least, p);
        i2, j2 := v.Advance(i2, j2, least, p);
        l1, l2, p := l1 - least, l2 - least, p + least;
      }
      r, common := LongerWins(v, l1, l2, p);
    }

    /** All of one, or of both, has been compared; l1 and l2 bytes are left. */
    method LongerWins(v: Vec, l1: nat, l2: nat, ghost p: nat) returns (r: int, common: Option<nat>)
      requires Valid() && v.Valid() && l1 + p == size && l2 + p == v.size && (l1 == 0 || l2 == 0)
      requires Agreed(Contents(), v.Contents(), p)
      ensures Told(r, Contents(), v.Contents())
      ensures common == if r == 0 then None else Some(Common(Contents(), v.Contents()))
    {
      r := Int32(l1 - l2);
      common := None;
      if r != 0 { common := if l1 == 0 then Some(size) else Some(v.size); }
      PrefixOrder(Contents(), v.Contents(), p);
    }

    /** Compares as many bytes as both parts have left. */
    method Meet(v: Vec, i1: nat, j1: nat, i2: nat, j2: nat, l: nat, ghost p: nat)
      returns (least: nat, r: int, common: Option<nat>)
      requires Valid() && v.Valid() && p + l == size && 0 < l && p < v.size
      requires Stands(parts, i1, j1, p) && Stands(v.parts, i2, j2, p) && Agreed(Contents(), v.Contents(), p)
      ensures i1 < |parts| && i2 < |v.parts| && j1 + least <= |parts[i1]| && j2 + least <= |v.parts[i2]|
      ensures j1 + least == |parts[i1]| || j2 + least == |v.parts[i2]|
      ensures r == 0 ==> Agreed(Contents(), v.Contents(), p + least)
      ensures r != 0 ==> Ordered(r, Contents(), v.Contents()) && !Prefixed(Contents(), v.Contents())
      ensures r != 0 ==> common == Some(Common(Contents(), v.Contents()))
    {
      ghost var a, b := Contents(), v.Contents();
      InPart(parts, i1, j1, p);
      InPart(v.parts, i2, j2, p);
      least := Min(|parts[i1]| - j1, |v.parts[i2]| - j2);
      var x, y := parts[i1][j1..], v.parts[i2][j2..];
      r := MemCmp(x, y, least);
      common := None;
      if r != 0 { common := Differ(x, y, least, r, size, l, a, b, p); } else { SameFurther(a, b, p, x, y, least); }
    }

    /** n bytes on within part i, or to the next part. */
    method Advance(i: nat, j: nat, n: nat, ghost p: nat) returns (i': nat, j': nat)
      requires Stands(parts, i, j, p) && i < |parts| && j + n <= |parts[i]|
      ensures Stands(parts, i', j', p + n) && i <= i' && (j + n == |parts[i]| ==> i < i')
    {
      Further(parts, i, j, p, n);
      i', j' := i, j + n;
      if j' >= |parts[i]| { i', j' := i + 1, 0; }
    }

    /** The 32-bit value of the bytes, the same however they are cut into parts. */
    method CalcKvl() returns (rh: nat)
      requires Valid()
      ensures rh == Kvl(Contents()) < WORD
    {
      if size <= 4 {
        var s := CopyTo(size);
        assert s == Contents();
        LittleEndianBound(s);
        return LittleEndian(s);
      }
      var h: nat := 0;
      var i: nat := 0;
      while i < |parts|
        invariant i <= |parts| && h == Hash(0, Flat(parts[..i])) < WORD
      {
        OffsetNext(parts, i);
        HashAppend(0, Flat(parts[..i]), parts[i]);
        h := HashPart(h, parts[i]);
        i := i + 1;
      }
      assert parts[..|parts|] == parts;
      rh := h;
    }

    static method HashPart(h0: nat, s: seq<Byte>) returns (h: nat)
      requires h0 < WORD
      ensures h == Hash(h0, s) < WORD
    {
      h := h0;
      var j: nat := 0;
      while j < |s|
        invariant j <= |s| && h < WORD && Hash(h, s[j..]) == Hash(h0, s)
      {
        if h / 0x800_0000 % 32 != 0 { h := h % 0x800_0000 + h / 0x800_0000; }
        h := (h * 32 + s[j]) % WORD;
        assert s[j..][1..] == s[j + 1..];
        j := j + 1;
      }
    }

    /** The next maxsize bytes after the first offset, or what there is of them. */
    method MkChunk(maxsize: nat, offset: nat, result: Vec)
      requires Valid() && result != this
      modifies result
      ensures result.Valid() && result.Contents() == Chunk(Contents(), maxsize, offset)
    {
      result.Reset();
      var first, skipped, found := FindFirst(offset);
      if !found { return; }
      var at := offset - skipped;
      var len := Min(|parts[first]| - at, maxsize);
      FirstPiece(parts, first, at, len);
      result.Put(parts[first][at..at + len]);
      if len < maxsize {
        OffsetNext(parts, first);
        FillUp(maxsize, offset, first + 1, len, result);
      }
    }

    /** The part that byte offset is in, and the number of bytes before that part. */
    method FindFirst(offset: nat) returns (i: nat, skipped: nat, found: bool)
      requires Valid()
      ensures found <==> offset < size
      ensures found ==> i < |parts| && skipped == Offset(parts, i) <= offset < skipped + |parts[i]|
    {
      i, skipped := 0, 0;
      while i < |parts|
        invariant i <= |parts| && skipped == Offset(parts, i) <= offset
      {
        OffsetNext(parts, i);
        PartAt(parts, i);
        if skipped + |parts[i]| > offset { return i, skipped, true; }
        skipped := skipped + |parts[i]|;
        i := i + 1;
      }
      OffsetEnd(parts);
      found := false;
    }

    /** More parts, from part first on, to a result that has used bytes. */
    method FillUp(maxsize: nat, offset: nat, first: nat, used0: nat, result: Vec)
      requires Valid() && result.Valid() && result != this && first <= |parts| && used0 < maxsize
      requires Offset(parts, first) == offset + used0
      requires PartOf(result.Contents(), Contents(), offset) && |result.Contents()| == used0
      modifies result
      ensures result.Valid() && result.Contents() == Chunk(Contents(), maxsize, offset)
    {
      var i: nat, used: nat := first, used0;
      while i < |parts|
        invariant i <= |parts| && used <= maxsize && Offset(parts, i) == offset + used
        invariant result.Valid() && PartOf(result.Contents(), Contents(), offset) && |result.Contents()| == used
      {
        FillOn(parts, i, offset, result.Contents(), Min(|parts[i]|, maxsize - used));
        if used + |parts[i]| <= maxsize {
          used := used + |parts[i]|;
          result.Put(parts[i]);
        } else {
          result.Put(parts[i][..maxsize - used]);
          return;
        }
        i := i + 1;
      }
      OffsetEnd(parts);
    }
  }

  /** r has the sign of the order of a and b. */
  ghost predicate Ordered(r: int, a: seq<Byte>, b: seq<Byte>) {
    (r < 0 <==> Below(a, b)) && (r > 0 <==> Below(b, a)) && (r == 0 <==> a == b)
  }

  /** One is a prefix of the other. */
  predicate Prefixed(a: seq<Byte>, b: seq<Byte>) {
    Common(a, b) == |a| || Common(a, b) == |b|
  }

  /** A difference as an int of 32 bits. */
  function Int32(d: int): int {
    if d % WORD < WORD / 2 then d % WORD else d % WORD - WORD
  }

  /** As an int the difference has the sign it had. */
  predicate SignKept(d: int) {
    if d < 0 then d % WORD >= WORD / 2 else if d == 0 then true else 0 < d % WORD < WORD / 2
  }

  /** What cmp returns for finite vectors. */
  ghost predicate Told(r: int, a: seq<Byte>, b: seq<Byte>) {
    if Prefixed(a, b) then r == Int32(|a| - |b|) else Ordered(r, a, b)
  }

  lemma ToldOrdered(r: int, a: seq<Byte>, b: seq<Byte>)
    requires Told(r, a, b)
    ensures Ordered(r, a, b) <==> !Prefixed(a, b) || SignKept(|a| - |b|)
    ensures 0 - WORD / 2 <= |a| - |b| < WORD / 2 ==> Ordered(r, a, b)
  {
    if Prefixed(a, b) { PrefixOrder(a, b, Common(a, b)); }
  }

  /** What a vector stands for in comparisons. */
  datatype Key = NegInf | Bytes(s: seq<Byte>) | PosInf

  ghost predicate KeyBelow(a: Key, b: Key) {
    match a
    case NegInf => b != NegInf
    case Bytes(s) => b.PosInf? || (b.Bytes? && Below(s, b.s))
    case PosInf => false
  }

  /** r has the sign of the order of a and b. */
  ghost predicate KeyOrdered(r: int, a: Key, b: Key) {
    (r < 0 <==> KeyBelow(a, b)) && (r > 0 <==> KeyBelow(b, a)) && (r == 0 <==> a == b)
  }

  /** Byte p of the whole is byte j of part i, or what follows it. */
  predicate Stands(parts: seq<seq<Byte>>, i: nat, j: nat, p: nat) {
    i <= |parts| && Offset(parts, i) + j == p && (if i < |parts| then j == 0 || j < |parts[i]| else j == 0)
  }

  lemma InPart(parts: seq<seq<Byte>>, i: nat, j: nat, p: nat)
    requires Stands(parts, i, j, p) && p < |Flat(parts)|
    ensures i < |parts| && j <= |parts[i]| && PartOf(parts[i][j..], Flat(parts), p)
  {
    OffsetEnd(parts);
    PieceIs(parts, i, j);
  }

  lemma Further(parts: seq<seq<Byte>>, i: nat, j: nat, p: nat, n: nat)
    requires Stands(parts, i, j, p) && i < |parts| && j + n <= |parts[i]|
    ensures if j + n >= |parts[i]| then Stands(parts, i + 1, 0, p + n) else Stands(parts, i, j + n, p + n)
  {
    OffsetNext(parts, i);
  }

  lemma Extend(w: seq<Byte>, p: nat, c: seq<Byte>, x: seq<Byte>)
    requires PartOf(c, w, p) && PartOf(x, w, p + |c|)
    ensures PartOf(c + x, w, p)
  {
    assert w[p..p + |c| + |x|] == w[p..p + |c|] + w[p + |c|..p + |c| + |x|];
  }

  lemma PartPrefix(x: seq<Byte>, w: seq<Byte>, p: nat, n: nat)
    requires PartOf(x, w, p) && n <= |x|
    ensures PartOf(x[..n], w, p)
  {
    assert w[p..p + |x|][..n] == w[p..p + n];
  }

  lemma FirstPiece(parts: seq<seq<Byte>>, s: nat, from: nat, n: nat)
    requires s < |parts| && from + n <= |parts[s]|
    ensures PartOf(parts[s][from..from + n], Flat(parts), Offset(parts, s) + from)
  {
    PieceIs(parts, s, from);
    PartPrefix(parts[s][from..], Flat(parts), Offset(parts, s) + from, n);
    assert parts[s][from..][..n] == parts[s][from..from + n];
  }

  /** n bytes of part i more, after c. */
  lemma FillOn(parts: seq<seq<Byte>>, i: nat, offset: nat, c: seq<Byte>, n: nat)
    requires i < |parts| && PartOf(c, Flat(parts), offset) && Offset(parts, i) == offset + |c| && n <= |parts[i]|
    ensures PartOf(c + parts[i][..n], Flat(parts), offset) && Offset(parts, i + 1) == offset + |c| + |parts[i]|
    ensures parts[i][..|parts[i]|] == parts[i]
  {
    OffsetNext(parts, i);
    PartAt(parts, i);
    PartPrefix(parts[i], Flat(parts), Offset(parts, i), n);
    Extend(Flat(parts), offset, c, parts[i][..n]);
  }

  /** more is had bytes of w from start on, and last those after them. */
  ghost predicate Gathered(w: seq<Byte>, start: nat, more: seq<seq<Byte>>, last: seq<Byte>, had: nat) {
    PartOf(Flat(more), w, start) && |Flat(more)| == had && PartOf(last, w, start + had)
  }

  lemma GatherOn(vp: seq<seq<Byte>>, k: nat, start: nat, more: seq<seq<Byte>>, last: seq<Byte>, had: nat)
    requires k < |vp| && Gathered(Flat(vp), start, more, last, had) && Offset(vp, k) == start + had + |last|
    ensures Gathered(Flat(vp), start, more + [last], vp[k], had + |last|)
    ensures Offset(vp, k + 1) == start + had + |last| + |vp[k]|
  {
    OffsetNext(vp, k);
    PartAt(vp, k);
    FlatSnoc(more, last);
    Extend(Flat(vp), start, Flat(more), last);
  }

  lemma GatherEnd(w: seq<Byte>, start: nat, more: seq<seq<Byte>>, last: seq<Byte>, had: nat, n: nat)
    requires Gathered(w, start, more, last, had) && had <= n <= had + |last|
    ensures start + n <= |w| && Flat(more + [last[..n - had]]) == w[start..start + n]
  {
    PartPrefix(last, w, start + had, n - had);
    FlatSnoc(more, last[..n - had]);
    Extend(w, start, Flat(more), last[..n - had]);
  }

  lemma PieceIs(vp: seq<seq<Byte>>, s: nat, from: nat)
    requires s < |vp| && from <= |vp[s]|
    ensures var o := Offset(vp, s);
      o + |vp[s]| <= |Flat(vp)| && vp[s][from..] == Flat(vp)[o + from..o + |vp[s]|]
  {
    PartAt(vp, s);
    var o, w := Offset(vp, s), Flat(vp);
    assert w[o..o + |vp[s]|][from..] == w[o + from..o + |vp[s]|];
  }

  /** a and b are the same for p bytes. */
  predicate Agreed(a: seq<Byte>, b: seq<Byte>, p: nat) {
    p <= |a| && p <= |b| && a[..p] == b[..p]
  }

  lemma SameFurther(a: seq<Byte>, b: seq<Byte>, p: nat, x: seq<Byte>, y: seq<Byte>, n: nat)
    requires PartOf(x, a, p) && PartOf(y, b, p) && Agreed(a, b, p) && Agreed(x, y, n)
    ensures Agreed(a, b, p + n)
  {
    assert x[..n] == a[p..p + n] && y[..n] == b[p..p + n];
    assert a[..p + n] == a[..p] + a[p..p + n] && b[..p + n] == b[..p] + b[p..p + n];
  }

  lemma NotBelowSelf(a: seq<Byte>)
    ensures !Below(a, a)
  {
  }

  /** One of two vectors that agree as far as the shorter goes. */
  lemma PrefixOrder(a: seq<Byte>, b: seq<Byte>, p: nat)
    requires Agreed(a, b, p) && (p == |a| || p == |b|)
    ensures Ordered(|a| - |b|, a, b) && Common(a, b) == p
  {
    CommonIs(a, b, p);
    if |a| < |b| {
      assert Splits(a, b, p);
      SplitsOnce(a, b, p);
    } else if |b| < |a| {
      assert Splits(b, a, p);
      SplitsOnce(b, a, p);
    } else {
      assert a == a[..p] && b == b[..p];
      NotBelowSelf(a);
    }
  }

  /** A difference found between the stretches x and y of a and b: how far the two agree. */
  method Differ(x: seq<Byte>, y: seq<Byte>, n: nat, r: int, size: nat, l: nat,
                ghost a: seq<Byte>, ghost b: seq<Byte>, ghost p: nat)
    returns (common: Option<nat>)
    requires n <= |x| && n <= |y| && p + l == size && PartOf(x, a, p) && PartOf(y, b, p) && Agreed(a, b, p)
    requires r != 0 && exists k :: FirstDiffers(x, y, n, k, r)
    ensures common == Some(Common(a, b)) && Ordered(r, a, b) && !Prefixed(a, b)
  {
    ghost var k :| FirstDiffers(x, y, n, k, r);
    DifferAt(a, b, p, x, y, k, r);
    Agree(x, y, k);
    var j, left := 0, l;
    while x[j] == y[j]
      invariant 0 <= j <= k && left == l - j
      decreases k - j
    {
      j, left := j + 1, left - 1;
    }
    common := Some(if left < size then size - left else 0);
  }

  predicate PartOf(x: seq<Byte>, a: seq<Byte>, p: nat) {
    p + |x| <= |a| && x == a[p..p + |x|]
  }

  lemma DifferAt(a: seq<Byte>, b: seq<Byte>, p: nat, x: seq<Byte>, y: seq<Byte>, k: nat, r: int)
    requires PartOf(x, a, p) && PartOf(y, b, p) && Agreed(a, b, p) && k < |x| && k < |y| && Agreed(x, y, k)
    requires r == x[k] as int - y[k] as int && r != 0
    ensures Ordered(r, a, b) && Common(a, b) == p + k && !Prefixed(a, b)
  {
    SameFurther(a, b, p, x, y, k);
    assert a[p + k] == x[k] && b[p + k] == y[k];
    CommonIs(a, b, p + k);
    if r < 0 {
      assert Splits(a, b, p + k);
      SplitsOnce(a, b, p + k);
    } else {
      assert Splits(b, a, p + k);
      SplitsOnce(b, a, p + k);
    }
  }

  /** The positive infinity and any vector that is not empty: each compares as less than the other. */
  method EachBelow(p: seq<Byte>) returns (forward: int, backward: int)
    requires p != []
    ensures forward < 0 && backward < 0
  {
    var pos := new Vec();
    var neg := new Vec();
    var v := new Vec();
    v.Put(p);
    var common;
    forward, common := pos.Cmp(v, pos, neg);
    backward, common := v.Cmp(pos, pos, neg);
  }
}
