/** The two representations of a set of states, and the macros that work on them
    (src/common/regexec.cpp): bits of one word, or one byte per state.  The engine is
    written once over these operations, as the source compiles one text twice. */
module StateSets {

  /** A long, least significant bit first. */
  type Word = w: seq<bool> | |w| == 64 witness seq(64, _ => false)

  function Or(a: Word, b: Word): Word { seq(64, k requires 0 <= k < 64 => a[k] || b[k]) }
  function And(a: Word, b: Word): Word { seq(64, k requires 0 <= k < 64 => a[k] && b[k]) }
  function Shl(a: Word, n: nat): Word { seq(64, k requires 0 <= k < 64 => k >= n && a[k - n]) }
  function Shr(a: Word, n: nat): Word { seq(64, k requires 0 <= k < 64 => k + n < 64 && a[k + n]) }
  function Zero(): Word { seq(64, _ => false) }
  function One(n: nat): Word { seq(64, k => k == n) }

  datatype States = Small(w: Word) | Large(v: seq<bool>)

  /** A single state: a mask for words, an index for byte arrays. */
  datatype OneState = Mask(w: Word) | Index(n: nat)

  function Size(st: States): nat {
    match st case Small(_) => 64 case Large(v) => |v|
  }

  predicate Alike(a: States, b: States) {
    a.Small? == b.Small? && Size(a) == Size(b)
  }

  /** The set a representation stands for. */
  function Bits(st: States): set<int> {
    match st
    case Small(w) => set k | 0 <= k < 64 && w[k]
    case Large(v) => set k | 0 <= k < |v| && v[k]
  }

  predicate Denotes(o: OneState, st: States, pc: int) {
    && pc >= 0
    && o.Mask? == st.Small?
    && (o.Mask? ==> o.w == One(pc))
    && (o.Index? ==> o.n == pc)
  }

  // ----- The macros -----

  function Clear(like: States): (r: States)
    ensures Alike(r, like) && Bits(r) == {}
  {
    match like case Small(_) => Small(Zero()) case Large(v) => Large(seq(|v|, _ => false))
  }

  function Set1(st: States, n: nat): (r: States)
    requires n < Size(st)
    ensures Alike(r, st) && Bits(r) == Bits(st) + {n}
  {
    match st
    case Small(w) =>
      var w' := Or(w, Shl(One(0), n));
      assert forall k :: 0 <= k < 64 ==> w'[k] == (w[k] || k == n);
      Small(w')
    case Large(v) => Large(v[n := true])
  }

  function IsSet(st: States, n: nat): (b: bool)
    requires n < Size(st)
    ensures b <==> n in Bits(st)
  {
    match st
    case Small(w) =>
      var x := And(w, Shl(One(0), n));
      assert x[n] == w[n];
      assert x != Zero() ==> exists k :: 0 <= k < 64 && x[k];
      x != Zero()
    case Large(v) => v[n]
  }

  function Eq(a: States, b: States): (r: bool)
    requires Alike(a, b)
    ensures r <==> Bits(a) == Bits(b)
  {
    assert Bits(a) == Bits(b) ==> a == b by { if Bits(a) == Bits(b) { BitsInjective(a, b); } }
    if a.Small? then a.w == b.w else a.v == b.v
  }

  lemma BitsInjective(a: States, b: States)
    requires Alike(a, b) && Bits(a) == Bits(b)
    ensures a == b
  {
    var v, w := if a.Small? then a.w else a.v, if b.Small? then b.w else b.v;
    assert forall k :: 0 <= k < |v| ==> (v[k] <==> k in Bits(a)) && (w[k] <==> k in Bits(b));
    assert v == w;
  }

  function Init(like: States, n: nat): (o: OneState)
    ensures Denotes(o, like, n)
  {
    match like case Small(_) => Mask(Shl(One(0), n)) case Large(_) => Index(n)
  }

  function Inc(o: OneState): (r: OneState)
    ensures forall st, pc :: Denotes(o, st, pc) ==> Denotes(r, st, pc + 1)
  {
    match o
    case Mask(w) =>
      assert forall pc: nat :: w == One(pc) ==> Shl(w, 1) == One(pc + 1);
      Mask(Shl(w, 1))
    case Index(n) => Index(n + 1)
  }

  function IsStateIn(st: States, o: OneState, ghost pc: nat): (b: bool)
    requires Denotes(o, st, pc) && pc < Size(st)
    ensures b <==> pc in Bits(st)
  {
    match st
    case Small(w) =>
      var x := And(w, o.w);
      assert x[pc] == w[pc];
      assert x != Zero() ==> exists k :: 0 <= k < 64 && x[k];
      x != Zero()
    case Large(v) => v[o.n]
  }

  /** Adds to dst the state n after the present one, if src has the present one. */
  function Fwd(dst: States, src: States, here: OneState, n: nat, ghost pc: nat): (r: States)
    requires Alike(dst, src) && Denotes(here, src, pc) && pc + n < Size(dst)
    ensures Alike(r, dst)
    ensures Bits(r) == if pc in Bits(src) then Bits(dst) + {pc + n} else Bits(dst)
  {
    match dst
    case Small(w) =>
      var w' := Or(w, Shl(And(src.w, here.w), n));
      assert forall k :: 0 <= k < 64 ==> w'[k] == (w[k] || (k == pc + n && src.w[pc]));
      Small(w')
    case Large(v) => Large(v[here.n + n := v[here.n + n] || src.v[here.n]])
  }

  /** The same with the state n before. */
  function Back(dst: States, src: States, here: OneState, n: nat, ghost pc: nat): (r: States)
    requires Alike(dst, src) && Denotes(here, src, pc) && n <= pc < Size(dst)
    ensures Alike(r, dst)
    ensures Bits(r) == if pc in Bits(src) then Bits(dst) + {pc - n} else Bits(dst)
  {
    match dst
    case Small(w) =>
      var w' := Or(w, Shr(And(src.w, here.w), n));
      assert forall k :: 0 <= k < 64 ==> w'[k] == (w[k] || (k == pc - n && src.w[pc]));
      Small(w')
    case Large(v) => Large(v[here.n - n := v[here.n - n] || src.v[here.n]])
  }

  /** The width of an int, in which the engine keeps one of its tests. */
  const INT_BITS: nat := 32

  /** The test for the state n before, kept in an int: of a word, that has the low bits only. */
  function IsSetBackInt(st: States, here: OneState, n: nat, ghost pc: nat): (b: bool)
    requires Denotes(here, st, pc) && n <= pc < Size(st)
    ensures b <==> pc - n in Bits(st) && (st.Small? ==> pc - n < INT_BITS)
  {
    match st
    case Small(w) =>
      var x := And(w, Shr(here.w, n))[..INT_BITS];
      assert pc - n < INT_BITS ==> x[pc - n] == w[pc - n];
      assert x != Zero()[..INT_BITS] ==> exists k :: 0 <= k < INT_BITS && x[k];
      x != Zero()[..INT_BITS]
    case Large(v) => v[here.n - n]
  }

  function IsSetBack(st: States, here: OneState, n: nat, ghost pc: nat): (b: bool)
    requires Denotes(here, st, pc) && n <= pc < Size(st)
    ensures b <==> pc - n in Bits(st)
  {
    match st
    case Small(w) =>
      var x := And(w, Shr(here.w, n));
      assert x[pc - n] == w[pc - n];
      assert x != Zero() ==> exists k :: 0 <= k < 64 && x[k];
      x != Zero()
    case Large(v) => v[here.n - n]
  }
}
