/** What the 32-bit value of a vector says of its bytes (src/common/vec_t.cpp, calc_kvl). */
module KeyValues {
  import opened Powers
  import opened Vectors

  // ----- Up to four bytes: the bytes themselves -----

  lemma {:induction false} ByteOf(s: seq<Byte>, i: nat)
    requires i < |s|
    ensures s[i] == LittleEndian(s) / Span(i) % 256
    decreases i
  {
    var v := LittleEndian(s[1..]);
    RemainderIs(LittleEndian(s), v, s[0], 256);
    if i > 0 {
      ByteOf(s[1..], i - 1);
      DivideTwice(LittleEndian(s), Span(i - 1));
    }
  }

  lemma DivideTwice(x: nat, p: nat)
    requires p >= 1
    ensures x / (256 * p) == x / 256 / p
  {
    var q := x / 256;
    var r := q % p;
    assert x == 256 * q + x % 256 && q == q / p * p + r;
    assert x == q / p * (256 * p) + (256 * r + x % 256);
    RemainderIs(x, q / p, 256 * r + x % 256, 256 * p);
  }

  /** Byte i of a key of at most four is the value's digit i to base 256. */
  lemma {:induction false} KvlByte(s: seq<Byte>, i: nat)
    requires i < |s| <= 4
    ensures s[i] == Kvl(s) / Span(i) % 256 && Kvl(s) < Span(|s|)
  {
    ByteOf(s, i);
    LittleEndianBound(s);
  }

  /** So keys of the same length, four at most, have the same value only if they are equal. */
  lemma {:induction false} KvlShort(s: seq<Byte>, t: seq<Byte>)
    requires |s| == |t| <= 4 && Kvl(s) == Kvl(t)
    ensures s == t
  {
    forall i: nat | i < |s| ensures s[i] == t[i] {
      KvlByte(s, i);
      KvlByte(t, i);
    }
  }

  // ----- More than four -----

  /** The value of five bytes. */
  lemma {:induction false} KvlFive(s: seq<Byte>)
    requires |s| == 5
    ensures Kvl(s) == s[0] as int * 0x10_0000 + s[1] as int * 0x8000 + s[2] as int * 0x400 + s[3] as int * 32 + s[4]
  {
    var h1: nat := s[0];
    var h2: nat := h1 * 32 + s[1];
    var h3: nat := h2 * 32 + s[2];
    var h4: nat := h3 * 32 + s[3];
    SmallStep(0, s[0..]);
    SmallStep(h1, s[1..]);
    SmallStep(h2, s[2..]);
    SmallStep(h3, s[3..]);
    SmallStep(h4, s[4..]);
    assert s[0..] == s && s[0..][1..] == s[1..] && s[1..][1..] == s[2..] && s[2..][1..] == s[3..];
    assert s[3..][1..] == s[4..] && s[4..][1..] == [];
  }

  /** As long as the high bits are clear, a byte is added to 32 times the value. */
  lemma SmallStep(h: nat, s: seq<Byte>)
    requires s != [] && h < 0x700_0000
    ensures Hash(h, s) == Hash(h * 32 + s[0], s[1..])
  {
    assert h / 0x800_0000 == 0;
    assert Folded(h) == h;
    RemainderIs(h * 32 + s[0], 0, h * 32 + s[0], WORD);
  }

  lemma {:induction false} HashOne(p: seq<Byte>, x: Byte)
    ensures Hash(0, p + [x]) == (Folded(Hash(0, p)) * 32 + x) % WORD
  {
    HashAppend(0, p, [x]);
    assert [x][1..] == [];
  }

  /** Of longer keys that differ in the last byte only the values differ. */
  lemma {:induction false} KvlLast(p: seq<Byte>, x: Byte, y: Byte)
    requires |p| >= 4 && x != y
    ensures Kvl(p + [x]) != Kvl(p + [y])
  {
    HashOne(p, x);
    HashOne(p, y);
    Distinct(Folded(Hash(0, p)) * 32, x, y);
  }

  lemma Distinct(h: nat, x: Byte, y: Byte)
    requires x != y
    ensures (h + x) % WORD != (h + y) % WORD
  {
    var q := (h + x) / WORD;
    var q' := (h + y) / WORD;
    assert h + x == q * WORD + (h + x) % WORD && h + y == q' * WORD + (h + y) % WORD;
  }

  lemma {:induction false} Fits(h: nat, s: seq<Byte>)
    requires h < WORD || s != []
    ensures Hash(h, s) < WORD
    decreases |s|
  {
    if s != [] { Fits((Folded(h) * 32 + s[0]) % WORD, s[1..]); }
  }

  const HIGH: nat := 0xF800_0000
  const LOW: nat := 0x7FF_FFFF

  /** The masks of a word's five high bits and of the others; the shifts are by five and 27. */
  lemma WordBits()
    ensures Two(5) == 32 && Two(27) == LOW + 1 && Two(32) == WORD && HIGH == Two(32) - Two(27)
  {
    assert Two(5) == 32 && Two(7) == 128 && Two(2) == 4;
    TwoTen(7);
    TwoTen(17);
    TwoTen(2);
    TwoTen(12);
    TwoTen(22);
  }

  /** The five high bits of a word, if any is set, shifted down and added to the others. */
  function FoldedBits(h: nat): nat {
    if And(h, HIGH) != 0 then And(h, LOW) + h / (LOW + 1) else h
  }

  lemma {:induction false} FoldedIs(h: nat, w: nat, k: nat)
    requires h < WORD && w == 32 && k == 27
    ensures FoldedBits(h) == Folded(h)
  {
    WordBits();
    HighBits(h, w, k);
    LowBits(h, k, Two(k));
  }

  /** One byte more: the high bits are folded in, the word shifted up by five, and the byte added. */
  lemma {:induction false} KvlNext(s: seq<Byte>, x: Byte)
    requires |s| >= 5
    ensures Kvl(s + [x]) == (FoldedBits(Kvl(s)) * 32 + x) % WORD
  {
    Fits(0, s);
    HashOne(s, x);
    FoldedIs(Kvl(s), 32, 27);
  }
}
