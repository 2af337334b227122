// The 48-bit linear congruential generator: from every seed it runs through all 2^48 states before it repeats.
module Rand48 {
  import opened Powers

  const MULTIPLIER := 0x5deece66d
  const INCREMENT := 0xb
  const MODULUS := 0x1_0000_0000_0000
  const WORD := 0x1_0000_0000_0000_0000

  const LOW_BITS := 0xffff_ffff_ffff

  function Mask(x: nat): nat {
    And(x, LOW_BITS)
  }

  lemma ModulusIs(k: nat)
    requires k == 48
    ensures Two(k) == MODULUS
  {
    TwoTen(k - 10);
    TwoTen(k - 20);
    TwoTen(k - 30);
    TwoTen(k - 40);
    TwoEight(k - 48);
  }

  lemma TwoEight(k: nat)
    ensures Two(k + 8) == 256 * Two(k)
  {
    assert Two(k + 2) == 4 * Two(k);
    assert Two(k + 4) == 4 * Two(k + 2);
    assert Two(k + 6) == 4 * Two(k + 4);
  }

  // The mask keeps the low 48 bits.
  lemma MaskIs(x: nat)
    ensures Mask(x) == x % MODULUS
  {
    ModulusIs(48);
    LowBits(x, 48, MODULUS);
  }

  // The next state; the 64-bit product and sum wrap before the mask.
  function Next(x: nat): nat {
    Mask((x * MULTIPLIER + INCREMENT) % WORD)
  }

  lemma NextIs(x: nat)
    ensures Next(x) == (x * 0x5deece66d + 0xb) % 0x1_0000_0000_0000
  {
    MaskIs((x * MULTIPLIER + INCREMENT) % WORD);
    WrapHarmless(x * MULTIPLIER + INCREMENT);
  }

  function Run(x: nat, n: nat): nat {
    if n == 0 then x else Next(Run(x, n - 1))
  }

  lemma {:induction false} RunBelow(x: nat, n: nat)
    requires x < MODULUS
    ensures Run(x, n) < MODULUS
  {
    if n > 0 { NextIs(Run(x, n - 1)); }
  }

  class Generator {
    var state: nat

    ghost predicate Valid()
      reads this
    {
      state < MODULUS
    }

    constructor (seed: nat)
      ensures Valid() && state == seed % MODULUS
    {
      MaskIs(seed);
      state := Mask(seed);
    }

    method Seed(seed: nat)
      modifies this
      ensures Valid() && state == seed % MODULUS
    {
      MaskIs(seed);
      state := Mask(seed);
    }

    method Update() returns (r: nat)
      modifies this
      ensures Valid() && state == (old(state) * 0x5deece66d + 0xb) % 0x1_0000_0000_0000 == r
    {
      var product := state * MULTIPLIER % WORD;
      var sum := (product + INCREMENT) % WORD;
      WrapTwice(state * MULTIPLIER, product);
      NextIs(state);
      state := Mask(sum);
      r := state;
    }

    // Any number of updates, as a caller makes them.
    method Advance(n: nat) returns (r: nat)
      modifies this
      ensures old(Valid()) || n > 0 ==> Valid()
      ensures state == Run(old(state), n) == r
    {
      r := state;
      for i := 0 to n
        invariant old(Valid()) || i > 0 ==> Valid()
        invariant state == Run(old(state), i) == r
      {
        NextIs(state);
        r := Update();
      }
    }
  }

  lemma WrapTwice(a: int, p: int)
    requires p == a % WORD
    ensures (p + INCREMENT) % WORD == (a + INCREMENT) % WORD
  {
  }

  // Wrapping to 64 bits first does not change the low 48.
  lemma WrapHarmless(y: int)
    ensures y % WORD % MODULUS == y % MODULUS
  {
    var q := y / WORD;
    assert y == (q * 0x1_0000) * MODULUS + y % WORD;
    SameResidue(y, y % WORD, q * 0x1_0000, MODULUS);
  }

  lemma SameResidue(a: int, b: int, q: int, m: int)
    requires m > 0 && a == q * m + b
    ensures a % m == b % m
  {
    var k := b / m;
    assert b == k * m + b % m;
    assert a == (q + k) * m + b % m;
    RemainderIs(a, q + k, b % m, m);
  }
}
