// Powers of two, remainders, and bits of words.
module Powers {
  function Two(n: nat): (p: nat)
    ensures p >= 1
  {
    if n == 0 then 1 else 2 * Two(n - 1)
  }

  lemma TwoTen(n: nat)
    ensures Two(n + 10) == 1024 * Two(n)
  {
    assert Two(n + 2) == 4 * Two(n);
    assert Two(n + 4) == 4 * Two(n + 2);
    assert Two(n + 6) == 4 * Two(n + 4);
    assert Two(n + 8) == 4 * Two(n + 6);
  }

  lemma TwoMonotone(m: nat, n: nat)
    requires m <= n
    ensures Two(m) <= Two(n)
  {
  }

  lemma RemainderIs(a: int, q: int, r: int, m: int)
    requires m > 0 && 0 <= r < m && a == q * m + r
    ensures a % m == r && a / m == q
  {
    var q', r' := a / m, a % m;
    assert q' * m + r' == q * m + r;
    if q' < q { Apart(q', q, m); }
    if q < q' { Apart(q, q', m); }
  }

  lemma Apart(p: int, q: int, m: int)
    requires p < q && m > 0
    ensures p * m + m <= q * m
  {
    assert (q - p - 1) * m >= 0;
    assert q * m == p * m + m + (q - p - 1) * m;
  }

  // Bitwise and of two words.
  function And(x: nat, y: nat): (r: nat)
    ensures r <= x
    decreases x
  {
    if x == 0 then 0 else 2 * And(x / 2, y / 2) + if x % 2 == 1 && y % 2 == 1 then 1 else 0
  }

  lemma {:induction false} LowBits(x: nat, k: nat, m: nat)
    requires m == Two(k)
    ensures And(x, m - 1) == x % m
    decreases k
  {
    if k == 0 {
      NoBits(x);
    } else {
      var h := Two(k - 1);
      LowBits(x / 2, k - 1, h);
      LowBitsStep(x, h, m);
    }
  }

  lemma LowBitsStep(x: nat, h: nat, m: nat)
    requires h >= 1 && m == 2 * h && And(x / 2, h - 1) == x / 2 % h
    ensures And(x, m - 1) == x % m
  {
    HalfRemainder(x, h);
    AndStep(x, h);
  }

  lemma AndStep(x: nat, h: nat)
    requires h >= 1
    ensures And(x, 2 * h - 1) == 2 * And(x / 2, h - 1) + x % 2
  {
  }

  lemma {:induction false} NoBits(x: nat)
    ensures And(x, 0) == 0
  {
    if x > 0 { NoBits(x / 2); }
  }

  lemma HalfRemainder(x: nat, h: nat)
    requires h >= 1
    ensures x % (2 * h) == 2 * (x / 2 % h) + x % 2
  {
    var q, r := x / 2 / h, x / 2 % h;
    assert x == (q * h + r) * 2 + x % 2;
    assert (q * h) * 2 == q * (2 * h);
    RemainderIs(x, q, 2 * r + x % 2, 2 * h);
  }

  // With a power of two taken from the word size, the bits above it remain.
  lemma {:induction false} HighBits(x: nat, w: nat, k: nat)
    requires k <= w && x < Two(w)
    ensures Two(k) <= Two(w) && And(x, Two(w) - Two(k)) == x - x % Two(k)
    decreases k
  {
    TwoMonotone(k, w);
    if k == 0 {
      LowBits(x, w, Two(w));
      RemainderIs(x, 0, x, Two(w));
    } else {
      HighBits(x / 2, w - 1, k - 1);
      HalfRemainder(x, Two(k - 1));
      HighBitsStep(x, Two(w - 1) - Two(k - 1), x / 2 % Two(k - 1), x % Two(k));
    }
  }

  lemma HighBitsStep(x: nat, y: nat, m: nat, r: nat)
    requires m <= x / 2 && And(x / 2, y) == x / 2 - m && r == 2 * m + x % 2
    ensures And(x, 2 * y) == x - r
  {
    AndEven(x, y);
  }

  lemma AndEven(x: nat, h: nat)
    ensures And(x, 2 * h) == 2 * And(x / 2, h)
  {
    assert 2 * h / 2 == h && 2 * h % 2 == 0;
  }
}
