// Why the generator has full period: after n steps a state has moved by S(n) times an odd number, where S(n) is the sum
// of the first n powers of the multiplier, and 2^k divides S(n) exactly when it divides n.
module FullPeriod {
  import opened Powers
  import opened Rand48

  // 2^k divides s.
  predicate Divides(k: nat, s: int) {
    k == 0 || (s % 2 == 0 && Divides(k - 1, s / 2))
  }

  function PowerSum(n: nat): int {
    if n == 0 then 0 else MULTIPLIER * PowerSum(n - 1) + 1
  }

  lemma {:induction false} PowerSumAdds(m: nat, n: nat)
    ensures PowerSum(m + n) == PowerSum(m) + PowerSum(n) + (MULTIPLIER - 1) * (PowerSum(m) * PowerSum(n))
  {
    if n > 0 {
      PowerSumAdds(m, n - 1);
      var s, t := PowerSum(m), PowerSum(n - 1);
      assert PowerSum(m + n) == MULTIPLIER * PowerSum(m + n - 1) + 1;
      assert s * (MULTIPLIER * t + 1) == MULTIPLIER * (s * t) + s;
    }
  }

  lemma {:induction false} PowerSumParity(n: nat)
    ensures PowerSum(n) % 2 == n % 2
  {
    if n > 0 {
      PowerSumParity(n - 1);
      NextParity(HALF, PowerSum(n - 1), n, PowerSum(n));
    }
  }

  lemma NextParity(h: int, x: int, n: int, r: int)
    requires r == 2 * h * x + x + 1 && x % 2 == (n - 1) % 2
    ensures r % 2 == n % 2
  {
    EvenPlus(h, x, x + 1, r);
  }

  lemma EvenPlus(h: int, x: int, b: int, r: int)
    requires r == 2 * h * x + b
    ensures r % 2 == b % 2
  {
    assert r == 2 * (h * x) + b;
  }

  lemma OddFactor(s: int, o: int)
    requires o % 2 == 1
    ensures (s * o) % 2 == s % 2
    ensures s % 2 == 0 ==> s * o / 2 == (s / 2) * o
  {
    var h := o / 2;
    assert o == 2 * h + 1;
    assert s * o == 2 * (s * h) + s;
    if s % 2 == 0 {
      var t := s / 2;
      assert s == 2 * t;
      assert s * o == 2 * (t * o);
    }
  }

  lemma {:induction false} OddFactorDivides(k: nat, s: int, o: int)
    requires o % 2 == 1
    ensures Divides(k, s * o) <==> Divides(k, s)
  {
    if k > 0 {
      OddFactor(s, o);
      if s % 2 == 0 { OddFactorDivides(k - 1, s / 2, o); }
    }
  }

  const HALF := 0x2_ef76_7336 // half of the multiplier less one

  // Doubling the number of terms multiplies the sum by twice an odd number.
  lemma PowerSumDoubles(m: nat, s: int)
    requires s == PowerSum(m)
    ensures PowerSum(2 * m) == 2 * (s * (1 + HALF * s))
  {
    PowerSumAdds(m, m);
    assert m + m == 2 * m;
    assert s * (1 + HALF * s) == s + HALF * (s * s);
  }

  lemma {:induction false} PowerSumDivides(k: nat, n: nat)
    ensures Divides(k, PowerSum(n)) <==> Divides(k, n)
  {
    PowerSumParity(n);
    if k > 0 && n % 2 == 0 {
      PowerSumHalves(n, n / 2, PowerSum(n / 2));
      OddFactorDivides(k - 1, PowerSum(n / 2), 1 + HALF * PowerSum(n / 2));
      PowerSumDivides(k - 1, n / 2);
    }
  }

  lemma PowerSumHalves(n: nat, m: nat, s: int)
    requires n % 2 == 0 && m == n / 2 && s == PowerSum(m)
    ensures PowerSum(n) / 2 == s * (1 + HALF * s) && (1 + HALF * s) % 2 == 1
  {
    PowerSumDoubles(m, s);
    assert 2 * m == n;
  }

  // The run without any wrapping.
  function Unwrapped(x: nat, n: nat): int {
    if n == 0 then x else MULTIPLIER * Unwrapped(x, n - 1) + INCREMENT
  }

  function Stride(x: nat): int {
    (MULTIPLIER - 1) * x + INCREMENT
  }

  lemma {:induction false} UnwrappedMoves(x: nat, n: nat)
    ensures Unwrapped(x, n) == x + PowerSum(n) * Stride(x)
  {
    if n > 0 {
      UnwrappedMoves(x, n - 1);
      var s, g := PowerSum(n - 1), Stride(x);
      assert (MULTIPLIER * s + 1) * g == MULTIPLIER * (s * g) + g;
    }
  }

  lemma {:induction false} RunWraps(x: nat, n: nat)
    requires x < MODULUS
    ensures Run(x, n) == Unwrapped(x, n) % MODULUS
  {
    if n > 0 {
      RunWraps(x, n - 1);
      var u := Unwrapped(x, n - 1);
      var r := Run(x, n - 1);
      NextIs(r);
      SameResidue(MULTIPLIER * u + INCREMENT, MULTIPLIER * r + INCREMENT, MULTIPLIER * (u / MODULUS), MODULUS);
    }
  }

  lemma {:induction false} DividesIs(k: nat, s: int)
    ensures Divides(k, s) <==> s % Two(k) == 0
  {
    if k > 0 {
      DividesIs(k - 1, s / 2);
      HalfDivides(s, Two(k - 1));
    }
  }

  lemma HalfDivides(s: int, m: int)
    requires m >= 1
    ensures s % (2 * m) == 0 <==> s % 2 == 0 && s / 2 % m == 0
  {
    if s % (2 * m) == 0 {
      var q := s / (2 * m);
      assert s == 2 * (m * q);
      RemainderIs(m * q, q, 0, m);
    }
    if s % 2 == 0 && s / 2 % m == 0 {
      var q := s / 2 / m;
      assert s == 2 * (m * q) == q * (2 * m);
      RemainderIs(s, q, 0, 2 * m);
    }
  }

  // A run is back where it began exactly after a multiple of 2^48 steps.
  lemma ReturnsAfter(x: nat, n: nat)
    requires x < MODULUS
    ensures Run(x, n) == x <==> n % MODULUS == 0
  {
    RunWraps(x, n);
    UnwrappedMoves(x, n);
    ModulusIs(48);
    EvenPlus(HALF, x, INCREMENT, Stride(x));
    StrideDivides(Stride(x), n, 48, MODULUS);
    MovedBack(x, PowerSum(n) * Stride(x), MODULUS);
  }

  lemma MovedBack(x: int, s: int, m: int)
    requires 0 <= x < m
    ensures (x + s) % m == x <==> s % m == 0
  {
    if s % m == 0 {
      SameResidue(x + s, x, s / m, m);
      RemainderIs(x, 0, x, m);
    } else if (x + s) % m == x {
      RemainderIs(s, (x + s) / m, 0, m);
    }
  }

  lemma StrideDivides(g: int, n: nat, k: nat, m: int)
    requires m == Two(k) && g % 2 == 1
    ensures PowerSum(n) * g % m == 0 <==> n % m == 0
  {
    OddFactorDivides(k, PowerSum(n), g);
    PowerSumDivides(k, n);
    DividesIs(k, PowerSum(n) * g);
    DividesIs(k, n);
  }

  lemma {:induction false} RunAdds(x: nat, m: nat, n: nat)
    ensures Run(Run(x, m), n) == Run(x, m + n)
  {
    if n > 0 { RunAdds(x, m, n - 1); }
  }

  // Two moments of a run have the same state exactly when a multiple of 2^48 steps lies between them.
  lemma SameStateWhen(x: nat, m: nat, n: nat)
    requires x < MODULUS && m <= n
    ensures Run(x, m) == Run(x, n) <==> (n - m) % MODULUS == 0
  {
    RunAdds(x, m, n - m);
    RunBelow(x, m);
    ReturnsAfter(Run(x, m), n - m);
  }

  function Seen(x: nat, n: nat): set<nat> {
    if n == 0 then {} else Seen(x, n - 1) + {Run(x, n - 1)}
  }

  lemma {:induction false} SeenAt(x: nat, n: nat, y: int) returns (i: nat)
    requires y in Seen(x, n)
    ensures i < n && Run(x, i) == y
  {
    if y == Run(x, n - 1) {
      i := n - 1;
    } else {
      i := SeenAt(x, n - 1, y);
    }
  }

  lemma {:induction false} SeenSize(x: nat, n: nat)
    requires forall i, j | 0 <= i < j < n :: Run(x, i) != Run(x, j)
    ensures |Seen(x, n)| == n
  {
    if n > 0 {
      SeenSize(x, n - 1);
      if Run(x, n - 1) in Seen(x, n - 1) {
        var i := SeenAt(x, n - 1, Run(x, n - 1));
        assert false;
      }
    }
  }

  lemma {:induction false} SeenBelow(x: nat, n: nat, m: nat)
    requires forall i | 0 <= i < n :: Run(x, i) < m
    ensures Seen(x, n) <= Below(m)
  {
    if n > 0 {
      SeenBelow(x, n - 1, m);
      InBelow(m, Run(x, n - 1));
    }
  }

  function Below(n: nat): set<int> {
    if n == 0 then {} else Below(n - 1) + {n - 1}
  }

  lemma {:induction false} InBelow(n: nat, y: int)
    ensures y in Below(n) <==> 0 <= y < n
  {
    if n > 0 { InBelow(n - 1, y); }
  }

  lemma {:induction false} BelowSize(n: nat)
    ensures |Below(n)| == n
  {
    if n > 0 {
      BelowSize(n - 1);
      InBelow(n - 1, n - 1);
    }
  }

  // A run that stays below m and has no state twice in m steps meets every number below m.
  lemma MeetsAll(x: nat, y: int, m: nat) returns (i: nat)
    requires forall i, j | 0 <= i < j < m :: Run(x, i) != Run(x, j)
    requires forall i | 0 <= i < m :: Run(x, i) < m
    requires 0 <= y < m
    ensures i < m && Run(x, i) == y
  {
    SeenSize(x, m);
    SeenBelow(x, m, m);
    BelowSize(m);
    SubsetAll(Seen(x, m), Below(m));
    InBelow(m, y);
    i := SeenAt(x, m, y);
  }

  lemma StatesDiffer(x: nat, i: nat, j: nat)
    requires x < MODULUS && i < j < MODULUS
    ensures Run(x, i) != Run(x, j)
  {
    SameStateWhen(x, i, j);
    RemainderIs(j - i, 0, j - i, MODULUS);
  }

  // From every seed every state is reached within the first 2^48 steps, once.
  lemma VisitsAll(x: nat, y: nat) returns (i: nat)
    requires x < MODULUS && y < MODULUS
    ensures i < MODULUS && Run(x, i) == y
    ensures forall j: nat | j < MODULUS && Run(x, j) == y :: j == i
  {
    forall i, j | 0 <= i < j < MODULUS ensures Run(x, i) != Run(x, j) { StatesDiffer(x, i, j); }
    forall i | 0 <= i < MODULUS ensures Run(x, i) < MODULUS { RunBelow(x, i); }
    i := MeetsAll(x, y, MODULUS);
  }

  lemma SubsetAll(s: set<int>, t: set<int>)
    requires s <= t && |s| == |t|
    ensures s == t
  {
    assert |t - s| == |t| - |s|;
  }
}
