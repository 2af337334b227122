// The Hilbert-curve order of two-dimensional boxes: the value of a box is the position of its centre along a curve
// through the universe, found one quadrant at a time, and two boxes can be compared without computing either value.
module Hilbert {
  import opened Powers

  // The three tables of the curve.
  function QuadAt(rotation: int, xVal: int, yVal: int): (q: int)
    requires 0 <= rotation < 4 && 0 <= xVal < 2 && 0 <= yVal < 2
    ensures 0 <= q < 4
  {
    match (rotation, xVal, yVal)
    case (0, 0, 0) => 0 case (0, 0, _) => 1 case (0, _, 0) => 3 case (0, _, _) => 2
    case (1, 0, 0) => 1 case (1, 0, _) => 2 case (1, _, 0) => 0 case (1, _, _) => 3
    case (2, 0, 0) => 2 case (2, 0, _) => 3 case (2, _, 0) => 1 case (2, _, _) => 0
    case (_, 0, 0) => 3 case (_, 0, _) => 0 case (_, _, 0) => 2 case (_, _, _) => 1
  }

  function Turned(rotation: int, quad: int): (r: int)
    requires 0 <= rotation < 4 && 0 <= quad < 4
    ensures 0 <= r < 4
  {
    match quad
    case 0 => if rotation == 0 then 3 else rotation - 1
    case 3 => if rotation == 3 then 0 else rotation + 1
    case _ => rotation
  }

  function Sensed(sense: int, quad: int): (s: int)
    requires (sense == 1 || sense == -1) && 0 <= quad < 4
    ensures s == 1 || s == -1
  {
    if quad == 0 || quad == 3 then -sense else sense
  }

  const DEFAULT_LEVELS := 14
  const INT_LIMIT := 0x8000_0000

  // C++ division by two drops the fraction toward zero.
  function Half(x: int): int {
    if x < 0 then -(-x / 2) else x / 2
  }

  function Min(a: int, b: int): int {
    if a < b then a else b
  }

  function Pow(base: int, n: nat): int {
    if n == 0 then 1 else base * Pow(base, n - 1)
  }

  function Four(n: nat): (p: nat)
    ensures p >= 1
  {
    if n == 0 then 1 else 4 * Four(n - 1)
  }

  datatype Box = Box(x0: int, y0: int, x1: int, y1: int) {
    function SideX(): int { x1 - x0 }
    function SideY(): int { y1 - y0 }
    function CenterX(): int { Half(SideX()) + x0 }
    function CenterY(): int { Half(SideY()) + y0 }
    function MinSide(): int { Min(SideX(), SideY()) }
  }

  // The quadrant walk: half sides and low corner of the square still looked at, and how the curve lies in it.
  datatype Walk = Walk(i: int, j: int, x: int, y: int, rotation: int, sense: int) {
    predicate Valid() {
      0 <= rotation < 4 && (sense == 1 || sense == -1)
    }

    function Bit(low: int, half: int, p: int): int {
      if p - low < half then 0 else 1
    }

    function Quad(px: int, py: int): (q: int)
      requires Valid()
      ensures 0 <= q < 4
    {
      QuadAt(rotation, Bit(x, i, px), Bit(y, j, py))
    }

    function Digit(px: int, py: int): (d: int)
      requires Valid()
      ensures 0 <= d < 4
    {
      if sense == -1 then 3 - Quad(px, py) else Quad(px, py)
    }

    function Next(px: int, py: int): (w: Walk)
      requires Valid()
      ensures w.Valid()
    {
      var q := Quad(px, py);
      Walk(Half(i), Half(j), x + i * Bit(x, i, px), y + j * Bit(y, j, py),
           Turned(rotation, q), Sensed(sense, q))
    }

    predicate Over() {
      i <= 0 || j <= 0
    }
  }

  function Start(u: Box): (w: Walk)
    ensures w.Valid()
  {
    Walk(Half(u.SideX() + 1), Half(u.SideY() + 1), u.x0, u.y0, 0, 1)
  }

  // What the walk adds to the value from here on, with n levels to go.
  function Rest(w: Walk, px: int, py: int, n: nat): int
    requires w.Valid()
    decreases n
  {
    if n == 0 || w.Over() then 0
    else (w.Digit(px, py) - 1) * Four(n - 1) + Rest(w.Next(px, py), px, py, n - 1)
  }

  function FloorLog(v: int): (n: nat)
    ensures v >= 1 ==> Two(n) <= v < Two(n + 1)
    ensures v < 1 ==> n == 0
  {
    if v < 2 then 0 else FloorLog(v / 2) + 1
  }

  function Levels(u: Box, level: int): int {
    if level == 0 then Min(DEFAULT_LEVELS, FloorLog(u.MinSide())) else level
  }

  // The value of the point (px, py); a level below zero does not enter the loop.
  function Value(u: Box, level: int, px: int, py: int): int {
    var n := Levels(u, level);
    if n < 0 then 0 else Rest(Start(u), px, py, n)
  }

  // Level 0 stands for n levels: the shorter side can be halved n times and no more, or n is the most there are.
  ghost predicate StandsFor(u: Box, n: nat) {
    && n <= 14
    && (n > 0 ==> Two(n) <= u.x1 - u.x0 && Two(n) <= u.y1 - u.y0)
    && (n < 14 ==> u.x1 - u.x0 < Two(n + 1) || u.y1 - u.y0 < Two(n + 1))
  }

  // It stands for just one number of levels.
  lemma StandsForOne(u: Box, n: nat)
    ensures StandsFor(u, n) <==> n == Levels(u, 0)
  {
    var m := FloorLog(u.MinSide());
    if n <= 14 {
      if m < n { TwoMonotone(m + 1, n); }
      if n < m { TwoMonotone(n + 1, m); }
    }
    TwoMonotone(14, if m < 14 then 14 else m);
  }

  // What n levels can add up to.
  predicate Spans(n: nat, v: int) {
    1 - Four(n) <= 3 * v <= 2 * (Four(n) - 1)
  }

  lemma DefaultLevel(u: Box, n: nat, px: int, py: int)
    requires StandsFor(u, n)
    ensures Spans(n, Value(u, 0, px, py)) && (n > 0 ==> Value(u, 0, px, py) == Value(u, n, px, py))
  {
    StandsForOne(u, n);
    RestBound(Start(u), px, py, n);
  }

  lemma FourTimes(d: int, f: int)
    ensures d * (4 * f) == 4 * (d * f)
  {
  }

  // A level more makes the value four times as large, but for a last digit.
  lemma {:induction false} RestRefines(w: Walk, px: int, py: int, n: nat)
    requires w.Valid()
    ensures 4 * Rest(w, px, py, n) - 1 <= Rest(w, px, py, n + 1) <= 4 * Rest(w, px, py, n) + 2
    decreases n
  {
    if n > 0 && !w.Over() {
      RestRefines(w.Next(px, py), px, py, n - 1);
      FourTimes(w.Digit(px, py) - 1, Four(n - 1));
    }
  }

  lemma ValueRefines(u: Box, level: nat, px: int, py: int)
    requires level > 0
    ensures 4 * Value(u, level, px, py) - 1 <= Value(u, level + 1, px, py) <= 4 * Value(u, level, px, py) + 2
  {
    RestRefines(Start(u), px, py, level);
  }

  // The first level tells the quadrants apart, counted around from the low corner.
  lemma FirstLevel(u: Box, px: int, py: int)
    requires u.x0 < u.x1 && u.y0 < u.y1
    ensures var right, up := 2 * (px - u.x0) >= u.x1 - u.x0, 2 * (py - u.y0) >= u.y1 - u.y0;
            Value(u, 1, px, py) == if right then (if up then 1 else 2) else if up then 0 else -1
  {
    var w := Start(u);
    assert Rest(w.Next(px, py), px, py, 0) == 0 && Four(0) == 1;
  }

  // The walk after n levels.
  function Walked(w: Walk, px: int, py: int, n: nat): (r: Walk)
    requires w.Valid()
    ensures r.Valid()
  {
    if n == 0 then w else Walked(w, px, py, n - 1).Next(px, py)
  }

  // Its half sides are those at the start, halved n times.
  lemma {:induction false} WalkHalves(w: Walk, px: int, py: int, n: nat)
    requires w.Valid() && w.i >= 0 && w.j >= 0
    ensures var r := Walked(w, px, py, n);
            Two(n) * r.i <= w.i < Two(n) * (r.i + 1) && Two(n) * r.j <= w.j < Two(n) * (r.j + 1) && r.i >= 0 && r.j >= 0
  {
    if n > 0 {
      WalkHalves(w, px, py, n - 1);
      var r := Walked(w, px, py, n - 1);
      Halved(r.i, Two(n - 1));
      Halved(r.j, Two(n - 1));
    }
  }

  lemma Halved(i: nat, f: nat)
    ensures 2 * f * Half(i) <= f * i && f * (i + 1) <= 2 * f * (Half(i) + 1)
  {
    var h := Half(i);
    if i == 2 * h { assert f * i == 2 * f * h; } else { assert i == 2 * h + 1 && f * i == 2 * f * h + f; }
  }

  // The centre of a box is half way between its sides, or as near as an int can be, and within the box.
  lemma CentreIs(b: Box)
    ensures -1 <= 2 * b.CenterX() - (b.x0 + b.x1) <= 1 && -1 <= 2 * b.CenterY() - (b.y0 + b.y1) <= 1
    ensures b.x0 <= b.x1 ==> b.x0 <= b.CenterX() <= b.x1
    ensures b.y0 <= b.y1 ==> b.y0 <= b.CenterY() <= b.y1
  {
  }

  // ---------------------------------------------------------------------------------------------------------------
  // The loops.

  // Twice a 32-bit int, back in 32 bits.
  function Wrapped(x: int): int {
    if x >= INT_LIMIT then x - 2 * INT_LIMIT else if x < -INT_LIMIT then x + 2 * INT_LIMIT else x
  }

  method Log2(value: int) returns (i: int)
    requires value < INT_LIMIT / 2
    ensures i >= 0
    ensures value >= 1 ==> Two(i) <= value < Two(i + 1)
    ensures value < 1 ==> i == 0
  {
    var ground := 1;
    i := 0;
    ground := Wrapped(2 * ground);
    while ground <= value
      invariant 0 <= i
      invariant ground == Two(i + 1)
      invariant value >= 1 ==> Two(i) <= value
      invariant value < 1 ==> i == 0
      decreases value - ground
    {
      i := i + 1;
      ground := Wrapped(2 * ground);
    }
  }

  function Shifted(n: nat): int {
    if n == 0 then 1 else Wrapped(2 * Shifted(n - 1))
  }

  lemma {:induction false} ShiftedIs(n: nat)
    requires n <= 30
    ensures Shifted(n) == Two(n)
  {
    if n > 0 {
      ShiftedIs(n - 1);
      TwoBound(n);
    }
  }

  lemma {:induction false} ShiftedOut(n: nat, g: int)
    requires n > 0 && g == Shifted(n - 1)
    requires g == INT_LIMIT / 2 || g == -INT_LIMIT || g == 0
    ensures Shifted(n) == if g == INT_LIMIT / 2 then -INT_LIMIT else 0
  {
  }

  lemma {:induction false} ShiftedAway(n: nat, top: nat)
    requires top == 30 && n >= top
    ensures Shifted(n) == INT_LIMIT / 2 || Shifted(n) == -INT_LIMIT || Shifted(n) == 0
  {
    if n == top {
      ShiftedIs(n);
      TwoBound(n);
    } else {
      ShiftedAway(n - 1, top);
      ShiftedOut(n, Shifted(n - 1));
    }
  }

  lemma TwoBound(n: nat)
    requires n <= 30
    ensures Two(n) <= INT_LIMIT / 2 && (n == 30 ==> Two(n) == INT_LIMIT / 2)
  {
    TwoTen(0);
    TwoTen(10);
    TwoTen(20);
    TwoMonotone(n, 30);
  }

  // From 2^30 on the comparison that should end the loop never fails.
  lemma Log2Stuck(value: int, n: nat)
    requires INT_LIMIT / 2 <= value < INT_LIMIT
    ensures Shifted(n) <= value
  {
    if n <= 30 {
      ShiftedIs(n);
      TwoBound(n);
    } else {
      ShiftedAway(n, 30);
    }
  }

  method Power(base: int, index: int) returns (val: int)
    ensures index < 0 ==> val == 1
    ensures index >= 0 ==> val == Pow(base, index)
  {
    val := 1;
    var i := 0;
    while i < index
      invariant 0 <= i
      invariant i <= if index < 0 then 0 else index
      invariant val == Pow(base, i)
    {
      val := val * base;
      i := i + 1;
      PowStep(base, i);
    }
  }

  lemma PowStep(base: int, n: nat)
    requires n > 0
    ensures Pow(base, n) == Pow(base, n - 1) * base
  {
  }

  // Powers of the same base multiply by adding what they are taken to.
  lemma {:induction false} PowSum(base: int, m: nat, n: nat)
    ensures Pow(base, m + n) == Pow(base, m) * Pow(base, n) && Pow(base, 1) == base
  {
    if m > 0 {
      PowSum(base, m - 1, n);
      var a, b := Pow(base, m - 1), Pow(base, n);
      assert base * (a * b) == (base * a) * b;
    }
  }

  lemma PowFour(n: nat)
    ensures Pow(4, n) == Four(n)
  {
  }

  lemma FloorLogIs(v: int, n: nat)
    requires v >= 1 ==> Two(n) <= v < Two(n + 1)
    requires v < 1 ==> n == 0
    ensures n == FloorLog(v)
  {
    if v >= 1 {
      if n < FloorLog(v) { TwoMonotone(n + 1, FloorLog(v)); }
      if FloorLog(v) < n { TwoMonotone(FloorLog(v) + 1, n); }
    }
  }

  // The level the two loops run to.
  method Depth(u: Box, level: int) returns (n: int)
    requires level == 0 ==> u.MinSide() < INT_LIMIT / 2
    ensures n == Levels(u, level)
  {
    n := level;
    if n == 0 {
      var logged := Log2(u.MinSide());
      FloorLogIs(u.MinSide(), logged);
      n := Min(DEFAULT_LEVELS, logged);
    }
  }

  method HValue(b: Box, u: Box, level: int) returns (v: int)
    requires level == 0 ==> u.MinSide() < INT_LIMIT / 2
    ensures v == Value(u, level, b.CenterX(), b.CenterY())
    ensures level == 0 ==> forall n: nat :: StandsFor(u, n) ==>
              Spans(n, v) && (n > 0 ==> v == Value(u, n, b.CenterX(), b.CenterY()))
  {
    forall n: nat | StandsFor(u, n)
      ensures Spans(n, Value(u, 0, b.CenterX(), b.CenterY()))
      ensures n > 0 ==> Value(u, 0, b.CenterX(), b.CenterY()) == Value(u, n, b.CenterX(), b.CenterY())
    {
      DefaultLevel(u, n, b.CenterX(), b.CenterY());
    }
    var levels := Depth(u, level);
    var xLow, yLow := u.x0, u.y0;
    v := 0;
    var x, y := b.CenterX(), b.CenterY();
    var count, rotation, sense := 0, 0, 1;
    var i, j := Half(u.SideX() + 1), Half(u.SideY() + 1);
    while i > 0 && j > 0 && levels > count
      invariant 0 <= count && (levels >= 0 ==> count <= levels) && (levels < 0 ==> v == 0)
      invariant Walk(i, j, xLow, yLow, rotation, sense).Valid()
      invariant levels >= 0 ==>
        v + Rest(Walk(i, j, xLow, yLow, rotation, sense), x, y, levels - count) == Value(u, level, x, y)
      decreases levels - count
    {
      ghost var w := Walk(i, j, xLow, yLow, rotation, sense);
      count := count + 1;
      var xVal := if x - xLow < i then 0 else 1;
      var yVal := if y - yLow < j then 0 else 1;
      var quad := QuadAt(rotation, xVal, yVal);
      xLow := xLow + i * xVal;
      yLow := yLow + j * yVal;
      var weight := Power(4, levels - count);
      PowFour(levels - count);
      v := v + ((if sense == -1 then 3 - quad else quad) - 1) * weight;
      rotation := Turned(rotation, quad);
      sense := Sensed(sense, quad);
      i, j := Half(i), Half(j);
      assert Walk(i, j, xLow, yLow, rotation, sense) == w.Next(x, y);
    }
  }

  // All that n digits can add.
  lemma {:induction false} RestBound(w: Walk, px: int, py: int, n: nat)
    requires w.Valid()
    ensures 1 - Four(n) <= 3 * Rest(w, px, py, n) <= 2 * (Four(n) - 1)
    decreases n
  {
    if n != 0 && !w.Over() {
      RestBound(w.Next(px, py), px, py, n - 1);
      DigitScale(w.Digit(px, py), Four(n - 1));
    }
  }

  // Down to fifteen levels the value is a 32-bit int.
  lemma ValueFits(u: Box, level: int, px: int, py: int)
    requires Levels(u, level) <= 15
    ensures -INT_LIMIT <= Value(u, level, px, py) < INT_LIMIT
  {
    var n := Levels(u, level);
    if n >= 0 {
      RestBound(Start(u), px, py, n);
      FourTwo(n);
      TwoBound(2 * n);
    }
  }

  lemma {:induction false} FourTwo(n: nat)
    ensures Four(n) == Two(2 * n)
  {
    if n > 0 {
      FourTwo(n - 1);
      assert Two(2 * n) == 2 * Two(2 * n - 1);
    }
  }

  lemma DigitScale(d: int, f: int)
    requires 0 <= d < 4 && f >= 0
    ensures -f <= (d - 1) * f <= 2 * f
  {
  }

  // The first digit that differs decides.
  lemma FirstDigitDecides(w: Walk, px: int, py: int, qx: int, qy: int, n: nat)
    requires w.Valid() && !w.Over() && n > 0
    requires w.Digit(px, py) < w.Digit(qx, qy)
    ensures Rest(w, px, py, n) < Rest(w, qx, qy, n)
  {
    RestBound(w.Next(px, py), px, py, n - 1);
    RestBound(w.Next(qx, qy), qx, qy, n - 1);
    Apart(w.Digit(px, py), w.Digit(qx, qy), Four(n - 1));
  }

  lemma Apart(d: int, e: int, f: int)
    requires 0 <= d < e < 4 && f >= 0
    ensures (d - 1) * f + f <= (e - 1) * f
  {
  }

  // By how much the value of one point passes that of another from here on.
  function Gap(w: Walk, px: int, py: int, qx: int, qy: int, n: nat): int
    requires w.Valid()
  {
    Rest(w, px, py, n) - Rest(w, qx, qy, n)
  }

  // One turn of the comparison: the digits of both points decide, or agree and leave the gap as it is.
  lemma StepCompares(w: Walk, px: int, py: int, qx: int, qy: int, n: nat, g: int)
    requires w.Valid() && !w.Over() && n > 0 && g == Gap(w, px, py, qx, qy, n)
    ensures w.Digit(px, py) < w.Digit(qx, qy) ==> g < 0
    ensures w.Digit(px, py) > w.Digit(qx, qy) ==> g > 0
    ensures w.Digit(px, py) == w.Digit(qx, qy) ==> Gap(w.Next(px, py), px, py, qx, qy, n - 1) == g
  {
    if w.Digit(px, py) < w.Digit(qx, qy) { FirstDigitDecides(w, px, py, qx, qy, n); }
    if w.Digit(px, py) > w.Digit(qx, qy) { FirstDigitDecides(w, qx, qy, px, py, n); }
    if w.Digit(px, py) == w.Digit(qx, qy) { SameDigitSameCell(w, px, py, qx, qy); }
  }

  lemma SameDigitSameCell(w: Walk, px: int, py: int, qx: int, qy: int)
    requires w.Valid() && w.Digit(px, py) == w.Digit(qx, qy)
    ensures w.Next(px, py) == w.Next(qx, qy)
  {
  }

  method HCmp(a: Box, b: Box, u: Box, level: int) returns (r: int)
    requires level == 0 ==> u.MinSide() < INT_LIMIT / 2
    ensures r < 0 <==> Value(u, level, a.CenterX(), a.CenterY()) < Value(u, level, b.CenterX(), b.CenterY())
    ensures r == 0 <==> Value(u, level, a.CenterX(), a.CenterY()) == Value(u, level, b.CenterX(), b.CenterY())
  {
    var levels := Depth(u, level);
    var xLow, yLow := u.x0, u.y0;
    var x1, y1, x2, y2 := a.CenterX(), a.CenterY(), b.CenterX(), b.CenterY();
    var count, rotation, sense := 0, 0, 1;
    var i, j := Half(u.SideX() + 1), Half(u.SideY() + 1);
    ghost var w := Start(u);
    ghost var gap := Value(u, level, x1, y1) - Value(u, level, x2, y2);
    while i > 0 && j > 0 && levels > count
      invariant 0 <= count && (if levels < 0 then gap == 0 else count <= levels)
      invariant w == Walk(i, j, xLow, yLow, rotation, sense) && w.Valid()
      invariant levels >= 0 ==> Gap(w, x1, y1, x2, y2, levels - count) == gap
      decreases levels - count
    {
      count := count + 1;
      var xVal := if x2 - xLow < i then 0 else 1;
      var yVal := if y2 - yLow < j then 0 else 1;
      var quad := QuadAt(rotation, xVal, yVal);
      var val2 := if sense == -1 then 3 - quad else quad;
      assert val2 == w.Digit(x2, y2);
      xVal := if x1 - xLow < i then 0 else 1;
      yVal := if y1 - yLow < j then 0 else 1;
      quad := QuadAt(rotation, xVal, yVal);
      var val1 := if sense == -1 then 3 - quad else quad;
      assert val1 == w.Digit(x1, y1);
      StepCompares(w, x1, y1, x2, y2, levels - count + 1, gap);
      if val1 != val2 { return val1 - val2; }
      rotation := Turned(rotation, quad);
      sense := Sensed(sense, quad);
      xLow := xLow + i * xVal;
      yLow := yLow + j * yVal;
      i, j := Half(i), Half(j);
      w := w.Next(x1, y1);
    }
    return 0;
  }
}
