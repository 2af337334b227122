// On a square universe whose side is a power of two the values number the integer points along one unbroken path.
module HilbertCurve {
  import opened Hilbert
  import opened Powers

  // The curve's n-level square in one of its lies: the cell with number c, counted from the low corner.
  datatype Point = Point(x: int, y: int)

  predicate Lie(rotation: int, sense: int) {
    0 <= rotation < 4 && (sense == 1 || sense == -1)
  }

  function QuadOf(sense: int, digit: int): int {
    if sense == -1 then 3 - digit else digit
  }

  function Bit(x: int, half: int): int {
    if x < half then 0 else 1
  }

  // Where quadrant q of a lie is: the inverse of the quadrant table.
  function Along(rotation: int, q: int): int {
    if q < rotation then q - rotation + 4 else q - rotation
  }

  function BitX(rotation: int, q: int): (b: int)
    ensures 0 <= b <= 1
  {
    if Along(rotation, q) >= 2 then 1 else 0
  }

  function BitY(rotation: int, q: int): (b: int)
    ensures 0 <= b <= 1
  {
    if 1 <= Along(rotation, q) <= 2 then 1 else 0
  }

  lemma BitsInvert(rotation: int, q: int)
    requires 0 <= rotation < 4 && 0 <= q < 4
    ensures QuadAt(rotation, BitX(rotation, q), BitY(rotation, q)) == q
  {
  }

  lemma QuadInverts(rotation: int, x: int, y: int)
    requires 0 <= rotation < 4 && 0 <= x < 2 && 0 <= y < 2
    ensures BitX(rotation, QuadAt(rotation, x, y)) == x && BitY(rotation, QuadAt(rotation, x, y)) == y
  {
  }

  predicate Inside(p: Point, n: nat) {
    0 <= p.x < Two(n) && 0 <= p.y < Two(n)
  }

  // The leading digit of c in base four when f cells follow it, and what remains.
  function Lead(c: int, f: int): (d: int)
    ensures 0 <= d < 4
  {
    if c < f then 0 else if c < 2 * f then 1 else if c < 3 * f then 2 else 3
  }

  function Remains(c: int, f: int): (r: int)
    requires 0 <= c < 4 * f
    ensures 0 <= r < f
  {
    if c < f then c else if c < 2 * f then c - f else if c < 3 * f then c - 2 * f else c - 3 * f
  }

  function Join(d: int, f: int, r: int): (c: int)
    requires 0 <= d < 4 && 0 <= r < f
    ensures 0 <= c < 4 * f && Lead(c, f) == d && Remains(c, f) == r
  {
    if d == 0 then r else if d == 1 then f + r else if d == 2 then 2 * f + r else 3 * f + r
  }

  function Shift(bit: int, half: int, x: int): int {
    if bit == 0 then x else half + x
  }

  function Unshift(half: int, x: int): int {
    if x < half then x else x - half
  }

  // A cell of quadrant q, seen from the whole square.
  function Placed(rotation: int, q: int, n: nat, p: Point): (r: Point)
    ensures Inside(p, n) ==> Inside(r, n + 1)
  {
    Point(Shift(BitX(rotation, q), Two(n), p.x), Shift(BitY(rotation, q), Two(n), p.y))
  }

  function Cell(rotation: int, sense: int, n: nat, c: int): (p: Point)
    requires Lie(rotation, sense) && 0 <= c < Four(n)
    ensures Inside(p, n)
    decreases n
  {
    if n == 0 then Point(0, 0) else
      var q := QuadOf(sense, Lead(c, Four(n - 1)));
      var r := Cell(Turned(rotation, q), Sensed(sense, q), n - 1, Remains(c, Four(n - 1)));
      Placed(rotation, q, n - 1, r)
  }

  // The number of a cell, read off its quadrants.
  function Number(rotation: int, sense: int, n: nat, p: Point): (c: int)
    requires Lie(rotation, sense) && Inside(p, n)
    ensures 0 <= c < Four(n)
    decreases n
  {
    if n == 0 then 0 else
      var half := Two(n - 1);
      var q := QuadAt(rotation, Bit(p.x, half), Bit(p.y, half));
      var r := Number(Turned(rotation, q), Sensed(sense, q), n - 1, Point(Unshift(half, p.x), Unshift(half, p.y)));
      Join(QuadOf(sense, q), Four(n - 1), r)
  }

  lemma ShiftUndone(bit: int, half: int, x: int)
    requires 0 <= bit <= 1 && 0 <= x < half
    ensures Bit(Shift(bit, half, x), half) == bit && Unshift(half, Shift(bit, half, x)) == x
  {
  }

  lemma LeadJoins(c: int, f: int)
    requires 0 <= c < 4 * f
    ensures Join(Lead(c, f), f, Remains(c, f)) == c
  {
  }

  lemma NextLead(c: int, f: int)
    requires 0 <= c < 4 * f - 1
    ensures if Remains(c, f) == f - 1 then Lead(c + 1, f) == Lead(c, f) + 1 && Remains(c + 1, f) == 0
      else Lead(c + 1, f) == Lead(c, f) && Remains(c + 1, f) == Remains(c, f) + 1
  {
  }

  lemma {:induction false} NumberOfCell(r: int, s: int, n: nat, c: int, p: Point, d: int)
    requires Lie(r, s) && 0 <= c < Four(n) && p == Cell(r, s, n, c) && d == Number(r, s, n, p)
    ensures c == d
    decreases n
  {
    if n > 0 {
      var q := QuadOf(s, Lead(c, Four(n - 1)));
      BitsInvert(r, q);
      LeadJoins(c, Four(n - 1));
      var p1 := Cell(Turned(r, q), Sensed(s, q), n - 1, Remains(c, Four(n - 1)));
      ShiftUndone(BitX(r, q), Two(n - 1), p1.x);
      ShiftUndone(BitY(r, q), Two(n - 1), p1.y);
      NumberOfCell(Turned(r, q), Sensed(s, q), n - 1, Remains(c, Four(n - 1)), p1,
                   Number(Turned(r, q), Sensed(s, q), n - 1, p1));
    }
  }

  lemma {:induction false} CellOfNumber(r: int, s: int, n: nat, p: Point, c: int, p': Point)
    requires Lie(r, s) && Inside(p, n) && c == Number(r, s, n, p) && p' == Cell(r, s, n, c)
    ensures p == p'
    decreases n
  {
    if n > 0 {
      var half := Two(n - 1);
      var q := QuadAt(r, Bit(p.x, half), Bit(p.y, half));
      QuadInverts(r, Bit(p.x, half), Bit(p.y, half));
      var p1 := Point(Unshift(half, p.x), Unshift(half, p.y));
      var c1 := Number(Turned(r, q), Sensed(s, q), n - 1, p1);
      CellOfNumber(Turned(r, q), Sensed(s, q), n - 1, p1, c1, Cell(Turned(r, q), Sensed(s, q), n - 1, c1));
    }
  }

  function Corner(rotation: int, q: int, n: nat): Point
    requires 0 <= rotation < 4 && 0 <= q < 4
  {
    Point(End(BitX(rotation, q), n), End(BitY(rotation, q), n))
  }

  // The curve enters its square in one corner and leaves it in another.
  lemma {:induction false} FirstCell(rotation: int, sense: int, n: nat)
    requires Lie(rotation, sense)
    ensures Cell(rotation, sense, n, 0) == Corner(rotation, QuadOf(sense, 0), n)
    decreases n
  {
    if n > 0 {
      var q := QuadOf(sense, 0);
      FirstCell(Turned(rotation, q), Sensed(sense, q), n - 1);
      EndTurns(rotation, sense, 0);
    }
  }

  lemma {:induction false} LastCell(rotation: int, sense: int, n: nat)
    requires Lie(rotation, sense)
    ensures Cell(rotation, sense, n, Four(n) - 1) == Corner(rotation, QuadOf(sense, 3), n)
    decreases n
  {
    if n > 0 {
      var q := QuadOf(sense, 3);
      LastCell(Turned(rotation, q), Sensed(sense, q), n - 1);
      EndTurns(rotation, sense, 3);
    }
  }

  // Turning into an end quadrant keeps the corner that end is in.
  lemma EndTurns(rotation: int, sense: int, d: int)
    requires Lie(rotation, sense) && (d == 0 || d == 3)
    ensures var q := QuadOf(sense, d);
      var q' := QuadOf(Sensed(sense, q), d);
      BitX(Turned(rotation, q), q') == BitX(rotation, q) && BitY(Turned(rotation, q), q') == BitY(rotation, q)
  {
  }

  function Abs(x: int): int {
    if x < 0 then -x else x
  }

  predicate Adjacent(p: Point, q: Point) {
    Abs(p.x - q.x) + Abs(p.y - q.y) == 1
  }

  // Two quadrants side by side, the corner left in the one and the corner entered in the other, as bits.
  predicate Meet(x: int, y: int, ex: int, ey: int, x': int, y': int, ex': int, ey': int) {
    || (x == x' && y != y' && ex == ex' && ey == y' && ey' == y)
    || (y == y' && x != x' && ey == ey' && ex == x' && ex' == x)
  }

  lemma QuadrantsMeet(r: int, s: int, d: int, q: int, q': int, r1: int, r2: int, s1: int, s2: int)
    requires Lie(r, s) && 0 <= d < 3 && q == QuadOf(s, d) && q' == QuadOf(s, d + 1)
    requires r1 == Turned(r, q) && r2 == Turned(r, q') && s1 == QuadOf(Sensed(s, q), 3) &&
             s2 == QuadOf(Sensed(s, q'), 0)
    ensures Meet(BitX(r, q), BitY(r, q), BitX(r1, s1), BitY(r1, s1),
                 BitX(r, q'), BitY(r, q'), BitX(r2, s2), BitY(r2, s2))
  {
  }

  function End(bit: int, n: nat): int {
    if bit == 0 then 0 else Two(n) - 1
  }

  lemma MeetingAdjacent(x: int, y: int, ex: int, ey: int, x': int, y': int, ex': int, ey': int, n: nat)
    requires Meet(x, y, ex, ey, x', y', ex', ey')
    requires 0 <= x <= 1 && 0 <= y <= 1 && 0 <= x' <= 1 && 0 <= y' <= 1
    ensures Adjacent(Point(Shift(x, Two(n), End(ex, n)), Shift(y, Two(n), End(ey, n))),
                     Point(Shift(x', Two(n), End(ex', n)), Shift(y', Two(n), End(ey', n))))
  {
  }

  // Leaving one quadrant, the curve enters the next across their common side.
  lemma Crossing(r: int, s: int, n: nat, d: int, q: int, q': int, p: Point, p': Point)
    requires Lie(r, s) && 0 <= d < 3 && q == QuadOf(s, d) && q' == QuadOf(s, d + 1)
    requires p == Cell(Turned(r, q), Sensed(s, q), n, Four(n) - 1)
    requires p' == Cell(Turned(r, q'), Sensed(s, q'), n, 0)
    ensures Adjacent(Placed(r, q, n, p), Placed(r, q', n, p'))
  {
    var r1, r2 := Turned(r, q), Turned(r, q');
    var e, e' := QuadOf(Sensed(s, q), 3), QuadOf(Sensed(s, q'), 0);
    LastCell(r1, Sensed(s, q), n);
    FirstCell(r2, Sensed(s, q'), n);
    QuadrantsMeet(r, s, d, q, q', r1, r2, e, e');
    MeetingAdjacent(BitX(r, q), BitY(r, q), BitX(r1, e), BitY(r1, e),
                    BitX(r, q'), BitY(r, q'), BitX(r2, e'), BitY(r2, e'), n);
  }

  lemma {:induction false} NextCell(r: int, s: int, n: nat, c: int, p: Point, p': Point)
    requires Lie(r, s) && 0 <= c < Four(n) - 1
    requires p == Cell(r, s, n, c) && p' == Cell(r, s, n, c + 1)
    ensures Adjacent(p, p')
    decreases n
  {
    if n > 0 {
      NextLead(c, Four(n - 1));
      if Remains(c, Four(n - 1)) == Four(n - 1) - 1 {
        NextQuadrant(r, s, n, c, Lead(c, Four(n - 1)), p, p');
      } else {
        var q, k := QuadOf(s, Lead(c, Four(n - 1))), Remains(c, Four(n - 1));
        var p1, p2 := Cell(Turned(r, q), Sensed(s, q), n - 1, k), Cell(Turned(r, q), Sensed(s, q), n - 1, k + 1);
        NextCell(Turned(r, q), Sensed(s, q), n - 1, k, p1, p2);
        PlacedAdjacent(r, q, n - 1, p1, p2);
      }
    }
  }

  lemma NextQuadrant(r: int, s: int, n: nat, c: int, d: int, p: Point, p': Point)
    requires Lie(r, s) && 0 <= c < Four(n) - 1 && n > 0
    requires Lead(c, Four(n - 1)) == d < 3 && Remains(c, Four(n - 1)) == Four(n - 1) - 1
    requires Lead(c + 1, Four(n - 1)) == d + 1 && Remains(c + 1, Four(n - 1)) == 0
    requires p == Cell(r, s, n, c) && p' == Cell(r, s, n, c + 1)
    ensures Adjacent(p, p')
  {
    var q, q' := QuadOf(s, d), QuadOf(s, d + 1);
    var p1 := Cell(Turned(r, q), Sensed(s, q), n - 1, Four(n - 1) - 1);
    var p2 := Cell(Turned(r, q'), Sensed(s, q'), n - 1, 0);
    Crossing(r, s, n - 1, d, q, q', p1, p2);
  }

  lemma PlacedAdjacent(r: int, q: int, n: nat, p: Point, p': Point)
    requires Adjacent(p, p')
    ensures Adjacent(Placed(r, q, n, p), Placed(r, q, n, p'))
  {
  }

  // The walk adds up the number of the cell, each digit one less than in the number.
  lemma {:induction false} WalkNumbers(w: Walk, n: nat, p: Point, v: int, c: int)
    requires w.Valid() && Inside(Point(p.x - w.x, p.y - w.y), n)
    requires n > 0 ==> w.i == w.j == Two(n - 1)
    requires v == Rest(w, p.x, p.y, n) && c == Number(w.rotation, w.sense, n, Point(p.x - w.x, p.y - w.y))
    ensures 3 * v == 3 * c - (Four(n) - 1)
    decreases n
  {
    if n > 0 {
      var half, w1 := Two(n - 1), w.Next(p.x, p.y);
      NextWalk(w, p, half, w1);
      var p1 := Point(p.x - w1.x, p.y - w1.y);
      var v1, c1 := Rest(w1, p.x, p.y, n - 1), Number(w1.rotation, w1.sense, n - 1, p1);
      WalkNumbers(w1, n - 1, p, v1, c1);
      RestStep(w, n, p, v1);
      NumberStep(w.rotation, w.sense, n, Point(p.x - w.x, p.y - w.y), w.Quad(p.x, p.y), p1, c1);
      DigitNumbers(QuadOf(w.sense, w.Quad(p.x, p.y)), Four(n - 1), v1, c1);
    }
  }

  lemma RestStep(w: Walk, n: nat, p: Point, v1: int)
    requires w.Valid() && !w.Over() && n > 0 && v1 == Rest(w.Next(p.x, p.y), p.x, p.y, n - 1)
    ensures Rest(w, p.x, p.y, n) == (QuadOf(w.sense, w.Quad(p.x, p.y)) - 1) * Four(n - 1) + v1
  {
  }

  lemma NumberStep(r: int, s: int, n: nat, p: Point, q: int, p1: Point, c1: int)
    requires Lie(r, s) && Inside(p, n) && n > 0 && q == QuadAt(r, Bit(p.x, Two(n - 1)), Bit(p.y, Two(n - 1)))
    requires p1 == Point(Unshift(Two(n - 1), p.x), Unshift(Two(n - 1), p.y))
    requires c1 == Number(Turned(r, q), Sensed(s, q), n - 1, p1)
    ensures Number(r, s, n, p) == Join(QuadOf(s, q), Four(n - 1), c1)
  {
  }

  lemma NextWalk(w: Walk, p: Point, half: int, w1: Walk)
    requires w.Valid() && w.i == w.j == half && w1 == w.Next(p.x, p.y)
    ensures p.x - w1.x == Unshift(half, p.x - w.x) && p.y - w1.y == Unshift(half, p.y - w.y)
    ensures w.Quad(p.x, p.y) == QuadAt(w.rotation, Bit(p.x - w.x, half), Bit(p.y - w.y, half))
    ensures w1.rotation == Turned(w.rotation, w.Quad(p.x, p.y)) && w1.sense == Sensed(w.sense, w.Quad(p.x, p.y))
    ensures w1.i == w1.j == Half(half)
  {
  }

  lemma DigitNumbers(d: int, f: int, v: int, c: int)
    requires 0 <= d < 4 && 0 <= c < f && 3 * v == 3 * c - (f - 1)
    ensures 3 * ((d - 1) * f + v) == 3 * Join(d, f, c) - (4 * f - 1)
  {
  }

  predicate Square(u: Box, k: nat) {
    u.SideX() == Two(k) && u.SideY() == Two(k)
  }

  // An integer point of the universe, its far sides left out.
  function Centre(b: Box): Point { Point(b.CenterX(), b.CenterY()) }

  predicate Within(u: Box, p: Point) {
    u.x0 <= p.x < u.x1 && u.y0 <= p.y < u.y1
  }

  function Lowest(k: nat): int {
    (1 - Four(k)) / 3
  }

  lemma {:induction false} LowestIs(k: nat)
    ensures 3 * Lowest(k) == 1 - Four(k)
  {
    if k > 0 { LowestIs(k - 1); }
  }

  // The number of a point of the universe, counted from its low corner.
  function Counted(u: Box, k: nat, p: Point): (c: int)
    requires Square(u, k) && Within(u, p)
    ensures 0 <= c < Four(k)
  {
    Number(0, 1, k, Point(p.x - u.x0, p.y - u.y0))
  }

  lemma LevelsIs(u: Box, k: nat, level: int)
    requires Square(u, k) && k <= DEFAULT_LEVELS && level == 0
    ensures Levels(u, level) == k
  {
    FloorLogIs(Two(k), k);
  }

  lemma ValueNumbers(u: Box, k: nat, level: int, p: Point, v: int)
    requires Square(u, k) && k <= DEFAULT_LEVELS && Within(u, p) && level == 0 && v == Value(u, level, p.x, p.y)
    ensures v == Lowest(k) + Counted(u, k, p)
  {
    LevelsIs(u, k, level);
    RestNumbers(u, k, p, v, Start(u));
  }

  lemma RestNumbers(u: Box, k: nat, p: Point, v: int, w: Walk)
    requires Square(u, k) && Within(u, p) && w == Start(u) && v == Rest(w, p.x, p.y, k)
    ensures v == Lowest(k) + Counted(u, k, p)
  {
    StartIs(u, k, w);
    WalkNumbers(w, k, p, v, Number(w.rotation, w.sense, k, Point(p.x - u.x0, p.y - u.y0)));
    LowestIs(k);
  }

  lemma StartIs(u: Box, k: nat, w: Walk)
    requires Square(u, k) && w == Start(u)
    ensures w.x == u.x0 && w.y == u.y0 && w.rotation == 0 && w.sense == 1 && w.Valid()
    ensures k > 0 ==> w.i == w.j == Two(k - 1)
  {
  }

  lemma CountedOnce(u: Box, k: nat, p: Point, q: Point)
    requires Square(u, k) && Within(u, p) && Within(u, q) && Counted(u, k, p) == Counted(u, k, q)
    ensures p == q
  {
    var c := Counted(u, k, p);
    var p', q' := Point(p.x - u.x0, p.y - u.y0), Point(q.x - u.x0, q.y - u.y0);
    var cell := Cell(0, 1, k, c);
    CellOfNumber(0, 1, k, p', c, cell);
    CellOfNumber(0, 1, k, q', c, cell);
  }

  lemma CountedTaken(u: Box, k: nat, c: int) returns (p: Point)
    requires Square(u, k) && 0 <= c < Four(k)
    ensures Within(u, p) && Counted(u, k, p) == c
  {
    var p' := Cell(0, 1, k, c);
    p := Point(u.x0 + p'.x, u.y0 + p'.y);
    NumberOfCell(0, 1, k, c, p', Number(0, 1, k, p'));
  }

  lemma CountedSteps(u: Box, k: nat, p: Point, q: Point)
    requires Square(u, k) && Within(u, p) && Within(u, q) && Counted(u, k, q) == Counted(u, k, p) + 1
    ensures Adjacent(p, q)
  {
    var p', q' := Point(p.x - u.x0, p.y - u.y0), Point(q.x - u.x0, q.y - u.y0);
    NumberSteps(0, 1, k, p', q', Counted(u, k, p));
  }

  lemma NumberSteps(r: int, s: int, k: nat, p: Point, q: Point, c: int)
    requires Lie(r, s) && Inside(p, k) && Inside(q, k) && 0 <= c < Four(k) - 1
    requires Number(r, s, k, p) == c && Number(r, s, k, q) == c + 1
    ensures Adjacent(p, q)
  {
    CellOfNumber(r, s, k, p, c, Cell(r, s, k, c));
    CellOfNumber(r, s, k, q, c + 1, Cell(r, s, k, c + 1));
    NextCell(r, s, k, c, p, q);
  }

  // The values of a square universe are 4^k consecutive integers, each taken at exactly one point.
  lemma ValueInRange(u: Box, k: nat, p: Point)
    requires Square(u, k) && k <= DEFAULT_LEVELS && Within(u, p)
    ensures Lowest(k) <= Value(u, 0, p.x, p.y) < Lowest(k) + Four(k)
  {
    ValueNumbers(u, k, 0, p, Value(u, 0, p.x, p.y));
  }

  // Each of them is the value of a box.
  lemma ValueTaken(u: Box, k: nat, v: int) returns (b: Box)
    requires Square(u, k) && k <= DEFAULT_LEVELS
    requires Lowest(k) <= v < Lowest(k) + Four(k)
    ensures Within(u, Centre(b)) && Value(u, 0, Centre(b).x, Centre(b).y) == v
  {
    var p := CountedTaken(u, k, v - Lowest(k));
    ValueNumbers(u, k, 0, p, Value(u, 0, p.x, p.y));
    b := PointBox(p);
  }

  lemma PointBox(p: Point) returns (b: Box)
    ensures Centre(b) == p
  {
    b := Box(p.x, p.y, p.x, p.y);
  }

  lemma ValueOnce(u: Box, k: nat, p: Point, q: Point)
    requires Square(u, k) && k <= DEFAULT_LEVELS && Within(u, p) && Within(u, q)
    requires Value(u, 0, p.x, p.y) == Value(u, 0, q.x, q.y)
    ensures p == q
  {
    ValueNumbers(u, k, 0, p, Value(u, 0, p.x, p.y));
    ValueNumbers(u, k, 0, q, Value(u, 0, q.x, q.y));
    CountedOnce(u, k, p, q);
  }

  // Consecutive values are neighbours: one coordinate differs, by one.
  lemma ValueSteps(u: Box, k: nat, p: Point, q: Point)
    requires Square(u, k) && k <= DEFAULT_LEVELS && Within(u, p) && Within(u, q)
    requires Value(u, 0, q.x, q.y) == Value(u, 0, p.x, p.y) + 1
    ensures Adjacent(p, q)
  {
    ValueNumbers(u, k, 0, p, Value(u, 0, p.x, p.y));
    ValueNumbers(u, k, 0, q, Value(u, 0, q.x, q.y));
    CountedSteps(u, k, p, q);
  }

  // The path begins in the low corner and ends in the one to the right of it.
  lemma CurveEnds(u: Box, k: nat, p: Point, q: Point)
    requires Square(u, k) && k <= DEFAULT_LEVELS
    requires p == Point(u.x0, u.y0) && q == Point(u.x1 - 1, u.y0)
    ensures Value(u, 0, p.x, p.y) == Lowest(k) && Value(u, 0, q.x, q.y) == Lowest(k) + Four(k) - 1
  {
    FirstCounted(u, k, p, 0, 1);
    LastCounted(u, k, q, 0, 1);
    ValueNumbers(u, k, 0, p, Value(u, 0, p.x, p.y));
    ValueNumbers(u, k, 0, q, Value(u, 0, q.x, q.y));
  }

  lemma FirstCounted(u: Box, k: nat, p: Point, r: int, s: int)
    requires Square(u, k) && p == Point(u.x0, u.y0) && r == 0 && s == 1
    ensures Within(u, p) && Counted(u, k, p) == 0
  {
    CellEnds(r, s, k);
    CellCounted(u, k, p, 0, r, s);
  }

  lemma LastCounted(u: Box, k: nat, q: Point, r: int, s: int)
    requires Square(u, k) && q == Point(u.x1 - 1, u.y0) && r == 0 && s == 1
    ensures Within(u, q) && Counted(u, k, q) == Four(k) - 1
  {
    CellEnds(r, s, k);
    CellCounted(u, k, q, Four(k) - 1, r, s);
  }

  lemma CellEnds(r: int, s: int, k: nat)
    requires r == 0 && s == 1
    ensures Cell(r, s, k, 0) == Point(0, 0) && Cell(r, s, k, Four(k) - 1) == Point(Two(k) - 1, 0)
  {
    FirstCell(r, s, k);
    LastCell(r, s, k);
  }

  lemma CellCounted(u: Box, k: nat, p: Point, c: int, r: int, s: int)
    requires Square(u, k) && r == 0 && s == 1 && 0 <= c < Four(k)
    requires Point(p.x - u.x0, p.y - u.y0) == Cell(r, s, k, c)
    ensures Within(u, p) && Counted(u, k, p) == c
  {
    var p' := Cell(r, s, k, c);
    NumberOfCell(r, s, k, c, p', Number(r, s, k, p'));
  }
}
