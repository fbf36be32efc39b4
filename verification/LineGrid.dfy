/**
  Lines on a flat projection, filed in a hash grid (src/server/line_grid.rs).

  Coordinates are exact reals: float rounding is not modelled, here or in any
  other module. An infinite "next boundary" is the value `Never`. The length
  of a displacement is an arbitrary function `h` that satisfies `IsHypot`,
  which determines it uniquely.
*/
module LineGrid {
  import opened Reals
  import opened Sums

  /** A point of the plane, in metres. */
  datatype Flat = Flat(x: real, y: real)

  datatype Cell = Cell(x: int, y: int)

  type Line = seq<Flat>

  datatype Position = Position(lat: real, lon: real)

  /** Where a position is, projected around an origin. */
  type Projection = (Position, Position) -> Flat

  function Projected(project: Projection, origin: Position, line: seq<Position>): (flat: Line)
    ensures |flat| == |line|
  {
    seq(|line|, i requires 0 <= i < |line| => project(origin, line[i]))
  }

  type Hypot = (real, real) -> real

  ghost predicate IsHypot(h: Hypot) {
    forall u: real, v: real :: h(u, v) >= 0.0 && h(u, v) * h(u, v) == u * u + v * v
  }

  function Distance(h: Hypot, a: Flat, b: Flat): real {
    h(a.x - b.x, a.y - b.y)
  }

  function Square(r: real): real { r * r }

  function DistanceSq(a: Flat, b: Flat): real {
    Square(a.x - b.x) + Square(a.y - b.y)
  }

  /** The point a share `t` of the way from `start` to `end`. */
  function On(start: Flat, end: Flat, t: real): Flat {
    Flat(Coordinate(start.x, end.x - start.x, t), Coordinate(start.y, end.y - start.y, t))
  }

  function Coordinate(from: real, d: real, t: real): real {
    from + t * d
  }

  function Index(v: real, cell: real): int
    requires cell > 0.0
  {
    (v / cell).Floor
  }

  function CellOf(p: Flat, cell: real): Cell
    requires cell > 0.0
  {
    Cell(Index(p.x, cell), Index(p.y, cell))
  }

  function Abs(n: int): nat { if n < 0 then -n else n }

  function AbsReal(r: real): real { if r < 0.0 then -r else r }

  // ---------------------------------------------------------------- one axis

  /** How far apart, as a share of the segment, two boundaries are crossed when it passes a corner. */
  const NEAR_CORNER := 0.000000001

  /** When a walk next crosses a boundary of an axis, as a share of the segment. */
  datatype Crossing = Never | At(t: real) {
    predicate Before(other: Crossing) {
      At? && (other.Never? || t < other.t)
    }

    /** Close enough to `other` for the walk to pass through a corner. */
    predicate Beside(other: Crossing) {
      At? && other.At? && AbsReal(t - other.t) <= NEAR_CORNER
    }

    function Plus(delta: Crossing): Crossing {
      if At? && delta.At? then At(t + delta.t) else Never
    }
  }

  /** One axis of the walk, in shares of the segment where not in cells. */
  datatype Axis = Axis(step: int, next: Crossing, delta: Crossing)

  function StepOf(d: real): int { if d > 0.0 then 1 else if d < 0.0 then -1 else 0 }

  /** `next` is where the axis leaves the cell index `at`, going by `d`. */
  ghost predicate Leaves(d: real, from: real, at: int, cell: real, next: Crossing) {
    match next
    case Never => d == 0.0
    case At(n) => d != 0.0 && Coordinate(from, d, n) == (at + if d > 0.0 then 1 else 0) as real * cell
  }

  lemma {:induction false} IndexIs(v: real, cell: real, k: int)
    requires cell > 0.0
    ensures Index(v, cell) >= k <==> k as real * cell <= v
    ensures Index(v, cell) < k <==> v < k as real * cell
  {
    var q := v / cell;
    assert q * cell == v;
    if q >= k as real {
      ProductNonNegative(q - k as real, cell);
    } else {
      ProductPositive(k as real - q, cell);
    }
  }

  /** The boundaries of an axis lie `delta` apart. */
  ghost predicate Spaced(d: real, cell: real, next: Crossing, delta: Crossing) {
    next.At? ==> delta.At? && delta.t > 0.0 && delta.t * AbsReal(d) == cell
  }

  /** What an axis is, whatever way it is worked out. */
  ghost predicate IsAxis(d: real, from: real, at: int, cell: real, axis: Axis) {
    && axis.step == StepOf(d)
    && Leaves(d, from, at, cell, axis.next)
    && Spaced(d, cell, axis.next, axis.delta)
  }

  method AxisOf(d: real, from: real, at: int, cell: real) returns (axis: Axis)
    requires cell > 0.0
    ensures IsAxis(d, from, at, cell, axis)
  {
    if d == 0.0 {
      return Axis(0, Never, Never);
    }
    var step := if d > 0.0 then 1 else -1;
    var boundary := (at + if d > 0.0 then 1 else 0) as real * cell;
    axis := Axis(step, At((boundary - from) / d), At(cell / AbsReal(d)));
    assert (boundary - from) / d * d == boundary - from;
    assert cell / AbsReal(d) * AbsReal(d) == cell;
    QuotientPositive(cell, AbsReal(d));
  }

  /** One boundary on: the walk leaves the next cell a `delta` later. */
  lemma {:induction false} LeavesNext(d: real, from: real, at: int, cell: real, n: real, delta: real)
    requires cell > 0.0 && d != 0.0 && delta * AbsReal(d) == cell
    requires Leaves(d, from, at, cell, At(n))
    ensures Leaves(d, from, at + if d > 0.0 then 1 else -1, cell, At(n + delta))
  {
    assert (n + delta) * d == n * d + delta * d;
    var k := at + if d > 0.0 then 1 else 0;
    assert (k + 1) as real * cell == k as real * cell + cell;
    assert (k - 1) as real * cell == k as real * cell - cell;
  }

  /** A coordinate is past the index `at` from the crossing on — or just after it, going down. */
  lemma {:induction false} PastFrom(d: real, from: real, at: int, cell: real, n: real, t: real)
    requires cell > 0.0 && Leaves(d, from, at, cell, At(n))
    ensures d > 0.0 ==> (Index(Coordinate(from, d, t), cell) > at <==> t >= n)
    ensures d < 0.0 ==> (Index(Coordinate(from, d, t), cell) < at <==> t > n)
    ensures d > 0.0 && t == n ==> Index(Coordinate(from, d, t), cell) == at + 1
  {
    var v := Coordinate(from, d, t);
    assert v - (from + n * d) == (t - n) * d;
    if d > 0.0 {
      IndexIs(v, cell, at + 1);
      IndexIs(v, cell, at + 2);
      if t >= n { ProductNonNegative(t - n, d); } else { ProductPositive(n - t, d); }
    } else {
      IndexIs(v, cell, at);
      if t > n { ProductPositive(t - n, -d); } else { ProductNonNegative(n - t, -d); }
    }
  }

  /** Along a segment an axis's index only moves the way the walk steps. */
  lemma {:induction false} IndexMonotone(d: real, from: real, cell: real, s: real, t: real)
    requires cell > 0.0 && s <= t
    ensures d >= 0.0 ==> Index(Coordinate(from, d, s), cell) <= Index(Coordinate(from, d, t), cell)
    ensures d <= 0.0 ==> Index(Coordinate(from, d, s), cell) >= Index(Coordinate(from, d, t), cell)
  {
    var u, v := Coordinate(from, d, s), Coordinate(from, d, t);
    assert v - u == (t - s) * d;
    if d >= 0.0 {
      ProductNonNegative(t - s, d);
      IndexIs(u, cell, Index(u, cell));
      IndexIs(v, cell, Index(u, cell));
    }
    if d <= 0.0 {
      ProductNonNegative(t - s, -d);
      IndexIs(v, cell, Index(v, cell));
      IndexIs(u, cell, Index(v, cell));
    }
  }

  // ---------------------------------------------------------------- the walk

  /** Every point of the segment is in one of `cells`. */
  ghost predicate Covers(start: Flat, end: Flat, cell: real, cells: seq<Cell>)
    requires cell > 0.0
  {
    forall t: real {:trigger CellOf(On(start, end, t), cell)} ::
      0.0 <= t <= 1.0 ==> CellOf(On(start, end, t), cell) in cells
  }

  /** How many steps an axis has to go to reach `last`; negative when overshot. */
  function ToGo(step: int, at: int, last: int): int {
    if step > 0 then last - at else if step < 0 then at - last else 0
  }

  /** An axis's cell index all along a segment. */
  function IndexAlong(d: real, from: real, cell: real): real -> int
    requires cell > 0.0
  {
    (t: real) => Index(Coordinate(from, d, t), cell)
  }

  /** Whether, at `t`, the axis had not come as far as the index `at`. */
  ghost predicate Behind(step: int, index: real -> int, at: int, t: real) {
    (step > 0 && index(t) < at) || (step < 0 && index(t) > at)
  }

  /** Exactly from the crossing on — just after it, going down — the axis is past `at`. */
  ghost predicate Crosses(step: int, index: real -> int, at: int, next: Crossing) {
    match next
    case Never => step == 0 && forall t: real :: 0.0 <= t <= 1.0 ==> index(t) == at
    case At(n) =>
      && step != 0
      && forall t: real :: 0.0 <= t <= 1.0 ==>
           && (step > 0 ==> (index(t) > at <==> t >= n) && (t == n ==> index(t) == at + 1))
           && (step < 0 ==> (index(t) < at <==> t > n))
  }

  /** The cell of every point the walk has left behind on either axis is among `cells`. */
  ghost predicate Walked(sx: int, ix: real -> int, sy: int, iy: real -> int, at: Cell, cells: seq<Cell>) {
    && at in cells
    && forall t: real :: 0.0 <= t <= 1.0 && (Behind(sx, ix, at.x, t) || Behind(sy, iy, at.y, t))
                         ==> Cell(ix(t), iy(t)) in cells
  }

  /** Stepping over a vertical boundary that is strictly the nearer one loses no cell. */
  lemma {:induction false} WalkX(sx: int, ix: real -> int, sy: int, iy: real -> int, at: Cell, nextX: Crossing,
                                 nextY: Crossing, cells: seq<Cell>)
    requires -1 <= sx <= 1 && -1 <= sy <= 1
    requires Crosses(sx, ix, at.x, nextX) && Crosses(sy, iy, at.y, nextY)
    requires Walked(sx, ix, sy, iy, at, cells) && nextX.Before(nextY)
    ensures var next := Cell(at.x + sx, at.y);
            Walked(sx, ix, sy, iy, next, cells + [next])
  {
    var next := Cell(at.x + sx, at.y);
    forall t: real | 0.0 <= t <= 1.0 && (Behind(sx, ix, next.x, t) || Behind(sy, iy, next.y, t))
      ensures Cell(ix(t), iy(t)) in cells + [next]
    {
      if !Behind(sx, ix, at.x, t) && !Behind(sy, iy, at.y, t) {
        assert Cell(ix(t), iy(t)) == at;
      }
    }
  }

  /** Stepping over the other boundary loses none either, with the corner cell a tie may touch. */
  lemma {:induction false} WalkY(sx: int, ix: real -> int, sy: int, iy: real -> int, at: Cell, nextX: Crossing,
                                 nextY: Crossing, cells: seq<Cell>)
    requires -1 <= sx <= 1 && -1 <= sy <= 1
    requires Crosses(sx, ix, at.x, nextX) && Crosses(sy, iy, at.y, nextY)
    requires Walked(sx, ix, sy, iy, at, cells) && nextY.At? && !nextX.Before(nextY)
    requires nextX.Beside(nextY) ==> Cell(at.x + sx, at.y) in cells
    ensures var next := Cell(at.x, at.y + sy);
            Walked(sx, ix, sy, iy, next, cells + [next])
  {
    var next := Cell(at.x, at.y + sy);
    forall t: real | 0.0 <= t <= 1.0 && (Behind(sx, ix, next.x, t) || Behind(sy, iy, next.y, t))
      ensures Cell(ix(t), iy(t)) in cells + [next]
    {
      if !Behind(sx, ix, at.x, t) && !Behind(sy, iy, at.y, t) {
        var here := Cell(ix(t), iy(t));
        assert here == at || (here == Cell(at.x + sx, at.y) && nextX.Beside(nextY));
      }
    }
  }

  /** Whether the walk still can take `left` steps and end in `last`. */
  ghost predicate OnBudget(sx: int, sy: int, at: Cell, last: Cell, left: int) {
    var x, y := ToGo(sx, at.x, last.x), ToGo(sy, at.y, last.y);
    && x + y == left
    && (left > 0 ==> x >= 0 && y >= 0)
    && (sx == 0 ==> at.x == last.x)
    && (sy == 0 ==> at.y == last.y)
  }

  /** Out of steps, the walk has left behind or stands in the cell of every point. */
  lemma {:induction false} WalkComplete(sx: int, ix: real -> int, sy: int, iy: real -> int, at: Cell, last: Cell,
                                        cells: seq<Cell>)
    requires -1 <= sx <= 1 && -1 <= sy <= 1
    requires Walked(sx, ix, sy, iy, at, cells) && OnBudget(sx, sy, at, last, 0)
    requires forall t: real :: 0.0 <= t <= 1.0 ==> ToGo(sx, ix(t), last.x) >= 0 && ToGo(sy, iy(t), last.y) >= 0
    requires sx == 0 ==> forall t: real :: 0.0 <= t <= 1.0 ==> ix(t) == last.x
    requires sy == 0 ==> forall t: real :: 0.0 <= t <= 1.0 ==> iy(t) == last.y
    ensures forall t: real :: 0.0 <= t <= 1.0 ==> Cell(ix(t), iy(t)) in cells
  {
    forall t: real | 0.0 <= t <= 1.0
      ensures Cell(ix(t), iy(t)) in cells
    {
      assert Behind(sx, ix, at.x, t) || Behind(sy, iy, at.y, t) || Cell(ix(t), iy(t)) == at;
    }
  }

  // ------------------------------------------------- the walk along a segment

  /** The walk stands in `at`, about to cross `nextX` or `nextY`, with `left` steps to take. */
  ghost predicate Walking(start: Flat, end: Flat, cell: real, at: Cell, nextX: Crossing, nextY: Crossing,
                          cells: seq<Cell>, left: int)
    requires cell > 0.0
  {
    var dx, dy := end.x - start.x, end.y - start.y;
    && Leaves(dx, start.x, at.x, cell, nextX) && (dx == 0.0 ==> at.x == Index(start.x, cell))
    && Leaves(dy, start.y, at.y, cell, nextY) && (dy == 0.0 ==> at.y == Index(start.y, cell))
    && Walked(StepOf(dx), IndexAlong(dx, start.x, cell), StepOf(dy), IndexAlong(dy, start.y, cell), at, cells)
    && OnBudget(StepOf(dx), StepOf(dy), at, CellOf(end, cell), left)
  }

  lemma {:induction false} LeavesIsCrossing(d: real, from: real, at: int, cell: real, next: Crossing)
    requires cell > 0.0 && Leaves(d, from, at, cell, next) && (d == 0.0 ==> at == Index(from, cell))
    ensures Crosses(StepOf(d), IndexAlong(d, from, cell), at, next)
  {
    var index := IndexAlong(d, from, cell);
    if next.At? {
      forall t: real | 0.0 <= t <= 1.0
        ensures d > 0.0 ==> (index(t) > at <==> t >= next.t) && (t == next.t ==> index(t) == at + 1)
        ensures d < 0.0 ==> (index(t) < at <==> t > next.t)
      {
        PastFrom(d, from, at, cell, next.t, t);
      }
    } else {
      forall t: real | 0.0 <= t <= 1.0
        ensures index(t) == at
      {
        assert t * d == 0.0;
      }
    }
  }

  /** With an axis still short of `last`, its next boundary is crossed within the segment. */
  lemma {:induction false} NextWithin(d: real, from: real, at: int, cell: real, next: Crossing, last: int)
    requires cell > 0.0 && Leaves(d, from, at, cell, next)
    requires last == Index(Coordinate(from, d, 1.0), cell)
    ensures ToGo(StepOf(d), at, last) > 0 ==> next.At? && next.t <= 1.0
    ensures ToGo(StepOf(d), at, last) > 1 ==> next.At? && next.t < 1.0
    ensures ToGo(StepOf(d), at, last) == 0 && next.At? ==> next.t >= 1.0
  {
    if next.At? {
      PastFrom(d, from, at, cell, next.t, 1.0);
      var delta := cell / AbsReal(d);
      assert delta * AbsReal(d) == cell;
      QuotientPositive(cell, AbsReal(d));
      LeavesNext(d, from, at, cell, next.t, delta);
      PastFrom(d, from, at + if d > 0.0 then 1 else -1, cell, next.t + delta, 1.0);
    }
  }

  /** Which cell the walk steps into. */
  function NextCell(start: Flat, end: Flat, at: Cell, nextX: Crossing, nextY: Crossing): Cell {
    if nextX.Before(nextY) then Cell(at.x + StepOf(end.x - start.x), at.y)
    else Cell(at.x, at.y + StepOf(end.y - start.y))
  }

  /** The step the walk takes keeps it on budget: only the very last one may go astray. */
  lemma {:induction false} StepOnBudget(start: Flat, end: Flat, cell: real, at: Cell, nextX: Crossing,
                                        nextY: Crossing, cells: seq<Cell>, left: int)
    requires cell > 0.0 && left > 0 && Walking(start, end, cell, at, nextX, nextY, cells, left)
    ensures nextX.Before(nextY) || nextY.At?
    ensures OnBudget(StepOf(end.x - start.x), StepOf(end.y - start.y), NextCell(start, end, at, nextX, nextY),
                     CellOf(end, cell), left - 1)
  {
    var dx, dy, last := end.x - start.x, end.y - start.y, CellOf(end, cell);
    NextWithin(dx, start.x, at.x, cell, nextX, last.x);
    NextWithin(dy, start.y, at.y, cell, nextY, last.y);
  }

  /** Whichever boundary is crossed, every cell touched on the way is filed. */
  lemma {:induction false} StepWalked(start: Flat, end: Flat, cell: real, at: Cell, nextX: Crossing, nextY: Crossing,
                                      cells: seq<Cell>, left: int)
    requires cell > 0.0 && left > 0 && Walking(start, end, cell, at, nextX, nextY, cells, left)
    requires nextX.Beside(nextY) ==> Cell(at.x + StepOf(end.x - start.x), at.y) in cells
    ensures var dx, dy, next := end.x - start.x, end.y - start.y, NextCell(start, end, at, nextX, nextY);
            Walked(StepOf(dx), IndexAlong(dx, start.x, cell), StepOf(dy), IndexAlong(dy, start.y, cell), next,
                   cells + [next])
  {
    var dx, dy := end.x - start.x, end.y - start.y;
    var ix, iy := IndexAlong(dx, start.x, cell), IndexAlong(dy, start.y, cell);
    LeavesIsCrossing(dx, start.x, at.x, cell, nextX);
    LeavesIsCrossing(dy, start.y, at.y, cell, nextY);
    StepOnBudget(start, end, cell, at, nextX, nextY, cells, left);
    if nextX.Before(nextY) {
      WalkX(StepOf(dx), ix, StepOf(dy), iy, at, nextX, nextY, cells);
    } else {
      WalkY(StepOf(dx), ix, StepOf(dy), iy, at, nextX, nextY, cells);
    }
  }

  /** Filing more cells than the walk needs does no harm. */
  lemma {:induction false} WalkingWithMore(start: Flat, end: Flat, cell: real, at: Cell, nextX: Crossing,
                                           nextY: Crossing, cells: seq<Cell>, left: int, more: seq<Cell>)
    requires cell > 0.0 && Walking(start, end, cell, at, nextX, nextY, cells, left)
    ensures Walking(start, end, cell, at, nextX, nextY, cells + more, left)
  {
  }

  /** Moving the crossed boundary on by its delta, the walk goes on from the next cell. */
  lemma {:induction false} StepWalking(start: Flat, end: Flat, cell: real, at: Cell, nextX: Crossing, nextY: Crossing,
                                       cells: seq<Cell>, left: int, deltaX: Crossing, deltaY: Crossing,
                                       corners: seq<Cell>)
    requires cell > 0.0 && left > 0 && Walking(start, end, cell, at, nextX, nextY, cells, left)
    requires corners == Corners(start, end, at, nextX, nextY)
    requires Spaced(end.x - start.x, cell, nextX, deltaX) && Spaced(end.y - start.y, cell, nextY, deltaY)
    ensures var next, byX := NextCell(start, end, at, nextX, nextY), nextX.Before(nextY);
            var furtherX := if byX then nextX.Plus(deltaX) else nextX;
            var furtherY := if byX then nextY else nextY.Plus(deltaY);
            && Walking(start, end, cell, next, furtherX, furtherY, cells + corners + [next], left - 1)
            && Spaced(end.x - start.x, cell, furtherX, deltaX) && Spaced(end.y - start.y, cell, furtherY, deltaY)
  {
    WalkingWithMore(start, end, cell, at, nextX, nextY, cells, left, corners);
    StepOnBudget(start, end, cell, at, nextX, nextY, cells + corners, left);
    StepWalked(start, end, cell, at, nextX, nextY, cells + corners, left);
    if nextX.Before(nextY) {
      LeavesNext(end.x - start.x, start.x, at.x, cell, nextX.t, deltaX.t);
    } else {
      LeavesNext(end.y - start.y, start.y, at.y, cell, nextY.t, deltaY.t);
    }
  }

  /** An axis moves from its first index to its last one, the way it steps. */
  lemma {:induction false} AxisWithin(d: real, from: real, cell: real)
    requires cell > 0.0
    ensures var step, index, first, last := StepOf(d), IndexAlong(d, from, cell), Index(from, cell),
                                            Index(Coordinate(from, d, 1.0), cell);
            && ToGo(step, first, last) == Abs(last - first)
            && (forall t: real :: 0.0 <= t <= 1.0 ==> !Behind(step, index, first, t) && ToGo(step, index(t), last) >= 0)
            && (d == 0.0 ==> first == last && forall t: real :: 0.0 <= t <= 1.0 ==> index(t) == last)
  {
    var step, index, first := StepOf(d), IndexAlong(d, from, cell), Index(from, cell);
    var last := Index(Coordinate(from, d, 1.0), cell);
    assert Coordinate(from, d, 0.0) == from;
    IndexMonotone(d, from, cell, 0.0, 1.0);
    forall t: real | 0.0 <= t <= 1.0
      ensures !Behind(step, index, first, t) && ToGo(step, index(t), last) >= 0
      ensures d == 0.0 ==> index(t) == last
    {
      IndexMonotone(d, from, cell, 0.0, t);
      IndexMonotone(d, from, cell, t, 1.0);
    }
  }

  /** The first cell: nothing is left behind yet. */
  lemma {:induction false} WalkStarts(start: Flat, end: Flat, cell: real, axisX: Axis, axisY: Axis)
    requires cell > 0.0
    requires IsAxis(end.x - start.x, start.x, Index(start.x, cell), cell, axisX)
    requires IsAxis(end.y - start.y, start.y, Index(start.y, cell), cell, axisY)
    ensures var at, last := CellOf(start, cell), CellOf(end, cell);
            Walking(start, end, cell, at, axisX.next, axisY.next, [at], Abs(last.x - at.x) + Abs(last.y - at.y))
  {
    AxisWithin(end.x - start.x, start.x, cell);
    AxisWithin(end.y - start.y, start.y, cell);
  }

  /** Out of steps, the cell of every point of the segment is filed. */
  lemma {:induction false} WalkEnds(start: Flat, end: Flat, cell: real, at: Cell, nextX: Crossing, nextY: Crossing,
                                    cells: seq<Cell>)
    requires cell > 0.0 && Walking(start, end, cell, at, nextX, nextY, cells, 0)
    ensures Covers(start, end, cell, cells)
  {
    var dx, dy := end.x - start.x, end.y - start.y;
    var ix, iy := IndexAlong(dx, start.x, cell), IndexAlong(dy, start.y, cell);
    AxisWithin(dx, start.x, cell);
    AxisWithin(dy, start.y, cell);
    WalkComplete(StepOf(dx), ix, StepOf(dy), iy, at, CellOf(end, cell), cells);
    forall t: real | 0.0 <= t <= 1.0
      ensures CellOf(On(start, end, t), cell) in cells
    {
      assert CellOf(On(start, end, t), cell) == Cell(ix(t), iy(t));
    }
  }

  // ------------------------------------------------ only the cells it passes

  /** A coordinate within `slack` of the closed extent of the index `k`. */
  ghost predicate Inside(v: real, cell: real, k: int, slack: real) {
    k as real * cell - slack <= v <= (k + 1) as real * cell + slack
  }

  /** Some point of the segment is in the closed cell, or off it by a billionth of the segment. */
  ghost predicate Touches(start: Flat, end: Flat, cell: real, c: Cell) {
    exists t: real :: 0.0 <= t <= 1.0 && TouchesAt(start, end, cell, c, t)
  }

  ghost predicate TouchesAt(start: Flat, end: Flat, cell: real, c: Cell, t: real) {
    && Inside(On(start, end, t).x, cell, c.x, NEAR_CORNER * AbsReal(end.x - start.x))
    && Inside(On(start, end, t).y, cell, c.y, NEAR_CORNER * AbsReal(end.y - start.y))
  }

  /** At `now` an axis is within its cell, with the next boundary still ahead. */
  ghost predicate Ahead(d: real, from: real, cell: real, at: int, next: Crossing, now: real) {
    && Inside(Coordinate(from, d, now), cell, at, 0.0)
    && (next.At? ==> now <= next.t)
  }

  lemma {:induction false} AheadUntilCrossing(d: real, from: real, cell: real, at: int, next: Crossing, now: real,
                                              t: real)
    requires cell > 0.0 && Leaves(d, from, at, cell, next) && Ahead(d, from, cell, at, next, now)
    requires now <= t && (next.At? ==> t <= next.t)
    ensures Ahead(d, from, cell, at, next, t)
  {
    var u, v := Coordinate(from, d, now), Coordinate(from, d, t);
    assert v - u == (t - now) * d;
    if next.At? {
      var w := Coordinate(from, d, next.t);
      assert w - v == (next.t - t) * d;
      ProductNonNegative(t - now, AbsReal(d));
      ProductNonNegative(next.t - t, AbsReal(d));
    }
  }

  /** At its crossing an axis is on the border of the cell beyond. */
  lemma {:induction false} AheadAfterCrossing(d: real, from: real, cell: real, at: int, next: Crossing,
                                              delta: Crossing)
    requires cell > 0.0 && Leaves(d, from, at, cell, next) && next.At? && Spaced(d, cell, next, delta)
    ensures Ahead(d, from, cell, at + StepOf(d), next.Plus(delta), next.t)
  {
    var k := at + if d > 0.0 then 1 else 0;
    assert (k + 1) as real * cell == k as real * cell + cell;
    assert (k - 1) as real * cell == k as real * cell - cell;
  }

  /** A boundary a billionth ahead is that share of the segment away. */
  lemma {:induction false} BesideBoundary(d: real, from: real, cell: real, at: int, next: Crossing, t: real)
    requires cell > 0.0 && Leaves(d, from, at, cell, next) && next.At? && 0.0 <= next.t - t <= NEAR_CORNER
    ensures Inside(Coordinate(from, d, t), cell, at + StepOf(d), NEAR_CORNER * AbsReal(d))
  {
    var v, w := Coordinate(from, d, t), Coordinate(from, d, next.t);
    assert w - v == (next.t - t) * d;
    var n := next.t - t;
    ProductNonNegative(n, AbsReal(d));
    ProductNonNegative(NEAR_CORNER - n, AbsReal(d));
    assert (NEAR_CORNER - n) * AbsReal(d) == NEAR_CORNER * AbsReal(d) - n * AbsReal(d);
    assert n * AbsReal(d) == if d > 0.0 then w - v else v - w;
    var k := at + if d > 0.0 then 1 else 0;
    assert (k + 1) as real * cell == k as real * cell + cell;
    assert (k - 1) as real * cell == k as real * cell - cell;
  }

  lemma {:induction false} InsideWithSlack(v: real, d: real, cell: real, k: int)
    requires Inside(v, cell, k, 0.0)
    ensures Inside(v, cell, k, NEAR_CORNER * AbsReal(d))
  {
    ProductNonNegative(NEAR_CORNER, AbsReal(d));
  }

  /** A step of the walk enters a cell the segment touches, by corners it touches. */
  lemma {:induction false} StepTouches(start: Flat, end: Flat, cell: real, at: Cell, nextX: Crossing, nextY: Crossing,
                                       cells: seq<Cell>, left: int, deltaX: Crossing, deltaY: Crossing, now: real)
    returns (crossed: real)
    requires cell > 0.0 && left > 0 && Walking(start, end, cell, at, nextX, nextY, cells, left)
    requires Spaced(end.x - start.x, cell, nextX, deltaX) && Spaced(end.y - start.y, cell, nextY, deltaY)
    requires 0.0 <= now <= 1.0
    requires Ahead(end.x - start.x, start.x, cell, at.x, nextX, now)
    requires Ahead(end.y - start.y, start.y, cell, at.y, nextY, now)
    ensures 0.0 <= crossed <= 1.0
    ensures var next, byX := NextCell(start, end, at, nextX, nextY), nextX.Before(nextY);
            && Ahead(end.x - start.x, start.x, cell, next.x, if byX then nextX.Plus(deltaX) else nextX, crossed)
            && Ahead(end.y - start.y, start.y, cell, next.y, if byX then nextY else nextY.Plus(deltaY), crossed)
            && Touches(start, end, cell, next)
    ensures nextX.Beside(nextY) ==>
              && Touches(start, end, cell, Cell(at.x + StepOf(end.x - start.x), at.y))
              && Touches(start, end, cell, Cell(at.x, at.y + StepOf(end.y - start.y)))
  {
    var dx, dy, next := end.x - start.x, end.y - start.y, NextCell(start, end, at, nextX, nextY);
    NextWithin(dx, start.x, at.x, cell, nextX, CellOf(end, cell).x);
    NextWithin(dy, start.y, at.y, cell, nextY, CellOf(end, cell).y);
    crossed := if nextX.Before(nextY) then nextX.t else nextY.t;
    AheadUntilCrossing(dx, start.x, cell, at.x, nextX, now, crossed);
    AheadUntilCrossing(dy, start.y, cell, at.y, nextY, now, crossed);
    var here := On(start, end, crossed);
    InsideWithSlack(here.x, dx, cell, at.x);
    InsideWithSlack(here.y, dy, cell, at.y);
    if nextX.Before(nextY) {
      AheadAfterCrossing(dx, start.x, cell, at.x, nextX, deltaX);
      InsideWithSlack(here.x, dx, cell, next.x);
    } else {
      AheadAfterCrossing(dy, start.y, cell, at.y, nextY, deltaY);
      InsideWithSlack(here.y, dy, cell, next.y);
    }
    assert TouchesAt(start, end, cell, next, crossed);
    if nextX.Beside(nextY) {
      BesideBoundary(dx, start.x, cell, at.x, nextX, crossed);
      BesideBoundary(dy, start.y, cell, at.y, nextY, crossed);
      assert TouchesAt(start, end, cell, Cell(at.x + StepOf(dx), at.y), crossed);
      assert TouchesAt(start, end, cell, Cell(at.x, at.y + StepOf(dy)), crossed);
    }
  }

  ghost predicate AllTouch(start: Flat, end: Flat, cell: real, cells: seq<Cell>) {
    forall c :: c in cells ==> Touches(start, end, cell, c)
  }

  /** The corners beside a step, if it passes through one. */
  function Corners(start: Flat, end: Flat, at: Cell, nextX: Crossing, nextY: Crossing): seq<Cell> {
    if nextX.Beside(nextY) then
      [Cell(at.x + StepOf(end.x - start.x), at.y), Cell(at.x, at.y + StepOf(end.y - start.y))]
    else
      []
  }

  lemma {:induction false} StepAllTouch(start: Flat, end: Flat, cell: real, at: Cell, nextX: Crossing,
                                        nextY: Crossing, cells: seq<Cell>, left: int, deltaX: Crossing,
                                        deltaY: Crossing, now: real, corners: seq<Cell>)
    returns (crossed: real)
    requires cell > 0.0 && left > 0 && Walking(start, end, cell, at, nextX, nextY, cells, left)
    requires Spaced(end.x - start.x, cell, nextX, deltaX) && Spaced(end.y - start.y, cell, nextY, deltaY)
    requires 0.0 <= now <= 1.0
    requires Ahead(end.x - start.x, start.x, cell, at.x, nextX, now)
    requires Ahead(end.y - start.y, start.y, cell, at.y, nextY, now)
    requires AllTouch(start, end, cell, cells) && corners == Corners(start, end, at, nextX, nextY)
    ensures 0.0 <= crossed <= 1.0
    ensures var next, byX := NextCell(start, end, at, nextX, nextY), nextX.Before(nextY);
            && Ahead(end.x - start.x, start.x, cell, next.x, if byX then nextX.Plus(deltaX) else nextX, crossed)
            && Ahead(end.y - start.y, start.y, cell, next.y, if byX then nextY else nextY.Plus(deltaY), crossed)
            && AllTouch(start, end, cell, cells + corners + [next])
  {
    crossed := StepTouches(start, end, cell, at, nextX, nextY, cells, left, deltaX, deltaY, now);
  }

  lemma {:induction false} AheadAtStart(d: real, from: real, cell: real, axis: Axis)
    requires cell > 0.0 && IsAxis(d, from, Index(from, cell), cell, axis)
    ensures Ahead(d, from, cell, Index(from, cell), axis.next, 0.0)
  {
    var at := Index(from, cell);
    IndexIs(from, cell, at);
    IndexIs(from, cell, at + 1);
    assert Coordinate(from, d, 0.0) == from;
    if axis.next.At? && axis.next.t < 0.0 {
      PastFrom(d, from, at, cell, axis.next.t, 0.0);
    }
  }

  lemma {:induction false} EndsTouched(start: Flat, end: Flat, cell: real)
    requires cell > 0.0
    ensures Touches(start, end, cell, CellOf(start, cell)) && Touches(start, end, cell, CellOf(end, cell))
  {
    forall t: real | t == 0.0 || t == 1.0
      ensures TouchesAt(start, end, cell, CellOf(On(start, end, t), cell), t)
    {
      var p := On(start, end, t);
      IndexIs(p.x, cell, Index(p.x, cell));
      IndexIs(p.x, cell, Index(p.x, cell) + 1);
      IndexIs(p.y, cell, Index(p.y, cell));
      IndexIs(p.y, cell, Index(p.y, cell) + 1);
      InsideWithSlack(p.x, end.x - start.x, cell, Index(p.x, cell));
      InsideWithSlack(p.y, end.y - start.y, cell, Index(p.y, cell));
    }
    assert On(start, end, 0.0) == start && On(start, end, 1.0) == end;
  }

  // ------------------------------------------------------- the walk, as coded

  /** Where a walk is, when it next crosses each axis, how far apart it does, and what it filed. */
  datatype Walk = Walk(at: Cell, nextX: Crossing, nextY: Crossing, deltaX: Crossing, deltaY: Crossing,
                       cells: seq<Cell>)

  /** `left` steps before its end, a walk is on its way and filed only cells the segment touches. */
  ghost predicate Underway(start: Flat, end: Flat, cell: real, w: Walk, left: int)
    requires cell > 0.0
  {
    exists now: real :: 0.0 <= now <= 1.0 && UnderwayAt(start, end, cell, w, left, now)
  }

  ghost predicate UnderwayAt(start: Flat, end: Flat, cell: real, w: Walk, left: int, now: real)
    requires cell > 0.0
  {
    && Walking(start, end, cell, w.at, w.nextX, w.nextY, w.cells, left)
    && Spaced(end.x - start.x, cell, w.nextX, w.deltaX) && Spaced(end.y - start.y, cell, w.nextY, w.deltaY)
    && Ahead(end.x - start.x, start.x, cell, w.at.x, w.nextX, now)
    && Ahead(end.y - start.y, start.y, cell, w.at.y, w.nextY, now)
    && AllTouch(start, end, cell, w.cells)
  }

  function Stepped(start: Flat, end: Flat, w: Walk): Walk {
    var byX, next := w.nextX.Before(w.nextY), NextCell(start, end, w.at, w.nextX, w.nextY);
    w.(at := next,
       nextX := if byX then w.nextX.Plus(w.deltaX) else w.nextX,
       nextY := if byX then w.nextY else w.nextY.Plus(w.deltaY),
       cells := (if w.nextX.Beside(w.nextY) then w.cells + Corners(start, end, w.at, w.nextX, w.nextY)
                 else w.cells) + [next])
  }

  lemma {:induction false} StepUnderway(start: Flat, end: Flat, cell: real, w: Walk, left: int)
    requires cell > 0.0 && left > 0 && Underway(start, end, cell, w, left)
    ensures Underway(start, end, cell, Stepped(start, end, w), left - 1)
  {
    var now: real :| 0.0 <= now <= 1.0 && UnderwayAt(start, end, cell, w, left, now);
    var corners := Corners(start, end, w.at, w.nextX, w.nextY);
    var crossed := StepAllTouch(start, end, cell, w.at, w.nextX, w.nextY, w.cells, left, w.deltaX, w.deltaY, now,
                                corners);
    StepWalking(start, end, cell, w.at, w.nextX, w.nextY, w.cells, left, w.deltaX, w.deltaY, corners);
    assert w.nextX.Beside(w.nextY) || w.cells + corners == w.cells;
    assert UnderwayAt(start, end, cell, Stepped(start, end, w), left - 1, crossed);
  }

  lemma {:induction false} StartsUnderway(start: Flat, end: Flat, cell: real, axisX: Axis, axisY: Axis)
    requires cell > 0.0
    requires IsAxis(end.x - start.x, start.x, Index(start.x, cell), cell, axisX)
    requires IsAxis(end.y - start.y, start.y, Index(start.y, cell), cell, axisY)
    ensures var at, last := CellOf(start, cell), CellOf(end, cell);
            Underway(start, end, cell, Walk(at, axisX.next, axisY.next, axisX.delta, axisY.delta, [at]),
                     Abs(last.x - at.x) + Abs(last.y - at.y))
  {
    WalkStarts(start, end, cell, axisX, axisY);
    EndsTouched(start, end, cell);
    AheadAtStart(end.x - start.x, start.x, cell, axisX);
    AheadAtStart(end.y - start.y, start.y, cell, axisY);
    var at, last := CellOf(start, cell), CellOf(end, cell);
    assert UnderwayAt(start, end, cell, Walk(at, axisX.next, axisY.next, axisX.delta, axisY.delta, [at]),
                      Abs(last.x - at.x) + Abs(last.y - at.y), 0.0);
  }

  /** What a walk files in the end, with its last cell or without. */
  ghost predicate Walks(start: Flat, end: Flat, cell: real, cells: seq<Cell>)
    requires cell > 0.0
  {
    Covers(start, end, cell, cells) && AllTouch(start, end, cell, cells)
  }

  lemma {:induction false} EndsUnderway(start: Flat, end: Flat, cell: real, w: Walk)
    requires cell > 0.0 && Underway(start, end, cell, w, 0)
    ensures Walks(start, end, cell, w.cells) && Walks(start, end, cell, w.cells + [CellOf(end, cell)])
    ensures CellOf(end, cell) in w.cells
  {
    WalkEnds(start, end, cell, w.at, w.nextX, w.nextY, w.cells);
    EndsTouched(start, end, cell);
    assert On(start, end, 1.0) == end;
    assert CellOf(On(start, end, 1.0), cell) in w.cells;
  }

  /**
    The walk itself: the boundary next along the segment, be it a column's or
    a row's, is stepped over until the last cell is reached.
  */
  method SegmentCells(start: Flat, end: Flat, cell: real) returns (cells: seq<Cell>)
    requires cell > 0.0
    ensures Covers(start, end, cell, cells)
    ensures CellOf(end, cell) in cells
    ensures AllTouch(start, end, cell, cells)
    ensures var first, last := CellOf(start, cell), CellOf(end, cell);
            |cells| <= 3 * (Abs(last.x - first.x) + Abs(last.y - first.y)) + 2
  {
    var at, last := CellOf(start, cell), CellOf(end, cell);
    var axisX := AxisOf(end.x - start.x, start.x, at.x, cell);
    var axisY := AxisOf(end.y - start.y, start.y, at.y, cell);
    var nextX, nextY := axisX.next, axisY.next;
    var steps := Abs(last.x - at.x) + Abs(last.y - at.y);
    cells := [at];
    StartsUnderway(start, end, cell, axisX, axisY);
    ghost var walk := Walk(at, nextX, nextY, axisX.delta, axisY.delta, cells);
    for i := 0 to steps
      invariant walk == Walk(at, nextX, nextY, axisX.delta, axisY.delta, cells)
      invariant Underway(start, end, cell, walk, steps - i)
      invariant 0 < |cells| <= 3 * i + 1
    {
      StepUnderway(start, end, cell, walk, steps - i);
      walk := Stepped(start, end, walk);
      if nextX.Beside(nextY) {
        cells := cells + [Cell(at.x + axisX.step, at.y), Cell(at.x, at.y + axisY.step)];
      }
      if nextX.Before(nextY) {
        at := Cell(at.x + axisX.step, at.y);
        nextX := nextX.Plus(axisX.delta);
      } else {
        at := Cell(at.x, at.y + axisY.step);
        nextY := nextY.Plus(axisY.delta);
      }
      cells := cells + [at];
    }
    EndsUnderway(start, end, cell, walk);
    if cells[|cells| - 1] != last {
      cells := cells + [last];
    }
  }

  // ----------------------------------------------------- the nearest distance

  function Clamp(r: real): real {
    if r < 0.0 then 0.0 else if r > 1.0 then 1.0 else r
  }

  function Dot(p: Flat, a: Flat, b: Flat): real {
    (p.x - a.x) * (b.x - a.x) + (p.y - a.y) * (b.y - a.y)
  }

  /** The share of the way from `a` to `b` at which `p` is nearest. */
  function Nearest(p: Flat, a: Flat, b: Flat): real {
    var lengthSq := DistanceSq(b, a);
    if lengthSq == 0.0 then 0.0 else Clamp(Dot(p, a, b) / lengthSq)
  }

  function ToSegment(h: Hypot, p: Flat, a: Flat, b: Flat): real {
    Distance(h, p, On(a, b, Nearest(p, a, b)))
  }

  /** The squared distance to a point of the segment, as a polynomial in its share. */
  lemma {:induction false} DistanceSqOn(p: Flat, a: Flat, b: Flat, t: real)
    ensures DistanceSq(p, On(a, b, t)) == DistanceSq(p, a) - 2.0 * (t * Dot(p, a, b)) + t * t * DistanceSq(b, a)
  {
  }

  lemma {:induction false} ParabolaMinimum(c: real, l: real, t: real, n: real)
    requires l > 0.0 && 0.0 <= t <= 1.0 && n == Clamp(c / l)
    ensures -2.0 * (n * c) + n * n * l <= -2.0 * (t * c) + t * t * l
  {
    var q := c / l;
    assert q * l == c;
    var gap := t - n;
    calc {
      (-2.0 * (t * c) + t * t * l) - (-2.0 * (n * c) + n * n * l);
      gap * (l * (t + n) - 2.0 * c);
      gap * (l * (t + n - 2.0 * q));
      l * (gap * (t + n - 2.0 * q));
    }
    var slope := t + n - 2.0 * q;
    if gap > 0.0 {
      ProductNonNegative(gap, slope);
    } else if gap < 0.0 {
      ProductNonNegative(-gap, -slope);
      assert gap * slope == -gap * -slope;
    }
    ProductNonNegative(l, gap * slope);
  }

  lemma {:induction false} SquarePositive(u: real)
    requires u != 0.0
    ensures Square(u) > 0.0
  {
    var w := AbsReal(u);
    calc {
      Square(u);
      w * w;
    > { ProductPositive(w, w); }
      0.0;
    }
  }

  lemma {:induction false} SumOfSquaresZero(u: real, v: real)
    ensures Square(u) + Square(v) >= 0.0
    ensures Square(u) + Square(v) == 0.0 ==> u == 0.0 && v == 0.0
  {
    if u != 0.0 { SquarePositive(u); }
    if v != 0.0 { SquarePositive(v); }
  }

  /** No point of the segment is nearer than the one `ToSegment` measures to. */
  lemma {:induction false} NearestIsNearest(p: Flat, a: Flat, b: Flat, t: real)
    requires 0.0 <= t <= 1.0
    ensures 0.0 <= Nearest(p, a, b) <= 1.0
    ensures DistanceSq(p, On(a, b, Nearest(p, a, b))) <= DistanceSq(p, On(a, b, t))
  {
    var n := Nearest(p, a, b);
    DistanceSqOn(p, a, b, t);
    DistanceSqOn(p, a, b, n);
    SumOfSquaresZero(b.x - a.x, b.y - a.y);
    if DistanceSq(b, a) == 0.0 {
      assert On(a, b, t) == On(a, b, n) by { assert b == a; }
    } else {
      ParabolaMinimum(Dot(p, a, b), DistanceSq(b, a), t, n);
    }
  }

  /** Whether `p` and `q` are at most `tolerance` apart. */
  predicate Within(p: Flat, q: Flat, tolerance: real) {
    tolerance >= 0.0 && DistanceSq(p, q) <= Square(tolerance)
  }

  lemma {:induction false} SquareLess(a: real, b: real)
    requires 0.0 <= a < b
    ensures Square(a) < Square(b)
  {
    calc {
      Square(b) - Square(a);
      (b - a) * b + a * (b - a);
    >= { ProductNonNegative(a, b - a); }
      (b - a) * b;
    > { ProductPositive(b - a, b); }
      0.0;
    }
  }

  lemma {:induction false} SquareOrder(a: real, b: real)
    requires a >= 0.0 && b >= 0.0
    ensures a <= b <==> Square(a) <= Square(b)
  {
    if a < b { SquareLess(a, b); }
    if b < a { SquareLess(b, a); }
  }

  lemma {:induction false} WithinSymmetric(p: Flat, q: Flat, tolerance: real)
    requires Within(p, q, tolerance)
    ensures Within(q, p, tolerance)
  {
    assert Square(q.x - p.x) == Square(p.x - q.x) && Square(q.y - p.y) == Square(p.y - q.y);
  }

  lemma {:induction false} DistanceWithin(h: Hypot, p: Flat, q: Flat, tolerance: real)
    requires IsHypot(h)
    ensures Distance(h, p, q) <= tolerance <==> Within(p, q, tolerance)
  {
    var d := Distance(h, p, q);
    assert d >= 0.0 && d * d == DistanceSq(p, q);
    if tolerance >= 0.0 {
      SquareOrder(d, tolerance);
    }
  }

  // ------------------------------------------------------------ the grid

  type Windows = seq<(Flat, Flat)>

  /** Each point of a line with the one after it. */
  function WindowsOf(line: Line): (windows: Windows) {
    if |line| < 2 then [] else seq(|line| - 1, i requires 0 <= i < |line| - 1 => (line[i], line[i + 1]))
  }

  /** What a grid files: windows, or a lone point as a segment to itself. */
  function Segments(line: Line): (segments: Windows) {
    if |line| == 1 then [(line[0], line[0])] else WindowsOf(line)
  }

  /** Some point of the line lies within the tolerance of `p`: what the grid is an index for. */
  ghost predicate Near(line: Line, tolerance: real, p: Flat) {
    exists i: nat, t: real :: NearAt(line, tolerance, p, i, t)
  }

  ghost predicate NearAt(line: Line, tolerance: real, p: Flat, i: nat, t: real) {
    && i < |Segments(line)| && 0.0 <= t <= 1.0
    && Within(p, On(Segments(line)[i].0, Segments(line)[i].1, t), tolerance)
  }

  /** Every index the grid holds is a segment's, and each segment is filed in each cell it passes through. */
  ghost predicate Files(grid: map<Cell, seq<nat>>, segments: seq<(Flat, Flat)>, cell: real, filed: nat)
    requires cell > 0.0 && filed <= |segments|
  {
    && (forall c, k :: c in grid && 0 <= k < |grid[c]| ==> grid[c][k] < filed)
    && (forall i, t: real {:trigger CellOf(On(segments[i].0, segments[i].1, t), cell)} ::
          0 <= i < filed && 0.0 <= t <= 1.0
          ==> FiledUnder(grid, CellOf(On(segments[i].0, segments[i].1, t), cell), i))
  }

  ghost predicate FiledUnder(grid: map<Cell, seq<nat>>, c: Cell, i: nat) {
    c in grid && i in grid[c]
  }

  datatype SegmentGrid = SegmentGrid(
    segments: seq<(Flat, Flat)>,
    grid: map<Cell, seq<nat>>,
    cell: real,
    tolerance: real)
  {
    ghost predicate Valid() {
      cell >= 1.0 && cell >= tolerance && Files(grid, segments, cell, |segments|)
    }

    /** The lookup: whether some segment filed in the nine cells around `p` is near it. */
    predicate Reaches(h: Hypot, p: Flat)
      requires Valid()
    {
      var c := CellOf(p, cell);
      exists x, y :: c.x - 1 <= x <= c.x + 1 && c.y - 1 <= y <= c.y + 1 && ReachesIn(h, p, Cell(x, y))
    }

    predicate ReachesIn(h: Hypot, p: Flat, c: Cell)
      requires Valid()
    {
      && c in grid
      && exists k :: 0 <= k < |grid[c]| && ToSegment(h, p, segments[grid[c][k]].0, segments[grid[c][k]].1) <= tolerance
    }
  }

  /** A grid built for a line: valid, over its segments, at the tolerance asked for. */
  ghost predicate GridOf(g: SegmentGrid, line: Line, tolerance: real) {
    g.Valid() && g.segments == Segments(line) && g.tolerance == tolerance
  }

  function Filed(grid: map<Cell, seq<nat>>, c: Cell, index: nat): map<Cell, seq<nat>> {
    grid[c := (if c in grid then grid[c] else []) + [index]]
  }

  /** The grid while segment `index` is being filed, `done` of its cells in. */
  ghost predicate Filing(grid: map<Cell, seq<nat>>, segments: seq<(Flat, Flat)>, cell: real, index: nat,
                         cells: seq<Cell>, done: nat)
    requires cell > 0.0 && index < |segments| && done <= |cells|
  {
    && (forall c, k :: c in grid && 0 <= k < |grid[c]| ==> grid[c][k] <= index)
    && (forall i, t: real {:trigger CellOf(On(segments[i].0, segments[i].1, t), cell)} ::
          0 <= i < index && 0.0 <= t <= 1.0
          ==> FiledUnder(grid, CellOf(On(segments[i].0, segments[i].1, t), cell), i))
    && (forall k :: 0 <= k < done ==> FiledUnder(grid, cells[k], index))
  }

  lemma {:induction false} FileOne(grid: map<Cell, seq<nat>>, segments: seq<(Flat, Flat)>, cell: real, index: nat,
                                   cells: seq<Cell>, done: nat)
    requires cell > 0.0 && index < |segments| && done < |cells|
    requires Filing(grid, segments, cell, index, cells, done)
    ensures Filing(Filed(grid, cells[done], index), segments, cell, index, cells, done + 1)
  {
    var after := Filed(grid, cells[done], index);
    forall c, i: nat | FiledUnder(grid, c, i)
      ensures FiledUnder(after, c, i)
    {
    }
    assert after[cells[done]][|after[cells[done]]| - 1] == index;
  }

  lemma {:induction false} FiledAll(grid: map<Cell, seq<nat>>, segments: seq<(Flat, Flat)>, cell: real, index: nat,
                                    cells: seq<Cell>)
    requires cell > 0.0 && index < |segments|
    requires Filing(grid, segments, cell, index, cells, |cells|)
    requires Covers(segments[index].0, segments[index].1, cell, cells)
    ensures Files(grid, segments, cell, index + 1)
  {
    forall i, t: real {:trigger CellOf(On(segments[i].0, segments[i].1, t), cell)} |
      0 <= i < index + 1 && 0.0 <= t <= 1.0
      ensures FiledUnder(grid, CellOf(On(segments[i].0, segments[i].1, t), cell), i)
    {
      var c := CellOf(On(segments[i].0, segments[i].1, t), cell);
      if i == index {
        var k :| 0 <= k < |cells| && cells[k] == c;
      }
    }
  }

  /** Every segment of `line`, filed in each cell it passes through. */
  method NewGrid(line: Line, tolerance: real) returns (g: SegmentGrid)
    ensures GridOf(g, line, tolerance)
  {
    var cell := if tolerance > 1.0 then tolerance else 1.0;
    var segments := Segments(line);
    var grid: map<Cell, seq<nat>> := map[];
    for index := 0 to |segments|
      invariant Files(grid, segments, cell, index)
    {
      var cells := SegmentCells(segments[index].0, segments[index].1, cell);
      for k := 0 to |cells|
        invariant Filing(grid, segments, cell, index, cells, k)
      {
        FileOne(grid, segments, cell, index, cells, k);
        grid := Filed(grid, cells[k], index);
      }
      FiledAll(grid, segments, cell, index, cells);
    }
    g := SegmentGrid(segments, grid, cell, tolerance);
  }

  /** Coordinates at most a cell apart have the same or neighbouring indices. */
  lemma {:induction false} NeighbourIndex(u: real, v: real, cell: real)
    requires cell > 0.0 && -cell <= u - v <= cell
    ensures Index(v, cell) - 1 <= Index(u, cell) <= Index(v, cell) + 1
  {
    var k := Index(v, cell);
    IndexIs(v, cell, k);
    IndexIs(v, cell, k + 1);
    IndexIs(u, cell, k - 1);
    IndexIs(u, cell, k + 2);
    assert (k - 1) as real * cell == k as real * cell - cell;
    assert (k + 2) as real * cell == (k + 1) as real * cell + cell;
  }

  /** Points within a tolerance differ by no more than it on either axis. */
  lemma {:induction false} WithinOnAxes(p: Flat, q: Flat, tolerance: real)
    requires Within(p, q, tolerance)
    ensures -tolerance <= p.x - q.x <= tolerance && -tolerance <= p.y - q.y <= tolerance
  {
    var u, v := AbsReal(p.x - q.x), AbsReal(p.y - q.y);
    assert Square(u) == Square(p.x - q.x) && Square(v) == Square(p.y - q.y);
    SumOfSquaresZero(p.x - q.x, 0.0);
    SumOfSquaresZero(p.y - q.y, 0.0);
    SquareOrder(u, tolerance);
    SquareOrder(v, tolerance);
  }

  /** Looking only at the cells around a point finds the line exactly where it is within the tolerance. */
  lemma {:induction false} ReachesIsNear(h: Hypot, g: SegmentGrid, line: Line, tolerance: real, p: Flat)
    requires IsHypot(h) && GridOf(g, line, tolerance)
    ensures g.Reaches(h, p) <==> Near(line, tolerance, p)
  {
    if g.Reaches(h, p) {
      var x, y :| g.ReachesIn(h, p, Cell(x, y));
      ReachedIsNear(h, g, line, tolerance, p, Cell(x, y));
    }
    if Near(line, tolerance, p) {
      var i: nat, t: real :| NearAt(line, tolerance, p, i, t);
      NearIsReached(h, g, line, tolerance, p, i, t);
    }
  }

  lemma {:induction false} ReachedIsNear(h: Hypot, g: SegmentGrid, line: Line, tolerance: real, p: Flat, c: Cell)
    requires IsHypot(h) && GridOf(g, line, tolerance) && g.ReachesIn(h, p, c)
    ensures Near(line, tolerance, p)
  {
    var k :| 0 <= k < |g.grid[c]|
             && ToSegment(h, p, g.segments[g.grid[c][k]].0, g.segments[g.grid[c][k]].1) <= tolerance;
    var i := g.grid[c][k];
    var (a, b) := Segments(line)[i];
    NearestIsNearest(p, a, b, 0.0);
    DistanceWithin(h, p, On(a, b, Nearest(p, a, b)), tolerance);
    assert NearAt(line, tolerance, p, i, Nearest(p, a, b));
  }

  lemma {:induction false} NearIsReached(h: Hypot, g: SegmentGrid, line: Line, tolerance: real, p: Flat, i: nat,
                                         t: real)
    requires IsHypot(h) && GridOf(g, line, tolerance) && NearAt(line, tolerance, p, i, t)
    ensures g.Reaches(h, p)
  {
    var (a, b) := g.segments[i];
    var q := On(a, b, t);
    var here, there := CellOf(p, g.cell), CellOf(q, g.cell);
    WithinOnAxes(p, q, tolerance);
    NeighbourIndex(q.x, p.x, g.cell);
    NeighbourIndex(q.y, p.y, g.cell);
    NearestIsNearest(p, a, b, t);
    DistanceWithin(h, p, On(a, b, Nearest(p, a, b)), tolerance);
    assert FiledUnder(g.grid, there, i);
    var k :| 0 <= k < |g.grid[there]| && g.grid[there][k] == i;
    assert ToSegment(h, p, g.segments[g.grid[there][k]].0, g.segments[g.grid[there][k]].1) <= tolerance;
    assert g.ReachesIn(h, p, Cell(there.x, there.y));
  }

  // ------------------------------------------------- what being near means

  lemma {:induction false} OnBackwards(a: Flat, b: Flat, t: real)
    ensures On(b, a, 1.0 - t) == On(a, b, t)
  {
    assert Coordinate(b.x, a.x - b.x, 1.0 - t) == Coordinate(a.x, b.x - a.x, t);
    assert Coordinate(b.y, a.y - b.y, 1.0 - t) == Coordinate(a.y, b.y - a.y, t);
  }

  lemma {:induction false} SegmentsReverse(line: Line, i: nat)
    requires i < |Segments(line)|
    ensures |Segments(Reverse(line))| == |Segments(line)|
    ensures Segments(Reverse(line))[|Segments(line)| - 1 - i] == (Segments(line)[i].1, Segments(line)[i].0)
  {
  }

  lemma {:induction false} NearBackwards(line: Line, tolerance: real, p: Flat)
    requires Near(line, tolerance, p)
    ensures Near(Reverse(line), tolerance, p)
  {
    var i: nat, t: real :| NearAt(line, tolerance, p, i, t);
    SegmentsReverse(line, i);
    OnBackwards(Segments(line)[i].0, Segments(line)[i].1, t);
    assert NearAt(Reverse(line), tolerance, p, |Segments(line)| - 1 - i, 1.0 - t);
  }

  /** Which way a line runs does not matter to what is near it. */
  lemma {:induction false} NearReverse(line: Line, tolerance: real, p: Flat)
    ensures Near(Reverse(line), tolerance, p) <==> Near(line, tolerance, p)
  {
    if Near(line, tolerance, p) { NearBackwards(line, tolerance, p); }
    if Near(Reverse(line), tolerance, p) {
      NearBackwards(Reverse(line), tolerance, p);
      ReverseReverse(line);
    }
  }

  /** Grids of different tolerances have different cells, but a wider one reaches no less. */
  lemma {:induction false} NearMonotone(line: Line, tolerance: real, wider: real, p: Flat)
    requires tolerance <= wider && Near(line, tolerance, p)
    ensures Near(line, wider, p)
  {
    var i: nat, t: real :| NearAt(line, tolerance, p, i, t);
    SquareOrder(tolerance, wider);
    assert NearAt(line, wider, p, i, t);
  }

  /** A line's own points are near it, at any tolerance that is one. */
  lemma {:induction false} VertexNear(line: Line, tolerance: real, k: nat)
    requires k < |line| && tolerance >= 0.0
    ensures Near(line, tolerance, line[k])
  {
    var segments := Segments(line);
    var (i, t) := if k < |segments| then (k, 0.0) else (k - 1, 1.0);
    assert On(segments[i].0, segments[i].1, t) == line[k];
    SquareOrder(0.0, tolerance);
    assert NearAt(line, tolerance, line[k], i, t);
  }

  lemma {:induction false} DistanceToSelf(h: Hypot, p: Flat)
    requires IsHypot(h)
    ensures Distance(h, p, p) == 0.0
  {
    var d := h(0.0, 0.0);
    assert d * d == 0.0 * 0.0 + 0.0 * 0.0;
    if d != 0.0 { SquarePositive(d); }
  }

  lemma {:induction false} DistanceSymmetric(h: Hypot, a: Flat, b: Flat)
    requires IsHypot(h)
    ensures Distance(h, a, b) == Distance(h, b, a)
  {
    var d, e := Distance(h, a, b), Distance(h, b, a);
    assert d >= 0.0 && e >= 0.0 && Square(d) == DistanceSq(a, b) && Square(e) == DistanceSq(b, a);
    SquareOrder(d, e);
    SquareOrder(e, d);
  }
}
