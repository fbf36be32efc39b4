/**
  The judgement of a trip and a plan, or a waypoint
  (src/server/link_match.rs): two coverages by length and one by points, each
  against its thresholds, over lines in one projection. Neither line's
  direction matters, and looser thresholds judge no pair out.
*/
module LinkMatch {
  import opened Wrappers
  import opened Reals
  import opened Sums
  import opened LineGrid
  import opened Stretches

  datatype Rules = Rules(
    lineTolerance: real,
    minStretch: real,
    planCoveredShare: real,
    tripOnPlanShare: real,
    minCovered: real,
    pointTolerance: real,
    pointsReachedShare: real,
    minPointRun: nat,
    band: real,
    waypointDistance: real,
    minShared: real)

  /** The thresholds the archive is configured with. */
  const CONFIGURED := Rules(50.0, 200.0, 0.8, 0.7, 2000.0, 200.0, 0.8, 3, 300.0, 50.0, 30000.0)

  datatype Judged = ByLine | ByPoints

  datatype Coverage = Coverage(planCovered: real, tripOnPlan: real, pointsReached: real, judged: Judged)

  datatype Run = Run(covered: real, length: real) {
    function Share(): real {
      if length > 0.0 then covered / length else 0.0
    }
  }

  // ------------------------------------------------------ pieces of a line

  /** The length of the pieces a segment is cut into, at most. */
  const PIECE := 10.0

  function Ceil(r: real): int { -((-r).Floor) }

  function PieceCount(segment: real): nat {
    if Ceil(segment / PIECE) > 1 then Ceil(segment / PIECE) else 1
  }

  function Middle(start: Flat, end: Flat, pieces: nat, i: nat): Flat
    requires pieces > 0
  {
    On(start, end, (i as real + 0.5) / pieces as real)
  }

  function StepsOf(h: Hypot, windows: Windows): (steps: seq<real>) {
    seq(|windows|, i requires 0 <= i < |windows| => Distance(h, windows[i].0, windows[i].1))
  }

  function PathLength(h: Hypot, line: Line): real {
    Sum(StepsOf(h, WindowsOf(line)))
  }

  ghost function SegmentPieces(h: Hypot, start: Flat, end: Flat, near: Flat -> bool): (ps: seq<Piece>) {
    var d := Distance(h, start, end);
    var n := PieceCount(d);
    seq(n, i requires 0 <= i < n => Piece(d / n as real, near(Middle(start, end, n, i))))
  }

  ghost function PiecesOf(h: Hypot, windows: Windows, near: Flat -> bool): seq<Piece> {
    if windows == [] then []
    else SegmentPieces(h, windows[0].0, windows[0].1, near) + PiecesOf(h, windows[1..], near)
  }

  ghost function NearLine(line: Line, tolerance: real): Flat -> bool {
    (p: Flat) => Near(line, tolerance, p)
  }

  /** How much of `line` runs where `near` holds: the length in stretches of at least `minStretch`. */
  ghost function AlongLine(h: Hypot, line: Line, near: Flat -> bool, minStretch: real): Run {
    Run(Covered(PiecesOf(h, WindowsOf(line), near), minStretch), PathLength(h, line))
  }

  lemma {:induction false} PieceLengths(d: real, n: nat)
    requires n > 0
    ensures n as real * (d / n as real) == d
  {
  }

  lemma {:induction false} SegmentPiecesLength(h: Hypot, a: Flat, b: Flat, near: Flat -> bool)
    requires IsHypot(h)
    ensures Lengthy(SegmentPieces(h, a, b, near))
    ensures LengthOf(SegmentPieces(h, a, b, near)) == Distance(h, a, b)
  {
    var d, ps := Distance(h, a, b), SegmentPieces(h, a, b, near);
    var n := PieceCount(d);
    assert d >= 0.0;
    var piece := d / n as real;
    PieceLengths(d, n);
    if piece < 0.0 { ProductPositive(n as real, -piece); }
    SumAllEqual(Lengths(ps), piece);
  }

  lemma {:induction false} PiecesLength(h: Hypot, windows: Windows, near: Flat -> bool)
    requires IsHypot(h)
    ensures Lengthy(PiecesOf(h, windows, near))
    ensures LengthOf(PiecesOf(h, windows, near)) == Sum(StepsOf(h, windows))
  {
    if windows == [] {
      assert Lengths([]) == [] && StepsOf(h, windows) == [];
    } else {
      var (a, b) := windows[0];
      SegmentPiecesLength(h, a, b, near);
      PiecesLength(h, windows[1..], near);
      LengthsAppend(SegmentPieces(h, a, b, near), PiecesOf(h, windows[1..], near));
      assert StepsOf(h, windows)[1..] == StepsOf(h, windows[1..]);
    }
  }

  /** A run covers no more than the line it is measured on, so its share is one. */
  lemma {:induction false} RunWithinLine(h: Hypot, line: Line, near: Flat -> bool, minStretch: real)
    requires IsHypot(h)
    ensures var run := AlongLine(h, line, near, minStretch);
            0.0 <= run.covered <= run.length && 0.0 <= run.Share() <= 1.0
  {
    var run, ps := AlongLine(h, line, near, minStretch), PiecesOf(h, WindowsOf(line), near);
    PiecesLength(h, WindowsOf(line), near);
    CoveredWithinLength(ps, minStretch);
    if run.length > 0.0 {
      ShareWithin(run.covered, run.length);
    }
  }

  /** A piece's middle is in reach of the grid exactly where the piece is near the grid's line. */
  lemma {:induction false} ReachesPiece(h: Hypot, g: SegmentGrid, other: Line, start: Flat, end: Flat, i: nat)
    requires IsHypot(h) && GridOf(g, other, g.tolerance) && i < PieceCount(Distance(h, start, end))
    ensures var pieces := PieceCount(Distance(h, start, end));
            var ps := SegmentPieces(h, start, end, NearLine(other, g.tolerance));
            && |ps| == pieces && ps[i].lengthM == Distance(h, start, end) / pieces as real
            && (ps[i].near <==> g.Reaches(h, Middle(start, end, pieces, i)))
  {
    ReachesIsNear(h, g, other, g.tolerance, Middle(start, end, PieceCount(Distance(h, start, end)), i));
  }

  lemma {:induction false} RunningNext(ps: seq<Piece>, rest: seq<Piece>, i: nat, stretch: real, min: real)
    requires i < |ps|
    ensures Running(ps[i..] + rest, stretch, min)
         == if ps[i].near then Running(ps[i + 1..] + rest, stretch + ps[i].lengthM, min)
            else Closed(stretch, min) + Running(ps[i + 1..] + rest, 0.0, min)
  {
    assert (ps[i..] + rest)[0] == ps[i] && (ps[i..] + rest)[1..] == ps[i + 1..] + rest;
  }

  /** Goes over one segment's pieces: what that covers, and the stretch it leaves open. */
  method AlongSegment(h: Hypot, start: Flat, end: Flat, g: SegmentGrid, ghost other: Line, minStretch: real, open: real,
                      ghost rest: seq<Piece>)
    returns (covered: real, stretch: real)
    requires IsHypot(h) && GridOf(g, other, g.tolerance)
    ensures covered + Running(rest, stretch, minStretch)
         == Running(SegmentPieces(h, start, end, NearLine(other, g.tolerance)) + rest, open, minStretch)
  {
    var segment := Distance(h, start, end);
    var pieces := PieceCount(segment);
    var piece := segment / pieces as real;
    ghost var ps := SegmentPieces(h, start, end, NearLine(other, g.tolerance));
    covered, stretch := 0.0, open;
    assert ps[0..] == ps;
    for i := 0 to pieces
      invariant covered + Running(ps[i..] + rest, stretch, minStretch) == Running(ps + rest, open, minStretch)
    {
      ReachesPiece(h, g, other, start, end, i);
      RunningNext(ps, rest, i, stretch, minStretch);
      if g.Reaches(h, Middle(start, end, pieces, i)) {
        stretch := stretch + piece;
      } else {
        covered, stretch := covered + Closed(stretch, minStretch), 0.0;
      }
    }
    assert ps[pieces..] + rest == rest;
  }

  /** Going over a line's segments one after another covers what its pieces do. */
  lemma {:induction false} RunningWhole(h: Hypot, ws: Windows, near: Flat -> bool, minStretch: real)
    requires IsHypot(h)
    ensures Running(PiecesOf(h, ws, near), 0.0, minStretch) == Covered(PiecesOf(h, ws, near), minStretch)
  {
    PiecesLength(h, ws, near);
    assert Lengths([]) == [] && [] + PiecesOf(h, ws, near) == PiecesOf(h, ws, near);
    RunningIsCovered([], PiecesOf(h, ws, near), minStretch);
  }

  lemma {:induction false} NextWindow(h: Hypot, ws: Windows, near: Flat -> bool, k: nat)
    requires k < |ws|
    ensures PiecesOf(h, ws[k..], near) == SegmentPieces(h, ws[k].0, ws[k].1, near) + PiecesOf(h, ws[k + 1..], near)
    ensures Sum(StepsOf(h, ws[k..])) == Distance(h, ws[k].0, ws[k].1) + Sum(StepsOf(h, ws[k + 1..]))
  {
    assert ws[k..][1..] == ws[k + 1..];
    assert StepsOf(h, ws[k..])[1..] == StepsOf(h, ws[k + 1..]);
  }

  /** The outer loop, over the segments, and the stretch open at the end. */
  method Along(h: Hypot, line: Line, g: SegmentGrid, ghost other: Line, minStretch: real) returns (run: Run)
    requires IsHypot(h) && GridOf(g, other, g.tolerance)
    ensures run == AlongLine(h, line, NearLine(other, g.tolerance), minStretch)
  {
    ghost var near := NearLine(other, g.tolerance);
    var ws := WindowsOf(line);
    var covered, length, stretch := 0.0, 0.0, 0.0;
    assert ws[0..] == ws;
    for k := 0 to |ws|
      invariant length + Sum(StepsOf(h, ws[k..])) == PathLength(h, line)
      invariant covered + Running(PiecesOf(h, ws[k..], near), stretch, minStretch)
             == Running(PiecesOf(h, ws, near), 0.0, minStretch)
    {
      var (start, end) := ws[k];
      NextWindow(h, ws, near, k);
      var more;
      more, stretch := AlongSegment(h, start, end, g, other, minStretch, stretch, PiecesOf(h, ws[k + 1..], near));
      covered, length := covered + more, length + Distance(h, start, end);
    }
    covered := covered + Closed(stretch, minStretch);
    RunningWhole(h, ws, near, minStretch);
    run := Run(covered, length);
  }

  // --------------------------------------------------------- plan's points

  /** One lookup per point of the plan. */
  ghost function ReachedPoints(plan: Line, trip: Line, tolerance: real): (hit: seq<bool>)
    ensures |hit| == |plan|
  {
    seq(|plan|, i requires 0 <= i < |plan| => Near(trip, tolerance, plan[i]))
  }

  method Reached(h: Hypot, plan: Line, trip: Line, tolerance: real) returns (hit: seq<bool>)
    requires IsHypot(h)
    ensures hit == ReachedPoints(plan, trip, tolerance)
  {
    var nearTrip := NewGrid(trip, tolerance);
    hit := seq(|plan|, i requires 0 <= i < |plan| => nearTrip.Reaches(h, plan[i]));
    forall i | 0 <= i < |plan| ensures hit[i] == Near(trip, tolerance, plan[i]) {
      ReachesIsNear(h, nearTrip, trip, tolerance, plan[i]);
    }
  }

  function CountTrue(hit: seq<bool>): (n: nat)
    ensures n <= |hit|
  {
    if hit == [] then 0 else (if hit[0] then 1 else 0) + CountTrue(hit[1..])
  }

  /** Where the run of equal values that starts at `from` ends. */
  function ChunkEnd(hit: seq<bool>, from: nat): (to: nat)
    requires from < |hit|
    ensures from < to <= |hit|
    ensures forall k :: from <= k < to ==> hit[k] == hit[from]
    ensures to < |hit| ==> hit[to] != hit[from]
    decreases |hit| - from
  {
    if from + 1 < |hit| && hit[from + 1] == hit[from] then ChunkEnd(hit, from + 1) else from + 1
  }

  /** The row that starts at `from`, by count and by the way from end to end, if it is one of reached points. */
  function RunAt(h: Hypot, plan: Line, hit: seq<bool>, from: nat): seq<(nat, real)>
    requires from < |hit| == |plan|
  {
    var to := ChunkEnd(hit, from);
    if hit[from] then [(to - from, PathLength(h, plan[from..to]))] else []
  }

  /** The maximal rows of reached points from `from` on, by count and by the way from end to end. */
  function RunsOfReached(h: Hypot, plan: Line, hit: seq<bool>, from: nat): (runs: seq<(nat, real)>)
    requires |hit| == |plan| && from <= |hit|
    decreases |hit| - from
  {
    if from == |hit| then []
    else RunAt(h, plan, hit, from) + RunsOfReached(h, plan, hit, ChunkEnd(hit, from))
  }

  /** Points reached in a row: all of them from `i` to `j`, enough of them, far enough apart. */
  ghost predicate ReachedInARow(h: Hypot, plan: Line, hit: seq<bool>, points: nat, length: real, i: nat, j: nat)
    requires |hit| == |plan|
  {
    && i < j <= |hit| && points <= j - i
    && (forall k :: i <= k < j ==> hit[k])
    && PathLength(h, plan[i..j]) >= length
  }

  ghost predicate LongRow(h: Hypot, plan: Line, hit: seq<bool>, points: nat, length: real)
    requires |hit| == |plan|
  {
    LongRowFrom(h, plan, hit, points, length, 0)
  }

  predicate HasLongRun(runs: seq<(nat, real)>, points: nat, length: real) {
    exists k :: 0 <= k < |runs| && runs[k].0 >= points && runs[k].1 >= length
  }

  lemma {:induction false} PathWithinPath(h: Hypot, line: Line, lo: nat, i: nat, j: nat, hi: nat)
    requires IsHypot(h) && lo <= i < j <= hi <= |line|
    ensures PathLength(h, line[i..j]) <= PathLength(h, line[lo..hi])
  {
    var whole, part := line[lo..hi], line[i..j];
    var steps := StepsOf(h, WindowsOf(whole));
    assert StepsOf(h, WindowsOf(part)) == steps[i - lo..j - 1 - lo];
    SumSlice(steps, i - lo, j - 1 - lo);
  }

  ghost predicate LongRowFrom(h: Hypot, plan: Line, hit: seq<bool>, points: nat, length: real, from: nat)
    requires |hit| == |plan|
  {
    exists i: nat, j: nat :: from <= i && ReachedInARow(h, plan, hit, points, length, i, j)
  }

  lemma {:induction false} LongRunAppend(a: seq<(nat, real)>, b: seq<(nat, real)>, points: nat, length: real)
    ensures HasLongRun(a + b, points, length) <==> HasLongRun(a, points, length) || HasLongRun(b, points, length)
  {
    forall k | 0 <= k < |a| ensures (a + b)[k] == a[k] {}
    forall k | 0 <= k < |b| ensures (a + b)[|a| + k] == b[k] {}
  }

  /** A long enough row starts in the chunk at `from` exactly where the chunk is one. */
  lemma {:induction false} RowsOfChunk(h: Hypot, plan: Line, hit: seq<bool>, points: nat, length: real, from: nat)
    requires IsHypot(h) && |hit| == |plan| && from < |hit|
    ensures var to := ChunkEnd(hit, from);
            LongRowFrom(h, plan, hit, points, length, from) <==>
            ReachedInARow(h, plan, hit, points, length, from, to) || LongRowFrom(h, plan, hit, points, length, to)
  {
    var to := ChunkEnd(hit, from);
    forall i: nat, j: nat | from <= i && ReachedInARow(h, plan, hit, points, length, i, j)
      ensures ReachedInARow(h, plan, hit, points, length, from, to) || to <= i
    {
      RowWithinChunk(h, plan, hit, points, length, from, i, j);
    }
  }

  lemma {:induction false} LongRunAt(h: Hypot, plan: Line, hit: seq<bool>, points: nat, length: real, from: nat)
    requires from < |hit| == |plan|
    ensures HasLongRun(RunAt(h, plan, hit, from), points, length)
       <==> ReachedInARow(h, plan, hit, points, length, from, ChunkEnd(hit, from))
  {
    var runs, to := RunAt(h, plan, hit, from), ChunkEnd(hit, from);
    assert hit[from] ==> runs[0] == (to - from, PathLength(h, plan[from..to]));
  }

  /** Among the runs one is long enough exactly where enough points in a row are reached. */
  lemma {:induction false} RunsAreRows(h: Hypot, plan: Line, hit: seq<bool>, points: nat, length: real, from: nat)
    requires IsHypot(h) && |hit| == |plan| && from <= |hit|
    ensures HasLongRun(RunsOfReached(h, plan, hit, from), points, length)
       <==> LongRowFrom(h, plan, hit, points, length, from)
    decreases |hit| - from
  {
    if from < |hit| {
      var to := ChunkEnd(hit, from);
      LongRunAppend(RunAt(h, plan, hit, from), RunsOfReached(h, plan, hit, to), points, length);
      LongRunAt(h, plan, hit, points, length, from);
      RunsAreRows(h, plan, hit, points, length, to);
      RowsOfChunk(h, plan, hit, points, length, from);
    }
  }

  /** A row that starts within a chunk lies within it. */
  lemma {:induction false} RowWithinChunk(h: Hypot, plan: Line, hit: seq<bool>, points: nat, length: real, from: nat,
                                          i: nat, j: nat)
    requires IsHypot(h) && |hit| == |plan| && from < |hit| && from <= i
    requires ReachedInARow(h, plan, hit, points, length, i, j)
    ensures var to := ChunkEnd(hit, from);
            i < to ==> hit[from] && to - from >= points && PathLength(h, plan[from..to]) >= length
  {
    var to := ChunkEnd(hit, from);
    if i < to {
      assert hit[i] == hit[from];
      assert j <= to;
      PathWithinPath(h, plan, from, i, j, to);
    }
  }

  // ------------------------------------------------------------- judging

  /** The three rules by length, any of which will do. */
  predicate JudgedByLine(planRun: Run, tripRun: Run, r: Rules) {
    || planRun.Share() >= r.planCoveredShare
    || (tripRun.Share() >= r.tripOnPlanShare && planRun.covered >= r.minCovered)
    || planRun.covered >= r.minShared
  }

  predicate MostReached(count: nat, points: nat, r: Rules)
    requires points > 0
  {
    count >= r.minPointRun && count as real / points as real >= r.pointsReachedShare
  }

  ghost predicate JudgedByPoints(h: Hypot, trip: Line, plan: Line, r: Rules)
    requires |plan| > 0
  {
    var hit := ReachedPoints(plan, trip, r.pointTolerance);
    || MostReached(CountTrue(hit), |plan|, r)
    || (LongRow(h, plan, hit, r.minPointRun, r.minCovered)
        && AlongLine(h, trip, NearLine(plan, r.band), r.minStretch).Share() >= r.tripOnPlanShare)
  }

  ghost function PlanRun(h: Hypot, trip: Line, plan: Line, r: Rules): Run {
    AlongLine(h, plan, NearLine(trip, r.lineTolerance), r.minStretch)
  }

  ghost function TripRun(h: Hypot, trip: Line, plan: Line, r: Rules): Run {
    AlongLine(h, trip, NearLine(plan, r.lineTolerance), r.minStretch)
  }

  /** What the judgement is to be, by plain geometry alone. */
  ghost function Following(h: Hypot, trip: Line, plan: Line, r: Rules): Option<Coverage> {
    if plan == [] || |trip| < 2 then None
    else
      var planRun, tripRun := PlanRun(h, trip, plan, r), TripRun(h, trip, plan, r);
      var share := CountTrue(ReachedPoints(plan, trip, r.pointTolerance)) as real / |plan| as real;
      if JudgedByLine(planRun, tripRun, r) then Some(Coverage(planRun.Share(), tripRun.Share(), share, ByLine))
      else if JudgedByPoints(h, trip, plan, r) then
        Some(Coverage(planRun.Share(), tripRun.Share(), share, ByPoints))
      else None
  }

  /** The same, by grids of the lines' segments. */
  method Followed(h: Hypot, trip: Line, plan: Line, r: Rules) returns (coverage: Option<Coverage>)
    requires IsHypot(h)
    ensures coverage == Following(h, trip, plan, r)
  {
    if plan == [] || |trip| < 2 {
      return None;
    }
    var nearTrip := NewGrid(trip, r.lineTolerance);
    var nearPlan := NewGrid(plan, r.lineTolerance);
    var planRun := Along(h, plan, nearTrip, trip, r.minStretch);
    var tripRun := Along(h, trip, nearPlan, plan, r.minStretch);
    var hit := Reached(h, plan, trip, r.pointTolerance);
    var count := CountTrue(hit);
    var share := count as real / |plan| as real;
    if JudgedByLine(planRun, tripRun, r) {
      return Some(Coverage(planRun.Share(), tripRun.Share(), share, ByLine));
    }
    var byPoints := MostReached(count, |plan|, r);
    if !byPoints {
      RunsAreRows(h, plan, hit, r.minPointRun, r.minCovered, 0);
      if HasLongRun(RunsOfReached(h, plan, hit, 0), r.minPointRun, r.minCovered) {
        var nearBand := NewGrid(plan, r.band);
        var bandRun := Along(h, trip, nearBand, plan, r.minStretch);
        byPoints := bandRun.Share() >= r.tripOnPlanShare;
      }
    }
    coverage := if byPoints then Some(Coverage(planRun.Share(), tripRun.Share(), share, ByPoints)) else None;
  }

  // --------------------------------------------- direction does not matter

  function Backwards(windows: Windows): Windows {
    seq(|windows|, i requires 0 <= i < |windows| =>
      (windows[|windows| - 1 - i].1, windows[|windows| - 1 - i].0))
  }

  lemma {:induction false} WindowsReverse(line: Line)
    ensures WindowsOf(Reverse(line)) == Backwards(WindowsOf(line))
  {
  }

  lemma {:induction false} StepsReverse(h: Hypot, windows: Windows)
    requires IsHypot(h)
    ensures StepsOf(h, Backwards(windows)) == Reverse(StepsOf(h, windows))
  {
    forall i | 0 <= i < |windows|
      ensures StepsOf(h, Backwards(windows))[i] == Reverse(StepsOf(h, windows))[i]
    {
      var w := windows[|windows| - 1 - i];
      DistanceSymmetric(h, w.1, w.0);
    }
  }

  lemma {:induction false} PathReverse(h: Hypot, line: Line)
    requires IsHypot(h)
    ensures PathLength(h, Reverse(line)) == PathLength(h, line)
  {
    WindowsReverse(line);
    StepsReverse(h, WindowsOf(line));
    SumReverse(StepsOf(h, WindowsOf(line)));
  }

  lemma {:induction false} MiddleBackwards(a: Flat, b: Flat, n: nat, i: nat)
    requires i < n
    ensures Middle(b, a, n, n - 1 - i) == Middle(a, b, n, i)
  {
    var t := (i as real + 0.5) / n as real;
    assert ((n - 1 - i) as real + 0.5) / n as real == 1.0 - t by {
      assert (n as real) / (n as real) == 1.0;
      assert (n - 1 - i) as real + 0.5 == n as real - (i as real + 0.5);
    }
    OnBackwards(a, b, t);
  }

  lemma {:induction false} SegmentPiecesReverse(h: Hypot, a: Flat, b: Flat, near: Flat -> bool)
    requires IsHypot(h)
    ensures SegmentPieces(h, b, a, near) == Reverse(SegmentPieces(h, a, b, near))
  {
    DistanceSymmetric(h, a, b);
    var ps, qs := SegmentPieces(h, a, b, near), SegmentPieces(h, b, a, near);
    var n := |ps|;
    forall i | 0 <= i < n
      ensures qs[i] == Reverse(ps)[i]
    {
      MiddleBackwards(a, b, n, n - 1 - i);
    }
  }

  lemma {:induction false} PiecesAppend(h: Hypot, a: Windows, b: Windows, near: Flat -> bool)
    ensures PiecesOf(h, a + b, near) == PiecesOf(h, a, near) + PiecesOf(h, b, near)
  {
    if a == [] {
      assert a + b == b;
    } else {
      assert (a + b)[1..] == a[1..] + b;
      PiecesAppend(h, a[1..], b, near);
    }
  }

  lemma {:induction false} PiecesReverse(h: Hypot, windows: Windows, near: Flat -> bool)
    requires IsHypot(h)
    ensures PiecesOf(h, Backwards(windows), near) == Reverse(PiecesOf(h, windows, near))
  {
    if windows != [] {
      var (a, b) := windows[0];
      var rest := windows[1..];
      assert Backwards(windows) == Backwards(rest) + [(b, a)];
      PiecesAppend(h, Backwards(rest), [(b, a)], near);
      assert [(b, a)][1..] == [];
      assert PiecesOf(h, [(b, a)], near) == SegmentPieces(h, b, a, near);
      PiecesReverse(h, rest, near);
      SegmentPiecesReverse(h, a, b, near);
      ReverseAppend(SegmentPieces(h, a, b, near), PiecesOf(h, rest, near));
    }
  }

  /** As much of a line runs along another whichever way it is walked. */
  lemma {:induction false} AlongReverse(h: Hypot, line: Line, near: Flat -> bool, minStretch: real)
    requires IsHypot(h)
    ensures AlongLine(h, Reverse(line), near, minStretch) == AlongLine(h, line, near, minStretch)
  {
    WindowsReverse(line);
    PiecesReverse(h, WindowsOf(line), near);
    CoveredReverse(PiecesOf(h, WindowsOf(line), near), minStretch);
    PathReverse(h, line);
  }

  ghost predicate SameNear(near: Flat -> bool, other: Flat -> bool) {
    forall p :: near(p) == other(p)
  }

  lemma {:induction false} SegmentPiecesSame(h: Hypot, a: Flat, b: Flat, near: Flat -> bool, other: Flat -> bool)
    requires SameNear(near, other)
    ensures SegmentPieces(h, a, b, near) == SegmentPieces(h, a, b, other)
  {
    var ps, qs := SegmentPieces(h, a, b, near), SegmentPieces(h, a, b, other);
    forall i | 0 <= i < |ps| ensures ps[i] == qs[i] {
      var middle := Middle(a, b, |ps|, i);
      assert near(middle) == other(middle);
    }
  }

  lemma {:induction false} PiecesSame(h: Hypot, windows: Windows, near: Flat -> bool, other: Flat -> bool)
    requires SameNear(near, other)
    ensures PiecesOf(h, windows, near) == PiecesOf(h, windows, other)
  {
    if windows != [] {
      SegmentPiecesSame(h, windows[0].0, windows[0].1, near, other);
      PiecesSame(h, windows[1..], near, other);
    }
  }

  /** As much of a line runs along another whichever way that one is walked. */
  lemma {:induction false} AlongReversed(h: Hypot, line: Line, other: Line, tolerance: real, minStretch: real)
    ensures AlongLine(h, line, NearLine(Reverse(other), tolerance), minStretch)
         == AlongLine(h, line, NearLine(other, tolerance), minStretch)
  {
    forall p ensures NearLine(Reverse(other), tolerance)(p) == NearLine(other, tolerance)(p) {
      NearReverse(other, tolerance, p);
    }
    assert SameNear(NearLine(Reverse(other), tolerance), NearLine(other, tolerance));
    PiecesSame(h, WindowsOf(line), NearLine(Reverse(other), tolerance), NearLine(other, tolerance));
  }

  lemma {:induction false} CountAppend(a: seq<bool>, b: seq<bool>)
    ensures CountTrue(a + b) == CountTrue(a) + CountTrue(b)
  {
    if a == [] {
      assert a + b == b;
    } else {
      assert (a + b)[1..] == a[1..] + b;
      CountAppend(a[1..], b);
    }
  }

  lemma {:induction false} CountReverse(hit: seq<bool>)
    ensures CountTrue(Reverse(hit)) == CountTrue(hit)
  {
    if hit != [] {
      assert Reverse(hit) == Reverse(hit[1..]) + [hit[0]];
      CountAppend(Reverse(hit[1..]), [hit[0]]);
      assert [hit[0]][1..] == [];
      CountReverse(hit[1..]);
    }
  }

  lemma {:induction false} RowBackwards(h: Hypot, plan: Line, hit: seq<bool>, points: nat, length: real, i: nat,
                                        j: nat)
    requires IsHypot(h) && |hit| == |plan| && ReachedInARow(h, plan, hit, points, length, i, j)
    ensures ReachedInARow(h, Reverse(plan), Reverse(hit), points, length, |plan| - j, |plan| - i)
  {
    ReverseSlice(plan, i, j);
    PathReverse(h, plan[i..j]);
  }

  lemma {:induction false} RowReverse(h: Hypot, plan: Line, hit: seq<bool>, points: nat, length: real)
    requires IsHypot(h) && |hit| == |plan|
    ensures LongRow(h, Reverse(plan), Reverse(hit), points, length) <==> LongRow(h, plan, hit, points, length)
  {
    forall i: nat, j: nat | ReachedInARow(h, plan, hit, points, length, i, j)
      ensures LongRow(h, Reverse(plan), Reverse(hit), points, length)
    {
      RowBackwards(h, plan, hit, points, length, i, j);
    }
    ReverseReverse(plan);
    ReverseReverse(hit);
    forall i: nat, j: nat | ReachedInARow(h, Reverse(plan), Reverse(hit), points, length, i, j)
      ensures LongRow(h, plan, hit, points, length)
    {
      RowBackwards(h, Reverse(plan), Reverse(hit), points, length, i, j);
    }
  }

  /** Riding the trip the other way round changes neither the coverage nor the judgement. */
  lemma {:induction false} TripDirectionIgnored(h: Hypot, trip: Line, plan: Line, r: Rules)
    requires IsHypot(h)
    ensures Following(h, Reverse(trip), plan, r) == Following(h, trip, plan, r)
  {
    AlongReversed(h, plan, trip, r.lineTolerance, r.minStretch);
    AlongReverse(h, trip, NearLine(plan, r.lineTolerance), r.minStretch);
    AlongReverse(h, trip, NearLine(plan, r.band), r.minStretch);
    forall i | 0 <= i < |plan|
      ensures Near(Reverse(trip), r.pointTolerance, plan[i]) == Near(trip, r.pointTolerance, plan[i])
    {
      NearReverse(trip, r.pointTolerance, plan[i]);
    }
    assert ReachedPoints(plan, Reverse(trip), r.pointTolerance) == ReachedPoints(plan, trip, r.pointTolerance);
  }

  lemma {:induction false} PlanPointsReverse(h: Hypot, trip: Line, plan: Line, r: Rules)
    requires IsHypot(h) && |plan| > 0
    ensures CountTrue(ReachedPoints(Reverse(plan), trip, r.pointTolerance))
         == CountTrue(ReachedPoints(plan, trip, r.pointTolerance))
    ensures JudgedByPoints(h, trip, Reverse(plan), r) <==> JudgedByPoints(h, trip, plan, r)
  {
    var hit := ReachedPoints(plan, trip, r.pointTolerance);
    assert ReachedPoints(Reverse(plan), trip, r.pointTolerance) == Reverse(hit);
    CountReverse(hit);
    RowReverse(h, plan, hit, r.minPointRun, r.minCovered);
    AlongReversed(h, trip, plan, r.band, r.minStretch);
  }

  /** Nor does drawing the plan the other way round. */
  lemma {:induction false} PlanDirectionIgnored(h: Hypot, trip: Line, plan: Line, r: Rules)
    requires IsHypot(h)
    ensures Following(h, trip, Reverse(plan), r) == Following(h, trip, plan, r)
  {
    if plan != [] {
      assert PlanRun(h, trip, Reverse(plan), r) == PlanRun(h, trip, plan, r) by {
        AlongReverse(h, plan, NearLine(trip, r.lineTolerance), r.minStretch);
      }
      assert TripRun(h, trip, Reverse(plan), r) == TripRun(h, trip, plan, r) by {
        AlongReversed(h, trip, plan, r.lineTolerance, r.minStretch);
      }
      PlanPointsReverse(h, trip, plan, r);
    }
  }

  // -------------------------------------------------- looser rules find more

  /** Every tolerance at least as wide, every minimum and share at most as high. */
  ghost predicate Looser(r: Rules, loose: Rules) {
    && r.lineTolerance <= loose.lineTolerance && r.pointTolerance <= loose.pointTolerance && r.band <= loose.band
    && loose.minStretch <= r.minStretch && loose.minCovered <= r.minCovered && loose.minShared <= r.minShared
    && loose.planCoveredShare <= r.planCoveredShare && loose.tripOnPlanShare <= r.tripOnPlanShare
    && loose.pointsReachedShare <= r.pointsReachedShare && loose.minPointRun <= r.minPointRun
  }

  ghost predicate MoreNear(near: Flat -> bool, more: Flat -> bool) {
    forall p :: near(p) ==> more(p)
  }

  ghost predicate MorePieces(ps: seq<Piece>, qs: seq<Piece>) {
    |ps| == |qs| && forall k :: 0 <= k < |ps| ==> ps[k].lengthM == qs[k].lengthM && (ps[k].near ==> qs[k].near)
  }

  lemma {:induction false} SegmentPiecesMore(h: Hypot, a: Flat, b: Flat, near: Flat -> bool, more: Flat -> bool)
    requires MoreNear(near, more)
    ensures MorePieces(SegmentPieces(h, a, b, near), SegmentPieces(h, a, b, more))
  {
    var ps, qs := SegmentPieces(h, a, b, near), SegmentPieces(h, a, b, more);
    forall i | 0 <= i < |ps| ensures ps[i].near ==> qs[i].near {
      var middle := Middle(a, b, |ps|, i);
      assert near(middle) ==> more(middle);
    }
  }

  lemma {:induction false} PiecesMore(h: Hypot, windows: Windows, near: Flat -> bool, more: Flat -> bool)
    requires MoreNear(near, more)
    ensures MorePieces(PiecesOf(h, windows, near), PiecesOf(h, windows, more))
  {
    if windows != [] {
      SegmentPiecesMore(h, windows[0].0, windows[0].1, near, more);
      PiecesMore(h, windows[1..], near, more);
    }
  }

  lemma {:induction false} AlongMonotone(h: Hypot, line: Line, near: Flat -> bool, more: Flat -> bool, min: real,
                                         less: real)
    requires IsHypot(h) && MoreNear(near, more) && less <= min
    ensures var run, longer := AlongLine(h, line, near, min), AlongLine(h, line, more, less);
            run.covered <= longer.covered && run.length == longer.length && run.Share() <= longer.Share()
  {
    var ws := WindowsOf(line);
    PiecesMore(h, ws, near, more);
    PiecesLength(h, ws, near);
    CoveredMonotone(PiecesOf(h, ws, near), PiecesOf(h, ws, more), min, less);
    var run, longer := AlongLine(h, line, near, min), AlongLine(h, line, more, less);
    if run.length > 0.0 {
      ShareMonotone(run.covered, longer.covered, run.length);
    }
  }

  lemma {:induction false} AlongWider(h: Hypot, line: Line, other: Line, tolerance: real, wider: real, min: real,
                                      less: real)
    requires IsHypot(h) && tolerance <= wider && less <= min
    ensures var run, longer := AlongLine(h, line, NearLine(other, tolerance), min),
                               AlongLine(h, line, NearLine(other, wider), less);
            run.covered <= longer.covered && run.length == longer.length && run.Share() <= longer.Share()
  {
    var near, more := NearLine(other, tolerance), NearLine(other, wider);
    forall p | near(p) ensures more(p) {
      NearMonotone(other, tolerance, wider, p);
    }
    assert MoreNear(near, more);
    AlongMonotone(h, line, near, more, min, less);
  }

  lemma {:induction false} CountMonotone(hit: seq<bool>, more: seq<bool>)
    requires |hit| == |more| && forall k :: 0 <= k < |hit| ==> hit[k] ==> more[k]
    ensures CountTrue(hit) <= CountTrue(more)
  {
    if hit != [] {
      CountMonotone(hit[1..], more[1..]);
    }
  }

  lemma {:induction false} ReachedMore(plan: Line, trip: Line, tolerance: real, wider: real)
    requires tolerance <= wider
    ensures var hit, more := ReachedPoints(plan, trip, tolerance), ReachedPoints(plan, trip, wider);
            forall k :: 0 <= k < |plan| ==> hit[k] ==> more[k]
  {
    forall k | 0 <= k < |plan| && Near(trip, tolerance, plan[k])
      ensures Near(trip, wider, plan[k])
    {
      NearMonotone(trip, tolerance, wider, plan[k]);
    }
  }

  lemma {:induction false} PointsMonotone(h: Hypot, trip: Line, plan: Line, r: Rules, loose: Rules)
    requires IsHypot(h) && Looser(r, loose) && |plan| > 0 && JudgedByPoints(h, trip, plan, r)
    ensures JudgedByPoints(h, trip, plan, loose)
  {
    var hit, more := ReachedPoints(plan, trip, r.pointTolerance), ReachedPoints(plan, trip, loose.pointTolerance);
    ReachedMore(plan, trip, r.pointTolerance, loose.pointTolerance);
    CountMonotone(hit, more);
    ShareMonotone(CountTrue(hit) as real, CountTrue(more) as real, |plan| as real);
    AlongWider(h, trip, plan, r.band, loose.band, r.minStretch, loose.minStretch);
    if LongRow(h, plan, hit, r.minPointRun, r.minCovered) {
      var i: nat, j: nat :| ReachedInARow(h, plan, hit, r.minPointRun, r.minCovered, i, j);
      assert ReachedInARow(h, plan, more, loose.minPointRun, loose.minCovered, i, j);
    }
  }

  /** Loosening the rules never loses a plan that was followed. */
  lemma {:induction false} FollowingMonotone(h: Hypot, trip: Line, plan: Line, r: Rules, loose: Rules)
    requires IsHypot(h) && Looser(r, loose) && Following(h, trip, plan, r).Some?
    ensures Following(h, trip, plan, loose).Some?
  {
    AlongWider(h, plan, trip, r.lineTolerance, loose.lineTolerance, r.minStretch, loose.minStretch);
    AlongWider(h, trip, plan, r.lineTolerance, loose.lineTolerance, r.minStretch, loose.minStretch);
    if JudgedByPoints(h, trip, plan, r) {
      PointsMonotone(h, trip, plan, r, loose);
    }
  }

  /** Every figure of a coverage is a share, from 0 to 1. */
  lemma {:induction false} CoverageInShares(h: Hypot, trip: Line, plan: Line, r: Rules)
    requires IsHypot(h) && Following(h, trip, plan, r).Some?
    ensures var c := Following(h, trip, plan, r).value;
            0.0 <= c.planCovered <= 1.0 && 0.0 <= c.tripOnPlan <= 1.0 && 0.0 <= c.pointsReached <= 1.0
  {
    RunWithinLine(h, plan, NearLine(trip, r.lineTolerance), r.minStretch);
    RunWithinLine(h, trip, NearLine(plan, r.lineTolerance), r.minStretch);
    ShareWithin(CountTrue(ReachedPoints(plan, trip, r.pointTolerance)) as real, |plan| as real);
  }

  // ------------------------------------------------------ how far to look

  ghost predicate OnLine(line: Line, p: Flat) {
    exists i: nat, t: real :: OnLineAt(line, p, i, t)
  }

  ghost predicate OnLineAt(line: Line, p: Flat, i: nat, t: real) {
    i < |Segments(line)| && 0.0 <= t <= 1.0 && p == On(Segments(line)[i].0, Segments(line)[i].1, t)
  }

  /** Some point of either line lies within `reach` of one of the other. */
  ghost predicate Meet(a: Line, b: Line, reach: real) {
    exists p, q :: OnLine(a, p) && OnLine(b, q) && Within(p, q, reach)
  }

  /** The widest of the three distances. */
  function Reach(r: Rules): real {
    var m := if r.lineTolerance > r.pointTolerance then r.lineTolerance else r.pointTolerance;
    if m > r.waypointDistance then m else r.waypointDistance
  }

  lemma {:induction false} NearMeets(a: Line, b: Line, tolerance: real, reach: real, p: Flat)
    requires tolerance <= reach && OnLine(a, p) && Near(b, tolerance, p)
    ensures Meet(a, b, reach) && Meet(b, a, reach)
  {
    NearMonotone(b, tolerance, reach, p);
    var i: nat, t: real :| NearAt(b, reach, p, i, t);
    var q := On(Segments(b)[i].0, Segments(b)[i].1, t);
    assert OnLine(b, q) by { assert OnLineAt(b, q, i, t); }
    WithinSymmetric(p, q, reach);
  }

  lemma {:induction false} VertexOnLine(line: Line, k: nat)
    requires k < |line|
    ensures OnLine(line, line[k])
  {
    var (i, t) := if k < |Segments(line)| then (k, 0.0) else (k - 1, 1.0);
    assert OnLineAt(line, line[k], i, t);
  }

  lemma {:induction false} MiddleOnLine(line: Line, a: Flat, b: Flat, pieces: nat, k: nat)
    requires k < pieces && (a, b) in Segments(line)
    ensures OnLine(line, Middle(a, b, pieces, k))
  {
    var i: nat :| i < |Segments(line)| && Segments(line)[i] == (a, b);
    var t := (k as real + 0.5) / pieces as real;
    ShareWithin(k as real + 0.5, pieces as real);
    assert OnLineAt(line, Middle(a, b, pieces, k), i, t);
  }

  lemma {:induction false} NearPieceOnLine(h: Hypot, line: Line, windows: Windows, near: Flat -> bool, k: nat)
    requires k < |PiecesOf(h, windows, near)| && PiecesOf(h, windows, near)[k].near
    requires forall w :: 0 <= w < |windows| ==> windows[w] in Segments(line)
    ensures exists p :: OnLine(line, p) && near(p)
  {
    var (a, b) := windows[0];
    var ps := SegmentPieces(h, a, b, near);
    if k < |ps| {
      assert windows[0] in Segments(line);
      MiddleOnLine(line, a, b, |ps|, k);
      assert near(Middle(a, b, |ps|, k));
    } else {
      NearPieceOnLine(h, line, windows[1..], near, k - |ps|);
    }
  }

  /** A line covered at all meets the one it is covered by. */
  lemma {:induction false} CoveredMeets(h: Hypot, line: Line, other: Line, tolerance: real, minStretch: real,
                                        reach: real)
    requires tolerance <= reach
    requires AlongLine(h, line, NearLine(other, tolerance), minStretch).covered > 0.0
    ensures Meet(line, other, reach) && Meet(other, line, reach)
  {
    var near, ws := NearLine(other, tolerance), WindowsOf(line);
    CoveredMeansNear(PiecesOf(h, ws, near), minStretch);
    var k: nat :| k < |PiecesOf(h, ws, near)| && PiecesOf(h, ws, near)[k].near;
    forall w | 0 <= w < |ws| ensures ws[w] in Segments(line) {
      assert Segments(line)[w] == ws[w];
    }
    NearPieceOnLine(h, line, ws, near, k);
    var p :| OnLine(line, p) && near(p);
    NearMeets(line, other, tolerance, reach, p);
  }

  lemma {:induction false} ShareMeansCovered(run: Run)
    requires run.Share() > 0.0
    ensures run.covered > 0.0
  {
    assert run.covered / run.length * run.length == run.covered;
    ProductPositive(run.Share(), run.length);
  }

  lemma {:induction false} HitMeets(trip: Line, plan: Line, tolerance: real, reach: real, k: nat)
    requires tolerance <= reach && k < |plan| && Near(trip, tolerance, plan[k])
    ensures Meet(trip, plan, reach)
  {
    VertexOnLine(plan, k);
    NearMeets(plan, trip, tolerance, reach, plan[k]);
  }

  lemma {:induction false} CountedMeansHit(hit: seq<bool>) returns (k: nat)
    requires CountTrue(hit) > 0
    ensures k < |hit| && hit[k]
  {
    if hit[0] {
      k := 0;
    } else {
      k := CountedMeansHit(hit[1..]);
      k := k + 1;
    }
  }

  /** Thresholds that ask for something: no rule is met by two lines that have nothing in common. */
  ghost predicate Demanding(r: Rules) {
    r.planCoveredShare > 0.0 && r.tripOnPlanShare > 0.0 && r.minShared > 0.0 && r.minPointRun > 0
  }

  lemma {:induction false} ConfiguredIsDemanding()
    ensures Demanding(CONFIGURED) && Reach(CONFIGURED) == CONFIGURED.pointTolerance < CONFIGURED.band
  {
  }

  lemma {:induction false} LineMeets(h: Hypot, trip: Line, plan: Line, r: Rules)
    requires Demanding(r) && JudgedByLine(PlanRun(h, trip, plan, r), TripRun(h, trip, plan, r), r)
    ensures Meet(trip, plan, Reach(r))
  {
    var planRun, tripRun := PlanRun(h, trip, plan, r), TripRun(h, trip, plan, r);
    if tripRun.Share() >= r.tripOnPlanShare {
      ShareMeansCovered(tripRun);
      CoveredMeets(h, trip, plan, r.lineTolerance, r.minStretch, Reach(r));
    } else {
      if planRun.Share() >= r.planCoveredShare { ShareMeansCovered(planRun); }
      CoveredMeets(h, plan, trip, r.lineTolerance, r.minStretch, Reach(r));
    }
  }

  lemma {:induction false} RowMeansHit(h: Hypot, plan: Line, hit: seq<bool>, points: nat, length: real)
    returns (k: nat)
    requires |hit| == |plan| && LongRow(h, plan, hit, points, length)
    ensures k < |hit| && hit[k]
  {
    var i: nat, j: nat :| ReachedInARow(h, plan, hit, points, length, i, j);
    k := i;
  }

  lemma {:induction false} PointsMeet(h: Hypot, trip: Line, plan: Line, r: Rules)
    requires r.minPointRun > 0 && |plan| > 0 && JudgedByPoints(h, trip, plan, r)
    ensures Meet(trip, plan, Reach(r))
  {
    var hit := ReachedPoints(plan, trip, r.pointTolerance);
    var k: nat;
    if CountTrue(hit) > 0 {
      k := CountedMeansHit(hit);
    } else {
      k := RowMeansHit(h, plan, hit, r.minPointRun, r.minCovered);
    }
    HitMeets(trip, plan, r.pointTolerance, Reach(r), k);
  }

  /** Looking as far as `Reach` loses no plan the trip followed, though the band is wider. */
  lemma {:induction false} ReachLosesNothing(h: Hypot, trip: Line, plan: Line, r: Rules)
    requires Demanding(r) && Following(h, trip, plan, r).Some?
    ensures Meet(trip, plan, Reach(r))
  {
    if JudgedByLine(PlanRun(h, trip, plan, r), TripRun(h, trip, plan, r), r) {
      LineMeets(h, trip, plan, r);
    } else {
      PointsMeet(h, trip, plan, r);
    }
  }

  // ---------------------------------------------------- passing waypoints

  /** Whether a line passed a waypoint. */
  ghost predicate Passes(line: Line, waypoint: Flat, r: Rules) {
    Near(line, r.waypointDistance, waypoint)
  }

  /** The loop over the waypoints, asking one grid for each. */
  method WaypointsPassed(h: Hypot, line: Line, waypoints: seq<Flat>, r: Rules) returns (passed: seq<nat>)
    requires IsHypot(h)
    ensures forall k :: 0 <= k < |passed| ==> passed[k] < |waypoints| && Passes(line, waypoints[passed[k]], r)
    ensures forall i: nat :: i < |waypoints| && Passes(line, waypoints[i], r) ==> i in passed
    ensures forall k, m :: 0 <= k < m < |passed| ==> passed[k] < passed[m]
  {
    var nearLine := NewGrid(line, r.waypointDistance);
    passed := [];
    for i := 0 to |waypoints|
      invariant forall k :: 0 <= k < |passed| ==> passed[k] < i && Passes(line, waypoints[passed[k]], r)
      invariant forall k: nat :: k < i && Passes(line, waypoints[k], r) ==> k in passed
      invariant forall k, m :: 0 <= k < m < |passed| ==> passed[k] < passed[m]
    {
      ReachesIsNear(h, nearLine, line, r.waypointDistance, waypoints[i]);
      if nearLine.Reaches(h, waypoints[i]) {
        passed := passed + [i];
      }
    }
  }

  lemma {:induction false} PassedMeets(line: Line, waypoint: Flat, r: Rules)
    requires Passes(line, waypoint, r)
    ensures Meet(line, [waypoint], r.waypointDistance) && Meet(line, [waypoint], Reach(r))
  {
    VertexOnLine([waypoint], 0);
    NearMeets([waypoint], line, r.waypointDistance, r.waypointDistance, waypoint);
    NearMeets([waypoint], line, r.waypointDistance, Reach(r), waypoint);
  }

  // ------------------------------------------------- lines as positions

  /** A trip and a plan, projected around the plan's first point. */
  ghost function FollowingAt(h: Hypot, project: Projection, trip: seq<Position>, plan: seq<Position>, r: Rules)
    : Option<Coverage>
  {
    if plan == [] then None
    else Following(h, Projected(project, plan[0], trip), Projected(project, plan[0], plan), r)
  }

  method FollowedAt(h: Hypot, project: Projection, trip: seq<Position>, plan: seq<Position>, r: Rules)
    returns (coverage: Option<Coverage>)
    requires IsHypot(h)
    ensures coverage == FollowingAt(h, project, trip, plan, r)
  {
    if plan == [] {
      return None;
    }
    coverage := Followed(h, Projected(project, plan[0], trip), Projected(project, plan[0], plan), r);
  }

  /** Whether a line passed a waypoint, projected around the line's first point. */
  ghost predicate PassesAt(project: Projection, line: seq<Position>, waypoint: Position, r: Rules) {
    line != [] && Passes(Projected(project, line[0], line), project(line[0], waypoint), r)
  }

  method WaypointsPassedAt(h: Hypot, project: Projection, line: seq<Position>, waypoints: seq<Position>, r: Rules)
    returns (passed: seq<nat>)
    requires IsHypot(h)
    ensures forall k :: 0 <= k < |passed| ==>
              passed[k] < |waypoints| && PassesAt(project, line, waypoints[passed[k]], r)
    ensures forall i: nat :: i < |waypoints| && PassesAt(project, line, waypoints[i], r) ==> i in passed
    ensures forall k, m :: 0 <= k < m < |passed| ==> passed[k] < passed[m]
  {
    if line == [] {
      return [];
    }
    passed := WaypointsPassed(h, Projected(project, line[0], line), Projected(project, line[0], waypoints), r);
  }
}
