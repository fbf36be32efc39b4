/**
  From a photo's wall clock to its place on a track: the runs of UTC offsets
  along the track (src/server/timezone.rs), the instant a reading stands for
  (src/server/placement.rs), and the point between two timed ones
  (src/server/gpx.rs). Instants and offsets are whole numbers of one unit.
*/
module TrackClock {
  import opened Wrappers
  import opened Reals
  import opened Search

  datatype TrackPoint = TrackPoint(lat: real, lon: real, time: Option<int>)

  datatype TimedPoint = TimedPoint(time: int, lat: real, lon: real)

  /** Which offset applies somewhere at some instant; none where it does not resolve. */
  type Lookup = (real, real, int) -> Option<int>

  /** Where a run of equal offsets starts. */
  datatype Run<T> = Run(index: nat, offset: T)

  /** An offset in force. */
  type Transition = Run<int>

  /** A looked-up offset; none where it is unresolved. */
  type Change = Run<Option<int>>

  const UTC := 0

  // ------------------------------------------------------------ timed points

  function Timed(points: seq<TrackPoint>): seq<TimedPoint> {
    if points == [] then []
    else
      (match points[0].time
       case Some(time) => [TimedPoint(time, points[0].lat, points[0].lon)]
       case None => [])
      + Timed(points[1..])
  }

  /** A stable insertion: among points of one instant what came earlier stays earlier. */
  function Insert(p: TimedPoint, sorted: seq<TimedPoint>): seq<TimedPoint> {
    if sorted == [] || p.time <= sorted[0].time then [p] + sorted else [sorted[0]] + Insert(p, sorted[1..])
  }

  /** The library's stable sort by time. */
  function SortByTime(points: seq<TimedPoint>): seq<TimedPoint> {
    if points == [] then [] else Insert(points[0], SortByTime(points[1..]))
  }

  /** The timed points in time order. */
  function TimedPoints(points: seq<TrackPoint>): seq<TimedPoint> {
    SortByTime(Timed(points))
  }

  ghost predicate InTime(points: seq<TimedPoint>) {
    forall p, q :: 0 <= p < q < |points| ==> points[p].time <= points[q].time
  }

  /** A point, if it is of an instant. */
  function IfAt(p: TimedPoint, time: int): seq<TimedPoint> {
    if p.time == time then [p] else []
  }

  /** The points of one instant, in their order. */
  function AtTime(points: seq<TimedPoint>, time: int): seq<TimedPoint> {
    if points == [] then [] else IfAt(points[0], time) + AtTime(points[1..], time)
  }

  lemma {:induction false} AtTimePrepended(p: TimedPoint, points: seq<TimedPoint>, time: int)
    ensures AtTime([p] + points, time) == IfAt(p, time) + AtTime(points, time)
  {
    assert ([p] + points)[1..] == points;
  }

  ghost predicate NoneBefore(points: seq<TimedPoint>, time: int) {
    forall k :: 0 <= k < |points| ==> time <= points[k].time
  }

  lemma {:induction false} InsertNotBefore(p: TimedPoint, sorted: seq<TimedPoint>, time: int)
    requires NoneBefore(sorted, time) && time <= p.time
    ensures NoneBefore(Insert(p, sorted), time)
  {
    if sorted != [] && p.time > sorted[0].time {
      InsertNotBefore(p, sorted[1..], time);
    }
  }

  lemma {:induction false} InsertInTime(p: TimedPoint, sorted: seq<TimedPoint>)
    requires InTime(sorted)
    ensures InTime(Insert(p, sorted))
  {
    if sorted != [] && p.time > sorted[0].time {
      InsertInTime(p, sorted[1..]);
      InsertNotBefore(p, sorted[1..], sorted[0].time);
    }
  }

  lemma {:induction false} InsertAtTime(p: TimedPoint, sorted: seq<TimedPoint>, time: int)
    ensures AtTime(Insert(p, sorted), time) == IfAt(p, time) + AtTime(sorted, time)
  {
    if sorted == [] || p.time <= sorted[0].time {
      AtTimePrepended(p, sorted, time);
    } else {
      var rest := Insert(p, sorted[1..]);
      InsertAtTime(p, sorted[1..], time);
      AtTimePrepended(sorted[0], rest, time);
      assert IfAt(p, time) == [] || IfAt(sorted[0], time) == [];
      calc {
        AtTime(Insert(p, sorted), time);
        IfAt(sorted[0], time) + (IfAt(p, time) + AtTime(sorted[1..], time));
        IfAt(p, time) + (IfAt(sorted[0], time) + AtTime(sorted[1..], time));
        IfAt(p, time) + AtTime(sorted, time);
      }
    }
  }

  lemma {:induction false} SortedInTime(points: seq<TimedPoint>)
    ensures InTime(SortByTime(points))
  {
    if points != [] {
      SortedInTime(points[1..]);
      InsertInTime(points[0], SortByTime(points[1..]));
    }
  }

  /** Sorting by time is stable: at every instant there are the same points, in the same order. */
  lemma {:induction false} SortedStably(points: seq<TimedPoint>, time: int)
    ensures AtTime(SortByTime(points), time) == AtTime(points, time)
  {
    if points != [] {
      SortedStably(points[1..], time);
      InsertAtTime(points[0], SortByTime(points[1..]), time);
    }
  }

  /** The places a track has for one instant, in its order. */
  function PlacesAt(points: seq<TrackPoint>, time: int): seq<(real, real)> {
    if points == [] then []
    else if points[0].time == Some(time) then [(points[0].lat, points[0].lon)] + PlacesAt(points[1..], time)
    else PlacesAt(points[1..], time)
  }

  /** Points of one instant at these places. */
  function AllAt(places: seq<(real, real)>, time: int): (points: seq<TimedPoint>) {
    seq(|places|, k requires 0 <= k < |places| => TimedPoint(time, places[k].0, places[k].1))
  }

  lemma {:induction false} TimedAre(points: seq<TrackPoint>, time: int)
    ensures AtTime(Timed(points), time) == AllAt(PlacesAt(points, time), time)
  {
    if points != [] {
      TimedAre(points[1..], time);
      if points[0].time.Some? {
        var p := TimedPoint(points[0].time.value, points[0].lat, points[0].lon);
        assert Timed(points) == [p] + Timed(points[1..]);
        AtTimePrepended(p, Timed(points[1..]), time);
      } else {
        assert Timed(points) == Timed(points[1..]);
      }
    }
  }

  /** A track's timed points come in time order, and at every instant they are the track's own, in its order. */
  lemma {:induction false} TimedPointsInTime(points: seq<TrackPoint>, time: int)
    ensures InTime(TimedPoints(points))
    ensures AtTime(TimedPoints(points), time) == AllAt(PlacesAt(points, time), time)
  {
    SortedInTime(Timed(points));
    SortedStably(Timed(points), time);
    TimedAre(points, time);
  }

  // ---------------------------------------------------------- offset changes

  function OffsetOf(lookup: Lookup, p: TimedPoint): Option<int> {
    lookup(p.lon, p.lat, p.time)
  }

  /** Offsets run by run: where each run starts, none like the one before it. */
  ghost predicate Encodes<T>(transitions: seq<Run<T>>, offsets: seq<T>) {
    && (offsets != [] ==> transitions != [] && transitions[0].index == 0)
    && (forall i :: 0 <= i < |transitions| ==> transitions[i].index < |offsets|)
    && (forall i, j :: 0 <= i < j < |transitions| ==> transitions[i].index < transitions[j].index)
    && (forall i :: 0 < i < |transitions| ==> transitions[i].offset != transitions[i - 1].offset)
    && CoversRight(transitions, offsets)
  }

  /** Point `k` lies in the run that transition `i` starts. */
  ghost predicate Covers<T>(transitions: seq<Run<T>>, i: nat, k: int)
    requires i < |transitions|
  {
    transitions[i].index <= k && (i + 1 < |transitions| ==> k < transitions[i + 1].index)
  }

  /** Each run's offset is the offset at every point it covers. */
  ghost predicate CoversRight<T>(transitions: seq<Run<T>>, offsets: seq<T>) {
    forall i, k :: 0 <= i < |transitions| && 0 <= k < |offsets| && Covers(transitions, i, k)
                   ==> offsets[k] == transitions[i].offset
  }

  /** The runs with point `n` taken in: a run of its own where its offset differs. */
  function Grown<T(==)>(runs: seq<Run<T>>, n: nat, offset: T): seq<Run<T>> {
    if runs == [] || runs[|runs| - 1].offset != offset then runs + [Run(n, offset)] else runs
  }

  /** The runs of equal offsets. */
  function Runs<T(==)>(offsets: seq<T>): seq<Run<T>> {
    if offsets == [] then []
    else var n := |offsets| - 1; Grown(Runs(offsets[..n]), n, offsets[n])
  }

  lemma {:induction false} RunGoesOn<T>(transitions: seq<Run<T>>, offsets: seq<T>, offset: T)
    requires Encodes(transitions, offsets) && transitions != [] && transitions[|transitions| - 1].offset == offset
    ensures Encodes(transitions, offsets + [offset])
  {
    var n := |offsets|;
    forall i, k | 0 <= i < |transitions| && 0 <= k < n + 1 && Covers(transitions, i, k)
      ensures (offsets + [offset])[k] == transitions[i].offset
    {
      assert i + 1 < |transitions| ==> transitions[i + 1].index < n;
    }
  }

  lemma {:induction false} RunStarts<T>(transitions: seq<Run<T>>, offsets: seq<T>, offset: T)
    requires Encodes(transitions, offsets)
    requires transitions == [] ==> offsets == []
    requires transitions != [] ==> transitions[|transitions| - 1].offset != offset
    ensures Encodes(transitions + [Run(|offsets|, offset)], offsets + [offset])
  {
    var n, m, next := |offsets|, |transitions|, transitions + [Run(|offsets|, offset)];
    forall i, k | 0 <= i < m + 1 && 0 <= k < n + 1 && Covers(next, i, k)
      ensures (offsets + [offset])[k] == next[i].offset
    {
      if i < m {
        assert next[i + 1].index <= n && k < n;
        assert Covers(transitions, i, k);
      }
    }
  }

  /** The last run's offset is the last one. */
  ghost predicate EndsAlike<T>(runs: seq<Run<T>>, offsets: seq<T>) {
    if offsets == [] then runs == []
    else runs != [] && runs[|runs| - 1].offset == offsets[|offsets| - 1]
  }

  lemma {:induction false} GrownEncodes<T>(runs: seq<Run<T>>, offsets: seq<T>, offset: T)
    requires Encodes(runs, offsets) && EndsAlike(runs, offsets)
    ensures Encodes(Grown(runs, |offsets|, offset), offsets + [offset])
    ensures EndsAlike(Grown(runs, |offsets|, offset), offsets + [offset])
  {
    if runs == [] || runs[|runs| - 1].offset != offset {
      RunStarts(runs, offsets, offset);
    } else {
      RunGoesOn(runs, offsets, offset);
    }
  }

  lemma {:induction false} RunsEncode<T>(offsets: seq<T>)
    ensures Encodes(Runs(offsets), offsets) && EndsAlike(Runs(offsets), offsets)
  {
    if offsets != [] {
      var n := |offsets| - 1;
      RunsEncode(offsets[..n]);
      GrownEncodes(Runs(offsets[..n]), offsets[..n], offsets[n]);
      assert offsets == offsets[..n] + [offsets[n]];
    }
  }

  /** The offset looked up at each of the first `n` points, none where it is unresolved. */
  function LookedUp(points: seq<TimedPoint>, lookup: Lookup, n: nat): (offsets: seq<Option<int>>)
    requires n <= |points|
    ensures |offsets| == n
  {
    seq(n, k requires 0 <= k < n => OffsetOf(lookup, points[k]))
  }

  /** Where they change. */
  function Changes(points: seq<TimedPoint>, lookup: Lookup, n: nat): (changes: seq<Change>)
    requires n <= |points|
  {
    Runs(LookedUp(points, lookup, n))
  }

  lemma {:induction false} ChangesGrow(points: seq<TimedPoint>, lookup: Lookup, n: nat)
    requires n < |points|
    ensures Changes(points, lookup, n + 1) == Grown(Changes(points, lookup, n), n, OffsetOf(lookup, points[n]))
  {
    var offsets := LookedUp(points, lookup, n + 1);
    assert offsets[..n] == LookedUp(points, lookup, n);
  }

  /** The changes are exactly the looked-up offsets run by run, unresolved stretches included. */
  method ChangesBy(points: seq<TimedPoint>, lookup: Lookup) returns (changes: seq<Change>)
    ensures changes == Changes(points, lookup, |points|)
    ensures Encodes(changes, LookedUp(points, lookup, |points|))
  {
    changes := [];
    for n := 0 to |points|
      invariant changes == Changes(points, lookup, n)
    {
      ChangesGrow(points, lookup, n);
      var offset := OffsetOf(lookup, points[n]);
      if changes == [] || changes[|changes| - 1].offset != offset {
        changes := changes + [Run(n, offset)];
      }
    }
    RunsEncode(LookedUp(points, lookup, |points|));
  }

  /** One change, worked into the offsets in force: an unresolved one keeps what is in force, or is UTC. */
  function Forced(transitions: seq<Transition>, change: Change): seq<Transition> {
    if change.offset.None? && transitions != [] then transitions
    else
      var offset := change.offset.GetOr(UTC);
      if transitions == [] || transitions[|transitions| - 1].offset != offset then
        transitions + [Run(change.index, offset)]
      else transitions
  }

  function InForce(changes: seq<Change>): seq<Transition> {
    if changes == [] then [] else Forced(InForce(changes[..|changes| - 1]), changes[|changes| - 1])
  }

  method OffsetsInForce(changes: seq<Change>) returns (transitions: seq<Transition>)
    ensures transitions == InForce(changes)
  {
    transitions := [];
    for n := 0 to |changes|
      invariant transitions == InForce(changes[..n])
    {
      assert changes[..n + 1][..n] == changes[..n];
      if changes[n].offset.Some? || transitions == [] {
        var offset := changes[n].offset.GetOr(UTC);
        if transitions == [] || transitions[|transitions| - 1].offset != offset {
          transitions := transitions + [Run(changes[n].index, offset)];
        }
      }
    }
    assert changes[..|changes|] == changes;
  }

  /** The offset in force at a point: its own, or else that at the point before; UTC at the start. */
  function OffsetAt(points: seq<TimedPoint>, lookup: Lookup, k: nat): int
    requires k < |points|
  {
    match OffsetOf(lookup, points[k])
    case Some(offset) => offset
    case None => if k == 0 then UTC else OffsetAt(points, lookup, k - 1)
  }

  /** What is looked up at a point, from its place and its time. */
  ghost predicate Resolves(points: seq<TimedPoint>, lookup: Lookup, k: nat, offset: Option<int>)
    requires k < |points|
  {
    lookup(points[k].lon, points[k].lat, points[k].time) == offset
  }

  /** In force at a point is the offset of the last point so far that resolves. */
  lemma {:induction false} LastResolvedRules(points: seq<TimedPoint>, lookup: Lookup, j: nat, k: nat, offset: int)
    requires j <= k < |points| && Resolves(points, lookup, j, Some(offset))
    requires forall m: nat :: j < m <= k ==> Resolves(points, lookup, m, None)
    ensures OffsetAt(points, lookup, k) == offset
  {
    if j < k {
      assert Resolves(points, lookup, k, None);
      LastResolvedRules(points, lookup, j, k - 1, offset);
    }
  }

  /** Before any does, it is zero. */
  lemma {:induction false} NoneResolved(points: seq<TimedPoint>, lookup: Lookup, k: nat)
    requires k < |points| && forall m: nat :: m <= k ==> Resolves(points, lookup, m, None)
    ensures OffsetAt(points, lookup, k) == 0
  {
    assert Resolves(points, lookup, k, None);
    if k > 0 {
      NoneResolved(points, lookup, k - 1);
    }
  }

  /** Those of the first `n` points, one each. */
  function Offsets(points: seq<TimedPoint>, lookup: Lookup, n: nat): (offsets: seq<int>)
    requires n <= |points|
    ensures |offsets| == n
  {
    seq(n, k requires 0 <= k < n => OffsetAt(points, lookup, k))
  }

  lemma {:induction false} LastChange(points: seq<TimedPoint>, lookup: Lookup, n: nat)
    requires 0 < n <= |points|
    ensures var changes := Changes(points, lookup, n);
            changes != [] && changes[|changes| - 1].offset == OffsetOf(lookup, points[n - 1])
  {
    RunsEncode(LookedUp(points, lookup, n));
  }

  /** Taking in one more point's offset reduces to taking in the one in force there. */
  lemma {:induction false} InForceGrows(changes: seq<Change>, runs: seq<Transition>, n: nat, offset: Option<int>,
                                        was: int)
    requires InForce(changes) == runs && (changes == [] <==> runs == [])
    requires changes == [] ==> was == UTC
    requires changes != [] ==> was == runs[|runs| - 1].offset == changes[|changes| - 1].offset.GetOr(was)
    ensures InForce(Grown(changes, n, offset)) == Grown(runs, n, offset.GetOr(was))
  {
    var more := Grown(changes, n, offset);
    if more != changes {
      assert more[..|more| - 1] == changes && more[|more| - 1] == Run(n, offset);
      assert InForce(more) == Forced(runs, Run(n, offset));
    }
  }

  lemma {:induction false} OffsetsGrow(points: seq<TimedPoint>, lookup: Lookup, n: nat)
    requires n < |points|
    ensures Runs(Offsets(points, lookup, n + 1))
         == Grown(Runs(Offsets(points, lookup, n)), n, OffsetAt(points, lookup, n))
  {
    var offsets := Offsets(points, lookup, n + 1);
    assert offsets[..n] == Offsets(points, lookup, n);
  }

  /** The offset in force so far, UTC at the start. */
  function OffsetWas(points: seq<TimedPoint>, lookup: Lookup, n: nat): int
    requires n <= |points|
  {
    if n == 0 then UTC else OffsetAt(points, lookup, n - 1)
  }

  lemma {:induction false} LastInForce(points: seq<TimedPoint>, lookup: Lookup, n: nat)
    requires n <= |points|
    ensures var runs, was := Runs(Offsets(points, lookup, n)), OffsetWas(points, lookup, n);
            var changes := Changes(points, lookup, n);
            if n == 0 then runs == [] && changes == []
            else runs != [] && changes != [] && was == runs[|runs| - 1].offset
                 && was == changes[|changes| - 1].offset.GetOr(was)
  {
    RunsEncode(Offsets(points, lookup, n));
    if n > 0 {
      LastChange(points, lookup, n);
    }
  }

  /** Reducing the changes of the first `n` points gives the runs of the offsets in force at them. */
  lemma {:induction false} InForceIsRuns(points: seq<TimedPoint>, lookup: Lookup, n: nat)
    requires n <= |points|
    ensures InForce(Changes(points, lookup, n)) == Runs(Offsets(points, lookup, n))
  {
    if n > 0 {
      var m := n - 1;
      InForceIsRuns(points, lookup, m);
      ChangesGrow(points, lookup, m);
      LastInForce(points, lookup, m);
      InForceGrows(Changes(points, lookup, m), Runs(Offsets(points, lookup, m)), m, OffsetOf(lookup, points[m]),
                   OffsetWas(points, lookup, m));
      OffsetsGrow(points, lookup, m);
    }
  }

  /** The runs in force along all of a track. */
  function OffsetTransitions(points: seq<TimedPoint>, lookup: Lookup): seq<Transition> {
    InForce(Changes(points, lookup, |points|))
  }

  /**
    The transitions are exactly the offsets in force along the track: each
    run starts where it starts, adjacent runs differ, an unresolved stretch
    keeps the offset before it, and one at the start is UTC.
  */
  lemma {:induction false} TransitionsEncode(points: seq<TimedPoint>, lookup: Lookup)
    ensures Encodes(OffsetTransitions(points, lookup), Offsets(points, lookup, |points|))
  {
    InForceIsRuns(points, lookup, |points|);
    RunsEncode(Offsets(points, lookup, |points|));
  }

  // ------------------------------------------------------- reading the clock

  function NoLaterThan(at: int): TimedPoint -> bool {
    (p: TimedPoint) => p.time <= at
  }

  /** How many points a track had passed at an instant. */
  function PassedAt(points: seq<TimedPoint>, at: int): nat {
    PartitionPoint(points, NoLaterThan(at))
  }

  lemma {:induction false} PassedExactly(points: seq<TimedPoint>, at: int, k: nat)
    requires InTime(points) && k < |points|
    ensures k < PassedAt(points, at) <==> points[k].time <= at
  {
    var n := PassedAt(points, at);
    assert k < n ==> NoLaterThan(at)(points[k]);
    if n <= k {
      assert !NoLaterThan(at)(points[n]);
    }
  }

  /** At instant `u`, within the track's times, its local clock read `naive`. */
  ghost predicate ClockReads(points: seq<TimedPoint>, offsets: seq<int>, naive: int, u: int)
    requires |offsets| == |points|
  {
    && points != [] && points[0].time <= u <= points[|points| - 1].time
    && 0 < PassedAt(points, u) && u + offsets[PassedAt(points, u) - 1] == naive
  }

  /** The run a candidate instant would have to fall in does hold it. */
  predicate InRun(points: seq<TimedPoint>, transitions: seq<Transition>, i: nat, u: int)
    requires i < |transitions| && points != []
    requires forall k :: 0 <= k < |transitions| ==> transitions[k].index < |points|
  {
    && points[transitions[i].index].time <= u
    && (if i + 1 < |transitions| then u < points[transitions[i + 1].index].time else u <= points[|points| - 1].time)
  }

  /** The runs hold exactly the instants at which their offset is in force. */
  lemma {:induction false} RunHolds(points: seq<TimedPoint>, offsets: seq<int>, transitions: seq<Transition>, i: nat,
                                    u: int)
    requires InTime(points) && points != [] && |offsets| == |points| && Encodes(transitions, offsets)
    requires i < |transitions|
    ensures InRun(points, transitions, i, u) <==>
              && points[0].time <= u <= points[|points| - 1].time && 0 < PassedAt(points, u)
              && Covers(transitions, i, PassedAt(points, u) - 1)
  {
    PassedExactly(points, u, 0);
    PassedExactly(points, u, transitions[i].index);
    if i + 1 < |transitions| {
      PassedExactly(points, u, transitions[i + 1].index);
    }
  }

  lemma {:induction false} SomeRunCovers(transitions: seq<Transition>, offsets: seq<int>, k: nat, n: nat)
    returns (i: nat)
    requires Encodes(transitions, offsets) && k < |offsets| && 0 < n <= |transitions|
    requires n < |transitions| ==> k < transitions[n].index
    ensures i < n && Covers(transitions, i, k)
  {
    if transitions[n - 1].index <= k {
      i := n - 1;
    } else {
      i := SomeRunCovers(transitions, offsets, k, n - 1);
    }
  }

  /** The instant at which the track's local clock read `naive`: the earliest, and none exactly when there is none. */
  method ClockRead(points: seq<TimedPoint>, transitions: seq<Transition>, naive: int, ghost offsets: seq<int>)
    returns (read: Option<int>)
    requires InTime(points) && |offsets| == |points| && Encodes(transitions, offsets)
    ensures read.Some? ==> ClockReads(points, offsets, naive, read.value)
                           && forall v :: ClockReads(points, offsets, naive, v) ==> read.value <= v
    ensures read.None? ==> forall v :: !ClockReads(points, offsets, naive, v)
  {
    if points == [] {
      return None;
    }
    for i := 0 to |transitions|
      invariant forall k :: 0 <= k < i ==> !InRun(points, transitions, k, naive - transitions[k].offset)
    {
      var candidate := naive - transitions[i].offset;
      if InRun(points, transitions, i, candidate) {
        RunHolds(points, offsets, transitions, i, candidate);
        FirstIsEarliest(points, offsets, transitions, naive, i);
        return Some(candidate);
      }
    }
    forall v | ClockReads(points, offsets, naive, v)
      ensures false
    {
      var i := ReadInRun(points, offsets, transitions, naive, v);
    }
    read := None;
  }

  /** A reading falls in the run whose offset it was read by. */
  lemma {:induction false} ReadInRun(points: seq<TimedPoint>, offsets: seq<int>, transitions: seq<Transition>,
                                     naive: int, v: int)
    returns (i: nat)
    requires InTime(points) && |offsets| == |points| && Encodes(transitions, offsets)
    requires ClockReads(points, offsets, naive, v)
    ensures i < |transitions| && v == naive - transitions[i].offset && InRun(points, transitions, i, v)
  {
    i := SomeRunCovers(transitions, offsets, PassedAt(points, v) - 1, |transitions|);
    RunHolds(points, offsets, transitions, i, v);
  }

  /** No reading is earlier than the first run's to hold its own candidate. */
  lemma {:induction false} FirstIsEarliest(points: seq<TimedPoint>, offsets: seq<int>, transitions: seq<Transition>,
                                           naive: int, i: nat)
    requires InTime(points) && points != [] && |offsets| == |points| && Encodes(transitions, offsets)
    requires i < |transitions| && InRun(points, transitions, i, naive - transitions[i].offset)
    requires forall k :: 0 <= k < i ==> !InRun(points, transitions, k, naive - transitions[k].offset)
    ensures forall v :: ClockReads(points, offsets, naive, v) ==> naive - transitions[i].offset <= v
  {
    forall v | ClockReads(points, offsets, naive, v)
      ensures naive - transitions[i].offset <= v
    {
      var j := ReadInRun(points, offsets, transitions, naive, v);
      if j > i {
        InTimeRuns(points, transitions, offsets, i + 1, j);
      }
    }
  }

  lemma {:induction false} InTimeRuns(points: seq<TimedPoint>, transitions: seq<Transition>, offsets: seq<int>,
                                      i: nat, j: nat)
    requires InTime(points) && |offsets| == |points| && Encodes(transitions, offsets) && i <= j < |transitions|
    ensures points[transitions[i].index].time <= points[transitions[j].index].time
  {
  }

  // -------------------------------------------------------- placing a photo

  /** The position at an instant, by linear interpolation between the points around it. */
  function Interpolate(points: seq<TimedPoint>, at: int): Option<(real, real)> {
    if |points| < 2 || at < points[0].time || at > points[|points| - 1].time then None
    else
      var n := PassedAt(points, at);
      if n == 0 then Some((points[0].lat, points[0].lon))
      else if n == |points| then Some((points[n - 1].lat, points[n - 1].lon))
      else
        var a, b := points[n - 1], points[n];
        var span := (b.time - a.time) as real;
        var share := if span > 0.0 then (at - a.time) as real / span else 0.0;
        Some((a.lat + (b.lat - a.lat) * share, a.lon + (b.lon - a.lon) * share))
  }

  /**
    Where the track is at an instant: on its last point of that instant when
    it has one, and otherwise between the points `n` and `n + 1` around it.
  */
  ghost predicate IsAt(points: seq<TimedPoint>, at: int, position: (real, real), n: nat)
    requires n < |points|
  {
    && points[n].time <= at && (n + 1 < |points| ==> at < points[n + 1].time)
    && (if points[n].time == at then position == (points[n].lat, points[n].lon)
        else && n + 1 < |points|
             && var a, b := points[n], points[n + 1];
                && Evenly(position.0, a.lat, b.lat, (at - a.time) as real, (b.time - a.time) as real)
                && Evenly(position.1, a.lon, b.lon, (at - a.time) as real, (b.time - a.time) as real))
  }

  /** A track with two timed points or more has a position at exactly the instants from its first to its last. */
  lemma {:induction false} InterpolatesWithin(points: seq<TimedPoint>, at: int)
    requires InTime(points)
    ensures Interpolate(points, at).Some? <==>
              |points| >= 2
              && exists p, q :: 0 <= p < |points| && 0 <= q < |points| && points[p].time <= at <= points[q].time
  {
    if Interpolate(points, at).Some? {
      assert points[0].time <= at <= points[|points| - 1].time;
    }
  }

  lemma {:induction false} PassedSome(points: seq<TimedPoint>, at: int)
    requires InTime(points) && points != [] && points[0].time <= at <= points[|points| - 1].time
    ensures var n := PassedAt(points, at);
            && 0 < n <= |points| && points[n - 1].time <= at
            && (if n < |points| then at < points[n].time else points[n - 1].time == at)
  {
    var n := PassedAt(points, at);
    PassedExactly(points, at, 0);
    PassedExactly(points, at, n - 1);
    if n < |points| {
      PassedExactly(points, at, n);
    }
  }

  /** Where it has one it was there, or between the points around it. */
  lemma {:induction false} InterpolatesBetween(points: seq<TimedPoint>, at: int)
    requires InTime(points) && Interpolate(points, at).Some?
    ensures exists n: nat :: n < |points| && IsAt(points, at, Interpolate(points, at).value, n)
  {
    var n := PassedAt(points, at);
    PassedSome(points, at);
    if n < |points| {
      var a, b := points[n - 1], points[n];
      EvenlyAlong(a.lat, b.lat, (at - a.time) as real, (b.time - a.time) as real);
      EvenlyAlong(a.lon, b.lon, (at - a.time) as real, (b.time - a.time) as real);
    }
    assert IsAt(points, at, Interpolate(points, at).value, n - 1);
  }

  /** The instant the track's local clock read `naive` first, or none when it never did. */
  ghost predicate ReadAt(points: seq<TimedPoint>, lookup: Lookup, naive: int, read: Option<int>) {
    var offsets := Offsets(points, lookup, |points|);
    && (read.Some? ==> ClockReads(points, offsets, naive, read.value)
                       && forall v :: ClockReads(points, offsets, naive, v) ==> read.value <= v)
    && (read.None? ==> forall v :: !ClockReads(points, offsets, naive, v))
  }

  /** A photo's own data; its embedded offset is none where the camera wrote none that is one. */
  datatype Photo = Photo(gps: Option<(real, real)>, captured: Option<int>, embedded: Option<int>)

  datatype Placement = Provided(at: (real, real)) | Exif(at: (real, real)) | Interpolated(at: (real, real)) | Nowhere

  /** The instant a photo's wall clock names: by its own offset, else by the track's clock, else by the assumed zone. */
  method CaptureInstant(photo: Photo, points: seq<TimedPoint>, lookup: Lookup, assumed: int -> Option<int>)
    returns (instant: Option<int>, ghost read: Option<int>)
    requires InTime(points)
    ensures photo.captured.None? ==> instant.None?
    ensures photo.captured.Some? && photo.embedded.Some? ==>
              instant == Some(photo.captured.value - photo.embedded.value)
    ensures photo.captured.Some? && photo.embedded.None? ==>
              && ReadAt(points, lookup, photo.captured.value, read)
              && instant == (if read.Some? then read else assumed(photo.captured.value))
  {
    read := None;
    if photo.captured.None? {
      return None, None;
    }
    if photo.embedded.Some? {
      return Some(photo.captured.value - photo.embedded.value), None;
    }
    var changes := ChangesBy(points, lookup);
    var transitions := OffsetsInForce(changes);
    TransitionsEncode(points, lookup);
    var found := ClockRead(points, transitions, photo.captured.value, Offsets(points, lookup, |points|));
    instant, read := if found.Some? then found else assumed(photo.captured.value), found;
  }

  /**
    Where a photo goes: a location known from elsewhere wins over its own,
    its own over the track's. A photo that names no offset, taken while a
    track of two timed points or more was recording, is always placed on it,
    where its local clock first read what the photo says.
  */
  method ResolvePlacement(photo: Photo, points: seq<TimedPoint>, lookup: Lookup, assumed: int -> Option<int>,
                          known: Option<(real, real)>)
    returns (placement: Placement)
    requires InTime(points)
    ensures known.Some? ==> placement == Provided(known.value)
    ensures known.None? && photo.gps.Some? ==> placement == Exif(photo.gps.value)
    ensures known.None? && photo.gps.None? && photo.captured.None? ==> placement == Nowhere
    ensures known.None? && photo.gps.None? && photo.captured.Some? ==>
              OnTrack(photo, points, lookup, assumed, placement)
  {
    if known.Some? {
      return Provided(known.value);
    }
    if photo.gps.Some? {
      return Exif(photo.gps.value);
    }
    var instant, read := CaptureInstant(photo, points, lookup, assumed);
    if instant.None? {
      return Nowhere;
    }
    var position := Interpolate(points, instant.value);
    if position.Some? {
      InterpolatesBetween(points, instant.value);
    }
    placement := match position case Some(at) => Interpolated(at) case None => Nowhere;
  }

  /** The placement of a photo by its wall clock alone. */
  ghost predicate OnTrack(photo: Photo, points: seq<TimedPoint>, lookup: Lookup, assumed: int -> Option<int>,
                          placement: Placement)
    requires photo.captured.Some?
  {
    var naive, offsets := photo.captured.value, Offsets(points, lookup, |points|);
    if photo.embedded.Some? then PlacedAt(points, Some(naive - photo.embedded.value), placement)
    else if exists u :: ClockReads(points, offsets, naive, u) then
      (|points| >= 2 ==> placement.Interpolated?)
      && exists u :: ReadAt(points, lookup, naive, Some(u)) && PlacedAt(points, Some(u), placement)
    else PlacedAt(points, assumed(naive), placement)
  }

  /** The placement an instant gives: where the track was, or nowhere outside its times. */
  ghost predicate PlacedAt(points: seq<TimedPoint>, instant: Option<int>, placement: Placement) {
    if instant.Some? && |points| >= 2 && points[0].time <= instant.value <= points[|points| - 1].time then
      placement.Interpolated? && exists n: nat :: n < |points| && IsAt(points, instant.value, placement.at, n)
    else placement == Nowhere
  }
}
