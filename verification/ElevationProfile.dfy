/**
  A track's elevation profile (src/server/profile.rs): elevations filled in
  where a reading is missing, and averaged over a window of track by prefix
  sums.
*/
module ElevationProfile {
  import opened Wrappers
  import opened Reals
  import opened Search
  import opened Sums

  /** The length of the averaging window, half of it on each side. */
  const INCLINE_WINDOW := 50.0

  /** A track as three lists, one element a point. */
  datatype Profile = Profile(distance: seq<real>, elevation: seq<real>, seconds: seq<Option<int>>) {
    /** As read from a stored track: as many of each, and distances that add up. */
    ghost predicate Valid() {
      |distance| == |elevation| == |seconds| && Ascending(distance)
    }
  }

  ghost predicate Ascending(s: seq<real>) {
    forall p, q :: 0 <= p <= q < |s| ==> s[p] <= s[q]
  }

  // --------------------------------------------------------------- averaging

  function WindowStart(distance: seq<real>, d: real): nat {
    PartitionPoint(distance, m => m < d - INCLINE_WINDOW / 2.0)
  }

  function WindowEnd(distance: seq<real>, d: real): nat {
    PartitionPoint(distance, m => m <= d + INCLINE_WINDOW / 2.0)
  }

  /** The window around a point holds it, and exactly the points within half a window of it. */
  lemma {:induction false} WindowExact(distance: seq<real>, i: nat)
    requires Ascending(distance) && i < |distance|
    ensures var from, to := WindowStart(distance, distance[i]), WindowEnd(distance, distance[i]);
            && from <= i < to <= |distance|
            && forall k :: 0 <= k < |distance| ==>
                 (from <= k < to <==> distance[i] - 25.0 <= distance[k] <= distance[i] + 25.0)
  {
    var from, to := WindowStart(distance, distance[i]), WindowEnd(distance, distance[i]);
    forall k | 0 <= k < |distance|
      ensures from <= k <==> distance[i] - 25.0 <= distance[k]
      ensures k < to <==> distance[k] <= distance[i] + 25.0
    {
      if from <= k { assert distance[from] <= distance[k]; }
      if to <= k { assert distance[to] <= distance[k]; }
    }
  }

  /** The mean elevation of the points within half a window of point `i`. */
  ghost function MeanAround(p: Profile, i: nat): real
    requires p.Valid() && i < |p.distance|
  {
    WindowExact(p.distance, i);
    var from, to := WindowStart(p.distance, p.distance[i]), WindowEnd(p.distance, p.distance[i]);
    Sum(p.elevation[from..to]) / (to - from) as real
  }

  ghost function Smoothed(p: Profile): (smooth: seq<real>)
    requires p.Valid()
    ensures |smooth| == |p.distance|
  {
    seq(|p.distance|, i requires 0 <= i < |p.distance| => MeanAround(p, i))
  }

  lemma {:induction false} PrefixDifference(s: seq<real>, from: nat, to: nat)
    requires from <= to <= |s|
    ensures Sum(s[..to]) - Sum(s[..from]) == Sum(s[from..to])
  {
    assert s[..to] == s[..from] + s[from..to];
    SumAppend(s[..from], s[from..to]);
  }

  method PrefixSums(s: seq<real>) returns (prefix: seq<real>)
    ensures PrefixesOf(prefix, s)
  {
    prefix := [0.0];
    for k := 0 to |s|
      invariant |prefix| == k + 1 && forall m :: 0 <= m <= k ==> prefix[m] == Sum(s[..m])
    {
      PrefixDifference(s, k, k + 1);
      assert s[k..k + 1][1..] == [];
      prefix := prefix + [prefix[k] + s[k]];
    }
  }

  ghost predicate PrefixesOf(prefix: seq<real>, s: seq<real>) {
    |prefix| == |s| + 1 && forall m :: 0 <= m <= |s| ==> prefix[m] == Sum(s[..m])
  }

  method SmoothAt(p: Profile, prefix: seq<real>, i: nat) returns (mean: real)
    requires p.Valid() && i < |p.distance| && PrefixesOf(prefix, p.elevation)
    ensures mean == MeanAround(p, i)
  {
    WindowExact(p.distance, i);
    var from, to := WindowStart(p.distance, p.distance[i]), WindowEnd(p.distance, p.distance[i]);
    PrefixDifference(p.elevation, from, to);
    mean := (prefix[to] - prefix[from]) / (to - from) as real;
  }

  /** The loop over the points: each window's mean as one difference of prefix sums. */
  method Smooth(p: Profile) returns (smooth: seq<real>)
    requires p.Valid()
    ensures smooth == Smoothed(p)
  {
    var prefix := PrefixSums(p.elevation);
    smooth := [];
    for i := 0 to |p.distance|
      invariant smooth == Smoothed(p)[..i]
    {
      var mean := SmoothAt(p, prefix, i);
      smooth := smooth + [mean];
    }
  }

  lemma {:induction false} SumBetween(s: seq<real>, low: real, high: real)
    requires forall k :: 0 <= k < |s| ==> low <= s[k] <= high
    ensures |s| as real * low <= Sum(s) <= |s| as real * high
  {
    if s != [] {
      SumBetween(s[1..], low, high);
      assert |s| as real * low == low + (|s| - 1) as real * low;
      assert |s| as real * high == high + (|s| - 1) as real * high;
    }
  }

  lemma {:induction false} MeanBetween(s: seq<real>, low: real, high: real)
    requires s != [] && forall k :: 0 <= k < |s| ==> low <= s[k] <= high
    ensures low <= Sum(s) / |s| as real <= high
  {
    SumBetween(s, low, high);
    QuotientBetween(Sum(s), |s| as real, low, high);
  }

  lemma {:induction false} WindowBetween(p: Profile, i: nat, low: real, high: real)
    requires p.Valid() && i < |p.distance|
    requires forall k :: 0 <= k < |p.distance| && p.distance[i] - 25.0 <= p.distance[k] <= p.distance[i] + 25.0
                         ==> low <= p.elevation[k] <= high
    ensures var from, to := WindowStart(p.distance, p.distance[i]), WindowEnd(p.distance, p.distance[i]);
            from < to <= |p.elevation| && forall k :: from <= k < to ==> low <= p.elevation[k] <= high
  {
    WindowExact(p.distance, i);
  }

  /** An average lies between the lowest and the highest reading within half a window. */
  lemma {:induction false} SmoothedBetween(p: Profile, i: nat, low: real, high: real)
    requires p.Valid() && i < |p.distance|
    requires forall k :: 0 <= k < |p.distance| && p.distance[i] - 25.0 <= p.distance[k] <= p.distance[i] + 25.0
                         ==> low <= p.elevation[k] <= high
    ensures low <= Smoothed(p)[i] <= high
  {
    WindowBetween(p, i, low, high);
    var from, to := WindowStart(p.distance, p.distance[i]), WindowEnd(p.distance, p.distance[i]);
    var window := p.elevation[from..to];
    forall k | 0 <= k < |window| ensures low <= window[k] <= high {
      assert window[k] == p.elevation[from + k];
    }
    MeanBetween(window, low, high);
  }

  /** The points within half a window of point `i` are those from `from` to before `to`. */
  ghost predicate WithinHalf(distance: seq<real>, i: nat, from: nat, to: nat)
    requires i < |distance|
  {
    && from < to <= |distance|
    && forall k :: 0 <= k < |distance| ==>
         (from <= k < to <==> distance[i] - 25.0 <= distance[k] <= distance[i] + 25.0)
  }

  lemma {:induction false} InBoth(distance: seq<real>, i: nat, from: nat, to: nat, k: nat)
    requires Ascending(distance) && i < |distance| && WithinHalf(distance, i, from, to) && k < |distance|
    ensures from <= k < to <==> WindowStart(distance, distance[i]) <= k < WindowEnd(distance, distance[i])
  {
    WindowExact(distance, i);
    var d := distance[k];
    assert from <= k < to <==> distance[i] - 25.0 <= d <= distance[i] + 25.0;
  }

  lemma {:induction false} WindowIsOne(distance: seq<real>, i: nat, from: nat, to: nat)
    requires Ascending(distance) && i < |distance| && WithinHalf(distance, i, from, to)
    ensures from == WindowStart(distance, distance[i]) && to == WindowEnd(distance, distance[i])
  {
    WindowExact(distance, i);
    InBoth(distance, i, from, to, from);
    InBoth(distance, i, from, to, to - 1);
    InBoth(distance, i, from, to, WindowStart(distance, distance[i]));
    InBoth(distance, i, from, to, WindowEnd(distance, distance[i]) - 1);
  }

  /** An average is the mean of exactly the readings within half a window. */
  lemma {:induction false} SmoothedIsMean(p: Profile, i: nat, from: nat, to: nat)
    requires p.Valid() && i < |p.distance| && WithinHalf(p.distance, i, from, to)
    ensures Smoothed(p)[i] == Sum(p.elevation[from..to]) / (to - from) as real
  {
    WindowIsOne(p.distance, i, from, to);
  }

  /** So far apart that each window holds one point. */
  ghost predicate FarApart(distance: seq<real>) {
    forall k :: 0 < k < |distance| ==> distance[k] >= distance[k - 1] + 100.0
  }

  /** Then averaging changes nothing. */
  lemma {:induction false} FarApartSmoothed(p: Profile, i: nat)
    requires p.Valid() && FarApart(p.distance) && i < |p.distance|
    ensures Smoothed(p)[i] == p.elevation[i]
  {
    WindowExact(p.distance, i);
    var from, to := WindowStart(p.distance, p.distance[i]), WindowEnd(p.distance, p.distance[i]);
    assert i > 0 ==> p.distance[i - 1] <= p.distance[i] - 100.0;
    assert i + 1 < |p.distance| ==> p.distance[i + 1] >= p.distance[i] + 100.0;
    assert from == i && to == i + 1;
    var window := p.elevation[from..to];
    assert window == [p.elevation[i]] && window[1..] == [];
    assert Sum(window) == p.elevation[i];
    assert Smoothed(p)[i] == MeanAround(p, i) == Sum(window) / 1.0;
  }

  // -------------------------------------------------------------- filling in

  /** The points with a real reading, in track order. */
  function RealReadings(elevation: seq<real>, n: nat): (readings: seq<int>)
    requires n <= |elevation|
  {
    if n == 0 then []
    else if elevation[n - 1] != 0.0 then RealReadings(elevation, n - 1) + [n - 1]
    else RealReadings(elevation, n - 1)
  }

  ghost predicate AreReal(elevation: seq<real>, readings: seq<int>, n: nat)
    requires n <= |elevation|
  {
    && (forall k :: 0 <= k < |readings| ==> 0 <= readings[k] < n && elevation[readings[k]] != 0.0)
    && (forall j, k :: 0 <= j < k < |readings| ==> readings[j] < readings[k])
  }

  lemma {:induction false} RealReadingsAre(elevation: seq<real>, n: nat)
    requires n <= |elevation|
    ensures AreReal(elevation, RealReadings(elevation, n), n)
  {
    if n > 0 {
      RealReadingsAre(elevation, n - 1);
      var before, readings := RealReadings(elevation, n - 1), RealReadings(elevation, n);
      forall k | 0 <= k < |readings| ensures 0 <= readings[k] < n && elevation[readings[k]] != 0.0 {
        assert k < |before| ==> readings[k] == before[k];
      }
    }
  }

  lemma {:induction false} ReadingListed(elevation: seq<real>, n: nat, i: nat) returns (k: nat)
    requires i < n <= |elevation| && elevation[i] != 0.0
    ensures k < |RealReadings(elevation, n)| && RealReadings(elevation, n)[k] == i
  {
    if i == n - 1 {
      k := |RealReadings(elevation, n - 1)|;
    } else {
      k := ReadingListed(elevation, n - 1, i);
    }
  }

  function EarlierThan(i: nat): int -> bool {
    r => r < i
  }

  /** The elevation at a point: its own reading, or one interpolated from the nearest either side. */
  function FilledAt(distance: seq<real>, elevation: seq<real>, i: nat): real
    requires |distance| == |elevation| && i < |elevation|
    requires RealReadings(elevation, |elevation|) != []
  {
    var readings := RealReadings(elevation, |elevation|);
    RealReadingsAre(elevation, |elevation|);
    if elevation[i] != 0.0 then elevation[i]
    else
      var after := PartitionPoint(readings, EarlierThan(i));
      if 0 < after < |readings| then
        var before, next := readings[after - 1], readings[after];
        var span := distance[next] - distance[before];
        var share := if span > 0.0 then (distance[i] - distance[before]) / span else 0.0;
        elevation[before] + (elevation[next] - elevation[before]) * share
      else if 0 < after then elevation[readings[after - 1]]
      else elevation[readings[0]]
  }

  /** The loop that fills the gaps between real readings. */
  function FilledIn(distance: seq<real>, elevation: seq<real>): (filled: seq<real>)
    requires |distance| == |elevation|
    ensures |filled| == |elevation|
  {
    if RealReadings(elevation, |elevation|) == [] then elevation
    else seq(|elevation|, i requires 0 <= i < |elevation| => FilledAt(distance, elevation, i))
  }

  /** No reading is real strictly between two points. */
  ghost predicate NoneBetween(elevation: seq<real>, from: int, to: int) {
    forall k :: 0 <= k < |elevation| && from < k < to ==> elevation[k] == 0.0
  }

  /** `r` lies evenly by distance between the real readings nearest `i` on either side, or on the one there is. */
  ghost predicate Bracketed(distance: seq<real>, elevation: seq<real>, i: nat, r: real, before: int, next: int)
    requires |distance| == |elevation|
  {
    && -1 <= before < i < next <= |elevation| && NoneBetween(elevation, before, next)
    && (before >= 0 ==> elevation[before] != 0.0) && (next < |elevation| ==> elevation[next] != 0.0)
    && (if before < 0 then next < |elevation| && r == elevation[next]
        else if next == |elevation| then r == elevation[before]
        else Evenly(r, elevation[before], elevation[next], distance[i] - distance[before],
                    distance[next] - distance[before]))
  }

  /**
    Filling in keeps every real reading, and puts each missing one evenly by
    distance between the readings that bracket it — at the ends of the track,
    on the nearest.
    A track without a real reading stays as it is.
  */
  lemma {:induction false} FilledInBrackets(distance: seq<real>, elevation: seq<real>, i: nat)
    requires |distance| == |elevation| && Ascending(distance) && i < |elevation|
    ensures elevation[i] != 0.0 ==> FilledIn(distance, elevation)[i] == elevation[i]
    ensures RealReadings(elevation, |elevation|) == [] ==> FilledIn(distance, elevation) == elevation
    ensures elevation[i] == 0.0 && RealReadings(elevation, |elevation|) != [] ==>
              exists before, next :: Bracketed(distance, elevation, i, FilledIn(distance, elevation)[i], before, next)
  {
    var readings := RealReadings(elevation, |elevation|);
    if elevation[i] == 0.0 && readings != [] {
      var after := PartitionPoint(readings, EarlierThan(i));
      var before, next := FilledBracketed(distance, elevation, i, after);
      assert FilledIn(distance, elevation)[i] == FilledAt(distance, elevation, i);
    }
  }

  /** There is no real reading exactly where every elevation is 0. */
  lemma {:induction false} NoReadings(elevation: seq<real>)
    ensures RealReadings(elevation, |elevation|) == [] <==> forall k :: 0 <= k < |elevation| ==> elevation[k] == 0.0
  {
    var readings := RealReadings(elevation, |elevation|);
    RealReadingsAre(elevation, |elevation|);
    forall k: nat | k < |elevation| && elevation[k] != 0.0 ensures readings != [] {
      var listed := ReadingListed(elevation, |elevation|, k);
    }
    assert readings != [] ==> elevation[readings[0]] != 0.0;
  }

  lemma {:induction false} ReadingsAround(elevation: seq<real>, i: nat, after: nat)
    requires i < |elevation| && elevation[i] == 0.0
    requires after == PartitionPoint(RealReadings(elevation, |elevation|), EarlierThan(i))
    ensures var readings := RealReadings(elevation, |elevation|);
            var before := if after > 0 then readings[after - 1] else -1;
            var next := if after < |readings| then readings[after] else |elevation|;
            && -1 <= before < i < next <= |elevation| && NoneBetween(elevation, before, next)
            && (before >= 0 ==> elevation[before] != 0.0) && (next < |elevation| ==> elevation[next] != 0.0)
  {
    var readings := RealReadings(elevation, |elevation|);
    RealReadingsAre(elevation, |elevation|);
    assert after > 0 ==> EarlierThan(i)(readings[after - 1]);
    assert after < |readings| ==> !EarlierThan(i)(readings[after]);
    forall k: nat | k < |elevation| && elevation[k] != 0.0
      ensures (0 < after && k <= readings[after - 1]) || (after < |readings| && k >= readings[after])
    {
      var m := ReadingListed(elevation, |elevation|, k);
    }
  }

  lemma {:induction false} FilledBracketed(distance: seq<real>, elevation: seq<real>, i: nat, after: nat)
    returns (before: int, next: int)
    requires |distance| == |elevation| && Ascending(distance) && i < |elevation| && elevation[i] == 0.0
    requires after == PartitionPoint(RealReadings(elevation, |elevation|), EarlierThan(i))
    requires RealReadings(elevation, |elevation|) != []
    ensures Bracketed(distance, elevation, i, FilledAt(distance, elevation, i), before, next)
  {
    var readings := RealReadings(elevation, |elevation|);
    before := if after > 0 then readings[after - 1] else -1;
    next := if after < |readings| then readings[after] else |elevation|;
    RealReadingsAre(elevation, |elevation|);
    ReadingsAround(elevation, i, after);
    if 0 < after < |readings| {
      EvenlyAlong(elevation[before], elevation[next], distance[i] - distance[before],
                  distance[next] - distance[before]);
    }
  }
}
