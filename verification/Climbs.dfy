/**
  Climbs (src/server/climbs.rs), as one scan over a track's smoothed elevations
  reports them: what each of them is, and the blocks a track falls into.
*/
module Climbs {
  import opened Wrappers
  import opened Reals
  import opened ElevationProfile
  import opened MovingTime

  /** A step up by no more than this is taken for the error of averaging. */
  const ROUNDING := 0.000001

  const TRIM_WINDOW := 200.0

  datatype ClimbRule = ClimbRule(
    minGain: real,
    minGradientPct: Option<real>,
    maxDip: real,
    maxDipShare: real,
    trimGradientPct: real,
    trimTolerance: real)

  const CYCLING := ClimbRule(30.0, Some(3.0), 10.0, 0.1, 3.0, 1000.0)
  const SKIING := ClimbRule(15.0, Some(3.0), 10.0, 0.1, 3.0, 1000.0)
  const HIKING := ClimbRule(75.0, None, 20.0, 0.1, 3.0, 3000.0)

  datatype Climb = Climb(start: real, end: real, gain: real, movingSecs: Option<int>)

  /** A rise, by the numbers of its lowest and its highest point. */
  datatype Stretch = Stretch(low: nat, high: nat)

  /** The depth of dip a rise of `gained` so far survives. */
  function Allowed(rule: ClimbRule, gained: real): real {
    var share := rule.maxDipShare * gained;
    if share > rule.maxDip then share else rule.maxDip
  }

  // ---------------------------------------------------------------- scanning

  /** The stretch the scan is on, and those it found. */
  datatype Scan = Scan(low: nat, high: nat, found: seq<Stretch>)

  /** What point `k` does to the scan. */
  function Scanned(smooth: seq<real>, rule: ClimbRule, scan: Scan, k: nat): Scan
    requires scan.low < |smooth| && scan.high < |smooth| && k < |smooth|
  {
    var top := smooth[scan.high];
    if smooth[k] > top + ROUNDING then
      scan.(high := k)
    else if top - smooth[k] > Allowed(rule, top - smooth[scan.low]) then
      Scan(k, k, scan.found + [Stretch(scan.low, scan.high)])
    else if scan.high == scan.low || smooth[k] < smooth[scan.low] then
      scan.(low := k, high := k)
    else
      scan
  }

  /** The scan over the points before `k`. */
  function ScanTo(smooth: seq<real>, rule: ClimbRule, k: nat): (scan: Scan)
    requires 0 < k <= |smooth|
    ensures scan.low <= scan.high < k
    ensures forall m :: 0 <= m < |scan.found| ==> scan.found[m].low <= scan.found[m].high < k
  {
    if k == 1 then Scan(0, 0, []) else Scanned(smooth, rule, ScanTo(smooth, rule, k - 1), k - 1)
  }

  /** Every stretch the scan comes to the end of, in track order. */
  function Stretches(smooth: seq<real>, rule: ClimbRule): (found: seq<Stretch>)
    ensures forall m :: 0 <= m < |found| ==> found[m].low <= found[m].high < |smooth|
  {
    if smooth == [] then []
    else
      var scan := ScanTo(smooth, rule, |smooth|);
      scan.found + [Stretch(scan.low, scan.high)]
  }

  // ---------------------------------------------------------------- trimming

  /** Whether the slope between two points reaches the rule's. */
  predicate IsSteep(distance: seq<real>, smooth: seq<real>, rule: ClimbRule, from: nat, to: nat)
    requires from < |distance| == |smooth| && to < |smooth|
  {
    var run := distance[to] - distance[from];
    run > 0.0 && (smooth[to] - smooth[from]) / run * 100.0 >= rule.trimGradientPct
  }

  /** The first point from `q` on that lies a window ahead of `p`, kept within the climb. */
  function AheadOf(distance: seq<real>, p: nat, q: nat, high: nat): (r: nat)
    requires p < |distance| && q <= high < |distance|
    ensures q <= r <= high
    decreases high - q
  {
    if distance[q] >= distance[p] + TRIM_WINDOW || q == high then q else AheadOf(distance, p, q + 1, high)
  }

  /** The last point from `q` back that lies a window behind `p`, kept within the climb. */
  function BehindOf(distance: seq<real>, p: nat, q: nat, low: nat): (r: nat)
    requires p < |distance| && low <= q < |distance|
    ensures low <= r <= q
  {
    if distance[q] <= distance[p] - TRIM_WINDOW || q == low then q else BehindOf(distance, p, q - 1, low)
  }

  /** The first point from `p` on, seen from the low end, where the slope is steep. */
  function SteepStart(distance: seq<real>, smooth: seq<real>, rule: ClimbRule, p: nat, high: nat): (start: Option<nat>)
    requires p <= high < |distance| == |smooth|
    ensures start.Some? ==> p <= start.value < high
    decreases high - p
  {
    if p == high then None
    else if IsSteep(distance, smooth, rule, p, AheadOf(distance, p, p, high)) then Some(p)
    else SteepStart(distance, smooth, rule, p + 1, high)
  }

  /** The first point from `p` back, seen from the high end, where the slope up to it is steep. */
  function SteepEnd(distance: seq<real>, smooth: seq<real>, rule: ClimbRule, after: nat, p: nat, low: nat)
    : (end: Option<nat>)
    requires low <= after <= p < |distance| == |smooth|
    ensures end.Some? ==> after < end.value <= p
  {
    if p == after then None
    else if IsSteep(distance, smooth, rule, BehindOf(distance, p, p, low), p) then Some(p)
    else SteepEnd(distance, smooth, rule, after, p - 1, low)
  }

  /** What is left of a stretch after each end that is gentle for too long is dropped; none if nothing is. */
  function Trimmed(distance: seq<real>, smooth: seq<real>, rule: ClimbRule, s: Stretch): (trimmed: Option<Stretch>)
    requires s.low <= s.high < |distance| == |smooth|
    ensures trimmed.Some? ==> s.low <= trimmed.value.low < trimmed.value.high <= s.high
  {
    match SteepStart(distance, smooth, rule, s.low, s.high)
    case None => None
    case Some(start) =>
      var low := if distance[start] - distance[s.low] > rule.trimTolerance then start else s.low;
      match SteepEnd(distance, smooth, rule, low, s.high, s.low)
      case None => None
      case Some(end) =>
        var high := if distance[s.high] - distance[end] > rule.trimTolerance then end else s.high;
        if low < high then Some(Stretch(low, high)) else None
  }

  /** Point `r` is where the window from `p` on ends: the first a window ahead, or else the high end. */
  ghost predicate WindowAhead(distance: seq<real>, p: nat, high: nat, r: nat)
    requires p <= high < |distance|
  {
    && p <= r <= high && (forall k :: p <= k < r ==> distance[k] < distance[p] + 200.0)
    && (distance[r] >= distance[p] + 200.0 || r == high)
  }

  /** Point `r` is where the window back from `p` ends: the first a window behind, or else the low end. */
  ghost predicate WindowBehind(distance: seq<real>, low: nat, p: nat, r: nat)
    requires low <= p < |distance|
  {
    && low <= r <= p && (forall k :: r < k <= p ==> distance[k] > distance[p] - 200.0)
    && (distance[r] <= distance[p] - 200.0 || r == low)
  }

  /** So many metres are gained that it comes to at least `percent` of the way. */
  ghost predicate Percent(gained: real, way: real, percent: real) {
    way > 0.0 && gained * 100.0 >= percent * way
  }

  lemma {:induction false} PercentIs(gained: real, way: real, percent: real)
    requires way > 0.0
    ensures gained / way * 100.0 >= percent <==> Percent(gained, way, percent)
  {
    var q := gained / way;
    assert q * way == gained;
    var gap := q * 100.0 - percent;
    assert gap * way == gained * 100.0 - percent * way;
    if gap >= 0.0 { ProductNonNegative(gap, way); } else { ProductPositive(-gap, way); }
  }

  ghost predicate SteepTo(distance: seq<real>, smooth: seq<real>, rule: ClimbRule, from: nat, to: nat)
    requires from < |distance| == |smooth| && to < |smooth|
  {
    Percent(smooth[to] - smooth[from], distance[to] - distance[from], rule.trimGradientPct)
  }

  lemma {:induction false} SteepToIs(distance: seq<real>, smooth: seq<real>, rule: ClimbRule, from: nat, to: nat)
    requires from < |distance| == |smooth| && to < |smooth|
    ensures IsSteep(distance, smooth, rule, from, to) <==> SteepTo(distance, smooth, rule, from, to)
  {
    if distance[to] - distance[from] > 0.0 {
      PercentIs(smooth[to] - smooth[from], distance[to] - distance[from], rule.trimGradientPct);
    }
  }

  ghost predicate SteepAhead(distance: seq<real>, smooth: seq<real>, rule: ClimbRule, p: nat, high: nat)
    requires p <= high < |distance| == |smooth|
  {
    exists r: nat :: WindowAhead(distance, p, high, r) && SteepTo(distance, smooth, rule, p, r)
  }

  ghost predicate SteepBehind(distance: seq<real>, smooth: seq<real>, rule: ClimbRule, low: nat, p: nat)
    requires low <= p < |distance| == |smooth|
  {
    exists r: nat :: WindowBehind(distance, low, p, r) && SteepTo(distance, smooth, rule, r, p)
  }

  /** Point `p` is where the climb, seen from its low end, first gets steep over the window ahead. */
  ghost predicate FirstSteep(distance: seq<real>, smooth: seq<real>, rule: ClimbRule, s: Stretch, p: nat)
    requires s.low <= s.high < |distance| == |smooth|
  {
    && s.low <= p < s.high && SteepAhead(distance, smooth, rule, p, s.high)
    && forall k :: s.low <= k < p ==> !SteepAhead(distance, smooth, rule, k, s.high)
  }

  /** Point `p` is where, seen from its high end and back to point `after`, it last was steep over the window behind. */
  ghost predicate LastSteep(distance: seq<real>, smooth: seq<real>, rule: ClimbRule, s: Stretch, after: nat, p: nat)
    requires s.low <= after <= s.high < |distance| == |smooth|
  {
    && after < p <= s.high && SteepBehind(distance, smooth, rule, s.low, p)
    && forall k :: p < k <= s.high ==> !SteepBehind(distance, smooth, rule, s.low, k)
  }

  lemma {:induction false} AheadIs(distance: seq<real>, p: nat, q: nat, high: nat)
    requires p <= q <= high < |distance|
    requires forall k :: p <= k < q ==> distance[k] < distance[p] + TRIM_WINDOW
    ensures WindowAhead(distance, p, high, AheadOf(distance, p, q, high))
    decreases high - q
  {
    if !(distance[q] >= distance[p] + TRIM_WINDOW || q == high) {
      AheadIs(distance, p, q + 1, high);
    }
  }

  lemma {:induction false} BehindIs(distance: seq<real>, p: nat, q: nat, low: nat)
    requires low <= q <= p < |distance|
    requires forall k :: q < k <= p ==> distance[k] > distance[p] - TRIM_WINDOW
    ensures WindowBehind(distance, low, p, BehindOf(distance, p, q, low))
  {
    if !(distance[q] <= distance[p] - TRIM_WINDOW || q == low) {
      BehindIs(distance, p, q - 1, low);
    }
  }

  lemma {:induction false} SteepAheadIs(distance: seq<real>, smooth: seq<real>, rule: ClimbRule, p: nat, high: nat)
    requires p <= high < |distance| == |smooth|
    ensures SteepAhead(distance, smooth, rule, p, high)
       <==> IsSteep(distance, smooth, rule, p, AheadOf(distance, p, p, high))
  {
    AheadIs(distance, p, p, high);
    SteepToIs(distance, smooth, rule, p, AheadOf(distance, p, p, high));
    forall r: nat | WindowAhead(distance, p, high, r) ensures r == AheadOf(distance, p, p, high) {
    }
  }

  lemma {:induction false} SteepBehindIs(distance: seq<real>, smooth: seq<real>, rule: ClimbRule, low: nat, p: nat)
    requires low <= p < |distance| == |smooth|
    ensures SteepBehind(distance, smooth, rule, low, p)
       <==> IsSteep(distance, smooth, rule, BehindOf(distance, p, p, low), p)
  {
    BehindIs(distance, p, p, low);
    SteepToIs(distance, smooth, rule, BehindOf(distance, p, p, low), p);
    forall r: nat | WindowBehind(distance, low, p, r) ensures r == BehindOf(distance, p, p, low) {
    }
  }

  lemma {:induction false} SteepStartIs(distance: seq<real>, smooth: seq<real>, rule: ClimbRule, p: nat, high: nat)
    requires p <= high < |distance| == |smooth|
    ensures match SteepStart(distance, smooth, rule, p, high)
            case Some(start) => FirstSteep(distance, smooth, rule, Stretch(p, high), start)
            case None => forall k :: p <= k < high ==> !SteepAhead(distance, smooth, rule, k, high)
    decreases high - p
  {
    SteepAheadIs(distance, smooth, rule, p, high);
    if p < high && !SteepAhead(distance, smooth, rule, p, high) {
      SteepStartIs(distance, smooth, rule, p + 1, high);
    }
  }

  lemma {:induction false} SteepEndIs(distance: seq<real>, smooth: seq<real>, rule: ClimbRule, after: nat, p: nat,
                                      low: nat)
    requires low <= after <= p < |distance| == |smooth|
    ensures match SteepEnd(distance, smooth, rule, after, p, low)
            case Some(end) => LastSteep(distance, smooth, rule, Stretch(low, p), after, end)
            case None => forall k :: after < k <= p ==> !SteepBehind(distance, smooth, rule, low, k)
  {
    SteepBehindIs(distance, smooth, rule, low, p);
    if after < p && !SteepBehind(distance, smooth, rule, low, p) {
      SteepEndIs(distance, smooth, rule, after, p - 1, low);
    }
  }

  /** Of `s` all but `t` is cut: each end where it is steep, if its gentle part is longer than the tolerance. */
  ghost predicate CutsAt(distance: seq<real>, smooth: seq<real>, rule: ClimbRule, s: Stretch, t: Stretch, start: nat,
                         end: nat)
    requires s.low <= s.high < |distance| == |smooth|
  {
    && s.low <= t.low < t.high <= s.high
    && FirstSteep(distance, smooth, rule, s, start) && LastSteep(distance, smooth, rule, s, t.low, end)
    && t.low == (if distance[start] - distance[s.low] > rule.trimTolerance then start else s.low)
    && t.high == (if distance[s.high] - distance[end] > rule.trimTolerance then end else s.high)
  }

  /**
    Which ends are cut, and where: the low end, at the first point from which
    it is steep, exactly where that lies beyond the tolerance; then the high
    end likewise. Nothing is left of a stretch that is steep nowhere.
  */
  lemma {:induction false} TrimmedExactly(distance: seq<real>, smooth: seq<real>, rule: ClimbRule, s: Stretch,
                                          t: Stretch)
    requires s.low <= s.high < |distance| == |smooth|
    ensures Trimmed(distance, smooth, rule, s) == Some(t)
       <==> exists start: nat, end: nat :: CutsAt(distance, smooth, rule, s, t, start, end)
  {
    if Trimmed(distance, smooth, rule, s) == Some(t) {
      var start := SteepStart(distance, smooth, rule, s.low, s.high).value;
      var end := SteepEnd(distance, smooth, rule, t.low, s.high, s.low).value;
      SteepStartIs(distance, smooth, rule, s.low, s.high);
      SteepEndIs(distance, smooth, rule, t.low, s.high, s.low);
      assert CutsAt(distance, smooth, rule, s, t, start, end);
    }
    if start: nat, end: nat :| CutsAt(distance, smooth, rule, s, t, start, end) {
      CutsTrimmed(distance, smooth, rule, s, t, start, end);
    }
  }

  lemma {:induction false} CutsTrimmed(distance: seq<real>, smooth: seq<real>, rule: ClimbRule, s: Stretch, t: Stretch,
                                       start: nat, end: nat)
    requires s.low <= s.high < |distance| == |smooth| && CutsAt(distance, smooth, rule, s, t, start, end)
    ensures Trimmed(distance, smooth, rule, s) == Some(t)
  {
    SteepStartIs(distance, smooth, rule, s.low, s.high);
    SteepEndIs(distance, smooth, rule, t.low, s.high, s.low);
    assert SteepStart(distance, smooth, rule, s.low, s.high) == Some(start);
    assert SteepEnd(distance, smooth, rule, t.low, s.high, s.low) == Some(end);
  }

  /** The rises between consecutive points from `from` to `to`, added up. */
  function Rises(smooth: seq<real>, from: nat, to: nat): real
    requires to < |smooth|
  {
    if to <= from then 0.0
    else
      var rise := smooth[to] - smooth[to - 1];
      Rises(smooth, from, to - 1) + if rise > 0.0 then rise else 0.0
  }

  function SecsOption(moving: Option<Moving>): Option<int> {
    match moving case Some(m) => Some(m.secs) case None => None
  }

  /** The climb reported for a stretch, if one is. */
  function ClimbOf(p: Profile, smooth: seq<real>, steps: seq<Option<Step>>, rule: ClimbRule, s: Stretch): Option<Climb>
    requires s.low <= s.high < |p.distance| == |smooth| && |steps| < |p.distance|
  {
    match Trimmed(p.distance, smooth, rule, s)
    case None => None
    case Some(t) =>
      var net, length := smooth[t.high] - smooth[t.low], p.distance[t.high] - p.distance[t.low];
      if length <= 0.0 || net < rule.minGain
         || (rule.minGradientPct.Some? && net / length * 100.0 < rule.minGradientPct.value) then None
      else
        var moving := SumOf(p, steps, t.low, t.high);
        Some(Climb(p.distance[t.low], p.distance[t.high], Rises(smooth, t.low, t.high), SecsOption(moving)))
  }

  /** The climb a stretch is, if it is one. */
  function Found(p: Profile, smooth: seq<real>, steps: seq<Option<Step>>, rule: ClimbRule, s: Stretch): seq<Climb>
    requires s.low <= s.high < |p.distance| == |smooth| && |steps| < |p.distance|
  {
    match ClimbOf(p, smooth, steps, rule, s)
    case Some(climb) => [climb]
    case None => []
  }

  /** The climbs among some stretches, in their order. */
  function ClimbsOf(p: Profile, smooth: seq<real>, steps: seq<Option<Step>>, rule: ClimbRule, stretches: seq<Stretch>)
    : seq<Climb>
    requires |p.distance| == |smooth| && |steps| < |p.distance|
    requires forall k :: 0 <= k < |stretches| ==> stretches[k].low <= stretches[k].high < |smooth|
  {
    if stretches == [] then []
    else
      ClimbsOf(p, smooth, steps, rule, stretches[..|stretches| - 1])
      + Found(p, smooth, steps, rule, stretches[|stretches| - 1])
  }

  // --------------------------------------------------------- what a scan keeps

  /** The lowest point of a stretch is its first, the highest its last, and no dip within is deeper than allowed. */
  ghost predicate Rising(smooth: seq<real>, rule: ClimbRule, s: Stretch)
    requires s.low <= s.high < |smooth|
  {
    && (forall j :: s.low <= j <= s.high ==> smooth[s.low] <= smooth[j])
    && (forall j :: s.low <= j < s.high ==> smooth[j] < smooth[s.high])
    && DipsAllowed(smooth, rule, s.low, s.high + 1)
  }

  /** From `low` to before `k` no point falls below the highest one before it by more than is allowed. */
  ghost predicate DipsAllowed(smooth: seq<real>, rule: ClimbRule, low: nat, k: nat)
    requires k <= |smooth|
  {
    forall p, q :: low <= p < q < k && HighestBefore(smooth, low, p, q)
                   ==> smooth[p] - smooth[q] <= Allowed(rule, smooth[p] - smooth[low]) + ROUNDING
  }

  /** No point from `low` to before `q` is higher than `p`. */
  ghost predicate HighestBefore(smooth: seq<real>, low: nat, p: nat, q: nat)
    requires p < |smooth| && q <= |smooth|
  {
    forall r :: low <= r < q ==> smooth[r] <= smooth[p]
  }

  ghost predicate Scans(smooth: seq<real>, rule: ClimbRule, scan: Scan, k: nat)
    requires k <= |smooth|
  {
    && scan.low <= scan.high < k
    && Rising(smooth, rule, Stretch(scan.low, scan.high))
    && (forall j :: scan.high < j < k ==> smooth[scan.low] <= smooth[j] <= smooth[scan.high] + ROUNDING)
    && DipsAllowed(smooth, rule, scan.low, k)
    && InTrackOrder(scan.found, scan.low)
    && (forall m :: 0 <= m < |scan.found| ==> scan.found[m].high < k && Rising(smooth, rule, scan.found[m]))
  }

  /** Stretches one after another, none of them overlapping, all before `end`. */
  ghost predicate InTrackOrder(found: seq<Stretch>, end: nat) {
    && (forall m :: 0 <= m < |found| ==> found[m].low <= found[m].high < end)
    && (forall m, n :: 0 <= m < n < |found| ==> found[m].high < found[n].low)
  }

  /** Dips are allowed by no less than nothing, and by no more than what was climbed or the fixed dip. */
  ghost predicate Sensible(rule: ClimbRule) {
    rule.maxDip >= 0.0 && 0.0 <= rule.maxDipShare <= 1.0
  }

  lemma {:induction false} AllowedMonotone(rule: ClimbRule, a: real, b: real)
    requires Sensible(rule) && a <= b
    ensures 0.0 <= Allowed(rule, a) <= Allowed(rule, b)
  {
    ProductNonNegative(rule.maxDipShare, b - a);
    assert rule.maxDipShare * (b - a) == rule.maxDipShare * b - rule.maxDipShare * a;
  }

  /** A dip the scan lets pass is one the highest point so far allows. */
  lemma {:induction false} DipAllowed(smooth: seq<real>, rule: ClimbRule, scan: Scan, k: nat, p: nat)
    requires Sensible(rule) && k < |smooth| && Scans(smooth, rule, scan, k)
    requires smooth[k] > smooth[scan.high] + ROUNDING
          || smooth[scan.high] - smooth[k] <= Allowed(rule, smooth[scan.high] - smooth[scan.low])
    requires scan.low <= p < k && HighestBefore(smooth, scan.low, p, k)
    ensures smooth[p] - smooth[k] <= Allowed(rule, smooth[p] - smooth[scan.low]) + ROUNDING
  {
    var low, top, here := smooth[scan.low], smooth[scan.high], smooth[p];
    assert top <= here <= top + ROUNDING;
    AllowedMonotone(rule, top - low, here - low);
  }

  /** Starting over at a point, with the stretches found so far. */
  lemma {:induction false} StartsOver(smooth: seq<real>, rule: ClimbRule, found: seq<Stretch>, k: nat)
    requires Sensible(rule) && k < |smooth|
    requires InTrackOrder(found, k)
    requires forall m :: 0 <= m < |found| ==> found[m].high < |smooth| && Rising(smooth, rule, found[m])
    ensures Scans(smooth, rule, Scan(k, k, found), k + 1)
  {
  }

  lemma {:induction false} DipsGoOn(smooth: seq<real>, rule: ClimbRule, scan: Scan, k: nat)
    requires Sensible(rule) && k < |smooth| && Scans(smooth, rule, scan, k)
    requires smooth[k] > smooth[scan.high] + ROUNDING
          || smooth[scan.high] - smooth[k] <= Allowed(rule, smooth[scan.high] - smooth[scan.low])
    ensures DipsAllowed(smooth, rule, scan.low, k + 1)
  {
    forall p, q | scan.low <= p < q < k + 1 && HighestBefore(smooth, scan.low, p, q)
      ensures smooth[p] - smooth[q] <= Allowed(rule, smooth[p] - smooth[scan.low]) + ROUNDING
    {
      if q == k { DipAllowed(smooth, rule, scan, k, p); }
    }
  }

  lemma {:induction false} MovesTopOn(smooth: seq<real>, rule: ClimbRule, scan: Scan, k: nat)
    requires Sensible(rule) && k < |smooth| && Scans(smooth, rule, scan, k)
    requires smooth[k] > smooth[scan.high] + ROUNDING
    ensures Scans(smooth, rule, scan.(high := k), k + 1)
  {
    DipsGoOn(smooth, rule, scan, k);
  }

  lemma {:induction false} StaysOn(smooth: seq<real>, rule: ClimbRule, scan: Scan, k: nat)
    requires Sensible(rule) && k < |smooth| && Scans(smooth, rule, scan, k)
    requires smooth[scan.low] <= smooth[k] <= smooth[scan.high] + ROUNDING
    requires smooth[scan.high] - smooth[k] <= Allowed(rule, smooth[scan.high] - smooth[scan.low])
    ensures Scans(smooth, rule, scan, k + 1)
  {
    DipsGoOn(smooth, rule, scan, k);
  }

  lemma {:induction false} ScanKeeps(smooth: seq<real>, rule: ClimbRule, scan: Scan, k: nat)
    requires Sensible(rule) && k < |smooth| && Scans(smooth, rule, scan, k)
    ensures Scans(smooth, rule, Scanned(smooth, rule, scan, k), k + 1)
  {
    var next := Scanned(smooth, rule, scan, k);
    if next.low != scan.low {
      StartsOver(smooth, rule, next.found, k);
    } else if next.high != scan.high {
      MovesTopOn(smooth, rule, scan, k);
    } else {
      StaysOn(smooth, rule, scan, k);
    }
  }

  lemma {:induction false} ScanToKeeps(smooth: seq<real>, rule: ClimbRule, k: nat)
    requires Sensible(rule) && 0 < k <= |smooth|
    ensures Scans(smooth, rule, ScanTo(smooth, rule, k), k)
  {
    if k == 1 {
      assert ScanTo(smooth, rule, 1) == Scan(0, 0, []);
    } else {
      var m, before := k - 1, ScanTo(smooth, rule, k - 1);
      ScanToKeeps(smooth, rule, m);
      ScanKeeps(smooth, rule, before, m);
      assert ScanTo(smooth, rule, k) == Scanned(smooth, rule, before, m);
    }
  }

  /**
    The stretches a scan finds are disjoint and in track order; each runs from
    its lowest to its highest point, and nowhere in it does the elevation fall
    below the highest point so far by more than is allowed.
  */
  lemma {:induction false} StretchesRise(smooth: seq<real>, rule: ClimbRule)
    requires Sensible(rule)
    ensures InTrackOrder(Stretches(smooth, rule), |smooth|)
    ensures forall m :: 0 <= m < |Stretches(smooth, rule)| ==>
              var s := Stretches(smooth, rule)[m]; s.low <= s.high < |smooth| && Rising(smooth, rule, s)
  {
    if smooth != [] {
      ScanToKeeps(smooth, rule, |smooth|);
    }
  }

  // ------------------------------------------------------ nothing is lost

  /** Between them, the points from `from` to `to` rise by less than a dip. */
  ghost predicate RisesLittle(smooth: seq<real>, rule: ClimbRule, from: nat, to: nat)
    requires to <= |smooth|
  {
    forall p, q :: from <= p < q < to ==> smooth[q] - smooth[p] <= rule.maxDip + ROUNDING
  }

  /** A stretch of the track the scan went over: one it found, up to its top and down from there, or one it gave up. */
  datatype Block = Block(from: nat, top: nat, to: nat, found: bool)

  /** Blocks one after another, from the start up to point `k`. */
  ghost predicate Contiguous(blocks: seq<Block>, k: nat) {
    && (forall b :: 0 <= b < |blocks| ==> blocks[b].from <= blocks[b].top < blocks[b].to)
    && (forall b :: 0 < b < |blocks| ==> blocks[b].from == blocks[b - 1].to)
    && (if blocks == [] then k == 0 else blocks[0].from == 0 && blocks[|blocks| - 1].to == k)
  }

  function StretchesOf(blocks: seq<Block>): seq<Stretch> {
    if blocks == [] then []
    else
      var last := blocks[|blocks| - 1];
      StretchesOf(blocks[..|blocks| - 1]) + if last.found then [Stretch(last.from, last.top)] else []
  }

  /** How far a block found rises. */
  function Gain(smooth: seq<real>, block: Block): real
    requires block.from <= block.top < |smooth|
  {
    smooth[block.top] - smooth[block.from]
  }

  /** A block goes no lower than its start, no higher than its top, and down on the way no farther than allowed. */
  ghost predicate Holding(smooth: seq<real>, rule: ClimbRule, block: Block)
    requires block.from <= block.top < block.to <= |smooth|
  {
    && (forall j :: block.from <= j < block.to ==> smooth[block.from] <= smooth[j] <= smooth[block.top] + ROUNDING)
    && (forall j :: block.top <= j < block.to
                    ==> smooth[block.top] - smooth[j] <= Allowed(rule, Gain(smooth, block)))
  }

  /** A block found ends where the track does, or at the first point that fell by more than is allowed. */
  ghost predicate FoundBlock(smooth: seq<real>, rule: ClimbRule, block: Block)
    requires block.from <= block.top < block.to <= |smooth|
  {
    && Holding(smooth, rule, block)
    && (block.to == |smooth| || smooth[block.top] - smooth[block.to] > Allowed(rule, Gain(smooth, block)))
  }

  /** A block given up ends at a point lower than all of it, or is one point the next does not really rise from. */
  ghost predicate GivenUp(smooth: seq<real>, rule: ClimbRule, block: Block)
    requires block.from <= block.top < block.to <= |smooth|
  {
    && RisesLittle(smooth, rule, block.from, block.to) && block.to < |smooth|
    && ((forall j :: block.from <= j < block.to ==> smooth[block.to] < smooth[j])
        || (block.to == block.from + 1 && smooth[block.to] <= smooth[block.from] + ROUNDING))
  }

  ghost predicate Justified(smooth: seq<real>, rule: ClimbRule, block: Block)
    requires block.from <= block.top < block.to <= |smooth|
  {
    if block.found then FoundBlock(smooth, rule, block) else GivenUp(smooth, rule, block)
  }

  /** The blocks cover the points up to `k` without a gap, and the stretches found are those of the blocks found. */
  ghost predicate Blocks(smooth: seq<real>, rule: ClimbRule, blocks: seq<Block>, found: seq<Stretch>, k: nat)
  {
    && Contiguous(blocks, k) && StretchesOf(blocks) == found
    && forall b :: 0 <= b < |blocks| ==> blocks[b].to <= |smooth| && Justified(smooth, rule, blocks[b])
  }

  lemma {:induction false} NextContiguous(blocks: seq<Block>, block: Block)
    requires block.from <= block.top < block.to && Contiguous(blocks, block.from)
    ensures Contiguous(blocks + [block], block.to)
  {
  }

  lemma {:induction false} NextBlock(smooth: seq<real>, rule: ClimbRule, blocks: seq<Block>, found: seq<Stretch>,
                                     block: Block)
    requires block.from <= block.top < block.to <= |smooth| && Blocks(smooth, rule, blocks, found, block.from)
    requires Justified(smooth, rule, block)
    ensures Blocks(smooth, rule, blocks + [block],
                   if block.found then found + [Stretch(block.from, block.top)] else found, block.to)
  {
    NextContiguous(blocks, block);
    assert (blocks + [block])[..|blocks|] == blocks;
    forall b | 0 <= b < |blocks| + 1
      ensures (blocks + [block])[b].to <= |smooth| && Justified(smooth, rule, (blocks + [block])[b])
    {
      assert b < |blocks| ==> Justified(smooth, rule, blocks[b]);
    }
  }

  /** Falling by more than was gained is allowed only below the fixed dip. */
  lemma {:induction false} GainedLittle(rule: ClimbRule, gained: real, fall: real)
    requires Sensible(rule) && 0.0 <= gained < fall <= Allowed(rule, gained)
    ensures gained < rule.maxDip
  {
    calc {
      gained - rule.maxDipShare * gained;
      (1.0 - rule.maxDipShare) * gained;
    >= { ProductNonNegative(1.0 - rule.maxDipShare, gained); }
      0.0;
    }
  }

  lemma {:induction false} GivenUpRisesLittle(smooth: seq<real>, rule: ClimbRule, scan: Scan, k: nat)
    requires Sensible(rule) && k < |smooth| && Scans(smooth, rule, scan, k)
    requires smooth[scan.high] - smooth[k] <= Allowed(rule, smooth[scan.high] - smooth[scan.low])
    requires scan.high == scan.low || smooth[k] < smooth[scan.low]
    ensures RisesLittle(smooth, rule, scan.low, k)
  {
    if scan.high > scan.low {
      GainedLittle(rule, smooth[scan.high] - smooth[scan.low], smooth[scan.high] - smooth[k]);
    }
    forall p, q | scan.low <= p < q < k
      ensures smooth[q] - smooth[p] <= rule.maxDip + ROUNDING
    {
      assert smooth[scan.low] <= smooth[p] && smooth[q] <= smooth[scan.high] + ROUNDING;
    }
  }

  /** From its top the scan has gone down no farther than allowed. */
  ghost predicate Fallen(smooth: seq<real>, rule: ClimbRule, scan: Scan, k: nat)
    requires scan.low < |smooth| && scan.high < |smooth| && k <= |smooth|
  {
    forall j :: scan.high <= j < k
                ==> smooth[scan.high] - smooth[j] <= Allowed(rule, smooth[scan.high] - smooth[scan.low])
  }

  ghost predicate Underway(smooth: seq<real>, rule: ClimbRule, scan: Scan, k: nat)
    requires k <= |smooth|
  {
    && Scans(smooth, rule, scan, k) && Fallen(smooth, rule, scan, k)
    && (scan.high == scan.low ==> k == scan.low + 1)
  }

  lemma {:induction false} UnderwayHolds(smooth: seq<real>, rule: ClimbRule, scan: Scan, k: nat, found: bool)
    requires k <= |smooth| && Underway(smooth, rule, scan, k)
    ensures Holding(smooth, rule, Block(scan.low, scan.high, k, found))
  {
  }

  lemma {:induction false} StepFallen(smooth: seq<real>, rule: ClimbRule, scan: Scan, k: nat)
    requires Sensible(rule) && scan.low <= scan.high < k < |smooth| && Fallen(smooth, rule, scan, k)
    requires smooth[scan.low] <= smooth[scan.high]
    ensures Fallen(smooth, rule, Scanned(smooth, rule, scan, k), k + 1)
  {
    AllowedMonotone(rule, 0.0, 0.0);
    if smooth[k] > smooth[scan.high] + ROUNDING {
      AllowedMonotone(rule, 0.0, smooth[k] - smooth[scan.low]);
    }
  }

  lemma {:induction false} StepUnderway(smooth: seq<real>, rule: ClimbRule, scan: Scan, k: nat)
    requires Sensible(rule) && k < |smooth| && Underway(smooth, rule, scan, k)
    ensures Underway(smooth, rule, Scanned(smooth, rule, scan, k), k + 1)
  {
    ScanKeeps(smooth, rule, scan, k);
    StepFallen(smooth, rule, scan, k);
  }

  lemma {:induction false} ScanUnderway(smooth: seq<real>, rule: ClimbRule, k: nat)
    requires Sensible(rule) && 0 < k <= |smooth|
    ensures Underway(smooth, rule, ScanTo(smooth, rule, k), k)
  {
    if k == 1 {
      AllowedMonotone(rule, 0.0, 0.0);
    } else {
      ScanUnderway(smooth, rule, k - 1);
      StepUnderway(smooth, rule, ScanTo(smooth, rule, k - 1), k - 1);
    }
  }

  lemma {:induction false} ScanBlocks(smooth: seq<real>, rule: ClimbRule, k: nat) returns (blocks: seq<Block>)
    requires Sensible(rule) && 0 < k <= |smooth|
    ensures var scan := ScanTo(smooth, rule, k); Blocks(smooth, rule, blocks, scan.found, scan.low)
  {
    if k == 1 {
      blocks := [];
    } else {
      blocks := ScanBlocks(smooth, rule, k - 1);
      ScanUnderway(smooth, rule, k - 1);
      blocks := StepBlocks(smooth, rule, ScanTo(smooth, rule, k - 1), k - 1, blocks);
    }
  }

  lemma {:induction false} BlockGivenUp(smooth: seq<real>, rule: ClimbRule, scan: Scan, k: nat)
    requires Sensible(rule) && k < |smooth| && Underway(smooth, rule, scan, k)
    requires smooth[k] <= smooth[scan.high] + ROUNDING
    requires smooth[scan.high] - smooth[k] <= Allowed(rule, smooth[scan.high] - smooth[scan.low])
    requires scan.high == scan.low || smooth[k] < smooth[scan.low]
    ensures GivenUp(smooth, rule, Block(scan.low, scan.high, k, false))
  {
    GivenUpRisesLittle(smooth, rule, scan, k);
  }

  lemma {:induction false} StepBlocks(smooth: seq<real>, rule: ClimbRule, scan: Scan, k: nat, blocks: seq<Block>)
    returns (next: seq<Block>)
    requires Sensible(rule) && k < |smooth| && Underway(smooth, rule, scan, k)
    requires Blocks(smooth, rule, blocks, scan.found, scan.low)
    ensures var after := Scanned(smooth, rule, scan, k); Blocks(smooth, rule, next, after.found, after.low)
  {
    var after := Scanned(smooth, rule, scan, k);
    next := blocks;
    if after.found != scan.found {
      next := blocks + [Block(scan.low, scan.high, k, true)];
      UnderwayHolds(smooth, rule, scan, k, true);
      NextBlock(smooth, rule, blocks, scan.found, Block(scan.low, scan.high, k, true));
    } else if after.low != scan.low {
      next := blocks + [Block(scan.low, scan.high, k, false)];
      BlockGivenUp(smooth, rule, scan, k);
      NextBlock(smooth, rule, blocks, scan.found, Block(scan.low, scan.high, k, false));
    }
  }

  /**
    The track falls into blocks: one for each stretch found, in order, which
    runs on from its top until the track falls by more than is allowed or
    ends, and ones given up, in which nothing rises by more than a dip.
  */
  lemma {:induction false} NothingLost(smooth: seq<real>, rule: ClimbRule) returns (blocks: seq<Block>)
    requires Sensible(rule)
    ensures Blocks(smooth, rule, blocks, Stretches(smooth, rule), |smooth|)
  {
    blocks := [];
    if smooth != [] {
      var scan, found := ScanTo(smooth, rule, |smooth|), Stretches(smooth, rule);
      blocks := ScanBlocks(smooth, rule, |smooth|);
      ScanUnderway(smooth, rule, |smooth|);
      var last := Block(scan.low, scan.high, |smooth|, true);
      UnderwayHolds(smooth, rule, scan, |smooth|, true);
      NextBlock(smooth, rule, blocks, scan.found, last);
      blocks := blocks + [last];
    }
  }

  // ------------------------------------------------------------------ finding

  /** What a profile is reported to have: the climbs of its stretches, one after another. */
  ghost function ClimbsIn(p: Profile, rule: ClimbRule, minSpeedKmh: real): seq<Climb>
    requires p.Valid()
  {
    if p.distance == [] then []
    else ClimbsOf(p, Smoothed(p), StepsOf(p, minSpeedKmh), rule, Stretches(Smoothed(p), rule))
  }

  lemma {:induction false} ClimbsAppend(p: Profile, smooth: seq<real>, steps: seq<Option<Step>>, rule: ClimbRule,
                                        found: seq<Stretch>, s: Stretch)
    requires |p.distance| == |smooth| && |steps| < |p.distance|
    requires forall k :: 0 <= k < |found| ==> found[k].low <= found[k].high < |smooth|
    requires s.low <= s.high < |smooth|
    ensures ClimbsOf(p, smooth, steps, rule, found + [s])
         == ClimbsOf(p, smooth, steps, rule, found) + Found(p, smooth, steps, rule, s)
  {
    assert (found + [s])[..|found|] == found;
  }

  /** The climbs of a profile, in one pass over its points. */
  method Find(p: Profile, rule: ClimbRule, minSpeedKmh: real) returns (climbs: seq<Climb>)
    requires p.Valid()
    ensures climbs == ClimbsIn(p, rule, minSpeedKmh)
  {
    var smooth := Smooth(p);
    var steps := Steps(p, minSpeedKmh);
    if |smooth| == 0 {
      return [];
    }
    var low, high;
    climbs, low, high := ScanPoints(p, smooth, steps, rule);
    ClimbsAppend(p, smooth, steps, rule, ScanTo(smooth, rule, |smooth|).found, Stretch(low, high));
    climbs := climbs + Found(p, smooth, steps, rule, Stretch(low, high));
  }

  lemma {:induction false} ScanToNext(smooth: seq<real>, rule: ClimbRule, k: nat)
    requires 0 < k < |smooth|
    ensures ScanTo(smooth, rule, k + 1) == Scanned(smooth, rule, ScanTo(smooth, rule, k), k)
  {
  }

  /** Where point `k` leaves the scan, and whether it ends the stretch it was on. */
  method ScanPoint(smooth: seq<real>, rule: ClimbRule, low: nat, high: nat, ghost found: seq<Stretch>, k: nat)
    returns (nextLow: nat, nextHigh: nat, ended: bool)
    requires low <= high < k < |smooth|
    ensures Scanned(smooth, rule, Scan(low, high, found), k)
         == Scan(nextLow, nextHigh, if ended then found + [Stretch(low, high)] else found)
  {
    nextLow, nextHigh, ended := low, high, false;
    var gained := smooth[high] - smooth[low];
    var allowed := Allowed(rule, gained);
    if smooth[k] > smooth[high] + ROUNDING {
      nextHigh := k;
    } else if smooth[high] - smooth[k] > allowed {
      ended := true;
      nextLow, nextHigh := k, k;
    } else if high == low || smooth[k] < smooth[low] {
      nextLow, nextHigh := k, k;
    }
  }

  lemma {:induction false} ClimbsWhenEnded(p: Profile, smooth: seq<real>, steps: seq<Option<Step>>, rule: ClimbRule,
                                           scan: Scan, k: nat)
    requires 0 < |p.distance| == |smooth| && |steps| < |p.distance| && 0 < k < |smooth|
    requires scan == ScanTo(smooth, rule, k)
    ensures ClimbsOf(p, smooth, steps, rule, scan.found + [Stretch(scan.low, scan.high)])
         == ClimbsOf(p, smooth, steps, rule, scan.found) + Found(p, smooth, steps, rule, Stretch(scan.low, scan.high))
  {
    ClimbsAppend(p, smooth, steps, rule, scan.found, Stretch(scan.low, scan.high));
  }

  /** One more point taken in: the climb it ended, if any, and where it leaves the scan. */
  method ScanNext(p: Profile, smooth: seq<real>, steps: seq<Option<Step>>, rule: ClimbRule, low: nat, high: nat,
                  k: nat, climbs: seq<Climb>)
    returns (nextLow: nat, nextHigh: nat, nextClimbs: seq<Climb>)
    requires 0 < |p.distance| == |smooth| && |steps| < |p.distance| && 0 < k < |smooth|
    requires ScannedTo(p, smooth, steps, rule, k, low, high, climbs)
    ensures ScannedTo(p, smooth, steps, rule, k + 1, nextLow, nextHigh, nextClimbs)
  {
    ScanToNext(smooth, rule, k);
    ghost var scan := ScanTo(smooth, rule, k);
    var ended;
    nextLow, nextHigh, ended := ScanPoint(smooth, rule, low, high, scan.found, k);
    nextClimbs := climbs;
    if ended {
      ClimbsWhenEnded(p, smooth, steps, rule, scan, k);
      nextClimbs := climbs + Found(p, smooth, steps, rule, Stretch(low, high));
    }
  }

  /** Where the scan stands before point `k`: the stretch it is on, and the climbs of those before. */
  predicate ScannedTo(p: Profile, smooth: seq<real>, steps: seq<Option<Step>>, rule: ClimbRule, k: nat, low: nat,
                      high: nat, climbs: seq<Climb>)
    requires 0 < |p.distance| == |smooth| && |steps| < |p.distance| && 0 < k <= |smooth|
  {
    var scan := ScanTo(smooth, rule, k);
    low == scan.low && high == scan.high && climbs == ClimbsOf(p, smooth, steps, rule, scan.found)
  }

  /** The climbs ended on the way, and the stretch the last point leaves the scan on. */
  method ScanPoints(p: Profile, smooth: seq<real>, steps: seq<Option<Step>>, rule: ClimbRule)
    returns (climbs: seq<Climb>, low: nat, high: nat)
    requires 0 < |p.distance| == |smooth| && |steps| < |p.distance|
    ensures ScannedTo(p, smooth, steps, rule, |smooth|, low, high, climbs)
  {
    climbs, low, high := [], 0, 0;
    for k := 1 to |smooth|
      invariant ScannedTo(p, smooth, steps, rule, k, low, high, climbs)
    {
      low, high, climbs := ScanNext(p, smooth, steps, rule, low, high, k, climbs);
    }
  }

  // --------------------------------------------------------- what a climb is

  lemma {:induction false} RisesAtLeastNet(smooth: seq<real>, from: nat, to: nat)
    requires from <= to < |smooth|
    ensures Rises(smooth, from, to) >= smooth[to] - smooth[from]
  {
    if from < to {
      RisesAtLeastNet(smooth, from, to - 1);
    }
  }

  /** The rises of two parts add up to those of both. */
  lemma {:induction false} RisesSplit(smooth: seq<real>, from: nat, mid: nat, to: nat)
    requires from <= mid <= to < |smooth|
    ensures Rises(smooth, from, to) == Rises(smooth, from, mid) + Rises(smooth, mid, to)
  {
    if mid < to {
      RisesSplit(smooth, from, mid, to - 1);
    }
  }

  /** Going up all the way counts with its height, going down all the way with nothing. */
  lemma {:induction false} RisesOneWay(smooth: seq<real>, from: nat, to: nat)
    requires from <= to < |smooth|
    ensures (forall k :: from < k <= to ==> smooth[k - 1] <= smooth[k]) ==>
              Rises(smooth, from, to) == smooth[to] - smooth[from]
    ensures (forall k :: from < k <= to ==> smooth[k] <= smooth[k - 1]) ==> Rises(smooth, from, to) == 0.0
  {
    if from < to {
      RisesOneWay(smooth, from, to - 1);
    }
  }

  /** The seconds of a stretch that has moving time, and none of one that has not. */
  ghost predicate SecsAre(secs: Option<int>, moving: Option<Moving>) {
    (secs.Some? <==> moving.Some?) && (secs.Some? ==> secs.value == moving.value.secs)
  }

  /** From `t.low` to `t.high` it is high and steep enough, over some length, to be reported. */
  ghost predicate Significant(distance: seq<real>, smooth: seq<real>, rule: ClimbRule, t: Stretch)
    requires t.low < |distance| == |smooth| && t.high < |distance|
  {
    var net, length := smooth[t.high] - smooth[t.low], distance[t.high] - distance[t.low];
    && length > 0.0 && net >= rule.minGain
    && (rule.minGradientPct.Some? ==> Percent(net, length, rule.minGradientPct.value))
  }

  /** What is left of `s` once its gentle ends are cut, and counts. */
  ghost predicate Counts(distance: seq<real>, smooth: seq<real>, rule: ClimbRule, s: Stretch, t: Stretch)
    requires s.low <= s.high < |distance| == |smooth|
  {
    && (exists start: nat, end: nat :: CutsAt(distance, smooth, rule, s, t, start, end))
    && t.low < |distance| && t.high < |distance| && Significant(distance, smooth, rule, t)
  }

  /** A climb is reported from `t.low` to `t.high`, with the rises between them and the time moved. */
  ghost predicate ClimbIsOf(p: Profile, smooth: seq<real>, steps: seq<Option<Step>>, t: Stretch, climb: Option<Climb>)
    requires |steps| < |p.distance| == |smooth|
  {
    && climb.Some? && t.low < |smooth| && t.high < |smooth|
    && climb.value.start == p.distance[t.low] && climb.value.end == p.distance[t.high]
    && climb.value.gain == Rises(smooth, t.low, t.high) >= smooth[t.high] - smooth[t.low]
    && SecsAre(climb.value.movingSecs, SumOf(p, steps, t.low, t.high))
  }

  lemma {:induction false} SignificantIs(distance: seq<real>, smooth: seq<real>, rule: ClimbRule, t: Stretch)
    requires t.low < |distance| == |smooth| && t.high < |distance|
    ensures var net, length := smooth[t.high] - smooth[t.low], distance[t.high] - distance[t.low];
            Significant(distance, smooth, rule, t) <==>
              !(length <= 0.0 || net < rule.minGain
                || (rule.minGradientPct.Some? && net / length * 100.0 < rule.minGradientPct.value))
  {
    var net, length := smooth[t.high] - smooth[t.low], distance[t.high] - distance[t.low];
    if length > 0.0 && rule.minGradientPct.Some? {
      PercentIs(net, length, rule.minGradientPct.value);
    }
  }

  lemma {:induction false} CountsClimbs(p: Profile, smooth: seq<real>, steps: seq<Option<Step>>, rule: ClimbRule,
                                        s: Stretch, t: Stretch)
    requires s.low <= s.high < |p.distance| == |smooth| && |steps| < |p.distance|
    requires Counts(p.distance, smooth, rule, s, t)
    ensures ClimbIsOf(p, smooth, steps, t, ClimbOf(p, smooth, steps, rule, s))
  {
    TrimmedExactly(p.distance, smooth, rule, s, t);
    SignificantIs(p.distance, smooth, rule, t);
    RisesAtLeastNet(smooth, t.low, t.high);
  }

  /**
    A stretch is reported exactly if what is left of it, once its gentle ends
    are cut, counts: with where that starts and ends, and no lower than its
    net height.
  */
  lemma {:induction false} ClimbGains(p: Profile, smooth: seq<real>, steps: seq<Option<Step>>, rule: ClimbRule,
                                      s: Stretch)
    requires s.low <= s.high < |p.distance| == |smooth| && |steps| < |p.distance|
    ensures ClimbOf(p, smooth, steps, rule, s).Some? <==> exists t :: Counts(p.distance, smooth, rule, s, t)
    ensures forall t :: Counts(p.distance, smooth, rule, s, t)
                        ==> ClimbIsOf(p, smooth, steps, t, ClimbOf(p, smooth, steps, rule, s))
  {
    forall t | Counts(p.distance, smooth, rule, s, t)
      ensures ClimbIsOf(p, smooth, steps, t, ClimbOf(p, smooth, steps, rule, s))
    {
      CountsClimbs(p, smooth, steps, rule, s, t);
    }
    if ClimbOf(p, smooth, steps, rule, s).Some? {
      var t := Trimmed(p.distance, smooth, rule, s).value;
      TrimmedExactly(p.distance, smooth, rule, s, t);
      SignificantIs(p.distance, smooth, rule, t);
      assert Counts(p.distance, smooth, rule, s, t);
    }
  }

  /** The stretches that are reported, by their numbers: each that has something left that counts, in their order. */
  ghost predicate Reported(distance: seq<real>, smooth: seq<real>, rule: ClimbRule, stretches: seq<Stretch>,
                           which: seq<nat>)
    requires |distance| == |smooth|
    requires forall k :: 0 <= k < |stretches| ==> stretches[k].low <= stretches[k].high < |smooth|
  {
    && (forall k :: 0 <= k < |which| ==> which[k] < |stretches|)
    && (forall j, k :: 0 <= j < k < |which| ==> which[j] < which[k])
    && (forall m: nat :: m < |stretches| ==>
          (InSeq(which, m) <==> exists t :: Counts(distance, smooth, rule, stretches[m], t)))
  }

  ghost predicate InSeq(s: seq<nat>, m: nat) {
    exists k :: 0 <= k < |s| && s[k] == m
  }

  /** A climb is what is left of a stretch: from where that starts to where it ends, no lower, with its moving time. */
  ghost predicate ClimbIs(p: Profile, smooth: seq<real>, steps: seq<Option<Step>>, rule: ClimbRule, s: Stretch,
                          climb: Climb)
    requires s.low <= s.high < |p.distance| == |smooth| && |steps| < |p.distance|
  {
    exists t :: Counts(p.distance, smooth, rule, s, t) && ClimbIsOf(p, smooth, steps, t, Some(climb))
  }

  /** The climbs are those of the stretches reported, one for one. */
  ghost predicate ClimbsFor(p: Profile, smooth: seq<real>, steps: seq<Option<Step>>, rule: ClimbRule,
                            stretches: seq<Stretch>, which: seq<nat>, climbs: seq<Climb>)
    requires |p.distance| == |smooth| && |steps| < |p.distance|
    requires forall k :: 0 <= k < |stretches| ==> stretches[k].low <= stretches[k].high < |smooth|
  {
    && |climbs| == |which|
    && forall k :: 0 <= k < |which| ==>
         which[k] < |stretches| && ClimbIs(p, smooth, steps, rule, stretches[which[k]], climbs[k])
  }

  lemma {:induction false} FoundIs(p: Profile, smooth: seq<real>, steps: seq<Option<Step>>, rule: ClimbRule, s: Stretch)
    requires s.low <= s.high < |p.distance| == |smooth| && |steps| < |p.distance|
    ensures var found := Found(p, smooth, steps, rule, s);
            if exists t :: Counts(p.distance, smooth, rule, s, t)
            then |found| == 1 && ClimbIs(p, smooth, steps, rule, s, found[0]) else found == []
  {
    ClimbGains(p, smooth, steps, rule, s);
  }

  function WithLast(which: seq<nat>, m: nat, more: bool): seq<nat> {
    if more then which + [m] else which
  }

  lemma {:induction false} InSeqMore(which: seq<nat>, m: nat, other: nat)
    ensures InSeq(which + [m], other) <==> InSeq(which, other) || other == m
  {
    if InSeq(which, other) {
      var k :| 0 <= k < |which| && which[k] == other;
      assert (which + [m])[k] == other;
    }
    assert (which + [m])[|which|] == m;
  }

  lemma {:induction false} OneMoreReported(distance: seq<real>, smooth: seq<real>, rule: ClimbRule,
                                           stretches: seq<Stretch>, s: Stretch, which: seq<nat>, more: bool)
    requires |distance| == |smooth| && s.low <= s.high < |smooth|
    requires forall k :: 0 <= k < |stretches| ==> stretches[k].low <= stretches[k].high < |smooth|
    requires Reported(distance, smooth, rule, stretches, which)
    requires more <==> exists t :: Counts(distance, smooth, rule, s, t)
    ensures Reported(distance, smooth, rule, stretches + [s], WithLast(which, |stretches|, more))
  {
    var next := WithLast(which, |stretches|, more);
    forall m: nat | m < |stretches| + 1
      ensures InSeq(next, m) <==> exists t :: Counts(distance, smooth, rule, (stretches + [s])[m], t)
    {
      InSeqMore(which, |stretches|, m);
      assert m < |stretches| ==> (stretches + [s])[m] == stretches[m];
      assert m == |stretches| ==> (stretches + [s])[m] == s && !InSeq(which, m);
    }
  }

  lemma {:induction false} ClimbsStay(p: Profile, smooth: seq<real>, steps: seq<Option<Step>>, rule: ClimbRule,
                                      stretches: seq<Stretch>, s: Stretch, which: seq<nat>, climbs: seq<Climb>)
    requires |p.distance| == |smooth| && |steps| < |p.distance| && s.low <= s.high < |smooth|
    requires forall k :: 0 <= k < |stretches| ==> stretches[k].low <= stretches[k].high < |smooth|
    requires ClimbsFor(p, smooth, steps, rule, stretches, which, climbs)
    ensures ClimbsFor(p, smooth, steps, rule, stretches + [s], which, climbs)
  {
    var all := stretches + [s];
    forall k | 0 <= k < |which|
      ensures which[k] < |all| && ClimbIs(p, smooth, steps, rule, all[which[k]], climbs[k])
    {
      assert all[which[k]] == stretches[which[k]];
    }
  }

  lemma {:induction false} ClimbsGrow(p: Profile, smooth: seq<real>, steps: seq<Option<Step>>, rule: ClimbRule,
                                      stretches: seq<Stretch>, m: nat, which: seq<nat>, climbs: seq<Climb>,
                                      climb: Climb)
    requires |p.distance| == |smooth| && |steps| < |p.distance| && m < |stretches|
    requires forall k :: 0 <= k < |stretches| ==> stretches[k].low <= stretches[k].high < |smooth|
    requires ClimbsFor(p, smooth, steps, rule, stretches, which, climbs)
    requires ClimbIs(p, smooth, steps, rule, stretches[m], climb)
    ensures ClimbsFor(p, smooth, steps, rule, stretches, which + [m], climbs + [climb])
  {
  }

  lemma {:induction false} OneMoreClimbs(p: Profile, smooth: seq<real>, steps: seq<Option<Step>>, rule: ClimbRule,
                                         stretches: seq<Stretch>, s: Stretch, which: seq<nat>, climbs: seq<Climb>)
    requires |p.distance| == |smooth| && |steps| < |p.distance| && s.low <= s.high < |smooth|
    requires forall k :: 0 <= k < |stretches| ==> stretches[k].low <= stretches[k].high < |smooth|
    requires ClimbsFor(p, smooth, steps, rule, stretches, which, climbs)
    ensures var found := Found(p, smooth, steps, rule, s);
            ClimbsFor(p, smooth, steps, rule, stretches + [s], WithLast(which, |stretches|, found != []),
                      climbs + found)
  {
    var found := Found(p, smooth, steps, rule, s);
    FoundIs(p, smooth, steps, rule, s);
    ClimbsStay(p, smooth, steps, rule, stretches, s, which, climbs);
    if found == [] {
      assert climbs + found == climbs;
    } else {
      assert found == [found[0]];
      ClimbsGrow(p, smooth, steps, rule, stretches + [s], |stretches|, which, climbs, found[0]);
    }
  }

  lemma {:induction false} FoundTells(p: Profile, smooth: seq<real>, steps: seq<Option<Step>>, rule: ClimbRule,
                                      s: Stretch)
    requires s.low <= s.high < |p.distance| == |smooth| && |steps| < |p.distance|
    ensures Found(p, smooth, steps, rule, s) != [] <==> exists t :: Counts(p.distance, smooth, rule, s, t)
  {
    FoundIs(p, smooth, steps, rule, s);
  }

  lemma {:induction false} OneMoreFound(p: Profile, smooth: seq<real>, steps: seq<Option<Step>>, rule: ClimbRule,
                                        stretches: seq<Stretch>, s: Stretch, which: seq<nat>)
    requires |p.distance| == |smooth| && |steps| < |p.distance| && s.low <= s.high < |smooth|
    requires forall k :: 0 <= k < |stretches| ==> stretches[k].low <= stretches[k].high < |smooth|
    requires Reported(p.distance, smooth, rule, stretches, which)
    ensures Reported(p.distance, smooth, rule, stretches + [s],
                     WithLast(which, |stretches|, Found(p, smooth, steps, rule, s) != []))
  {
    FoundTells(p, smooth, steps, rule, s);
    OneMoreReported(p.distance, smooth, rule, stretches, s, which, Found(p, smooth, steps, rule, s) != []);
  }

  lemma {:induction false} OneMoreAppended(p: Profile, smooth: seq<real>, steps: seq<Option<Step>>, rule: ClimbRule,
                                           stretches: seq<Stretch>, s: Stretch, which: seq<nat>)
    requires |p.distance| == |smooth| && |steps| < |p.distance| && s.low <= s.high < |smooth|
    requires forall k :: 0 <= k < |stretches| ==> stretches[k].low <= stretches[k].high < |smooth|
    requires ClimbsFor(p, smooth, steps, rule, stretches, which, ClimbsOf(p, smooth, steps, rule, stretches))
    ensures ClimbsFor(p, smooth, steps, rule, stretches + [s],
                      WithLast(which, |stretches|, Found(p, smooth, steps, rule, s) != []),
                      ClimbsOf(p, smooth, steps, rule, stretches + [s]))
  {
    OneMoreClimbs(p, smooth, steps, rule, stretches, s, which, ClimbsOf(p, smooth, steps, rule, stretches));
    ClimbsAppend(p, smooth, steps, rule, stretches, s);
  }

  /** The numbers of the stretches in which a climb was found. */
  function Which(p: Profile, smooth: seq<real>, steps: seq<Option<Step>>, rule: ClimbRule, stretches: seq<Stretch>)
    : seq<nat>
    requires |p.distance| == |smooth| && |steps| < |p.distance|
    requires forall k :: 0 <= k < |stretches| ==> stretches[k].low <= stretches[k].high < |smooth|
  {
    if stretches == [] then []
    else
      var n := |stretches| - 1;
      WithLast(Which(p, smooth, steps, rule, stretches[..n]), n, Found(p, smooth, steps, rule, stretches[n]) != [])
  }

  lemma {:induction false} WhichReported(p: Profile, smooth: seq<real>, steps: seq<Option<Step>>, rule: ClimbRule,
                                         stretches: seq<Stretch>)
    requires |p.distance| == |smooth| && |steps| < |p.distance|
    requires forall k :: 0 <= k < |stretches| ==> stretches[k].low <= stretches[k].high < |smooth|
    ensures Reported(p.distance, smooth, rule, stretches, Which(p, smooth, steps, rule, stretches))
  {
    if stretches != [] {
      var n := |stretches| - 1;
      WhichReported(p, smooth, steps, rule, stretches[..n]);
      OneMoreFound(p, smooth, steps, rule, stretches[..n], stretches[n], Which(p, smooth, steps, rule, stretches[..n]));
      assert stretches == stretches[..n] + [stretches[n]];
    }
  }

  lemma {:induction false} WhichClimbs(p: Profile, smooth: seq<real>, steps: seq<Option<Step>>, rule: ClimbRule,
                                       stretches: seq<Stretch>)
    requires |p.distance| == |smooth| && |steps| < |p.distance|
    requires forall k :: 0 <= k < |stretches| ==> stretches[k].low <= stretches[k].high < |smooth|
    ensures ClimbsFor(p, smooth, steps, rule, stretches, Which(p, smooth, steps, rule, stretches),
                      ClimbsOf(p, smooth, steps, rule, stretches))
  {
    if stretches != [] {
      var n := |stretches| - 1;
      WhichClimbs(p, smooth, steps, rule, stretches[..n]);
      OneMoreAppended(p, smooth, steps, rule, stretches[..n], stretches[n],
                      Which(p, smooth, steps, rule, stretches[..n]));
      assert stretches == stretches[..n] + [stretches[n]];
    }
  }

  /**
    The climbs of a track are those of exactly the stretches of which
    something counts is left, one for one and in track order.
  */
  lemma {:induction false} ReportedExactly(p: Profile, rule: ClimbRule, minSpeedKmh: real) returns (which: seq<nat>)
    requires p.Valid() && p.distance != []
    ensures Reported(p.distance, Smoothed(p), rule, Stretches(Smoothed(p), rule), which)
    ensures ClimbsFor(p, Smoothed(p), StepsOf(p, minSpeedKmh), rule, Stretches(Smoothed(p), rule), which,
                      ClimbsIn(p, rule, minSpeedKmh))
  {
    var smooth, steps := Smoothed(p), StepsOf(p, minSpeedKmh);
    which := Which(p, smooth, steps, rule, Stretches(smooth, rule));
    WhichReported(p, smooth, steps, rule, Stretches(smooth, rule));
    WhichClimbs(p, smooth, steps, rule, Stretches(smooth, rule));
  }

  // ---------------------------------------------------- climbing within moving

  function SecsOf(climbs: seq<Climb>): int {
    if climbs == [] then 0 else SecsOf(climbs[..|climbs| - 1]) + climbs[|climbs| - 1].movingSecs.GetOr(0)
  }

  function MetresOf(climbs: seq<Climb>): real {
    if climbs == [] then 0.0
    else MetresOf(climbs[..|climbs| - 1]) + (climbs[|climbs| - 1].end - climbs[|climbs| - 1].start)
  }

  lemma {:induction false} SumsOfMore(climbs: seq<Climb>, climb: Climb)
    ensures SecsOf(climbs + [climb]) == SecsOf(climbs) + climb.movingSecs.GetOr(0)
    ensures MetresOf(climbs + [climb]) == MetresOf(climbs) + (climb.end - climb.start)
  {
    assert (climbs + [climb])[..|climbs|] == climbs;
  }

  lemma {:induction false} SecsOfClimb(p: Profile, smooth: seq<real>, steps: seq<Option<Step>>, rule: ClimbRule,
                                       s: Stretch, from: nat)
    requires p.Valid() && Forward(steps) && from <= s.low <= s.high < |p.distance| == |smooth|
    requires |steps| == |p.distance| - 1 && ClimbOf(p, smooth, steps, rule, s).Some?
    ensures var climb := ClimbOf(p, smooth, steps, rule, s).value;
            && climb.movingSecs.GetOr(0) <= SecsIn(steps, from, s.high)
            && climb.end - climb.start <= p.distance[s.high] - p.distance[from]
  {
    var t := Trimmed(p.distance, smooth, rule, s).value;
    if !TimedIn(steps, t.low, t.high) { UntimedIsStill(steps, t.low, t.high); }
    SecsSplit(steps, from, t.low, t.high);
    SecsSplit(steps, from, t.high, s.high);
    SecsNonNegative(steps, from, t.low);
    SecsNonNegative(steps, t.high, s.high);
  }

  lemma {:induction false} FoundFits(p: Profile, smooth: seq<real>, steps: seq<Option<Step>>, rule: ClimbRule,
                                     s: Stretch, from: nat, climbs: seq<Climb>)
    requires p.Valid() && Forward(steps) && from <= s.low <= s.high < |p.distance| == |smooth|
    requires |steps| == |p.distance| - 1
    ensures var more := climbs + Found(p, smooth, steps, rule, s);
            && SecsOf(more) <= SecsOf(climbs) + SecsIn(steps, from, s.high)
            && MetresOf(more) <= MetresOf(climbs) + p.distance[s.high] - p.distance[from]
  {
    SecsNonNegative(steps, from, s.high);
    assert p.distance[from] <= p.distance[s.high];
    var climb := ClimbOf(p, smooth, steps, rule, s);
    if climb.Some? {
      SecsOfClimb(p, smooth, steps, rule, s, from);
      SumsOfMore(climbs, climb.value);
    } else {
      assert climbs + Found(p, smooth, steps, rule, s) == climbs;
    }
  }

  lemma {:induction false} ClimbsFit(p: Profile, smooth: seq<real>, steps: seq<Option<Step>>, rule: ClimbRule,
                                     found: seq<Stretch>)
    requires p.Valid() && Forward(steps) && 0 < |p.distance| == |smooth| && |steps| == |p.distance| - 1
    requires InTrackOrder(found, |smooth|)
    ensures var climbs := ClimbsOf(p, smooth, steps, rule, found);
            var end := if found == [] then 0 else found[|found| - 1].high;
            && SecsOf(climbs) <= SecsIn(steps, 0, end)
            && MetresOf(climbs) <= p.distance[end] - p.distance[0]
  {
    if found != [] {
      var last, before := found[|found| - 1], found[..|found| - 1];
      ClimbsFit(p, smooth, steps, rule, before);
      var end := if before == [] then 0 else before[|before| - 1].high;
      SecsSplit(steps, 0, end, last.high);
      FoundFits(p, smooth, steps, rule, last, end, ClimbsOf(p, smooth, steps, rule, before));
    }
  }

  lemma {:induction false} StepsForward(p: Profile, minSpeedKmh: real)
    requires p.Valid()
    ensures Forward(StepsOf(p, minSpeedKmh))
  {
  }

  /**
    The climbs of a track take no longer than the whole of it moved, and are
    no longer than it is.
  */
  lemma {:induction false} ClimbingWithinMoving(p: Profile, rule: ClimbRule, minSpeedKmh: real)
    requires p.Valid() && p.distance != [] && Sensible(rule)
    ensures var climbs, whole := ClimbsIn(p, rule, minSpeedKmh), MovingOf(p, minSpeedKmh);
            && SecsOf(climbs) <= (if whole.Some? then whole.value.secs else 0)
            && MetresOf(climbs) <= p.distance[|p.distance| - 1] - p.distance[0]
  {
    var smooth, steps := Smoothed(p), StepsOf(p, minSpeedKmh);
    var found := Stretches(smooth, rule);
    StepsForward(p, minSpeedKmh);
    StretchesRise(smooth, rule);
    ClimbsFit(p, smooth, steps, rule, found);
    var end := found[|found| - 1].high;
    SecsSplit(steps, 0, end, |steps|);
    SecsNonNegative(steps, end, |steps|);
    assert p.distance[end] <= p.distance[|p.distance| - 1];
    if !TimedIn(steps, 0, |steps|) { UntimedIsStill(steps, 0, |steps|); }
  }

  /** What some climbs and some others come to is what all of them do. */
  lemma {:induction false} TotalsSplit(climbs: seq<Climb>, more: seq<Climb>)
    ensures Totals(climbs + more)
         == (Totals(climbs).0 + Totals(more).0, Totals(climbs).1 + Totals(more).1)
    decreases |more|
  {
    if more == [] {
      assert climbs + more == climbs;
    } else {
      TotalsSplit(climbs, more[..|more| - 1]);
      assert (climbs + more)[..|climbs + more| - 1] == climbs + more[..|more| - 1];
    }
  }

  /** A climb comes to its height and its moving time if it has any, and to nothing if not. */
  lemma {:induction false} TotalsOfOne(climb: Climb)
    ensures Totals([climb])
         == if climb.movingSecs.GetOr(0) > 0 then (climb.gain, climb.movingSecs.value) else (0.0, 0)
  {
    assert [climb][..0] == [];
  }

  /** A trip's climbing figures: heights and moving times of the climbs that have any. */
  function Totals(climbs: seq<Climb>): (real, int) {
    if climbs == [] then (0.0, 0)
    else
      var (gain, secs) := Totals(climbs[..|climbs| - 1]);
      var last := climbs[|climbs| - 1];
      if last.movingSecs.Some? && last.movingSecs.value > 0 then (gain + last.gain, secs + last.movingSecs.value)
      else (gain, secs)
  }

  lemma {:induction false} TotalsWithin(climbs: seq<Climb>)
    requires forall k :: 0 <= k < |climbs| ==> climbs[k].movingSecs.GetOr(0) >= 0 && climbs[k].gain >= 0.0
    ensures 0 <= Totals(climbs).1 <= SecsOf(climbs) && Totals(climbs).0 >= 0.0
    ensures Totals(climbs).1 == 0 ==> Totals(climbs).0 == 0.0
  {
    if climbs != [] {
      TotalsWithin(climbs[..|climbs| - 1]);
    }
  }
}
