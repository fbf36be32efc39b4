/**
  Moving time (src/server/moving_time.rs): a verdict on each step from point
  to point, by speed or by slope, and the sums of what moves over any stretch.
*/
module MovingTime {
  import opened Wrappers
  import opened Reals
  import opened ElevationProfile

  const MIN_VERTICAL_MH := 100.0
  const VERTICAL_WINDOW_S := 60

  /** The verdict on the way from one point to the next, and how long it took. */
  datatype Step = Step(secs: int, moving: bool)

  datatype Moving = Moving(secs: int, distance: real)

  type Times = seq<Option<int>>

  // ---------------------------------------------------------------- climbing

  /** How far back from `b` the run of timed points goes that lies within half a window before `start`. */
  function RunStart(seconds: Times, b: nat, start: int): (from: nat)
    requires b < |seconds|
    ensures from <= b
    ensures forall k :: from <= k < b ==> Steady(seconds, k) && start - seconds[k].value <= VERTICAL_WINDOW_S / 2
    ensures from == 0 || !Steady(seconds, from - 1) || start - seconds[from - 1].value > VERTICAL_WINDOW_S / 2
  {
    if b > 0 && Steady(seconds, b - 1) && start - seconds[b - 1].value <= VERTICAL_WINDOW_S / 2 then
      RunStart(seconds, b - 1, start)
    else b
  }

  /** How far on from `a` the run goes that lies within half a window after `end`. */
  function RunEnd(seconds: Times, a: nat, end: int): (to: nat)
    requires a < |seconds|
    ensures a <= to < |seconds|
    ensures forall k :: a < k <= to ==> SteadyOn(seconds, k) && seconds[k].value - end <= VERTICAL_WINDOW_S / 2
    ensures to + 1 == |seconds| || !SteadyOn(seconds, to + 1) || seconds[to + 1].value - end > VERTICAL_WINDOW_S / 2
    decreases |seconds| - a
  {
    if a + 1 < |seconds| && SteadyOn(seconds, a + 1) && seconds[a + 1].value - end <= VERTICAL_WINDOW_S / 2 then
      RunEnd(seconds, a + 1, end)
    else a
  }

  /** Point `k` has a time, and the next one's is no earlier, if it has any. */
  predicate Steady(seconds: Times, k: nat)
    requires k + 1 < |seconds|
  {
    seconds[k].Some? && seconds[k].value <= seconds[k + 1].GetOr(seconds[k].value)
  }

  /** Point `k` has a time, and the one before it no later one, if it has any. */
  predicate SteadyOn(seconds: Times, k: nat)
    requires 0 < k < |seconds|
  {
    seconds[k].Some? && seconds[k].value >= seconds[k - 1].GetOr(seconds[k].value)
  }

  /** Whether the elevation changes fast enough over a run of points. */
  predicate Steep(seconds: Times, smooth: seq<real>, from: nat, to: nat)
    requires from <= to < |seconds| == |smooth|
  {
    && seconds[from].Some? && seconds[to].Some?
    && var span := (seconds[to].value - seconds[from].value) as real;
       var change := smooth[to] - smooth[from];
       span > 0.0 && (if change < 0.0 then -change else change) / span * 3600.0 >= MIN_VERTICAL_MH
  }

  /** The two loops that widen the run around the step from `i`, and its slope. */
  predicate IsClimbing(seconds: Times, smooth: seq<real>, i: nat)
    requires i + 1 < |seconds| == |smooth|
  {
    && seconds[i].Some? && seconds[i + 1].Some?
    && Steep(seconds, smooth, RunStart(seconds, i, seconds[i].value), RunEnd(seconds, i + 1, seconds[i + 1].value))
  }

  method Climbing(seconds: Times, smooth: seq<real>, i: nat) returns (climbing: bool)
    requires i + 1 < |seconds| == |smooth|
    ensures climbing == IsClimbing(seconds, smooth, i)
  {
    if seconds[i].None? || seconds[i + 1].None? {
      return false;
    }
    var start, end := seconds[i].value, seconds[i + 1].value;
    var before := i;
    while before > 0 && Steady(seconds, before - 1) && start - seconds[before - 1].value <= VERTICAL_WINDOW_S / 2
      invariant before <= i && RunStart(seconds, before, start) == RunStart(seconds, i, start)
    {
      before := before - 1;
    }
    var after := i + 1;
    while after + 1 < |seconds| && SteadyOn(seconds, after + 1)
          && seconds[after + 1].value - end <= VERTICAL_WINDOW_S / 2
      invariant i + 1 <= after < |seconds| && RunEnd(seconds, after, end) == RunEnd(seconds, i + 1, end)
    {
      after := after + 1;
    }
    climbing := Steep(seconds, smooth, before, after);
  }

  // ------------------------------------------------------------------- steps

  /** Whether a pair of points is passed fast enough. */
  predicate Fast(metres: real, secs: int, minSpeedMs: real)
    requires secs > 0
  {
    metres / secs as real >= minSpeedMs
  }

  /** The step from point `i`, given the smoothed elevations. */
  function StepAt(p: Profile, smooth: seq<real>, minSpeedMs: real, i: nat): Option<Step>
    requires p.Valid() && |smooth| == |p.seconds| && i + 1 < |p.seconds|
  {
    if p.seconds[i].None? || p.seconds[i + 1].None? then None
    else
      var secs := p.seconds[i + 1].value - p.seconds[i].value;
      if secs <= 0 then None
      else
        Some(Step(secs,
                  Fast(p.distance[i + 1] - p.distance[i], secs, minSpeedMs) || IsClimbing(p.seconds, smooth, i)))
  }

  function StepsGiven(p: Profile, smooth: seq<real>, minSpeedMs: real): (steps: seq<Option<Step>>)
    requires p.Valid() && |smooth| == |p.seconds|
    ensures |steps| == if |p.seconds| == 0 then 0 else |p.seconds| - 1
  {
    seq(if |p.seconds| == 0 then 0 else |p.seconds| - 1,
        i requires 0 <= i < |p.seconds| - 1 => StepAt(p, smooth, minSpeedMs, i))
  }

  /** The loop over the steps, a verdict each. */
  ghost function StepsOf(p: Profile, minSpeedKmh: real): (steps: seq<Option<Step>>)
    requires p.Valid()
    ensures |steps| == if |p.seconds| == 0 then 0 else |p.seconds| - 1
  {
    StepsGiven(p, Smoothed(p), minSpeedKmh / 3.6)
  }

  method StepFrom(p: Profile, smooth: seq<real>, minSpeedMs: real, i: nat) returns (step: Option<Step>)
    requires p.Valid() && |smooth| == |p.seconds| && i + 1 < |p.seconds|
    ensures step == StepAt(p, smooth, minSpeedMs, i)
  {
    if p.seconds[i].None? || p.seconds[i + 1].None? {
      return None;
    }
    var secs := p.seconds[i + 1].value - p.seconds[i].value;
    if secs <= 0 {
      return None;
    }
    var moving := Fast(p.distance[i + 1] - p.distance[i], secs, minSpeedMs);
    if !moving {
      moving := Climbing(p.seconds, smooth, i);
    }
    step := Some(Step(secs, moving));
  }

  method Steps(p: Profile, minSpeedKmh: real) returns (steps: seq<Option<Step>>)
    requires p.Valid()
    ensures steps == StepsOf(p, minSpeedKmh)
  {
    var smooth := Smooth(p);
    var minSpeedMs := minSpeedKmh / 3.6;
    steps := [];
    for i := 0 to if |p.seconds| == 0 then 0 else |p.seconds| - 1
      invariant |steps| == i && steps == StepsGiven(p, smooth, minSpeedMs)[..i]
    {
      var step := StepFrom(p, smooth, minSpeedMs, i);
      steps := steps + [step];
    }
  }

  // --------------------------------------------------------------------- sum

  function SecsIn(steps: seq<Option<Step>>, from: nat, to: nat): int
    requires to <= |steps|
  {
    if to <= from then 0
    else SecsIn(steps, from, to - 1)
         + if steps[to - 1].Some? && steps[to - 1].value.moving then steps[to - 1].value.secs else 0
  }

  function MetresIn(p: Profile, steps: seq<Option<Step>>, from: nat, to: nat): real
    requires to <= |steps| < |p.distance|
  {
    if to <= from then 0.0
    else MetresIn(p, steps, from, to - 1)
         + if steps[to - 1].Some? && steps[to - 1].value.moving then p.distance[to] - p.distance[to - 1] else 0.0
  }

  predicate TimedIn(steps: seq<Option<Step>>, from: nat, to: nat)
    requires to <= |steps|
  {
    exists k :: from <= k < to && steps[k].Some?
  }

  function Least(a: nat, b: nat): nat { if a < b then a else b }

  /** The sum over a range of steps, which untimed steps alone do not have. */
  function SumOf(p: Profile, steps: seq<Option<Step>>, from: nat, to: nat): Option<Moving>
    requires |steps| < |p.distance| || steps == []
  {
    var end := Least(to, |steps|);
    if TimedIn(steps, from, end) then Some(Moving(SecsIn(steps, from, end), MetresIn(p, steps, from, end))) else None
  }

  method SumSteps(p: Profile, steps: seq<Option<Step>>, from: nat, to: nat) returns (sum: Option<Moving>)
    requires |steps| < |p.distance| || steps == []
    ensures sum == SumOf(p, steps, from, to)
  {
    var timed, secs, distance := false, 0, 0.0;
    var end := Least(to, |steps|);
    if from < end {
      for i := from to end
        invariant timed <==> TimedIn(steps, from, i)
        invariant secs == SecsIn(steps, from, i) && distance == MetresIn(p, steps, from, i)
      {
        if steps[i].Some? {
          timed := true;
          if steps[i].value.moving {
            secs := secs + steps[i].value.secs;
            distance := distance + (p.distance[i + 1] - p.distance[i]);
          }
        }
      }
    }
    sum := if timed then Some(Moving(secs, distance)) else None;
  }

  /** How the whole of a profile moved. */
  ghost function MovingOf(p: Profile, minSpeedKmh: real): Option<Moving>
    requires p.Valid()
  {
    SumOf(p, StepsOf(p, minSpeedKmh), 0, |StepsOf(p, minSpeedKmh)|)
  }

  lemma {:induction false} SecsSplit(steps: seq<Option<Step>>, from: nat, mid: nat, to: nat)
    requires from <= mid <= to <= |steps|
    ensures SecsIn(steps, from, to) == SecsIn(steps, from, mid) + SecsIn(steps, mid, to)
  {
    if mid < to { SecsSplit(steps, from, mid, to - 1); }
  }

  lemma {:induction false} MetresSplit(p: Profile, steps: seq<Option<Step>>, from: nat, mid: nat, to: nat)
    requires from <= mid <= to <= |steps| < |p.distance|
    ensures MetresIn(p, steps, from, to) == MetresIn(p, steps, from, mid) + MetresIn(p, steps, mid, to)
  {
    if mid < to { MetresSplit(p, steps, from, mid, to - 1); }
  }

  /** Two stretches' moving time and way together, of which one may have no timed step. */
  function Together(a: Option<Moving>, b: Option<Moving>): Option<Moving> {
    match (a, b)
    case (Some(one), Some(other)) => Some(Moving(one.secs + other.secs, one.distance + other.distance))
    case (Some(one), None) => a
    case (None, _) => b
  }

  /** Split at any step, a stretch's sum is its parts' together. */
  lemma {:induction false} SumsSplit(p: Profile, steps: seq<Option<Step>>, from: nat, mid: nat, to: nat)
    requires from <= mid <= to <= |steps| < |p.distance|
    ensures SumOf(p, steps, from, to) == Together(SumOf(p, steps, from, mid), SumOf(p, steps, mid, to))
  {
    SecsSplit(steps, from, mid, to);
    MetresSplit(p, steps, from, mid, to);
    if !TimedIn(steps, from, mid) {
      UntimedIsStill(steps, from, mid);
      UntimedGoesNowhere(p, steps, from, mid);
    }
    if !TimedIn(steps, mid, to) {
      UntimedIsStill(steps, mid, to);
      UntimedGoesNowhere(p, steps, mid, to);
    }
  }

  lemma {:induction false} UntimedGoesNowhere(p: Profile, steps: seq<Option<Step>>, from: nat, to: nat)
    requires to <= |steps| < |p.distance| && !TimedIn(steps, from, to)
    ensures MetresIn(p, steps, from, to) == 0.0
  {
    if from < to {
      UntimedGoesNowhere(p, steps, from, to - 1);
    }
  }

  /** A stretch of timed steps, none of them moving, is a stretch without any moving time; a break is no more. */
  lemma {:induction false} BreaksAreNone(p: Profile, steps: seq<Option<Step>>, from: nat, to: nat)
    requires to <= |steps| < |p.distance| && TimedIn(steps, from, to)
    requires forall k :: from <= k < to && steps[k].Some? ==> !steps[k].value.moving
    ensures SumOf(p, steps, from, to) == Some(Moving(0, 0.0))
  {
    NoneMoves(p, steps, from, to);
  }

  lemma {:induction false} NoneMoves(p: Profile, steps: seq<Option<Step>>, from: nat, to: nat)
    requires to <= |steps| < |p.distance|
    requires forall k :: from <= k < to && steps[k].Some? ==> !steps[k].value.moving
    ensures SecsIn(steps, from, to) == 0 && MetresIn(p, steps, from, to) == 0.0
  {
    if from < to {
      NoneMoves(p, steps, from, to - 1);
    }
  }

  /** One step comes to its own seconds and metres, exactly if it moves. */
  lemma {:induction false} OneStepIs(p: Profile, steps: seq<Option<Step>>, k: nat)
    requires k < |steps| < |p.distance|
    ensures match steps[k]
            case None => SumOf(p, steps, k, k + 1) == None
            case Some(step) =>
              SumOf(p, steps, k, k + 1)
              == Some(if step.moving then Moving(step.secs, p.distance[k + 1] - p.distance[k]) else Moving(0, 0.0))
  {
    assert SecsIn(steps, k, k) == 0 && MetresIn(p, steps, k, k) == 0.0;
    if steps[k].Some? {
      assert TimedIn(steps, k, k + 1);
    }
  }

  /** Around the step from point `i`, a run of points timed in order, as far as half a minute reaches. */
  ghost predicate RunAround(seconds: Times, i: nat, before: nat, after: nat)
    requires i + 1 < |seconds|
  {
    && before <= i < after < |seconds| && seconds[i].Some? && seconds[i + 1].Some?
    && (forall k :: before <= k < i ==> Steady(seconds, k) && seconds[i].value - seconds[k].value <= 30)
    && (before == 0 || !Steady(seconds, before - 1) || seconds[i].value - seconds[before - 1].value > 30)
    && (forall k :: i + 1 < k <= after ==> SteadyOn(seconds, k) && seconds[k].value - seconds[i + 1].value <= 30)
    && (after + 1 == |seconds| || !SteadyOn(seconds, after + 1) || seconds[after + 1].value - seconds[i + 1].value > 30)
  }

  /** The elevation goes up or down by a hundred metres an hour or more, from one point to another. */
  ghost predicate HundredAnHour(seconds: Times, smooth: seq<real>, before: nat, after: nat)
    requires before < |seconds| == |smooth| && after < |seconds|
  {
    && seconds[before].Some? && seconds[after].Some? && seconds[before].value < seconds[after].value
    && var span, change := (seconds[after].value - seconds[before].value) as real, smooth[after] - smooth[before];
       change * 3600.0 >= 100.0 * span || -change * 3600.0 >= 100.0 * span
  }

  lemma {:induction false} RateIs(change: real, span: real, rate: real)
    requires span > 0.0
    ensures change / span * 3600.0 >= rate <==> change * 3600.0 >= rate * span
  {
    var q := change / span;
    assert q * span == change;
    var gap := q * 3600.0 - rate;
    assert gap * span == change * 3600.0 - rate * span;
    if gap >= 0.0 { ProductNonNegative(gap, span); } else { ProductPositive(-gap, span); }
  }

  lemma {:induction false} SteepIs(seconds: Times, smooth: seq<real>, from: nat, to: nat)
    requires from <= to < |seconds| == |smooth|
    ensures Steep(seconds, smooth, from, to) <==> HundredAnHour(seconds, smooth, from, to)
  {
    if seconds[from].Some? && seconds[to].Some? && seconds[from].value < seconds[to].value {
      var span, change := (seconds[to].value - seconds[from].value) as real, smooth[to] - smooth[from];
      RateIs(if change < 0.0 then -change else change, span, 100.0);
    }
  }

  lemma {:induction false} RunIsOne(seconds: Times, i: nat, before: nat, after: nat)
    requires i + 1 < |seconds| && RunAround(seconds, i, before, after)
    ensures before == RunStart(seconds, i, seconds[i].value) && after == RunEnd(seconds, i + 1, seconds[i + 1].value)
  {
  }

  /** It does over the run around the step. */
  ghost predicate ClimbsAround(seconds: Times, smooth: seq<real>, i: nat)
    requires i + 1 < |seconds| == |smooth|
  {
    exists before: nat, after: nat ::
      RunAround(seconds, i, before, after) && HundredAnHour(seconds, smooth, before, after)
  }

  lemma {:induction false} ClimbingIs(seconds: Times, smooth: seq<real>, i: nat)
    requires i + 1 < |seconds| == |smooth|
    ensures IsClimbing(seconds, smooth, i)
       <==> ClimbsAround(seconds, smooth, i)
  {
    if seconds[i].Some? && seconds[i + 1].Some? {
      var before, after := RunStart(seconds, i, seconds[i].value), RunEnd(seconds, i + 1, seconds[i + 1].value);
      SteepIs(seconds, smooth, before, after);
      assert RunAround(seconds, i, before, after);
    }
    forall before: nat, after: nat | RunAround(seconds, i, before, after)
      ensures before == RunStart(seconds, i, seconds[i].value)
      ensures after == RunEnd(seconds, i + 1, seconds[i + 1].value)
    {
      RunIsOne(seconds, i, before, after);
    }
  }

  lemma {:induction false} FastIs(metres: real, secs: int, minSpeedKmh: real)
    requires secs > 0
    ensures Fast(metres, secs, minSpeedKmh / 3.6) <==> metres * 3.6 >= minSpeedKmh * secs as real
  {
    var span, speed, least := secs as real, metres / secs as real, minSpeedKmh / 3.6;
    assert speed * span == metres && least * 3.6 == minSpeedKmh;
    var gap := speed - least;
    assert gap * span * 3.6 == metres * 3.6 - minSpeedKmh * span;
    if gap >= 0.0 { ProductNonNegative(gap, span); } else { ProductPositive(-gap, span); }
  }

  /**
    What the steps of a profile are: timed where time goes on, and moving
    where the way was covered fast enough, or the elevation changed fast
    enough over the run around it.
  */
  lemma {:induction false} StepMeans(p: Profile, minSpeedKmh: real, i: nat)
    requires p.Valid() && i + 1 < |p.seconds|
    ensures StepIs(p, Smoothed(p), minSpeedKmh, i, StepsOf(p, minSpeedKmh)[i])
  {
    StepAtMeans(p, Smoothed(p), minSpeedKmh, i);
  }

  ghost predicate StepIs(p: Profile, smooth: seq<real>, minSpeedKmh: real, i: nat, step: Option<Step>)
    requires p.Valid() && |smooth| == |p.seconds| && i + 1 < |p.seconds|
  {
    var secs := p.seconds;
    && (step.Some? <==> secs[i].Some? && secs[i + 1].Some? && secs[i].value < secs[i + 1].value)
    && (step.Some? ==>
          && step.value.secs == secs[i + 1].value - secs[i].value
          && (step.value.moving <==> Moves(p, smooth, minSpeedKmh, i, step.value.secs)))
  }

  /** Fast enough over the ground, in kilometres an hour, or up or down. */
  ghost predicate Moves(p: Profile, smooth: seq<real>, minSpeedKmh: real, i: nat, secs: int)
    requires p.Valid() && |smooth| == |p.seconds| && i + 1 < |p.seconds|
  {
    || (p.distance[i + 1] - p.distance[i]) * 3.6 >= minSpeedKmh * secs as real
    || ClimbsAround(p.seconds, smooth, i)
  }

  lemma {:induction false} MovesIs(p: Profile, smooth: seq<real>, minSpeedKmh: real, i: nat, secs: int)
    requires p.Valid() && |smooth| == |p.seconds| && i + 1 < |p.seconds| && secs > 0
    ensures Fast(p.distance[i + 1] - p.distance[i], secs, minSpeedKmh / 3.6) || IsClimbing(p.seconds, smooth, i)
       <==> Moves(p, smooth, minSpeedKmh, i, secs)
  {
    FastIs(p.distance[i + 1] - p.distance[i], secs, minSpeedKmh);
    ClimbingIs(p.seconds, smooth, i);
  }

  lemma {:induction false} StepAtMeans(p: Profile, smooth: seq<real>, minSpeedKmh: real, i: nat)
    requires p.Valid() && |smooth| == |p.seconds| && i + 1 < |p.seconds|
    ensures StepIs(p, smooth, minSpeedKmh, i, StepAt(p, smooth, minSpeedKmh / 3.6, i))
  {
    if p.seconds[i].Some? && p.seconds[i + 1].Some? && p.seconds[i].value < p.seconds[i + 1].value {
      MovesIs(p, smooth, minSpeedKmh, i, p.seconds[i + 1].value - p.seconds[i].value);
    }
  }

  /** A minute's ride, and a break of ten minutes at the next point. */
  const RIDE := Profile([0.0, 111.19, 222.38], [1.0, 1.0, 1.0], [Some(0), Some(60), Some(660)])

  lemma {:induction false} RideSmoothed()
    ensures RIDE.Valid() && Smoothed(RIDE) == [1.0, 1.0, 1.0]
  {
    assert RIDE.Valid() && FarApart(RIDE.distance);
    forall i | 0 <= i < 3 ensures Smoothed(RIDE)[i] == 1.0 {
      FarApartSmoothed(RIDE, i);
    }
  }

  lemma {:induction false} FlatIsNoClimb(seconds: Times, i: nat)
    requires i + 1 < |seconds| == 3
    ensures !ClimbsAround(seconds, [1.0, 1.0, 1.0], i)
  {
  }

  lemma {:induction false} RideStep(i: nat, flat: seq<real>)
    requires i < 2 && RIDE.Valid() && flat == [1.0, 1.0, 1.0]
    ensures StepAt(RIDE, flat, 1.0 / 3.6, i) == if i == 0 then Some(Step(60, true)) else Some(Step(600, false))
  {
    StepAtMeans(RIDE, flat, 1.0, i);
    FlatIsNoClimb(RIDE.seconds, i);
  }

  lemma {:induction false} RideSteps()
    ensures RIDE.Valid() && StepsOf(RIDE, 1.0) == [Some(Step(60, true)), Some(Step(600, false))]
  {
    RideSmoothed();
    RideStep(0, Smoothed(RIDE));
    RideStep(1, Smoothed(RIDE));
    var steps := StepsOf(RIDE, 1.0);
    assert |steps| == 2 && steps[0] == Some(Step(60, true)) && steps[1] == Some(Step(600, false));
  }

  /** The break is no moving time. */
  lemma {:induction false} BreakNotCounted()
    ensures RIDE.Valid() && MovingOf(RIDE, 1.0) == Some(Moving(60, 111.19))
  {
    RideSteps();
    var steps := StepsOf(RIDE, 1.0);
    OneStepIs(RIDE, steps, 0);
    OneStepIs(RIDE, steps, 1);
    SumsSplit(RIDE, steps, 0, 1, 2);
  }

  ghost predicate Forward(steps: seq<Option<Step>>) {
    forall k :: 0 <= k < |steps| && steps[k].Some? ==> steps[k].value.secs > 0
  }

  lemma {:induction false} SecsNonNegative(steps: seq<Option<Step>>, from: nat, to: nat)
    requires Forward(steps) && to <= |steps|
    ensures SecsIn(steps, from, to) >= 0
  {
    if from < to { SecsNonNegative(steps, from, to - 1); }
  }

  /** A stretch without a timed step adds no seconds. */
  lemma {:induction false} UntimedIsStill(steps: seq<Option<Step>>, from: nat, to: nat)
    requires to <= |steps| && !TimedIn(steps, from, to)
    ensures SecsIn(steps, from, to) == 0
  {
    if from < to {
      UntimedIsStill(steps, from, to - 1);
    }
  }

  /** A trip moves no farther than its track goes. */
  lemma {:induction false} MetresWithin(p: Profile, steps: seq<Option<Step>>, from: nat, to: nat)
    requires p.Valid() && from <= to <= |steps| < |p.distance|
    ensures 0.0 <= MetresIn(p, steps, from, to) <= p.distance[to] - p.distance[from]
  {
    if from < to {
      MetresWithin(p, steps, from, to - 1);
    }
  }
}
