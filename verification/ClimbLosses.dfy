/**
  Which rises the scan for climbs (src/server/climbs.rs) has in no stretch:
  those after the top of a stretch so high that as much may fall there, and
  those that creep up by less than the rounding margin at a time.
*/
module ClimbLosses {
  import opened Wrappers
  import opened Reals
  import opened ElevationProfile
  import opened MovingTime
  import opened Climbs

  // -------------------------------------------------- which rises are lost

  /** How far up from a low point after its top a block that gained so much can go, but for rounding. */
  function Spare(rule: ClimbRule, gain: real): real {
    if Allowed(rule, gain) < gain then Allowed(rule, gain) else gain
  }

  /** After its top no point of a block found is above an earlier one by more than was allowed to fall. */
  lemma {:induction false} TailRises(smooth: seq<real>, rule: ClimbRule, block: Block, p: nat, q: nat)
    requires block.from <= block.top < block.to <= |smooth| && FoundBlock(smooth, rule, block)
    requires block.top <= p < q < block.to
    ensures smooth[q] - smooth[p] <= Spare(rule, Gain(smooth, block)) + ROUNDING
  {
  }

  /** From `p` on, point `i` is the highest before `j`. */
  ghost predicate HighestBefore(smooth: seq<real>, p: nat, i: nat, j: nat)
    requires j <= |smooth|
  {
    p <= i < j && forall k :: p <= k < j ==> smooth[k] <= smooth[i]
  }

  /** A rise from its lowest point, really so from there, never falling farther from its top so far than allowed. */
  ghost predicate Steady(smooth: seq<real>, rule: ClimbRule, p: nat, q: nat) {
    && p < q < |smooth| && smooth[p + 1] > smooth[p] + ROUNDING
    && (forall j :: p <= j <= q ==> smooth[p] <= smooth[j])
    && (forall i, j :: p <= i < j <= q && HighestBefore(smooth, p, i, j)
                       ==> smooth[i] - smooth[j] <= Allowed(rule, smooth[i] - smooth[p]))
  }

  /** A stretch has a rise, but for rounding: it holds its start and goes on at least as high. */
  predicate Has(smooth: seq<real>, s: Stretch, p: nat, q: nat)
    requires s.high < |smooth| && p < q < |smooth|
  {
    s.low <= p < s.high && smooth[s.high] >= smooth[q] - ROUNDING
  }

  /** A steady rise high enough for a climb that no stretch has. */
  ghost predicate Lost(smooth: seq<real>, rule: ClimbRule, p: nat, q: nat) {
    && Steady(smooth, rule, p, q) && smooth[q] - smooth[p] >= rule.minGain
    && forall m :: 0 <= m < |Stretches(smooth, rule)| ==> !Has(smooth, Stretches(smooth, rule)[m], p, q)
  }

  lemma {:induction false} BlockAt(blocks: seq<Block>, k: nat, p: nat) returns (b: nat)
    requires Contiguous(blocks, k) && p < k
    ensures b < |blocks| && blocks[b].from <= p < blocks[b].to
    decreases |blocks|
  {
    var n := |blocks| - 1;
    if blocks[n].from <= p {
      b := n;
    } else {
      b := BlockAt(blocks[..n], blocks[n].from, p);
    }
  }

  lemma {:induction false} StretchAt(blocks: seq<Block>, b: nat) returns (m: nat)
    requires b < |blocks| && blocks[b].found
    ensures m < |StretchesOf(blocks)| && StretchesOf(blocks)[m] == Stretch(blocks[b].from, blocks[b].top)
    decreases |blocks|
  {
    var n := |blocks| - 1;
    if b == n {
      m := |StretchesOf(blocks[..n])|;
    } else {
      m := StretchAt(blocks[..n], b);
    }
  }

  lemma {:induction false} HighestIs(smooth: seq<real>, p: nat, j: nat) returns (i: nat)
    requires p < j <= |smooth|
    ensures HighestBefore(smooth, p, i, j)
  {
    i := p;
    if p + 1 < j {
      i := HighestIs(smooth, p, j - 1);
      i := if smooth[j - 1] > smooth[i] then j - 1 else i;
    }
  }

  /** A top that is higher by `d` allows at most so much more. */
  lemma {:induction false} AllowedSlowly(rule: ClimbRule, a: real, d: real)
    requires Sensible(rule) && d >= 0.0
    ensures Allowed(rule, a + d) <= Allowed(rule, a) + d
  {
    ShareOfMore(rule.maxDipShare, a, d);
  }

  lemma {:induction false} ShareOfMore(share: real, a: real, d: real)
    requires share <= 1.0 && d >= 0.0
    ensures share * (a + d) <= share * a + d
  {
    ProductNonNegative(1.0 - share, d);
    assert share * (a + d) == share * a + d - (1.0 - share) * d;
  }

  /** A fall too deep for a top is too deep for one above it, where the rise starts no lower. */
  lemma {:induction false} FallsTooDeep(rule: ClimbRule, from: real, top: real, to: real, low: real, high: real)
    requires Sensible(rule) && from <= low && top <= high && top - to > Allowed(rule, top - from)
    ensures high - to > Allowed(rule, high - low)
  {
    AllowedSlowly(rule, top - from, high - top);
    AllowedMonotone(rule, high - low, high - from);
  }

  /** Where a block ends short of the track, it is lower than before, or too deep below the top, or no real rise up. */
  lemma {:induction false} BlockEnds(smooth: seq<real>, rule: ClimbRule, block: Block, p: nat)
    requires Sensible(rule) && block.from <= block.top < block.to < |smooth| && Justified(smooth, rule, block)
    requires block.from <= p < block.to
    ensures smooth[block.to] < smooth[p]
         || (p <= block.top && smooth[block.from] <= smooth[p]
             && smooth[block.top] - smooth[block.to] > Allowed(rule, Gain(smooth, block)))
         || (p + 1 == block.to && smooth[block.to] <= smooth[p] + ROUNDING)
  {
  }

  lemma {:induction false} TooDeepForSteady(smooth: seq<real>, rule: ClimbRule, block: Block, p: nat, q: nat)
    requires Sensible(rule) && block.from <= p <= block.top < block.to <= q < |smooth|
    requires smooth[block.from] <= smooth[p]
    requires smooth[block.top] - smooth[block.to] > Allowed(rule, Gain(smooth, block))
    ensures !Steady(smooth, rule, p, q)
  {
    var i := HighestIs(smooth, p, block.to);
    FallsTooDeep(rule, smooth[block.from], smooth[block.top], smooth[block.to], smooth[p], smooth[i]);
    assert HighestBefore(smooth, p, i, block.to);
  }

  /** A steady rise lies within the block it starts in. */
  lemma {:induction false} SteadyInBlock(smooth: seq<real>, rule: ClimbRule, block: Block, p: nat, q: nat)
    requires Sensible(rule) && block.from <= block.top < block.to <= |smooth| && Justified(smooth, rule, block)
    requires Steady(smooth, rule, p, q) && block.from <= p < block.to
    ensures q < block.to
  {
    if block.to <= q {
      BlockEnds(smooth, rule, block, p);
      if p <= block.top && smooth[block.from] <= smooth[p]
         && smooth[block.top] - smooth[block.to] > Allowed(rule, Gain(smooth, block)) {
        TooDeepForSteady(smooth, rule, block, p, q);
      }
    }
  }

  /** In its block, a rise high enough for a climb is the stretch's own or comes after its top. */
  lemma {:induction false} InBlock(smooth: seq<real>, rule: ClimbRule, block: Block, p: nat, q: nat)
    requires rule.minGain > rule.maxDip + ROUNDING && rule.maxDip >= 0.0
    requires block.from <= block.top < block.to <= |smooth| && Justified(smooth, rule, block)
    requires block.from <= p < q < block.to && smooth[q] - smooth[p] >= rule.minGain
    ensures block.found
    ensures Has(smooth, Stretch(block.from, block.top), p, q)
         || (block.top <= p && Spare(rule, Gain(smooth, block)) + ROUNDING >= rule.minGain)
  {
    if block.found && block.top <= p {
      TailRises(smooth, rule, block, p, q);
    }
  }

  lemma {:induction false} BlockIs(smooth: seq<real>, rule: ClimbRule, blocks: seq<Block>, found: seq<Stretch>, b: nat)
    requires Blocks(smooth, rule, blocks, found, |smooth|) && b < |blocks|
    ensures blocks[b].from <= blocks[b].top < blocks[b].to <= |smooth| && Justified(smooth, rule, blocks[b])
  {
  }

  lemma {:induction false} StretchOf(smooth: seq<real>, rule: ClimbRule, block: Block, blocks: seq<Block>, b: nat,
                                     p: nat, q: nat) returns (m: nat)
    requires rule.minGain > rule.maxDip + ROUNDING && rule.maxDip >= 0.0
    requires block.from <= block.top < block.to <= |smooth| && Justified(smooth, rule, block)
    requires b < |blocks| && blocks[b] == block
    requires block.from <= p < q < block.to && smooth[q] - smooth[p] >= rule.minGain
    ensures m < |StretchesOf(blocks)| && StretchesOf(blocks)[m] == Stretch(block.from, block.top)
    ensures Has(smooth, Stretch(block.from, block.top), p, q)
         || (block.top <= p && Spare(rule, Gain(smooth, block)) + ROUNDING >= rule.minGain)
  {
    InBlock(smooth, rule, block, p, q);
    m := StretchAt(blocks, b);
  }

  /** The block a steady rise lies in. */
  lemma {:induction false} RiseBlock(smooth: seq<real>, rule: ClimbRule, blocks: seq<Block>, found: seq<Stretch>,
                                     p: nat, q: nat) returns (b: nat)
    requires Sensible(rule) && Blocks(smooth, rule, blocks, found, |smooth|) && Steady(smooth, rule, p, q)
    ensures b < |blocks| && blocks[b].from <= blocks[b].top < blocks[b].to <= |smooth|
    ensures Justified(smooth, rule, blocks[b]) && blocks[b].from <= p < q < blocks[b].to
  {
    b := BlockAt(blocks, |smooth|, p);
    BlockIs(smooth, rule, blocks, found, b);
    SteadyInBlock(smooth, rule, blocks[b], p, q);
  }

  /** The stretch of the block a rise starts in has it, or comes before it and gained enough to lose it. */
  lemma {:induction false} InItsBlock(smooth: seq<real>, rule: ClimbRule, blocks: seq<Block>, found: seq<Stretch>,
                                      p: nat, q: nat) returns (m: nat)
    requires Sensible(rule) && rule.minGain > rule.maxDip + ROUNDING
    requires Blocks(smooth, rule, blocks, found, |smooth|)
    requires Steady(smooth, rule, p, q) && smooth[q] - smooth[p] >= rule.minGain
    ensures m < |found| && found[m].low <= found[m].high < |smooth|
    ensures Has(smooth, found[m], p, q)
         || (found[m].high <= p && Spare(rule, smooth[found[m].high] - smooth[found[m].low]) + ROUNDING >= rule.minGain)
  {
    var b := RiseBlock(smooth, rule, blocks, found, p, q);
    m := StretchOf(smooth, rule, blocks[b], blocks, b, p, q);
  }

  /** A rise is lost only after the top of a stretch that gained enough for so deep a fall. */
  lemma {:induction false} LostAfterTop(smooth: seq<real>, rule: ClimbRule, p: nat, q: nat) returns (m: nat)
    requires Sensible(rule) && rule.minGain > rule.maxDip + ROUNDING && Lost(smooth, rule, p, q)
    ensures m < |Stretches(smooth, rule)|
    ensures var s := Stretches(smooth, rule)[m];
            s.high <= p && Spare(rule, smooth[s.high] - smooth[s.low]) + ROUNDING >= rule.minGain
  {
    var blocks := NothingLost(smooth, rule);
    m := InItsBlock(smooth, rule, blocks, Stretches(smooth, rule), p, q);
  }

  /** A track whose stretches gain no more than `gain` loses a rise high enough for a climb. */
  ghost predicate LosesUpTo(rule: ClimbRule, gain: real, smooth: seq<real>, p: nat, q: nat) {
    && Lost(smooth, rule, p, q)
    && forall m :: 0 <= m < |Stretches(smooth, rule)| ==>
         smooth[Stretches(smooth, rule)[m].high] - smooth[Stretches(smooth, rule)[m].low] <= gain
  }

  lemma {:induction false} SpareMonotone(rule: ClimbRule, a: real, b: real)
    requires Sensible(rule) && a <= b
    ensures Spare(rule, a) <= Spare(rule, b)
  {
    AllowedMonotone(rule, a, b);
  }

  /** Up by `gain`, down as far as the scan goes on, and up again as far as does not move its top on. */
  function UpDownUp(rule: ClimbRule, gain: real): seq<real> {
    [0.0, gain, gain - Spare(rule, gain), gain + ROUNDING]
  }

  lemma {:induction false} UpDownUpFound(rule: ClimbRule, gain: real)
    requires Sensible(rule) && gain > ROUNDING
    ensures Stretches(UpDownUp(rule, gain), rule) == [Stretch(0, 1)]
  {
    var smooth := UpDownUp(rule, gain);
    AllowedMonotone(rule, 0.0, gain);
    assert ScanTo(smooth, rule, 1) == Scan(0, 0, []);
    assert ScanTo(smooth, rule, 2) == Scan(0, 1, []);
    assert ScanTo(smooth, rule, 3) == Scan(0, 1, []);
    assert ScanTo(smooth, rule, 4) == Scan(0, 1, []);
  }

  lemma {:induction false} UpDownUpLoses(rule: ClimbRule, gain: real)
    requires Sensible(rule) && gain > ROUNDING && rule.minGain > ROUNDING
    requires Spare(rule, gain) + ROUNDING >= rule.minGain
    ensures LosesUpTo(rule, gain, UpDownUp(rule, gain), 2, 3)
  {
    UpDownUpFound(rule, gain);
    AllowedMonotone(rule, 0.0, 0.0);
  }

  /**
    Exactly how high a stretch has to be for the scan to lose a rise: tracks
    whose stretches gain no more than `gain` all keep every steady rise high
    enough for a climb, unless as much as that may fall after such a top.
  */
  lemma {:induction false} LosesExactly(rule: ClimbRule, gain: real)
    requires Sensible(rule) && rule.minGain > rule.maxDip + ROUNDING && gain > ROUNDING
    ensures (exists smooth, p, q :: LosesUpTo(rule, gain, smooth, p, q))
       <==> Spare(rule, gain) + ROUNDING >= rule.minGain
  {
    if Spare(rule, gain) + ROUNDING >= rule.minGain {
      UpDownUpLoses(rule, gain);
    }
    forall smooth, p, q | LosesUpTo(rule, gain, smooth, p, q)
      ensures Spare(rule, gain) + ROUNDING >= rule.minGain
    {
      var m := LostAfterTop(smooth, rule, p, q);
      var s := Stretches(smooth, rule)[m];
      SpareMonotone(rule, smooth[s.high] - smooth[s.low], gain);
    }
  }

  // ------------------------------------------------------------ the rules set

  /** What counts as a climb, and what dip it survives, by the rules set: in metres, and metres of a hundred. */
  lemma {:induction false} RulesAsSet(distance: seq<real>, smooth: seq<real>, t: Stretch, gained: real)
    requires t.low < |distance| == |smooth| && t.high < |distance|
    ensures var net, length := smooth[t.high] - smooth[t.low], distance[t.high] - distance[t.low];
            && (Significant(distance, smooth, CYCLING, t) <==>
                  length > 0.0 && net >= 30.0 && net * 100.0 >= 3.0 * length)
            && (Significant(distance, smooth, SKIING, t) <==>
                  length > 0.0 && net >= 15.0 && net * 100.0 >= 3.0 * length)
            && (Significant(distance, smooth, HIKING, t) <==> length > 0.0 && net >= 75.0)
    ensures gained <= 100.0 ==> Allowed(CYCLING, gained) == Allowed(SKIING, gained) == 10.0
    ensures gained <= 200.0 ==> Allowed(HIKING, gained) == 20.0
    ensures gained >= 200.0 ==>
              10.0 * Allowed(CYCLING, gained) == 10.0 * Allowed(SKIING, gained) == gained
              && 10.0 * Allowed(HIKING, gained) == gained
    ensures CYCLING.trimTolerance == SKIING.trimTolerance == 1000.0 && HIKING.trimTolerance == 3000.0
    ensures CYCLING.trimGradientPct == SKIING.trimGradientPct == HIKING.trimGradientPct == 3.0
  {
  }

  /** Under every rule set, points that rise by less than a dip hold nothing to report. */
  lemma {:induction false} NoClimbInADip(smooth: seq<real>, rule: ClimbRule, from: nat, to: nat, p: nat, q: nat)
    requires rule in {CYCLING, SKIING, HIKING} && to <= |smooth|
    requires RisesLittle(smooth, rule, from, to) && from <= p < q < to
    ensures Sensible(rule) && smooth[q] - smooth[p] < rule.minGain
  {
  }

  /** Under the rules set, a stretch loses a rise after it from ten times the least gain on, but for rounding. */
  lemma {:induction false} RulesLose(rule: ClimbRule, gain: real)
    requires rule in {CYCLING, SKIING, HIKING} && gain > ROUNDING
    ensures (exists smooth, p, q :: LosesUpTo(rule, gain, smooth, p, q)) <==> gain >= 10.0 * (rule.minGain - ROUNDING)
  {
    LosesExactly(rule, gain);
  }

  /** Down two hundred metres from two thousand, and up again: no stretch has the second rise. */
  lemma {:induction false} SecondHillLost()
    ensures var smooth := [0.0, 2000.0, 1801.0, 1999.0];
            Stretches(smooth, HIKING) == [Stretch(0, 1)] && Lost(smooth, HIKING, 2, 3)
            && smooth[3] - smooth[2] == 198.0 && HIKING.minGain == 75.0
  {
    var smooth := [0.0, 2000.0, 1801.0, 1999.0];
    assert ScanTo(smooth, HIKING, 1) == Scan(0, 0, []);
    assert ScanTo(smooth, HIKING, 2) == Scan(0, 1, []);
    assert ScanTo(smooth, HIKING, 3) == Scan(0, 1, []);
    assert ScanTo(smooth, HIKING, 4) == Scan(0, 1, []);
  }

  /** Six hundred metres up, fifty down and four hundred up are one climb on a bike, dip and all. */
  lemma {:induction false} LongClimbKept()
    ensures var smooth := [0.0, 600.0, 550.0, 950.0];
            Steady(smooth, CYCLING, 0, 3) && Stretches(smooth, CYCLING) == [Stretch(0, 3)]
  {
    var smooth := [0.0, 600.0, 550.0, 950.0];
    assert ScanTo(smooth, CYCLING, 1) == Scan(0, 0, []);
    assert ScanTo(smooth, CYCLING, 2) == Scan(0, 1, []);
    assert ScanTo(smooth, CYCLING, 3) == Scan(0, 1, []);
    assert ScanTo(smooth, CYCLING, 4) == Scan(0, 3, []);
    forall j | 0 < j <= 3 ensures HighestBefore(smooth, 0, 0, j) ==> smooth[0] - smooth[j] <= 0.0 {
    }
  }

  /** Fifty metres up in five hundred. */
  const ONE_HILL := Profile([0.0, 500.0], [1.0, 51.0], [None, None])

  lemma {:induction false} OneHillSmoothed()
    ensures ONE_HILL.Valid() && Smoothed(ONE_HILL) == [1.0, 51.0]
    ensures Stretches([1.0, 51.0], CYCLING) == [Stretch(0, 1)]
  {
    assert ONE_HILL.Valid() && FarApart(ONE_HILL.distance);
    FarApartSmoothed(ONE_HILL, 0);
    FarApartSmoothed(ONE_HILL, 1);
    assert Smoothed(ONE_HILL) == [1.0, 51.0];
    assert ScanTo([1.0, 51.0], CYCLING, 1) == Scan(0, 0, []);
    assert ScanTo([1.0, 51.0], CYCLING, 2) == Scan(0, 1, []);
  }

  lemma {:induction false} OneHillClimb(steps: seq<Option<Step>>)
    requires steps == [None]
    ensures ClimbOf(ONE_HILL, [1.0, 51.0], steps, CYCLING, Stretch(0, 1)) == Some(Climb(0.0, 500.0, 50.0, None))
  {
    var smooth := [1.0, 51.0];
    SteepEndsKept(ONE_HILL.distance, smooth, CYCLING, Stretch(0, 1));
    assert Rises(smooth, 0, 0) == 0.0 && Rises(smooth, 0, 1) == 50.0;
    OneStepIs(ONE_HILL, steps, 0);
  }

  /** It is one climb of fifty metres. */
  lemma {:induction false} OneHillReported(minSpeedKmh: real)
    ensures ONE_HILL.Valid() && ClimbsIn(ONE_HILL, CYCLING, minSpeedKmh) == [Climb(0.0, 500.0, 50.0, None)]
  {
    OneHillSmoothed();
    var steps := StepsOf(ONE_HILL, minSpeedKmh);
    StepMeans(ONE_HILL, minSpeedKmh, 0);
    assert steps == [None];
    OneHillClimb(steps);
    OnlyStretch(ONE_HILL, CYCLING, minSpeedKmh, Stretch(0, 1));
  }

  // --------------------------------------------- in a stretch, and unreported

  /** Two hills of ten in a hundred, ten kilometres of flat between them. */
  const TWO_HILLS := Profile([0.0, 500.0, 10500.0, 11000.0], [1.0, 51.0, 51.0, 101.0], [None, None, None, None])

  lemma {:induction false} TwoHillsSmoothed()
    ensures TWO_HILLS.Valid() && Smoothed(TWO_HILLS) == TWO_HILLS.elevation
  {
    assert TWO_HILLS.Valid() && FarApart(TWO_HILLS.distance);
    forall i | 0 <= i < 4 ensures Smoothed(TWO_HILLS)[i] == TWO_HILLS.elevation[i] {
      FarApartSmoothed(TWO_HILLS, i);
    }
  }

  /** A stretch with a steep first and last step is not cut. */
  lemma {:induction false} SteepEndsKept(distance: seq<real>, smooth: seq<real>, rule: ClimbRule, s: Stretch)
    requires s.low < s.high < |distance| == |smooth| && rule.trimTolerance >= 0.0
    requires distance[s.low + 1] >= distance[s.low] + 200.0
    requires distance[s.high - 1] <= distance[s.high] - 200.0
    requires SteepTo(distance, smooth, rule, s.low, s.low + 1) && SteepTo(distance, smooth, rule, s.high - 1, s.high)
    ensures Trimmed(distance, smooth, rule, s) == Some(s)
  {
    assert WindowAhead(distance, s.low, s.high, s.low + 1);
    assert WindowBehind(distance, s.low, s.high, s.high - 1);
    assert CutsAt(distance, smooth, rule, s, s, s.low, s.high);
    TrimmedExactly(distance, smooth, rule, s, s);
  }

  lemma {:induction false} TwoHillsScanned()
    ensures Stretches(TWO_HILLS.elevation, CYCLING) == [Stretch(0, 3)]
  {
    var smooth := TWO_HILLS.elevation;
    assert ScanTo(smooth, CYCLING, 1) == Scan(0, 0, []);
    assert ScanTo(smooth, CYCLING, 2) == Scan(0, 1, []);
    assert ScanTo(smooth, CYCLING, 3) == Scan(0, 1, []);
    assert ScanTo(smooth, CYCLING, 4) == Scan(0, 3, []);
  }

  lemma {:induction false} TwoHillsClimbs(steps: seq<Option<Step>>)
    requires |steps| < 4
    ensures ClimbOf(TWO_HILLS, TWO_HILLS.elevation, steps, CYCLING, Stretch(0, 3)).None?
    ensures ClimbOf(TWO_HILLS, TWO_HILLS.elevation, steps, CYCLING, Stretch(0, 1)).Some?
    ensures ClimbOf(TWO_HILLS, TWO_HILLS.elevation, steps, CYCLING, Stretch(2, 3)).Some?
  {
    var distance, smooth := TWO_HILLS.distance, TWO_HILLS.elevation;
    SteepEndsKept(distance, smooth, CYCLING, Stretch(0, 3));
    SteepEndsKept(distance, smooth, CYCLING, Stretch(0, 1));
    SteepEndsKept(distance, smooth, CYCLING, Stretch(2, 3));
  }

  lemma {:induction false} OnlyStretch(p: Profile, rule: ClimbRule, minSpeedKmh: real, s: Stretch)
    requires p.Valid() && p.distance != [] && s.low <= s.high < |p.distance|
    requires Stretches(Smoothed(p), rule) == [s]
    ensures ClimbsIn(p, rule, minSpeedKmh) == Found(p, Smoothed(p), StepsOf(p, minSpeedKmh), rule, s)
  {
    var found := [s];
    assert found[..0] == [];
    assert ClimbsOf(p, Smoothed(p), StepsOf(p, minSpeedKmh), rule, found[..0]) == [];
  }

  /**
    The two hills are one stretch, so no rise is lost by the scan; but the
    whole of it is too gentle, and neither hill is reported, though either
    alone would be.
  */
  lemma {:induction false} TwoHillsUnreported(minSpeedKmh: real)
    ensures TWO_HILLS.Valid() && Stretches(Smoothed(TWO_HILLS), CYCLING) == [Stretch(0, 3)]
    ensures ClimbsIn(TWO_HILLS, CYCLING, minSpeedKmh) == []
    ensures var smooth, steps := Smoothed(TWO_HILLS), StepsOf(TWO_HILLS, minSpeedKmh);
            && ClimbOf(TWO_HILLS, smooth, steps, CYCLING, Stretch(0, 1)).Some?
            && ClimbOf(TWO_HILLS, smooth, steps, CYCLING, Stretch(2, 3)).Some?
  {
    TwoHillsSmoothed();
    TwoHillsScanned();
    var steps := StepsOf(TWO_HILLS, minSpeedKmh);
    TwoHillsClimbs(steps);
    OnlyStretch(TWO_HILLS, CYCLING, minSpeedKmh, Stretch(0, 3));
  }

  // --------------------------------------------------------------- creeping

  /** No point is really above the one before it. */
  ghost predicate Creeps(smooth: seq<real>) {
    forall k :: 0 < k < |smooth| ==> smooth[k] <= smooth[k - 1] + 0.000001
  }

  /** Up to point `n` the scan never got off the point it was on. */
  ghost predicate NeverOff(smooth: seq<real>, rule: ClimbRule, n: nat)
    requires n <= |smooth|
  {
    forall j :: 0 < j <= n ==> ScanTo(smooth, rule, j).high == ScanTo(smooth, rule, j).low
  }

  lemma {:induction false} NeverOffCreeps(smooth: seq<real>, rule: ClimbRule, n: nat)
    requires 0 < n <= |smooth| && NeverOff(smooth, rule, n)
    ensures ScanTo(smooth, rule, n).low == n - 1 && Creeps(smooth[..n])
  {
    if n > 1 {
      NeverOffCreeps(smooth, rule, n - 1);
      ScanToNext(smooth, rule, n - 1);
      assert ScanTo(smooth, rule, n).high == ScanTo(smooth, rule, n).low;
      forall k | 0 < k < n ensures smooth[..n][k] <= smooth[..n][k - 1] + 0.000001 {
        assert k < n - 1 ==> smooth[..n - 1][k] <= smooth[..n - 1][k - 1] + 0.000001;
      }
    }
  }

  /** The scan never gets off the point it is on exactly where no point is really above the one before it. */
  lemma {:induction false} NeverRising(smooth: seq<real>, rule: ClimbRule)
    ensures NeverOff(smooth, rule, |smooth|) <==> Creeps(smooth)
  {
    if Creeps(smooth) {
      forall j | 0 < j <= |smooth| ensures ScanTo(smooth, rule, j).high == ScanTo(smooth, rule, j).low {
        CreepingScan(smooth, rule, j);
      }
    }
    if smooth != [] && NeverOff(smooth, rule, |smooth|) {
      NeverOffCreeps(smooth, rule, |smooth|);
      assert smooth[..|smooth|] == smooth;
    }
  }

  /** A track that creeps up, never by more than rounding from one point to the next, has no climb however high. */
  lemma {:induction false} CreepingIsNoClimb(p: Profile, rule: ClimbRule, minSpeedKmh: real)
    requires p.Valid() && p.distance != [] && Creeps(Smoothed(p))
    ensures ClimbsIn(p, rule, minSpeedKmh) == []
  {
    var smooth, steps := Smoothed(p), StepsOf(p, minSpeedKmh);
    CreepingStretches(smooth, rule);
    PointsAreNoClimbs(p, smooth, steps, rule, Stretches(smooth, rule));
  }

  /** A track of `n` points a hundred metres apart, each above the one before it by no more than rounding. */
  function Creeping(n: nat): (p: Profile)
    ensures |p.distance| == |p.elevation| == |p.seconds| == n
  {
    Profile(seq(n, (k: nat) => 100.0 * k as real), seq(n, (k: nat) => ROUNDING * (k + 1) as real),
            seq(n, (k: nat) => None))
  }

  lemma {:induction false} CreepingSmoothed(n: nat, i: nat)
    requires i < n
    ensures Creeping(n).Valid() && Smoothed(Creeping(n))[i] == ROUNDING * (i + 1) as real
  {
    FarApartSmoothed(Creeping(n), i);
  }

  /** However high: for every height some track creeps up as far, and has no climb under any rule. */
  lemma {:induction false} CreepingUp(height: real, rule: ClimbRule, minSpeedKmh: real) returns (p: Profile)
    ensures p.Valid() && p.distance != [] && Creeps(Smoothed(p))
    ensures Smoothed(p)[|p.distance| - 1] - Smoothed(p)[0] >= height
    ensures ClimbsIn(p, rule, minSpeedKmh) == []
  {
    var n := if height <= 0.0 then 1 else (height * 1000000.0).Floor + 2;
    p := Creeping(n);
    forall k | 0 <= k < n ensures p.Valid() && Smoothed(p)[k] == ROUNDING * (k + 1) as real {
      CreepingSmoothed(n, k);
    }
    CreepingSmoothed(n, 0);
    CreepingIsNoClimb(p, rule, minSpeedKmh);
  }

  lemma {:induction false} CreepingStretches(smooth: seq<real>, rule: ClimbRule)
    requires smooth != [] && Creeps(smooth)
    ensures forall m :: 0 <= m < |Stretches(smooth, rule)| ==>
              Stretches(smooth, rule)[m].low == Stretches(smooth, rule)[m].high < |smooth|
  {
    CreepingScan(smooth, rule, |smooth|);
  }

  lemma {:induction false} CreepingScan(smooth: seq<real>, rule: ClimbRule, k: nat)
    requires 0 < k <= |smooth| && Creeps(smooth)
    ensures var scan := ScanTo(smooth, rule, k);
            scan.low == scan.high == k - 1
            && forall m :: 0 <= m < |scan.found| ==> scan.found[m].low == scan.found[m].high
  {
    if k > 1 { CreepingScan(smooth, rule, k - 1); }
  }

  lemma {:induction false} PointsAreNoClimbs(p: Profile, smooth: seq<real>, steps: seq<Option<Step>>, rule: ClimbRule,
                                             found: seq<Stretch>)
    requires |p.distance| == |smooth| && |steps| < |p.distance|
    requires forall k :: 0 <= k < |found| ==> found[k].low == found[k].high < |smooth|
    ensures ClimbsOf(p, smooth, steps, rule, found) == []
  {
    if found != [] {
      PointsAreNoClimbs(p, smooth, steps, rule, found[..|found| - 1]);
    }
  }
}
