/**
  What the running total in src/server/link_match.rs adds up: the length of
  the pieces whose unbroken near stretch is long enough.
*/
module Stretches {
  import opened Sums

  /** A short bit of line, near or not by its midpoint. */
  datatype Piece = Piece(lengthM: real, near: bool)

  ghost predicate Lengthy(ps: seq<Piece>) {
    forall k :: 0 <= k < |ps| ==> ps[k].lengthM >= 0.0
  }

  function Lengths(ps: seq<Piece>): seq<real> {
    seq(|ps|, k requires 0 <= k < |ps| => ps[k].lengthM)
  }

  function LengthOf(ps: seq<Piece>): real {
    Sum(Lengths(ps))
  }

  ghost predicate AllNear(ps: seq<Piece>) {
    forall k :: 0 <= k < |ps| ==> ps[k].near
  }

  /** Nothing but near pieces from `lo` to `hi`, at least `min` long together. */
  ghost predicate LongStretch(ps: seq<Piece>, min: real, lo: nat, hi: nat)
    requires lo <= hi <= |ps|
  {
    AllNear(ps[lo..hi]) && LengthOf(ps[lo..hi]) >= min
  }

  /** The piece at `k` lies in a long enough stretch. */
  ghost predicate Counted(ps: seq<Piece>, min: real, k: nat)
    requires k < |ps|
  {
    exists lo: nat, hi: nat :: lo <= k < hi <= |ps| && LongStretch(ps, min, lo, hi)
  }

  ghost function Counts(ps: seq<Piece>, min: real): (counts: seq<real>)
    ensures |counts| == |ps|
  {
    seq(|ps|, k requires 0 <= k < |ps| => if Counted(ps, min, k) then ps[k].lengthM else 0.0)
  }

  /** The length of the pieces that lie in a long enough stretch. */
  ghost function Covered(ps: seq<Piece>, min: real): real {
    Sum(Counts(ps, min))
  }

  // -------------------------------------------------- the running total

  function Closed(stretch: real, min: real): real {
    if stretch >= min then stretch else 0.0
  }

  /** What is still added to the covered length by `ps`, coming to it with an open stretch. */
  function Running(ps: seq<Piece>, stretch: real, min: real): real {
    if ps == [] then Closed(stretch, min)
    else if ps[0].near then Running(ps[1..], stretch + ps[0].lengthM, min)
    else Closed(stretch, min) + Running(ps[1..], 0.0, min)
  }

  lemma {:induction false} LengthsAppend(a: seq<Piece>, b: seq<Piece>)
    ensures Lengths(a + b) == Lengths(a) + Lengths(b)
    ensures LengthOf(a + b) == LengthOf(a) + LengthOf(b)
  {
    assert Lengths(a + b) == Lengths(a) + Lengths(b);
    SumAppend(Lengths(a), Lengths(b));
  }

  lemma {:induction false} LengthOfOne(p: Piece)
    ensures LengthOf([p]) == p.lengthM
  {
    var s := Lengths([p]);
    assert s == [p.lengthM] && s[1..] == [];
    assert Sum(s) == s[0] + Sum(s[1..]);
  }

  lemma {:induction false} LengthOfSlice(ps: seq<Piece>, lo: nat, hi: nat)
    requires Lengthy(ps) && lo <= hi <= |ps|
    ensures LengthOf(ps[lo..hi]) <= LengthOf(ps)
  {
    assert Lengths(ps[lo..hi]) == Lengths(ps)[lo..hi];
    SumSlice(Lengths(ps), lo, hi);
  }

  /** Pieces that are all near count together or not at all. */
  lemma {:induction false} CoveredAllNear(ps: seq<Piece>, min: real)
    requires Lengthy(ps) && AllNear(ps)
    ensures Covered(ps, min) == Closed(LengthOf(ps), min)
  {
    if LengthOf(ps) >= min {
      forall k | 0 <= k < |ps|
        ensures Counted(ps, min, k)
      {
        assert ps[0..|ps|] == ps;
        assert LongStretch(ps, min, 0, |ps|);
      }
      assert Counts(ps, min) == Lengths(ps);
    } else {
      forall k | 0 <= k < |ps|
        ensures !Counted(ps, min, k)
      {
        forall lo: nat, hi: nat | lo <= hi <= |ps| ensures !LongStretch(ps, min, lo, hi) {
          LengthOfSlice(ps, lo, hi);
        }
      }
      SumAllEqual(Counts(ps, min), 0.0);
    }
  }

  lemma {:induction false} NearWithin(ps: seq<Piece>, lo: nat, hi: nat, k: nat)
    requires lo <= hi <= |ps| && k < |ps| && AllNear(ps[lo..hi])
    ensures lo <= k < hi ==> ps[k].near
  {
    if lo <= k < hi {
      assert ps[lo..hi][k - lo] == ps[k];
    }
  }

  /** A piece that is not near separates the stretches on either side. */
  lemma {:induction false} CountsApart(a: seq<Piece>, far: Piece, b: seq<Piece>, min: real)
    requires !far.near
    ensures Counts(a + [far] + b, min) == Counts(a, min) + [0.0] + Counts(b, min)
  {
    var ps := a + [far] + b;
    forall lo: nat, hi: nat | lo <= hi <= |ps| && LongStretch(ps, min, lo, hi)
      ensures !(lo <= |a| < hi)
    {
      NearWithin(ps, lo, hi, |a|);
    }
    forall k | 0 <= k < |a| ensures Counted(ps, min, k) <==> Counted(a, min, k) {
      CountedBefore(a, far, b, min, k);
    }
    forall k | 0 <= k < |b| ensures Counted(ps, min, |a| + 1 + k) <==> Counted(b, min, k) {
      CountedAfter(a, far, b, min, k);
    }
    assert !Counted(ps, min, |a|);
  }

  lemma {:induction false} CountedBefore(a: seq<Piece>, far: Piece, b: seq<Piece>, min: real, k: nat)
    requires !far.near && k < |a|
    ensures Counted(a + [far] + b, min, k) <==> Counted(a, min, k)
  {
    var ps := a + [far] + b;
    if Counted(ps, min, k) {
      var lo: nat, hi: nat :| lo <= k < hi <= |ps| && LongStretch(ps, min, lo, hi);
      NearWithin(ps, lo, hi, |a|);
      assert ps[lo..hi] == a[lo..hi];
      assert LongStretch(a, min, lo, hi);
    }
    if Counted(a, min, k) {
      var lo: nat, hi: nat :| lo <= k < hi <= |a| && LongStretch(a, min, lo, hi);
      assert ps[lo..hi] == a[lo..hi];
      assert LongStretch(ps, min, lo, hi);
    }
  }

  lemma {:induction false} CountedAfter(a: seq<Piece>, far: Piece, b: seq<Piece>, min: real, k: nat)
    requires !far.near && k < |b|
    ensures Counted(a + [far] + b, min, |a| + 1 + k) <==> Counted(b, min, k)
  {
    var ps, n := a + [far] + b, |a| + 1;
    if Counted(ps, min, n + k) {
      var lo: nat, hi: nat :| lo <= n + k < hi <= |ps| && LongStretch(ps, min, lo, hi);
      NearWithin(ps, lo, hi, |a|);
      assert ps[lo..hi] == b[lo - n..hi - n];
      assert LongStretch(b, min, lo - n, hi - n);
    }
    if Counted(b, min, k) {
      var lo: nat, hi: nat :| lo <= k < hi <= |b| && LongStretch(b, min, lo, hi);
      assert ps[n + lo..n + hi] == b[lo..hi];
      assert LongStretch(ps, min, n + lo, n + hi);
    }
  }

  /** The running total is the covered length, whatever stretch is open. */
  lemma {:induction false} RunningIsCovered(open: seq<Piece>, ps: seq<Piece>, min: real)
    requires Lengthy(open) && Lengthy(ps) && AllNear(open)
    ensures Running(ps, LengthOf(open), min) == Covered(open + ps, min)
    decreases |ps|
  {
    if ps == [] {
      assert open + ps == open;
      CoveredAllNear(open, min);
    } else if ps[0].near {
      assert open + ps == (open + [ps[0]]) + ps[1..];
      LengthsAppend(open, [ps[0]]);
      LengthOfOne(ps[0]);
      RunningIsCovered(open + [ps[0]], ps[1..], min);
    } else {
      assert open + ps == open + [ps[0]] + ps[1..];
      CountsApart(open, ps[0], ps[1..], min);
      SumAppend(Counts(open, min) + [0.0], Counts(ps[1..], min));
      SumAppend(Counts(open, min), [0.0]);
      assert [0.0][1..] == [];
      CoveredAllNear(open, min);
      assert Lengths([]) == [];
      assert [] + ps[1..] == ps[1..];
      RunningIsCovered([], ps[1..], min);
    }
  }

  // ------------------------------------------------------------ properties

  lemma {:induction false} CoveredWithinLength(ps: seq<Piece>, min: real)
    requires Lengthy(ps)
    ensures 0.0 <= Covered(ps, min) <= LengthOf(ps)
  {
    SumNonNegative(Counts(ps, min));
    SumMonotone(Counts(ps, min), Lengths(ps));
  }

  lemma {:induction false} LengthsReverse(ps: seq<Piece>)
    ensures LengthOf(Reverse(ps)) == LengthOf(ps)
  {
    assert Lengths(Reverse(ps)) == Reverse(Lengths(ps));
    SumReverse(Lengths(ps));
  }

  lemma {:induction false} CountedReverse(ps: seq<Piece>, min: real, k: nat)
    requires k < |ps| && Counted(ps, min, k)
    ensures Counted(Reverse(ps), min, |ps| - 1 - k)
  {
    var lo: nat, hi: nat :| lo <= k < hi <= |ps| && LongStretch(ps, min, lo, hi);
    var n := |ps|;
    ReverseSlice(ps, lo, hi);
    LengthsReverse(ps[lo..hi]);
    assert LongStretch(Reverse(ps), min, n - hi, n - lo);
  }

  lemma {:induction false} CountedBack(ps: seq<Piece>, min: real, k: nat)
    requires k < |ps| && Counted(Reverse(ps), min, |ps| - 1 - k)
    ensures Counted(ps, min, k)
  {
    var rs, n := Reverse(ps), |ps| - 1 - k;
    ReverseReverse(ps);
    CountedReverse(rs, min, n);
  }

  /** Walked the other way, a line is covered as much. */
  lemma {:induction false} CoveredReverse(ps: seq<Piece>, min: real)
    ensures Covered(Reverse(ps), min) == Covered(ps, min)
  {
    var rs := Reverse(ps);
    forall k: nat | k < |ps| ensures Counted(rs, min, |ps| - 1 - k) <==> Counted(ps, min, k) {
      if Counted(ps, min, k) {
        CountedReverse(ps, min, k);
      } else if Counted(rs, min, |ps| - 1 - k) {
        CountedBack(ps, min, k);
      }
    }
    assert Counts(rs, min) == Reverse(Counts(ps, min));
    SumReverse(Counts(ps, min));
  }

  /** More pieces near, or shorter stretches counted, never cover less. */
  lemma {:induction false} CoveredMonotone(ps: seq<Piece>, qs: seq<Piece>, min: real, less: real)
    requires Lengthy(ps) && |ps| == |qs| && less <= min
    requires forall k :: 0 <= k < |ps| ==> ps[k].lengthM == qs[k].lengthM && (ps[k].near ==> qs[k].near)
    ensures Covered(ps, min) <= Covered(qs, less)
  {
    forall k | 0 <= k < |ps| && Counted(ps, min, k)
      ensures Counted(qs, less, k)
    {
      var lo: nat, hi: nat :| lo <= k < hi <= |ps| && LongStretch(ps, min, lo, hi);
      forall m | 0 <= m < hi - lo
        ensures qs[lo..hi][m].near && Lengths(ps[lo..hi])[m] == Lengths(qs[lo..hi])[m]
      {
        NearWithin(ps, lo, hi, lo + m);
      }
      assert Lengths(ps[lo..hi]) == Lengths(qs[lo..hi]);
      assert LongStretch(qs, less, lo, hi);
    }
    SumMonotone(Counts(ps, min), Counts(qs, less));
  }

  /** Anything covered at all means some piece is near. */
  lemma {:induction false} CoveredMeansNear(ps: seq<Piece>, min: real)
    requires Covered(ps, min) > 0.0
    ensures exists k :: 0 <= k < |ps| && ps[k].near
  {
    if forall k :: 0 <= k < |ps| ==> !ps[k].near {
      forall k | 0 <= k < |ps|
        ensures !Counted(ps, min, k)
      {
        forall lo: nat, hi: nat | lo <= k < hi <= |ps| ensures !LongStretch(ps, min, lo, hi) {
          assert ps[lo..hi][k - lo] == ps[k];
        }
      }
      SumAllEqual(Counts(ps, min), 0.0);
    }
  }
}
