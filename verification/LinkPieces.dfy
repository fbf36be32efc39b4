/**
  What the judgement of src/server/link_match.rs comes to on the ground: how
  finely lines are measured, that riding along a plan is following it, and
  that crossing it is not.
*/
module LinkPieces {
  import opened Wrappers
  import opened Reals
  import opened Sums
  import opened LineGrid
  import opened Stretches
  import opened LinkMatch
  import opened LinkCheck

  // ---------------------------------------------------- how fine the pieces

  lemma {:induction false} CeilIs(r: real)
    ensures r <= Ceil(r) as real < r + 1.0
  {
  }

  /** A segment is cut into as few pieces as come to at most ten metres each. */
  lemma {:induction false} PiecesFewest(segment: real, n: nat)
    requires segment >= 0.0
    ensures n == PieceCount(segment)
       <==> n >= 1 && segment <= 10.0 * n as real && (n > 1 ==> segment > 10.0 * (n - 1) as real)
  {
    CeilIs(segment / PIECE);
    assert segment / PIECE * 10.0 == segment;
  }

  lemma {:induction false} QuotientAtMost(d: real, n: nat, most: real)
    requires n > 0 && d <= most * n as real
    ensures d / n as real <= most
  {
    var q := d / n as real;
    assert q * n as real == d;
    if q > most { ProductPositive(q - most, n as real); }
  }

  /** Every piece is at most ten metres long. */
  lemma {:induction false} PiecesShort(h: Hypot, windows: Windows, near: Flat -> bool)
    requires IsHypot(h)
    ensures forall k :: 0 <= k < |PiecesOf(h, windows, near)| ==> 0.0 <= PiecesOf(h, windows, near)[k].lengthM <= 10.0
  {
    if windows != [] {
      var (a, b) := windows[0];
      var d := Distance(h, a, b);
      SegmentPiecesLength(h, a, b, near);
      PiecesFewest(d, PieceCount(d));
      QuotientAtMost(d, PieceCount(d), 10.0);
      PiecesShort(h, windows[1..], near);
    }
  }

  // ---------------------------------------------- a piece and its middle

  lemma {:induction false} ProductsAtMost(u: real, v: real, a: real, b: real)
    requires 0.0 <= u <= a && 0.0 <= v <= b
    ensures u * v <= a * b
  {
    ProductNonNegative(u, b - v);
    ProductNonNegative(a - u, b);
  }

  lemma {:induction false} DotAndCross(ux: real, uy: real, vx: real, vy: real)
    ensures Square(ux * vx + uy * vy) + Square(ux * vy - uy * vx)
         == (Square(ux) + Square(uy)) * (Square(vx) + Square(vy))
  {
  }

  lemma {:induction false} SquareNonNegative(r: real)
    ensures Square(r) >= 0.0
  {
    if r >= 0.0 { ProductNonNegative(r, r); } else { ProductNonNegative(-r, -r); }
  }

  lemma {:induction false} DotAtMost(ux: real, uy: real, vx: real, vy: real, a: real, b: real)
    requires a >= 0.0 && b >= 0.0
    requires Square(ux) + Square(uy) <= Square(a) && Square(vx) + Square(vy) <= Square(b)
    ensures ux * vx + uy * vy <= a * b
  {
    var dot, u, v := ux * vx + uy * vy, Square(ux) + Square(uy), Square(vx) + Square(vy);
    DotAndCross(ux, uy, vx, vy);
    SquareNonNegative(ux);
    SquareNonNegative(uy);
    SquareNonNegative(vx);
    SquareNonNegative(vy);
    SquareNonNegative(ux * vy - uy * vx);
    ProductsAtMost(u, v, Square(a), Square(b));
    assert Square(a) * Square(b) == Square(a * b);
    ProductNonNegative(a, b);
    if dot > a * b { SquareLess(a * b, dot); }
  }

  lemma {:induction false} SquareOfSum(u: real, v: real)
    ensures Square(u + v) == Square(u) + 2.0 * (u * v) + Square(v)
  {
  }

  lemma {:induction false} SumsWithin(ux: real, uy: real, vx: real, vy: real, a: real, b: real)
    requires a >= 0.0 && b >= 0.0
    requires Square(ux) + Square(uy) <= Square(a) && Square(vx) + Square(vy) <= Square(b)
    ensures Square(ux + vx) + Square(uy + vy) <= Square(a + b)
  {
    DotAtMost(ux, uy, vx, vy, a, b);
    SquareOfSum(ux, vx);
    SquareOfSum(uy, vy);
    SquareOfSum(a, b);
  }

  /** No way round is shorter. */
  lemma {:induction false} Triangle(p: Flat, m: Flat, q: Flat, a: real, b: real)
    requires Within(p, m, a) && Within(m, q, b)
    ensures Within(p, q, a + b)
  {
    SumsWithin(p.x - m.x, p.y - m.y, m.x - q.x, m.y - q.y, a, b);
    assert p.x - m.x + (m.x - q.x) == p.x - q.x && p.y - m.y + (m.y - q.y) == p.y - q.y;
  }

  lemma {:induction false} SquareOfProduct(a: real, b: real)
    ensures Square(a * b) == Square(a) * Square(b)
  {
  }

  lemma {:induction false} ScaledWithin(w: real, dx: real, dy: real, d: real, far: real)
    requires d >= 0.0 && Square(d) == Square(dx) + Square(dy) && AbsReal(w) * d <= far
    ensures far >= 0.0 && Square(w * dx) + Square(w * dy) <= Square(far)
  {
    var e := AbsReal(w);
    ProductNonNegative(e, d);
    SquareOfProduct(w, dx);
    SquareOfProduct(w, dy);
    SquareOfProduct(e, d);
    assert Square(e) == Square(w);
    assert Square(w) * Square(dx) + Square(w) * Square(dy) == Square(w) * Square(d);
    SquareOrder(e * d, far);
  }

  lemma {:induction false} OnApart(from: real, d: real, s: real, t: real)
    ensures Coordinate(from, d, s) - Coordinate(from, d, t) == (s - t) * d
  {
  }

  lemma {:induction false} LengthSquared(h: Hypot, a: Flat, b: Flat)
    requires IsHypot(h)
    ensures Distance(h, a, b) >= 0.0 && Square(Distance(h, a, b)) == Square(b.x - a.x) + Square(b.y - a.y)
  {
    assert Square(b.x - a.x) == Square(a.x - b.x) && Square(b.y - a.y) == Square(a.y - b.y);
  }

  lemma {:induction false} SharesApart(h: Hypot, a: Flat, b: Flat, s: real, t: real, far: real)
    requires IsHypot(h) && AbsReal(s - t) * Distance(h, a, b) <= far
    ensures Within(On(a, b, s), On(a, b, t), far)
  {
    LengthSquared(h, a, b);
    ScaledWithin(s - t, b.x - a.x, b.y - a.y, Distance(h, a, b), far);
    OnApart(a.x, b.x - a.x, s, t);
    OnApart(a.y, b.y - a.y, s, t);
  }

  /** Point `t` of a segment lies on its piece `i`. */
  ghost predicate OnPiece(pieces: nat, i: nat, t: real) {
    i as real <= t * pieces as real <= i as real + 1.0
  }

  lemma {:induction false} ShareFromMiddle(n: nat, i: nat, t: real, d: real)
    requires n > 0 && i < n && OnPiece(n, i, t) && 0.0 <= d <= 10.0 * n as real
    ensures AbsReal(t - (i as real + 0.5) / n as real) * d <= 5.0
  {
    var m := (i as real + 0.5) / n as real;
    var e := AbsReal(t - m);
    assert m * n as real == i as real + 0.5;
    assert (t - m) * n as real == t * n as real - m * n as real;
    assert e * n as real <= 0.5;
    calc {
      e * d;
    <= { ProductNonNegative(e, 10.0 * n as real - d); }
      e * (10.0 * n as real);
      10.0 * (e * n as real);
    }
  }

  lemma {:induction false} MiddleWithin(h: Hypot, a: Flat, b: Flat, i: nat, t: real)
    requires IsHypot(h) && i < PieceCount(Distance(h, a, b)) && OnPiece(PieceCount(Distance(h, a, b)), i, t)
    ensures Within(On(a, b, t), Middle(a, b, PieceCount(Distance(h, a, b)), i), 5.0)
  {
    var d := Distance(h, a, b);
    var n := PieceCount(d);
    assert d >= 0.0;
    PiecesFewest(d, n);
    ShareFromMiddle(n, i, t, d);
    SharesApart(h, a, b, t, (i as real + 0.5) / n as real, 5.0);
  }

  lemma {:induction false} NearFromThere(line: Line, tolerance: real, m: Flat, p: Flat, away: real)
    requires Near(line, tolerance, m) && Within(p, m, away)
    ensures Near(line, tolerance + away, p)
  {
    var i: nat, t: real :| NearAt(line, tolerance, m, i, t);
    Triangle(p, m, On(Segments(line)[i].0, Segments(line)[i].1, t), away, tolerance);
    assert NearAt(line, tolerance + away, p, i, t);
  }

  /**
    A piece is judged by its middle, but no point of it is misjudged by more
    than five metres.
  */
  lemma {:induction false} PieceIsNear(h: Hypot, a: Flat, b: Flat, line: Line, tolerance: real, i: nat, t: real)
    requires IsHypot(h) && i < PieceCount(Distance(h, a, b)) && OnPiece(PieceCount(Distance(h, a, b)), i, t)
    ensures var piece := SegmentPieces(h, a, b, NearLine(line, tolerance))[i];
            && (piece.near ==> Near(line, tolerance + 5.0, On(a, b, t)))
            && (!piece.near ==> !Near(line, tolerance - 5.0, On(a, b, t)))
  {
    var middle, p := Middle(a, b, PieceCount(Distance(h, a, b)), i), On(a, b, t);
    MiddleWithin(h, a, b, i, t);
    if Near(line, tolerance, middle) {
      NearFromThere(line, tolerance, middle, p, 5.0);
    }
    if Near(line, tolerance - 5.0, p) {
      WithinSymmetric(p, middle, 5.0);
      NearFromThere(line, tolerance - 5.0, p, middle, 5.0);
    }
  }

  // -------------------------------------------- too short a stretch is none

  lemma {:induction false} NoneLong(ps: seq<Piece>, min: real)
    requires forall lo: nat, hi: nat :: lo < hi <= |ps| ==> !LongStretch(ps, min, lo, hi)
    ensures Covered(ps, min) == 0.0
  {
    forall k | 0 <= k < |ps| ensures Counts(ps, min)[k] == 0.0 {
      assert !Counted(ps, min, k);
    }
    SumAllEqual(Counts(ps, min), 0.0);
  }

  lemma {:induction false} ProductsRegroup(a: real, b: real, n: real, piece: real)
    ensures (a * n - b * n) * piece == (a - b) * (piece * n)
  {
  }

  lemma {:induction false} ProductMonotone(a: real, b: real, d: real)
    requires a <= b && d >= 0.0
    ensures a * d <= b * d
  {
    ProductNonNegative(b - a, d);
  }

  lemma {:induction false} LengthAtMost(d: real, n: nat, lo: nat, hi: nat, from: real, to: real)
    requires n > 0 && 0.0 <= d <= 10.0 * n as real && lo < hi <= n
    requires from <= (lo as real + 0.5) / n as real && (hi as real - 0.5) / n as real <= to
    ensures (hi - lo) as real * (d / n as real) <= (to - from) * d + 10.0
  {
    var piece, first, last := d / n as real, (lo as real + 0.5) / n as real, (hi as real - 0.5) / n as real;
    assert piece * n as real == d && first * n as real == lo as real + 0.5 && last * n as real == hi as real - 0.5;
    QuotientAtMost(d, n, 10.0);
    ProductsRegroup(last, first, n as real, piece);
    ProductMonotone(last - first, to - from, d);
    OneMore(hi - lo - 1, piece);
  }

  lemma {:induction false} OneMore(k: int, piece: real)
    ensures (k + 1) as real * piece == k as real * piece + piece
  {
  }

  lemma {:induction false} MiddleBetween(h: Hypot, a: Flat, b: Flat, near: Flat -> bool, from: real, to: real, k: nat)
    requires k < |SegmentPieces(h, a, b, near)| && SegmentPieces(h, a, b, near)[k].near
    requires forall t: real :: 0.0 <= t <= 1.0 && near(On(a, b, t)) ==> from <= t <= to
    ensures from <= (k as real + 0.5) / PieceCount(Distance(h, a, b)) as real <= to
  {
    var n := PieceCount(Distance(h, a, b));
    var t := (k as real + 0.5) / n as real;
    ShareWithin(k as real + 0.5, n as real);
    assert SegmentPieces(h, a, b, near)[k] == Piece(Distance(h, a, b) / n as real, near(Middle(a, b, n, k)));
    assert Middle(a, b, n, k) == On(a, b, t);
  }

  lemma {:induction false} EndsBetween(h: Hypot, a: Flat, b: Flat, near: Flat -> bool, from: real, to: real, lo: nat,
                                       hi: nat)
    requires lo < hi <= PieceCount(Distance(h, a, b)) && AllNear(SegmentPieces(h, a, b, near)[lo..hi])
    requires forall t: real :: 0.0 <= t <= 1.0 && near(On(a, b, t)) ==> from <= t <= to
    ensures from <= (lo as real + 0.5) / PieceCount(Distance(h, a, b)) as real
    ensures (hi as real - 0.5) / PieceCount(Distance(h, a, b)) as real <= to
  {
    var ps := SegmentPieces(h, a, b, near);
    NearWithin(ps, lo, hi, lo);
    NearWithin(ps, lo, hi, hi - 1);
    MiddleBetween(h, a, b, near, from, to, lo);
    MiddleBetween(h, a, b, near, from, to, hi - 1);
    assert (hi - 1) as real + 0.5 == hi as real - 0.5;
  }

  lemma {:induction false} PiecesTogether(h: Hypot, a: Flat, b: Flat, near: Flat -> bool, lo: nat, hi: nat)
    requires lo < hi <= PieceCount(Distance(h, a, b))
    ensures LengthOf(SegmentPieces(h, a, b, near)[lo..hi])
         == (hi - lo) as real * (Distance(h, a, b) / PieceCount(Distance(h, a, b)) as real)
  {
    AllOneLength(SegmentPieces(h, a, b, near)[lo..hi], Distance(h, a, b) / PieceCount(Distance(h, a, b)) as real);
  }

  lemma {:induction false} FewEnough(h: Hypot, a: Flat, b: Flat)
    requires IsHypot(h)
    ensures 0.0 <= Distance(h, a, b) <= 10.0 * PieceCount(Distance(h, a, b)) as real
  {
    assert Distance(h, a, b) >= 0.0;
    PiecesFewest(Distance(h, a, b), PieceCount(Distance(h, a, b)));
  }

  /** Where a segment is near nowhere but from one share to another, no stretch of pieces is much longer. */
  lemma {:induction false} StretchShort(h: Hypot, a: Flat, b: Flat, near: Flat -> bool, from: real, to: real, lo: nat,
                                        hi: nat)
    requires IsHypot(h) && lo < hi <= PieceCount(Distance(h, a, b)) && AllNear(SegmentPieces(h, a, b, near)[lo..hi])
    requires forall t: real :: 0.0 <= t <= 1.0 && near(On(a, b, t)) ==> from <= t <= to
    ensures LengthOf(SegmentPieces(h, a, b, near)[lo..hi]) <= (to - from) * Distance(h, a, b) + 10.0
  {
    FewEnough(h, a, b);
    EndsBetween(h, a, b, near, from, to, lo, hi);
    PiecesTogether(h, a, b, near, lo, hi);
    LengthAtMost(Distance(h, a, b), PieceCount(Distance(h, a, b)), lo, hi, from, to);
  }

  lemma {:induction false} AllOneLength(ps: seq<Piece>, length: real)
    requires forall k :: 0 <= k < |ps| ==> ps[k].lengthM == length
    ensures LengthOf(ps) == |ps| as real * length
  {
    SumAllEqual(Lengths(ps), length);
  }

  /** A straight line near another for less than a stretch, but for the ten metres of a piece, is not covered at all. */
  lemma {:induction false} GlimpseIsNone(h: Hypot, a: Flat, b: Flat, near: Flat -> bool, from: real, to: real,
                                         minStretch: real)
    requires IsHypot(h) && (to - from) * Distance(h, a, b) + 10.0 < minStretch
    requires forall t: real :: 0.0 <= t <= 1.0 && near(On(a, b, t)) ==> from <= t <= to
    ensures AlongLine(h, [a, b], near, minStretch).covered == 0.0
  {
    var ps := SegmentPieces(h, a, b, near);
    assert WindowsOf([a, b]) == [(a, b)] && [(a, b)][1..] == [];
    assert PiecesOf(h, [(a, b)], near) == ps + PiecesOf(h, [], near) == ps;
    forall lo: nat, hi: nat | lo < hi <= |ps| ensures !LongStretch(ps, minStretch, lo, hi) {
      if AllNear(ps[lo..hi]) {
        StretchShort(h, a, b, near, from, to, lo, hi);
      }
    }
    NoneLong(ps, minStretch);
  }

  /** A plan straight to the east, and a trip that crosses its middle. */
  const CROSSED: Line := [Flat(0.0, 0.0), Flat(1000.0, 0.0)]

  const CROSSING: Line := [Flat(500.0, -1000.0), Flat(500.0, 1000.0)]

  lemma {:induction false} SquareAtMost(u: real, most: real)
    requires most >= 0.0 && Square(u) <= Square(most)
    ensures -most <= u <= most
  {
    assert Square(-u) == Square(u);
    if u >= 0.0 { SquareOrder(u, most); } else { SquareOrder(-u, most); }
  }

  lemma {:induction false} WithinOnAxis(u: real, v: real, tolerance: real)
    requires tolerance >= 0.0 && Square(u) + Square(v) <= Square(tolerance)
    ensures -tolerance <= u <= tolerance && -tolerance <= v <= tolerance
  {
    SquareNonNegative(u);
    SquareNonNegative(v);
    SquareAtMost(u, tolerance);
    SquareAtMost(v, tolerance);
  }

  lemma {:induction false} NearCrossing(tolerance: real, p: Flat)
    ensures Near(CROSSING, tolerance, p) ==> tolerance >= 0.0 && -tolerance <= p.x - 500.0 <= tolerance
    ensures Near(CROSSED, tolerance, p) ==> tolerance >= 0.0 && -tolerance <= p.y <= tolerance
  {
    if Near(CROSSING, tolerance, p) {
      var i: nat, t: real :| NearAt(CROSSING, tolerance, p, i, t);
      var q := On(CROSSING[0], CROSSING[1], t);
      WithinOnAxis(p.x - q.x, p.y - q.y, tolerance);
    }
    if Near(CROSSED, tolerance, p) {
      var i: nat, t: real :| NearAt(CROSSED, tolerance, p, i, t);
      var q := On(CROSSED[0], CROSSED[1], t);
      WithinOnAxis(p.x - q.x, p.y - q.y, tolerance);
    }
  }

  lemma {:induction false} LengthIs(h: Hypot, a: Flat, b: Flat, d: real)
    requires IsHypot(h) && d >= 0.0 && Square(a.x - b.x) + Square(a.y - b.y) == Square(d)
    ensures Distance(h, a, b) == d
  {
    var e := Distance(h, a, b);
    assert e >= 0.0 && Square(e) == Square(d);
    SquareOrder(e, d);
    SquareOrder(d, e);
  }

  lemma {:induction false} CrossingNotCovered(h: Hypot)
    requires IsHypot(h)
    ensures PlanRun(h, CROSSING, CROSSED, CONFIGURED).covered == 0.0
    ensures TripRun(h, CROSSING, CROSSED, CONFIGURED).covered == 0.0
  {
    var (a, b, c, d) := (CROSSED[0], CROSSED[1], CROSSING[0], CROSSING[1]);
    LengthIs(h, a, b, 1000.0);
    LengthIs(h, c, d, 2000.0);
    forall t: real | 0.0 <= t <= 1.0 && Near(CROSSING, 50.0, On(a, b, t)) ensures 0.45 <= t <= 0.55 {
      NearCrossing(50.0, On(a, b, t));
    }
    forall t: real | 0.0 <= t <= 1.0 && Near(CROSSED, 50.0, On(c, d, t)) ensures 0.475 <= t <= 0.525 {
      NearCrossing(50.0, On(c, d, t));
    }
    GlimpseIsNone(h, a, b, NearLine(CROSSING, 50.0), 0.45, 0.55, 200.0);
    GlimpseIsNone(h, c, d, NearLine(CROSSED, 50.0), 0.475, 0.525, 200.0);
  }

  lemma {:induction false} NoneReached(h: Hypot, hit: seq<bool>)
    requires forall k :: 0 <= k < |hit| ==> !hit[k]
    ensures CountTrue(hit) == 0
  {
    if hit != [] {
      NoneReached(h, hit[1..]);
    }
  }

  /** Crossing a plan is not following it, though it comes near a point that stands for a piece. */
  lemma {:induction false} CrossingNotFollowed(h: Hypot)
    requires IsHypot(h)
    ensures Following(h, CROSSING, CROSSED, CONFIGURED) == None
  {
    CrossingNotCovered(h);
    var hit := ReachedPoints(CROSSED, CROSSING, CONFIGURED.pointTolerance);
    forall k | 0 <= k < 2 ensures !hit[k] {
      NearCrossing(200.0, CROSSED[k]);
    }
    NoneReached(h, hit);
    assert forall i: nat, j: nat :: !ReachedInARow(h, CROSSED, hit, 3, 2000.0, i, j);
  }

  // ------------------------------------------------- riding along is following

  lemma {:induction false} CoveredAtLeast(ps: seq<Piece>, min: real, lo: nat, hi: nat)
    requires Lengthy(ps) && lo <= hi <= |ps| && LongStretch(ps, min, lo, hi)
    ensures Covered(ps, min) >= LengthOf(ps[lo..hi])
  {
    forall k | lo <= k < hi ensures Counts(ps, min)[k] == ps[k].lengthM {
      assert Counted(ps, min, k);
    }
    assert Counts(ps, min)[lo..hi] == Lengths(ps[lo..hi]);
    SumSlice(Counts(ps, min), lo, hi);
  }

  lemma {:induction false} NearItself(line: Line, tolerance: real, a: Flat, b: Flat, t: real)
    requires tolerance >= 0.0 && (a, b) in Segments(line) && 0.0 <= t <= 1.0
    ensures Near(line, tolerance, On(a, b, t))
  {
    var i: nat :| i < |Segments(line)| && Segments(line)[i] == (a, b);
    SquareNonNegative(tolerance);
    assert NearAt(line, tolerance, On(a, b, t), i, t);
  }

  lemma {:induction false} OwnPiecesNear(h: Hypot, windows: Windows, other: Line, tolerance: real)
    requires tolerance >= 0.0 && forall w :: 0 <= w < |windows| ==> windows[w] in Segments(other)
    ensures AllNear(PiecesOf(h, windows, NearLine(other, tolerance)))
  {
    if windows != [] {
      var (a, b) := windows[0];
      assert windows[0] in Segments(other);
      var n := PieceCount(Distance(h, a, b));
      forall i | 0 <= i < n ensures Near(other, tolerance, Middle(a, b, n, i)) {
        ShareWithin(i as real + 0.5, n as real);
        NearItself(other, tolerance, a, b, (i as real + 0.5) / n as real);
      }
      OwnPiecesNear(h, windows[1..], other, tolerance);
    }
  }

  lemma {:induction false} WindowsSplit(line: Line, i: nat, j: nat)
    requires i + 1 < j <= |line|
    ensures WindowsOf(line) == WindowsOf(line)[..i] + (WindowsOf(line[i..j]) + WindowsOf(line)[j - 1..])
  {
    WindowsOfPart(line, i, j);
    ThreeParts(WindowsOf(line), i, j - 1);
  }

  lemma {:induction false} WindowsOfPart(line: Line, i: nat, j: nat)
    requires i + 1 < j <= |line|
    ensures WindowsOf(line[i..j]) == WindowsOf(line)[i..j - 1]
  {
  }

  lemma {:induction false} ThreeParts<T>(s: seq<T>, i: nat, j: nat)
    requires i <= j <= |s|
    ensures s == s[..i] + (s[i..j] + s[j..])
  {
  }

  lemma {:induction false} MiddleOfThree<T>(a: seq<T>, b: seq<T>, c: seq<T>)
    ensures (a + (b + c))[|a|..|a| + |b|] == b
  {
  }

  lemma {:induction false} PartOfPieces(h: Hypot, line: Line, i: nat, j: nat, near: Flat -> bool)
    returns (lo: nat, hi: nat)
    requires i + 1 < j <= |line|
    ensures lo <= hi <= |PiecesOf(h, WindowsOf(line), near)|
    ensures PiecesOf(h, WindowsOf(line), near)[lo..hi] == PiecesOf(h, WindowsOf(line[i..j]), near)
  {
    var before, part, after := WindowsOf(line)[..i], WindowsOf(line[i..j]), WindowsOf(line)[j - 1..];
    WindowsSplit(line, i, j);
    PiecesAppend(h, before, part + after, near);
    PiecesAppend(h, part, after, near);
    var x, y, z := PiecesOf(h, before, near), PiecesOf(h, part, near), PiecesOf(h, after, near);
    lo, hi := |x|, |x| + |y|;
    MiddleOfThree(x, y, z);
  }

  /** A part of one line that runs on another covers it for as long, if it is long enough to count. */
  lemma {:induction false} PartCovered(h: Hypot, line: Line, i: nat, j: nat, other: Line, tolerance: real, min: real)
    requires IsHypot(h) && tolerance >= 0.0 && i + 1 < j <= |line| && PathLength(h, line[i..j]) >= min
    requires forall w :: 0 <= w < |WindowsOf(line[i..j])| ==> WindowsOf(line[i..j])[w] in Segments(other)
    ensures AlongLine(h, line, NearLine(other, tolerance), min).covered >= PathLength(h, line[i..j])
  {
    var near, part := NearLine(other, tolerance), WindowsOf(line[i..j]);
    var lo, hi := PartOfPieces(h, line, i, j, near);
    PiecesLength(h, WindowsOf(line), near);
    PiecesLength(h, part, near);
    OwnPiecesNear(h, part, other, tolerance);
    CoveredAtLeast(PiecesOf(h, WindowsOf(line), near), min, lo, hi);
  }

  lemma {:induction false} PartWindows(line: Line, i: nat, j: nat, w: nat)
    requires i + 1 < j <= |line| && w < |WindowsOf(line[i..j])|
    ensures WindowsOf(line[i..j])[w] in Segments(line)
  {
    WindowsOfPart(line, i, j);
    assert Segments(line) == WindowsOf(line);
    assert WindowsOf(line)[i..j - 1][w] == WindowsOf(line)[i + w];
  }

  /** Two lines have a part in common, each from one of its points to another. */
  ghost predicate Shares(a: Line, i: nat, j: nat, b: Line, k: nat, l: nat) {
    i + 1 < j <= |a| && k + 1 < l <= |b| && a[i..j] == b[k..l]
  }

  lemma {:induction false} SharedCovered(h: Hypot, a: Line, i: nat, j: nat, b: Line, k: nat, l: nat, tolerance: real,
                                         min: real)
    requires IsHypot(h) && tolerance >= 0.0 && Shares(a, i, j, b, k, l) && PathLength(h, a[i..j]) >= min
    ensures AlongLine(h, a, NearLine(b, tolerance), min).covered >= PathLength(h, a[i..j])
  {
    forall w | 0 <= w < |WindowsOf(a[i..j])| ensures WindowsOf(a[i..j])[w] in Segments(b) {
      PartWindows(b, k, l, w);
    }
    PartCovered(h, a, i, j, b, tolerance, min);
  }

  lemma {:induction false} ShareAtLeast(part: real, share: real, run: Run)
    requires run.covered >= part >= share * run.length && run.length > 0.0
    ensures run.Share() >= share
  {
    var q := run.covered / run.length;
    assert q * run.length == run.covered;
    if q < share { ProductPositive(share - q, run.length); }
  }

  /** A part ridden is enough: of the plan, of the trip and long, or just very long. */
  ghost predicate Enough(part: real, plan: real, trip: real, r: Rules) {
    && part > 0.0 && part >= r.minStretch
    && (part >= r.planCoveredShare * plan
        || (part >= r.tripOnPlanShare * trip && part >= r.minCovered)
        || part >= r.minShared)
  }

  lemma {:induction false} EnoughJudged(part: real, planRun: Run, tripRun: Run, r: Rules)
    requires part <= planRun.covered && part <= tripRun.covered && part <= planRun.length && part <= tripRun.length
    requires Enough(part, planRun.length, tripRun.length, r)
    ensures JudgedByLine(planRun, tripRun, r)
  {
    if part >= r.planCoveredShare * planRun.length {
      ShareAtLeast(part, r.planCoveredShare, planRun);
    }
    if part >= r.tripOnPlanShare * tripRun.length {
      ShareAtLeast(part, r.tripOnPlanShare, tripRun);
    }
  }

  lemma {:induction false} PartWithin(h: Hypot, line: Line, i: nat, j: nat)
    requires IsHypot(h) && i < j <= |line|
    ensures PathLength(h, line[i..j]) <= PathLength(h, line)
  {
    assert line[0..|line|] == line;
    PathWithinPath(h, line, 0, i, j, |line|);
  }

  /** A trip that rode enough of a plan along its line followed it, by its line. */
  lemma {:induction false} SharedPartFollowed(h: Hypot, trip: Line, k: nat, l: nat, plan: Line, i: nat, j: nat,
                                              r: Rules)
    requires IsHypot(h) && r.lineTolerance >= 0.0 && Shares(plan, i, j, trip, k, l)
    requires Enough(PathLength(h, plan[i..j]), PathLength(h, plan), PathLength(h, trip), r)
    ensures Following(h, trip, plan, r).Some? && Following(h, trip, plan, r).value.judged == ByLine
    ensures PlanRun(h, trip, plan, r).covered >= PathLength(h, plan[i..j])
    ensures TripRun(h, trip, plan, r).covered >= PathLength(h, plan[i..j])
  {
    var part, planRun, tripRun := PathLength(h, plan[i..j]), PlanRun(h, trip, plan, r), TripRun(h, trip, plan, r);
    SharedCovered(h, plan, i, j, trip, k, l, r.lineTolerance, r.minStretch);
    SharedCovered(h, trip, k, l, plan, i, j, r.lineTolerance, r.minStretch);
    PartWithin(h, plan, i, j);
    PartWithin(h, trip, k, l);
    EnoughJudged(part, planRun, tripRun, r);
  }

  lemma {:induction false} AllCounted(hit: seq<bool>)
    requires forall k :: 0 <= k < |hit| ==> hit[k]
    ensures CountTrue(hit) == |hit|
  {
    if hit != [] {
      AllCounted(hit[1..]);
    }
  }

  /** A trip that came by every point of a plan of enough of them followed it, wherever it went between. */
  lemma {:induction false} AllPointsFollowed(h: Hypot, trip: Line, plan: Line, r: Rules)
    requires |trip| >= 2 && |plan| >= r.minPointRun && plan != [] && r.pointsReachedShare <= 1.0
    requires forall k :: 0 <= k < |plan| ==> Near(trip, r.pointTolerance, plan[k])
    ensures Following(h, trip, plan, r).Some? && Following(h, trip, plan, r).value.pointsReached == 1.0
  {
    var n := |plan|;
    AllCounted(ReachedPoints(plan, trip, r.pointTolerance));
    WholeIsOne(n as real);
    assert MostReached(n, n, r);
    assert JudgedByPoints(h, trip, plan, r);
  }

  lemma {:induction false} WholeIsOne(whole: real)
    requires whole > 0.0
    ensures whole / whole == 1.0
  {
  }

  lemma {:induction false} AllPiecesNear(h: Hypot, line: Line, windows: Windows, near: Flat -> bool)
    requires forall p :: OnLine(line, p) ==> near(p)
    requires forall w :: 0 <= w < |windows| ==> windows[w] in Segments(line)
    ensures AllNear(PiecesOf(h, windows, near))
  {
    if windows != [] {
      var (a, b) := windows[0];
      assert windows[0] in Segments(line);
      var n := PieceCount(Distance(h, a, b));
      forall i | 0 <= i < n ensures near(Middle(a, b, n, i)) {
        MiddleOnLine(line, a, b, n, i);
      }
      AllPiecesNear(h, line, windows[1..], near);
    }
  }

  /** A line near all along is covered from end to end. */
  lemma {:induction false} AllCovered(h: Hypot, line: Line, near: Flat -> bool, min: real)
    requires IsHypot(h) && PathLength(h, line) >= min && PathLength(h, line) > 0.0
    requires forall p :: OnLine(line, p) ==> near(p)
    ensures AlongLine(h, line, near, min).Share() == 1.0
  {
    var ws := WindowsOf(line);
    forall w | 0 <= w < |ws| ensures ws[w] in Segments(line) {
      assert Segments(line)[w] == ws[w];
    }
    AllPiecesNear(h, line, ws, near);
    PiecesLength(h, ws, near);
    CoveredAllNear(PiecesOf(h, ws, near), min);
    WholeIsOne(PathLength(h, line));
  }

  /** A trip that came by enough points of a plan in a row, far enough apart, and never left its band followed it. */
  lemma {:induction false} RowInBandFollowed(h: Hypot, trip: Line, plan: Line, r: Rules, i: nat, j: nat)
    requires IsHypot(h) && |trip| >= 2 && i < j <= |plan| && j - i >= r.minPointRun && r.tripOnPlanShare <= 1.0
    requires forall k :: i <= k < j ==> Near(trip, r.pointTolerance, plan[k])
    requires PathLength(h, plan[i..j]) >= r.minCovered
    requires PathLength(h, trip) >= r.minStretch && PathLength(h, trip) > 0.0
    requires forall p :: OnLine(trip, p) ==> Near(plan, r.band, p)
    ensures Following(h, trip, plan, r).Some?
  {
    var hit := ReachedPoints(plan, trip, r.pointTolerance);
    AllCovered(h, trip, NearLine(plan, r.band), r.minStretch);
    assert ReachedInARow(h, plan, hit, r.minPointRun, r.minCovered, i, j);
  }

  // ------------------------------------------------------- the rules in full

  /** How far `line` runs within the tolerance of another, counting only stretches long enough. */
  ghost function RunsNear(h: Hypot, line: Line, other: Line, tolerance: real, minStretch: real): real {
    Covered(PiecesOf(h, WindowsOf(line), NearLine(other, tolerance)), minStretch)
  }

  ghost function PointsNear(plan: Line, trip: Line, tolerance: real): (near: set<nat>)
    ensures forall k: nat :: k in near <==> k < |plan| && Near(trip, tolerance, plan[k])
  {
    set k: nat | k < |plan| && Near(trip, tolerance, plan[k])
  }

  /** A share of a line's length, of a line that has any. */
  ghost predicate ShareOf(part: real, share: real, length: real) {
    length > 0.0 && part >= share * length
  }

  /** Most of the plan was ridden, or most of the trip on enough of it, or very much of it. */
  ghost predicate LineRules(h: Hypot, trip: Line, plan: Line, r: Rules) {
    var onTrip := RunsNear(h, plan, trip, r.lineTolerance, r.minStretch);
    || ShareOf(onTrip, r.planCoveredShare, PathLength(h, plan))
    || (ShareOf(RunsNear(h, trip, plan, r.lineTolerance, r.minStretch), r.tripOnPlanShare, PathLength(h, trip))
        && onTrip >= r.minCovered)
    || onTrip >= r.minShared
  }

  /** A row of the plan's points were reached, enough of them and far enough apart. */
  ghost predicate RowReached(h: Hypot, plan: Line, near: set<nat>, r: Rules, i: nat, j: nat) {
    && i < j <= |plan| && j - i >= r.minPointRun && (forall k: nat :: i <= k < j ==> k in near)
    && PathLength(h, plan[i..j]) >= r.minCovered
  }

  /** Most of the plan's points were reached, or a row of them by a trip that was mostly within the band. */
  ghost predicate PointRules(h: Hypot, trip: Line, plan: Line, r: Rules) {
    var near := PointsNear(plan, trip, r.pointTolerance);
    || MostNear(|near|, |plan|, r)
    || (SomeRowReached(h, plan, near, r)
        && ShareOf(RunsNear(h, trip, plan, r.band, r.minStretch), r.tripOnPlanShare, PathLength(h, trip)))
  }

  ghost predicate MostNear(count: nat, points: nat, r: Rules) {
    count >= r.minPointRun && count as real >= r.pointsReachedShare * points as real
  }

  ghost predicate SomeRowReached(h: Hypot, plan: Line, near: set<nat>, r: Rules) {
    exists i: nat, j: nat :: RowReached(h, plan, near, r, i, j)
  }

  lemma {:induction false} ShareIsOf(run: Run, share: real)
    requires share > 0.0 && 0.0 <= run.covered <= run.length
    ensures run.Share() >= share <==> ShareOf(run.covered, share, run.length)
    ensures run.Share() * run.length == run.covered
  {
    if run.length > 0.0 {
      var q := run.covered / run.length;
      assert q * run.length == run.covered;
      ProductOrder(q, share, run.length);
    }
  }

  lemma {:induction false} CountLast(hit: seq<bool>, last: bool)
    ensures CountTrue(hit + [last]) == CountTrue(hit) + if last then 1 else 0
  {
    CountAppend(hit, [last]);
    assert [last][1..] == [];
  }

  lemma {:induction false} WithoutLast(near: set<nat>, n: nat)
    ensures |near| == |near - {n}| + if n in near then 1 else 0
  {
    if n in near {
      assert near == near - {n} + {n};
    } else {
      assert near == near - {n};
    }
  }

  lemma {:induction false} CountIsSize(hit: seq<bool>, near: set<nat>)
    requires forall k: nat :: k in near <==> k < |hit| && hit[k]
    ensures CountTrue(hit) == |near|
    decreases |hit|
  {
    if hit == [] {
      assert near == {};
    } else {
      var n := |hit| - 1;
      forall k: nat ensures k in near - {n} <==> k < |hit[..n]| && hit[..n][k] {
        assert k in near <==> k < |hit| && hit[k];
      }
      CountIsSize(hit[..n], near - {n});
      WithoutLast(near, n);
      CountLast(hit[..n], hit[n]);
      assert hit == hit[..n] + [hit[n]];
    }
  }

  lemma {:induction false} NearIsHit(plan: Line, trip: Line, tolerance: real, k: nat)
    ensures k in PointsNear(plan, trip, tolerance) <==> k < |plan| && ReachedPoints(plan, trip, tolerance)[k]
  {
  }

  lemma {:induction false} RowIsRow(h: Hypot, trip: Line, plan: Line, r: Rules, i: nat, j: nat)
    ensures ReachedInARow(h, plan, ReachedPoints(plan, trip, r.pointTolerance), r.minPointRun, r.minCovered, i, j)
       <==> RowReached(h, plan, PointsNear(plan, trip, r.pointTolerance), r, i, j)
  {
    var hit, near := ReachedPoints(plan, trip, r.pointTolerance), PointsNear(plan, trip, r.pointTolerance);
    if i < j <= |plan| {
      forall k: nat | i <= k < j ensures hit[k] <==> k in near {
        NearIsHit(plan, trip, r.pointTolerance, k);
      }
      if forall k: nat :: i <= k < j ==> k in near {
        forall k | i <= k < j ensures hit[k] {
          var m: nat := k;
          assert m in near;
        }
      }
    }
  }

  lemma {:induction false} RowsAreRows(h: Hypot, trip: Line, plan: Line, r: Rules)
    ensures LongRow(h, plan, ReachedPoints(plan, trip, r.pointTolerance), r.minPointRun, r.minCovered)
       <==> SomeRowReached(h, plan, PointsNear(plan, trip, r.pointTolerance), r)
  {
    forall i: nat, j: nat
      ensures ReachedInARow(h, plan, ReachedPoints(plan, trip, r.pointTolerance), r.minPointRun, r.minCovered, i, j)
         <==> RowReached(h, plan, PointsNear(plan, trip, r.pointTolerance), r, i, j)
    {
      RowIsRow(h, trip, plan, r, i, j);
    }
  }

  /** As many points are counted as are near. */
  lemma {:induction false} CountedAreNear(plan: Line, trip: Line, tolerance: real)
    ensures CountTrue(ReachedPoints(plan, trip, tolerance)) == |PointsNear(plan, trip, tolerance)|
  {
    var hit, near := ReachedPoints(plan, trip, tolerance), PointsNear(plan, trip, tolerance);
    forall k: nat ensures k in near <==> k < |hit| && hit[k] {
      NearIsHit(plan, trip, tolerance, k);
    }
    CountIsSize(hit, near);
  }

  lemma {:induction false} LineRulesAre(h: Hypot, trip: Line, plan: Line, r: Rules)
    requires IsHypot(h) && Demanding(r)
    ensures JudgedByLine(PlanRun(h, trip, plan, r), TripRun(h, trip, plan, r), r) <==> LineRules(h, trip, plan, r)
  {
    RunWithinLine(h, plan, NearLine(trip, r.lineTolerance), r.minStretch);
    RunWithinLine(h, trip, NearLine(plan, r.lineTolerance), r.minStretch);
    ShareIsOf(PlanRun(h, trip, plan, r), r.planCoveredShare);
    ShareIsOf(TripRun(h, trip, plan, r), r.tripOnPlanShare);
  }

  lemma {:induction false} ProductOrder(q: real, share: real, n: real)
    requires n > 0.0
    ensures q >= share <==> q * n >= share * n
  {
    if q >= share { ProductMonotone(share, q, n); } else { ProductPositive(share - q, n); }
  }

  lemma {:induction false} PartIs(count: nat, points: nat, share: real)
    requires points > 0
    ensures count as real / points as real >= share <==> count as real >= share * points as real
  {
    QuotientBack(count, points);
    ProductOrder(count as real / points as real, share, points as real);
  }

  lemma {:induction false} MostIs(count: nat, points: nat, r: Rules)
    requires points > 0
    ensures MostReached(count, points, r) <==> MostNear(count, points, r)
  {
    PartIs(count, points, r.pointsReachedShare);
  }

  lemma {:induction false} BandIs(h: Hypot, trip: Line, plan: Line, r: Rules)
    requires IsHypot(h) && Demanding(r)
    ensures AlongLine(h, trip, NearLine(plan, r.band), r.minStretch).Share() >= r.tripOnPlanShare
       <==> ShareOf(RunsNear(h, trip, plan, r.band, r.minStretch), r.tripOnPlanShare, PathLength(h, trip))
  {
    RunWithinLine(h, trip, NearLine(plan, r.band), r.minStretch);
    ShareIsOf(AlongLine(h, trip, NearLine(plan, r.band), r.minStretch), r.tripOnPlanShare);
  }

  lemma {:induction false} MostAre(trip: Line, plan: Line, r: Rules)
    requires plan != []
    ensures MostReached(CountTrue(ReachedPoints(plan, trip, r.pointTolerance)), |plan|, r)
       <==> MostNear(|PointsNear(plan, trip, r.pointTolerance)|, |plan|, r)
  {
    CountedAreNear(plan, trip, r.pointTolerance);
    MostIs(|PointsNear(plan, trip, r.pointTolerance)|, |plan|, r);
  }

  lemma {:induction false} PointRulesAre(h: Hypot, trip: Line, plan: Line, r: Rules)
    requires IsHypot(h) && Demanding(r) && plan != []
    ensures JudgedByPoints(h, trip, plan, r) <==> PointRules(h, trip, plan, r)
  {
    MostAre(trip, plan, r);
    RowsAreRows(h, trip, plan, r);
    BandIs(h, trip, plan, r);
  }

  /** The figures of a coverage by its lines. */
  ghost predicate FiguresAre(h: Hypot, trip: Line, plan: Line, r: Rules, c: Coverage) {
    && c.planCovered * PathLength(h, plan) == RunsNear(h, plan, trip, r.lineTolerance, r.minStretch)
    && c.tripOnPlan * PathLength(h, trip) == RunsNear(h, trip, plan, r.lineTolerance, r.minStretch)
    && (PathLength(h, plan) == 0.0 ==> c.planCovered == 0.0) && (PathLength(h, trip) == 0.0 ==> c.tripOnPlan == 0.0)
  }

  lemma {:induction false} FiguresOf(h: Hypot, trip: Line, plan: Line, r: Rules)
    requires IsHypot(h) && Following(h, trip, plan, r).Some?
    ensures FiguresAre(h, trip, plan, r, Following(h, trip, plan, r).value)
  {
    FiguresFrom(h, trip, plan, r);
    LineFiguresAre(h, trip, plan, r, Following(h, trip, plan, r).value);
  }

  lemma {:induction false} FiguresFrom(h: Hypot, trip: Line, plan: Line, r: Rules)
    requires Following(h, trip, plan, r).Some?
    ensures plan != []
    ensures Following(h, trip, plan, r).value.planCovered == PlanRun(h, trip, plan, r).Share()
    ensures Following(h, trip, plan, r).value.tripOnPlan == TripRun(h, trip, plan, r).Share()
  {
  }

  /** The figure by its points: those near, of all there are. */
  lemma {:induction false} PointFigureExactly(h: Hypot, trip: Line, plan: Line, r: Rules)
    requires Following(h, trip, plan, r).Some?
    ensures plan != []
    ensures Following(h, trip, plan, r).value.pointsReached
         == |PointsNear(plan, trip, r.pointTolerance)| as real / |plan| as real
  {
    CountedAreNear(plan, trip, r.pointTolerance);
  }

  lemma {:induction false} RunFigure(h: Hypot, line: Line, other: Line, tolerance: real, minStretch: real)
    requires IsHypot(h)
    ensures var share := AlongLine(h, line, NearLine(other, tolerance), minStretch).Share();
            && share * PathLength(h, line) == RunsNear(h, line, other, tolerance, minStretch)
            && (PathLength(h, line) == 0.0 ==> share == 0.0)
  {
    RunWithinLine(h, line, NearLine(other, tolerance), minStretch);
    ShareBack(AlongLine(h, line, NearLine(other, tolerance), minStretch));
  }

  lemma {:induction false} LineFiguresAre(h: Hypot, trip: Line, plan: Line, r: Rules, c: Coverage)
    requires IsHypot(h)
    requires c.planCovered == PlanRun(h, trip, plan, r).Share() && c.tripOnPlan == TripRun(h, trip, plan, r).Share()
    ensures FiguresAre(h, trip, plan, r, c)
  {
    RunFigure(h, plan, trip, r.lineTolerance, r.minStretch);
    RunFigure(h, trip, plan, r.lineTolerance, r.minStretch);
  }

  lemma {:induction false} ShareBack(run: Run)
    requires 0.0 <= run.covered <= run.length
    ensures run.Share() * run.length == run.covered && (run.length == 0.0 ==> run.Share() == 0.0)
  {
  }

  lemma {:induction false} QuotientBack(count: nat, points: nat)
    requires points > 0
    ensures count as real / points as real * points as real == count as real
  {
  }

  /**
    The judgement, rule by rule and without a quotient: followed by its line,
    else by its points, else not, and with which figures.
  */
  lemma {:induction false} FollowedExactly(h: Hypot, trip: Line, plan: Line, r: Rules)
    requires IsHypot(h) && Demanding(r)
    ensures var following := Following(h, trip, plan, r);
            && (following.Some? <==>
                  plan != [] && |trip| >= 2 && (LineRules(h, trip, plan, r) || PointRules(h, trip, plan, r)))
            && (following.Some? ==>
                  && FiguresAre(h, trip, plan, r, following.value)
                  && (following.value.judged == ByLine <==> LineRules(h, trip, plan, r)))
  {
    LineRulesAre(h, trip, plan, r);
    if plan != [] {
      PointRulesAre(h, trip, plan, r);
    }
    if Following(h, trip, plan, r).Some? {
      FiguresOf(h, trip, plan, r);
    }
  }

  /** The thresholds set: in metres, shares and points. */
  lemma {:induction false} FollowedAsConfigured(h: Hypot, trip: Line, plan: Line)
    requires IsHypot(h)
    ensures Following(h, trip, plan, CONFIGURED).Some? <==>
              && plan != [] && |trip| >= 2
              && var onTrip, near := RunsNear(h, plan, trip, 50.0, 200.0), PointsNear(plan, trip, 200.0);
                 || ShareOf(onTrip, 0.8, PathLength(h, plan))
                 || (ShareOf(RunsNear(h, trip, plan, 50.0, 200.0), 0.7, PathLength(h, trip)) && onTrip >= 2000.0)
                 || onTrip >= 30000.0
                 || (|near| >= 3 && |near| as real >= 0.8 * |plan| as real)
                 || (ShareOf(RunsNear(h, trip, plan, 300.0, 200.0), 0.7, PathLength(h, trip))
                     && exists i: nat, j: nat :: i + 3 <= j <= |plan| && (forall k: nat :: i <= k < j ==> k in near)
                                                 && PathLength(h, plan[i..j]) >= 2000.0)
  {
    FollowedExactly(h, trip, plan, CONFIGURED);
    var near := PointsNear(plan, trip, 200.0);
    forall i: nat, j: nat
      ensures RowReached(h, plan, near, CONFIGURED, i, j) <==>
                i + 3 <= j <= |plan| && (forall k: nat :: i <= k < j ==> k in near)
                && PathLength(h, plan[i..j]) >= 2000.0
    {
    }
  }

  /** A waypoint is passed within fifty metres. */
  lemma {:induction false} PassedAsConfigured(line: Line, waypoint: Flat)
    ensures Passes(line, waypoint, CONFIGURED) <==> exists p :: OnLine(line, p) && Within(waypoint, p, 50.0)
  {
    if Passes(line, waypoint, CONFIGURED) {
      var i: nat, t: real :| NearAt(line, 50.0, waypoint, i, t);
      var p := On(Segments(line)[i].0, Segments(line)[i].1, t);
      assert OnLineAt(line, p, i, t);
    }
    if p :| OnLine(line, p) && Within(waypoint, p, 50.0) {
      var i: nat, t: real :| OnLineAt(line, p, i, t);
      assert NearAt(line, 50.0, waypoint, i, t);
    }
  }

  /** A waypoint is proposed, without any figures, exactly if the line comes within fifty metres of it. */
  lemma {:induction false} PassedProposed(geo: Geography, c: Contents, t: int, w: int)
    requires t in c.trips && w in c.waypoints
    ensures var line, at := c.trips[t].line, c.waypoints[w];
            Verdict(geo, c, Waypoint(t, w)) ==
            if line != [] && exists p :: OnLine(Projected(geo.project, line[0], line), p)
                                         && Within(geo.project(line[0], at), p, 50.0)
            then Some(Proposal(None, None, None)) else None
  {
    var line, at := c.trips[t].line, c.waypoints[w];
    if line != [] {
      PassedAsConfigured(Projected(geo.project, line[0], line), geo.project(line[0], at));
    }
  }

  // -------------------------------------------------- what is proposed then

  lemma {:induction false} ProjectedPart(project: Projection, origin: Position, line: seq<Position>, i: nat, j: nat)
    requires i <= j <= |line|
    ensures Projected(project, origin, line[i..j]) == Projected(project, origin, line)[i..j]
  {
  }

  lemma {:induction false} RodeAllOfItself(h: Hypot, trip: Line, plan: Line, i: nat, j: nat, r: Rules)
    requires IsHypot(h) && r.lineTolerance >= 0.0 && r.tripOnPlanShare <= 1.0 && i + 1 < j <= |plan|
    requires trip == plan[i..j] && PathLength(h, trip) > 0.0
    requires PathLength(h, trip) >= r.minStretch && PathLength(h, trip) >= r.minCovered
    ensures Following(h, trip, plan, r).Some?
    ensures var c := Following(h, trip, plan, r).value;
            c.judged == ByLine && c.tripOnPlan == 1.0 && c.planCovered * PathLength(h, plan) >= PathLength(h, trip)
  {
    var length, planRun, tripRun := PathLength(h, trip), PlanRun(h, trip, plan, r), TripRun(h, trip, plan, r);
    assert trip[0..|trip|] == trip;
    if r.tripOnPlanShare < 1.0 { ProductNonNegative(1.0 - r.tripOnPlanShare, length); }
    assert Shares(plan, i, j, trip, 0, |trip|);
    SharedPartFollowed(h, trip, 0, |trip|, plan, i, j, r);
    RunWithinLine(h, trip, NearLine(plan, r.lineTolerance), r.minStretch);
    WholeIsOne(length);
    PartWithin(h, plan, i, j);
    assert planRun.covered / planRun.length * planRun.length == planRun.covered;
  }

  /** All of the trip is on the plan, and what it rode of that is two kilometres or more. */
  ghost predicate RodeLong(h: Hypot, plan: Line, planCovered: real, tripOnPlan: real) {
    tripOnPlan == 1.0 && planCovered * PathLength(h, plan) >= 2000.0
  }

  ghost predicate ByItsLine(geo: Geography, plan: seq<Position>, judged: Option<Proposal>)
    requires plan != []
  {
    && judged.Some? && judged.value.planCovered.Some? && judged.value.tripOnPlan.Some?
    && judged.value.pointsReached.None?
    && RodeLong(geo.hypot, Projected(geo.project, plan[0], plan), judged.value.planCovered.value,
                judged.value.tripOnPlan.value)
  }

  lemma {:induction false} RodeTwoKilometres(h: Hypot, trip: Line, plan: Line, i: nat, j: nat)
    requires IsHypot(h) && i + 1 < j <= |plan| && trip == plan[i..j] && PathLength(h, trip) >= 2000.0
    ensures Following(h, trip, plan, CONFIGURED).Some?
    ensures var c := Following(h, trip, plan, CONFIGURED).value;
            c.judged == ByLine && RodeLong(h, plan, c.planCovered, c.tripOnPlan)
  {
    RodeAllOfItself(h, trip, plan, i, j, CONFIGURED);
  }

  lemma {:induction false} PartJudged(geo: Geography, trip: seq<Position>, plan: seq<Position>, i: nat, j: nat)
    requires IsHypot(geo.hypot) && i + 1 < j <= |plan| && trip == plan[i..j]
    requires PathLength(geo.hypot, Projected(geo.project, plan[0], trip)) >= 2000.0
    ensures ByItsLine(geo, plan, LinkCheck.Judged(geo, trip, plan))
  {
    var h, a, b := geo.hypot, Projected(geo.project, plan[0], trip), Projected(geo.project, plan[0], plan);
    ProjectedPart(geo.project, plan[0], plan, i, j);
    RodeTwoKilometres(h, a, b, i, j);
    assert FollowingAt(h, geo.project, trip, plan, CONFIGURED) == Following(h, a, b, CONFIGURED);
  }

  /** A trip that is a part of a track, two kilometres or more of it, is proposed by its line. */
  lemma {:induction false} PartRiddenProposed(geo: Geography, c: Contents, t: int, k: int, i: nat, j: nat)
    requires geo.Sound() && t in c.trips && k in c.tracks && i + 1 < j <= |c.tracks[k]|
    requires c.trips[t].line == c.tracks[k][i..j]
    requires PathLength(geo.hypot, Projected(geo.project, c.tracks[k][0], c.trips[t].line)) >= 2000.0
    ensures ByItsLine(geo, c.tracks[k], Verdict(geo, c, Track(t, k)))
  {
    PartJudged(geo, c.trips[t].line, c.tracks[k], i, j);
  }

  /** So is a recorded trip that is a part of a planned one. */
  lemma {:induction false} PartOfPlanProposed(geo: Geography, c: Contents, t: int, k: int, i: nat, j: nat)
    requires geo.Sound() && t in c.trips && k in c.trips && i + 1 < j <= |c.trips[k].line|
    requires c.trips[t].kind.Recorded? && c.trips[k].kind.Planned? && c.trips[t].line == c.trips[k].line[i..j]
    requires PathLength(geo.hypot, Projected(geo.project, c.trips[k].line[0], c.trips[t].line)) >= 2000.0
    ensures ByItsLine(geo, c.trips[k].line, Verdict(geo, c, Plan(t, k)))
  {
    PartJudged(geo, c.trips[t].line, c.trips[k].line, i, j);
  }

  /** A trip that came by every point of a track of three or more is proposed, on all of them if on points. */
  lemma {:induction false} AllPointsProposed(geo: Geography, c: Contents, t: int, k: int)
    requires geo.Sound() && t in c.trips && k in c.tracks && |c.trips[t].line| >= 2 && |c.tracks[k]| >= 3
    requires var origin := c.tracks[k][0];
             var trip := Projected(geo.project, origin, c.trips[t].line);
             var track := Projected(geo.project, origin, c.tracks[k]);
             forall m :: 0 <= m < |track| ==> Near(trip, 200.0, track[m])
    ensures Verdict(geo, c, Track(t, k)).Some?
    ensures var p := Verdict(geo, c, Track(t, k)).value;
            || (p.planCovered.Some? && p.tripOnPlan.Some? && p.pointsReached.None?)
            || p == Proposal(None, None, Some(1.0))
  {
    var origin := c.tracks[k][0];
    AllPointsFollowed(geo.hypot, Projected(geo.project, origin, c.trips[t].line),
                      Projected(geo.project, origin, c.tracks[k]), CONFIGURED);
  }
}
