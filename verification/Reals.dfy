/** Products and quotients of reals, for where the verifier's arithmetic needs them spelled out. */
module Reals {
  lemma {:induction false} ProductNonNegative(a: real, b: real)
    requires a >= 0.0 && b >= 0.0
    ensures a * b >= 0.0
  {
  }

  lemma {:induction false} ProductPositive(a: real, b: real)
    requires a > 0.0 && b > 0.0
    ensures a * b > 0.0
  {
  }

  lemma {:induction false} QuotientPositive(a: real, b: real)
    requires a > 0.0 && b > 0.0
    ensures a / b > 0.0
  {
    assert a / b * b == a;
  }

  lemma {:induction false} ShareWithin(a: real, b: real)
    requires 0.0 <= a <= b && b > 0.0
    ensures 0.0 <= a / b <= 1.0
  {
    var q := a / b;
    assert q * b == a;
    if q < 0.0 { ProductPositive(-q, b); }
    if q > 1.0 { ProductPositive(q - 1.0, b); }
  }

  lemma {:induction false} ShareMonotone(a: real, b: real, length: real)
    requires a <= b && length > 0.0
    ensures a / length <= b / length
  {
    var q, r := a / length, b / length;
    assert q * length == a && r * length == b;
    if r < q { ProductPositive(q - r, length); }
  }

  lemma {:induction false} QuotientBetween(sum: real, n: real, low: real, high: real)
    requires n > 0.0 && n * low <= sum <= n * high
    ensures low <= sum / n <= high
  {
    var q := sum / n;
    assert q * n == sum;
    if q < low { ProductPositive(low - q, n); }
    if q > high { ProductPositive(q - high, n); }
  }

  ghost predicate Between(r: real, a: real, b: real) {
    (a <= r <= b) || (b <= r <= a)
  }

  lemma {:induction false} InterpolatedBetween(a: real, b: real, share: real)
    requires 0.0 <= share <= 1.0
    ensures Between(a + (b - a) * share, a, b)
  {
    var v := a + (b - a) * share;
    if b >= a {
      calc {
        b - v;
        (b - a) * (1.0 - share);
      >= { ProductNonNegative(b - a, 1.0 - share); }
        0.0;
      }
      calc {
        v - a;
        (b - a) * share;
      >= { ProductNonNegative(b - a, share); }
        0.0;
      }
    } else {
      calc {
        v - b;
        (a - b) * (1.0 - share);
      >= { ProductNonNegative(a - b, 1.0 - share); }
        0.0;
      }
      calc {
        a - v;
        (a - b) * share;
      >= { ProductNonNegative(a - b, share); }
        0.0;
      }
    }
  }

  /** Having gone from `a` to `b` at an even pace, one is at `r` after `elapsed` of `span`. */
  ghost predicate Evenly(r: real, a: real, b: real, elapsed: real, span: real) {
    Between(r, a, b) && (r - a) * span == (b - a) * elapsed && (elapsed == 0.0 ==> r == a)
  }

  lemma {:induction false} EvenlyAlong(a: real, b: real, elapsed: real, span: real)
    requires 0.0 <= elapsed <= span
    ensures Evenly(a + (b - a) * (if span > 0.0 then elapsed / span else 0.0), a, b, elapsed, span)
  {
    if span > 0.0 {
      var share := elapsed / span;
      QuotientBetween(elapsed, span, 0.0, 1.0);
      InterpolatedBetween(a, b, share);
      calc {
        (b - a) * share * span;
        (b - a) * (share * span);
        (b - a) * elapsed;
      }
    }
  }
}
