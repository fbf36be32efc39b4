/** Sums and reversals of sequences. */
module Sums {
  function Sum(s: seq<real>): real {
    if s == [] then 0.0 else s[0] + Sum(s[1..])
  }

  function Reverse<T>(s: seq<T>): (r: seq<T>)
    ensures |r| == |s| && forall k :: 0 <= k < |s| ==> r[k] == s[|s| - 1 - k]
  {
    seq(|s|, i requires 0 <= i < |s| => s[|s| - 1 - i])
  }

  lemma {:induction false} SumAppend(a: seq<real>, b: seq<real>)
    ensures Sum(a + b) == Sum(a) + Sum(b)
  {
    if a == [] {
      assert a + b == b;
    } else {
      assert (a + b)[1..] == a[1..] + b;
      SumAppend(a[1..], b);
    }
  }

  lemma {:induction false} SumReverse(s: seq<real>)
    ensures Sum(Reverse(s)) == Sum(s)
  {
    if s != [] {
      assert Reverse(s) == Reverse(s[1..]) + [s[0]];
      SumAppend(Reverse(s[1..]), [s[0]]);
      SumReverse(s[1..]);
      assert [s[0]][1..] == [];
    }
  }

  lemma {:induction false} SumMonotone(a: seq<real>, b: seq<real>)
    requires |a| == |b| && forall k :: 0 <= k < |a| ==> a[k] <= b[k]
    ensures Sum(a) <= Sum(b)
  {
    if a != [] {
      SumMonotone(a[1..], b[1..]);
    }
  }

  lemma {:induction false} SumNonNegative(s: seq<real>)
    requires forall k :: 0 <= k < |s| ==> s[k] >= 0.0
    ensures Sum(s) >= 0.0
  {
    if s != [] {
      SumNonNegative(s[1..]);
    }
  }

  /** A stretch of non-negative terms adds up to no more than all of them. */
  lemma {:induction false} SumSlice(s: seq<real>, lo: nat, hi: nat)
    requires lo <= hi <= |s| && forall k :: 0 <= k < |s| ==> s[k] >= 0.0
    ensures Sum(s[lo..hi]) <= Sum(s)
  {
    assert s == s[..lo] + s[lo..hi] + s[hi..];
    SumAppend(s[..lo] + s[lo..hi], s[hi..]);
    SumAppend(s[..lo], s[lo..hi]);
    SumNonNegative(s[..lo]);
    SumNonNegative(s[hi..]);
  }

  lemma {:induction false} SumAllEqual(s: seq<real>, r: real)
    requires forall k :: 0 <= k < |s| ==> s[k] == r
    ensures Sum(s) == |s| as real * r
  {
    if s != [] {
      SumAllEqual(s[1..], r);
      assert |s| as real * r == r + (|s| - 1) as real * r;
    }
  }

  lemma {:induction false} ReverseReverse<T>(s: seq<T>)
    ensures Reverse(Reverse(s)) == s
  {
  }

  lemma {:induction false} ReverseAppend<T>(a: seq<T>, b: seq<T>)
    ensures Reverse(a + b) == Reverse(b) + Reverse(a)
  {
  }

  lemma {:induction false} ReverseSlice<T>(s: seq<T>, lo: nat, hi: nat)
    requires lo <= hi <= |s|
    ensures Reverse(s)[|s| - hi..|s| - lo] == Reverse(s[lo..hi])
  {
  }
}
