/** Going over numbered items one after another, and what that keeps. */
module Folds {
  /** The items, the first of them number `n`, worked into `s`. */
  function Fold<F, S>(step: (nat, F, S) -> S, n: nat, items: seq<F>, s: S): S
    decreases |items|
  {
    if items == [] then s else Fold(step, n + 1, items[1..], step(n, items[0], s))
  }

  lemma {:induction false} FoldSplit<F, S>(step: (nat, F, S) -> S, n: nat, a: seq<F>, b: seq<F>, s: S)
    ensures Fold(step, n, a + b, s) == Fold(step, n + |a|, b, Fold(step, n, a, s))
    decreases |a|
  {
    if a == [] {
      assert a + b == b;
    } else {
      assert (a + b)[1..] == a[1..] + b;
      FoldSplit(step, n + 1, a[1..], b, step(n, a[0], s));
    }
  }

  lemma {:induction false} FoldGoesOn<F, S>(step: (nat, F, S) -> S, a: seq<F>, b: seq<F>, s: S)
    ensures Fold(step, 0, a + b, s) == Fold(step, |a|, b, Fold(step, 0, a, s))
  {
    FoldSplit(step, 0, a, b, s);
  }

  /** What `keeps` says of the state before an item it says of the state after it. */
  ghost predicate Kept<F, S>(step: (nat, F, S) -> S, keeps: (nat, S) -> bool, m: nat, item: F, t: S) {
    keeps(m, t) ==> keeps(m + 1, step(m, item, t))
  }

  ghost predicate StepKeeps<F(!new), S(!new)>(step: (nat, F, S) -> S, n: nat, items: seq<F>, keeps: (nat, S) -> bool) {
    forall m: nat, item, t {:trigger Kept(step, keeps, m, item, t)} ::
      n <= m < n + |items| && item == items[m - n] ==> Kept(step, keeps, m, item, t)
  }

  /** What every step keeps holds in the end. */
  lemma {:induction false} FoldKeeps<F(!new), S(!new)>(step: (nat, F, S) -> S, n: nat, items: seq<F>, s: S,
                                                       keeps: (nat, S) -> bool)
    requires keeps(n, s) && StepKeeps(step, n, items, keeps)
    ensures keeps(n + |items|, Fold(step, n, items, s))
    decreases |items|
  {
    if items != [] {
      var next := step(n, items[0], s);
      assert Kept(step, keeps, n, items[0], s);
      forall m: nat, item, t | n + 1 <= m < n + 1 + |items[1..]| && item == items[1..][m - (n + 1)]
        ensures Kept(step, keeps, m, item, t)
      {
        assert item == items[m - n];
      }
      FoldKeeps(step, n + 1, items[1..], next, keeps);
    }
  }

  /** What steps with any item keep holds in the end. */
  lemma {:induction false} FoldAlwaysKeeps<F(!new), S(!new)>(step: (nat, F, S) -> S, n: nat, items: seq<F>, s: S,
      keeps: (nat, S) -> bool)
    requires keeps(n, s) && forall m: nat, item, t :: Kept(step, keeps, m, item, t)
    ensures keeps(n + |items|, Fold(step, n, items, s))
  {
    FoldKeeps(step, n, items, s, keeps);
  }

  /** Steps with one item, in either run, keep two states related. */
  ghost predicate Together<F, S>(one: (nat, F, S) -> S, other: (nat, F, S) -> S, related: (S, S) -> bool,
                                 n: nat, k: nat, item: F, a: S, b: S) {
    related(a, b) ==> related(one(n, item, a), other(k, item, b))
  }

  ghost predicate AlwaysTogether<F(!new), S(!new)>(one: (nat, F, S) -> S, other: (nat, F, S) -> S,
                                                   related: (S, S) -> bool, shift: nat)
  {
    forall m: nat, k: nat, item, a, b :: m == k + shift ==> Together(one, other, related, m, k, item, a, b)
  }

  /** Two runs over the same items, `shift` numbers apart, stay related. */
  lemma {:induction false} FoldRelates<F(!new), S(!new)>(one: (nat, F, S) -> S, other: (nat, F, S) -> S, shift: nat,
                                                         n: nat, items: seq<F>, s: S, t: S, related: (S, S) -> bool)
    requires related(s, t)
    requires AlwaysTogether(one, other, related, shift)
    ensures related(Fold(one, n + shift, items, s), Fold(other, n, items, t))
    decreases |items|
  {
    if items != [] {
      assert Together(one, other, related, n + shift, n, items[0], s, t);
      FoldRelates(one, other, shift, n + 1, items[1..], one(n + shift, items[0], s), other(n, items[0], t), related);
      assert n + shift + 1 == n + 1 + shift;
    }
  }

  lemma {:induction false} RunsRelate<F(!new), S(!new)>(one: (nat, F, S) -> S, other: (nat, F, S) -> S, shift: nat,
                                                        items: seq<F>, s: S, t: S, related: (S, S) -> bool)
    requires related(s, t) && AlwaysTogether(one, other, related, shift)
    ensures related(Fold(one, shift, items, s), Fold(other, 0, items, t))
  {
    FoldRelates(one, other, shift, 0, items, s, t, related);
  }
}
