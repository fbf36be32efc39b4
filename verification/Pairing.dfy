/**
  The greedy pairing of `pair` in src/server/collection_match.rs: the one
  stable pairing in the order of its candidates.
*/
module Pairing {
  import opened Wrappers

  /** `Changed` pairs share a name but not a place. */
  datatype Rank = Same | Changed

  /** Metres; `Infinite` between lines of which one has no point. */
  datatype Metres = Finite(m: real) | Infinite {
    predicate Less(other: Metres) {
      Finite? && (other.Infinite? || m < other.m)
    }
  }

  datatype Relation = Relation(rank: Rank, distance: Metres) {
    /** Strictly the closer relation: by rank first, then by distance. */
    predicate Closer(other: Relation) {
      (rank.Same? && other.rank.Changed?) || (rank == other.rank && distance.Less(other.distance))
    }
  }

  type Relating = (nat, nat) -> Option<Relation>

  datatype Candidate = Candidate(relation: Relation, item: nat, entry: nat) {
    /** The order candidates are taken in: the closer first, else by item, else by entry. */
    predicate Before(other: Candidate) {
      || relation.Closer(other.relation)
      || (relation == other.relation && (item < other.item || (item == other.item && entry < other.entry)))
    }
  }

  lemma {:induction false} BeforeIsOrder(a: Candidate, b: Candidate, c: Candidate)
    ensures !a.Before(a)
    ensures a.Before(b) && b.Before(c) ==> a.Before(c)
    ensures a.Before(b) || b.Before(a) || a == b
  {
  }

  // ------------------------------------------------------------ candidates

  /** The related pairs of item `i` with the first `m` entries. */
  function Row(relating: Relating, i: nat, m: nat): seq<Candidate> {
    if m == 0 then []
    else
      var before, relation := Row(relating, i, m - 1), relating(i, m - 1);
      if relation.Some? then before + [Candidate(relation.value, i, m - 1)] else before
  }

  /** The related pairs of the first `n` items, by item and then by entry. */
  function Rows(entries: nat, relating: Relating, n: nat): seq<Candidate> {
    if n == 0 then [] else Rows(entries, relating, n - 1) + Row(relating, n - 1, entries)
  }

  /** A stable insertion: among equal relations what came earlier stays earlier. */
  function Insert(c: Candidate, sorted: seq<Candidate>): seq<Candidate> {
    if sorted == [] || !sorted[0].relation.Closer(c.relation) then [c] + sorted
    else [sorted[0]] + Insert(c, sorted[1..])
  }

  /** The library's stable sort by relation. */
  function Sort(cs: seq<Candidate>): seq<Candidate> {
    if cs == [] then [] else Insert(cs[0], Sort(cs[1..]))
  }

  ghost predicate Ordered(cs: seq<Candidate>) {
    forall p, q :: 0 <= p < q < |cs| ==> cs[p].Before(cs[q])
  }

  /** Every pair after `c` in the order of items and entries. */
  ghost predicate AllLater(c: Candidate, cs: seq<Candidate>) {
    forall k :: 0 <= k < |cs| ==> c.item < cs[k].item || (c.item == cs[k].item && c.entry < cs[k].entry)
  }

  ghost predicate Listed(cs: seq<Candidate>) {
    forall p, q :: 0 <= p < q < |cs| ==>
      cs[p].item < cs[q].item || (cs[p].item == cs[q].item && cs[p].entry < cs[q].entry)
  }

  lemma {:induction false} InsertMembers(c: Candidate, sorted: seq<Candidate>, k: nat)
    requires k < |Insert(c, sorted)|
    ensures Insert(c, sorted)[k] == c || Insert(c, sorted)[k] in sorted
  {
    if k > 0 && sorted != [] && sorted[0].relation.Closer(c.relation) {
      InsertMembers(c, sorted[1..], k - 1);
    }
  }

  lemma {:induction false} InsertPermutes(c: Candidate, sorted: seq<Candidate>)
    ensures multiset(Insert(c, sorted)) == multiset(sorted) + multiset{c}
  {
    if sorted != [] && sorted[0].relation.Closer(c.relation) {
      InsertPermutes(c, sorted[1..]);
      assert sorted == [sorted[0]] + sorted[1..];
    }
  }

  lemma {:induction false} InsertOrdered(c: Candidate, sorted: seq<Candidate>)
    requires Ordered(sorted) && AllLater(c, sorted)
    ensures Ordered(Insert(c, sorted))
  {
    if sorted == [] {
    } else if !sorted[0].relation.Closer(c.relation) {
      assert c.Before(sorted[0]);
      forall q | 0 <= q < |sorted| ensures c.Before(sorted[q]) {
        BeforeIsOrder(c, sorted[0], sorted[q]);
      }
    } else {
      InsertOrdered(c, sorted[1..]);
      var rest := Insert(c, sorted[1..]);
      forall q | 0 <= q < |rest| ensures sorted[0].Before(rest[q]) {
        InsertMembers(c, sorted[1..], q);
      }
    }
  }

  lemma {:induction false} SortMembers(cs: seq<Candidate>, k: nat)
    requires k < |Sort(cs)|
    ensures Sort(cs)[k] in cs
  {
    if cs != [] {
      InsertMembers(cs[0], Sort(cs[1..]), k);
      if Sort(cs)[k] in Sort(cs[1..]) {
        var m :| 0 <= m < |Sort(cs[1..])| && Sort(cs[1..])[m] == Sort(cs)[k];
        SortMembers(cs[1..], m);
      }
    }
  }

  lemma {:induction false} SortedLater(cs: seq<Candidate>)
    requires cs != [] && Listed(cs)
    ensures AllLater(cs[0], Sort(cs[1..]))
  {
    forall k | 0 <= k < |Sort(cs[1..])|
      ensures Sort(cs[1..])[k] in cs[1..]
    {
      SortMembers(cs[1..], k);
    }
  }

  /** Sorting by relation alone, stably, orders listed candidates in full. */
  lemma {:induction false} SortOrdered(cs: seq<Candidate>)
    requires Listed(cs)
    ensures Ordered(Sort(cs)) && multiset(Sort(cs)) == multiset(cs)
  {
    if cs != [] {
      SortOrdered(cs[1..]);
      SortedLater(cs);
      InsertOrdered(cs[0], Sort(cs[1..]));
      InsertPermutes(cs[0], Sort(cs[1..]));
      assert cs == [cs[0]] + cs[1..];
    }
  }

  ghost predicate InRow(relating: Relating, i: nat, m: nat, c: Candidate) {
    c.item == i && c.entry < m && relating(i, c.entry) == Some(c.relation)
  }

  lemma {:induction false} RowListed(relating: Relating, i: nat, m: nat)
    ensures Listed(Row(relating, i, m))
    ensures forall k :: 0 <= k < |Row(relating, i, m)| ==> InRow(relating, i, m, Row(relating, i, m)[k])
  {
    if m > 0 {
      RowListed(relating, i, m - 1);
    }
  }

  lemma {:induction false} RowHolds(relating: Relating, i: nat, m: nat, c: Candidate)
    requires InRow(relating, i, m, c)
    ensures c in Row(relating, i, m)
  {
    if c.entry < m - 1 {
      RowHolds(relating, i, m - 1, c);
    }
  }

  ghost predicate Related(items: nat, entries: nat, relating: Relating, c: Candidate) {
    c.item < items && c.entry < entries && relating(c.item, c.entry) == Some(c.relation)
  }

  lemma {:induction false} ListedAppend(a: seq<Candidate>, b: seq<Candidate>, i: nat)
    requires Listed(a) && Listed(b)
    requires (forall k :: 0 <= k < |a| ==> a[k].item < i) && (forall k :: 0 <= k < |b| ==> b[k].item == i)
    ensures Listed(a + b)
  {
  }

  lemma {:induction false} RowsListed(entries: nat, relating: Relating, n: nat)
    ensures Listed(Rows(entries, relating, n))
    ensures forall k :: 0 <= k < |Rows(entries, relating, n)| ==>
              Related(n, entries, relating, Rows(entries, relating, n)[k])
  {
    if n > 0 {
      RowsListed(entries, relating, n - 1);
      RowListed(relating, n - 1, entries);
      ListedAppend(Rows(entries, relating, n - 1), Row(relating, n - 1, entries), n - 1);
    }
  }

  lemma {:induction false} RowsHold(entries: nat, relating: Relating, n: nat, c: Candidate)
    requires Related(n, entries, relating, c)
    ensures c in Rows(entries, relating, n)
  {
    var before, row := Rows(entries, relating, n - 1), Row(relating, n - 1, entries);
    assert c in before || c in row by {
      if c.item < n - 1 {
        RowsHold(entries, relating, n - 1, c);
      } else {
        RowHolds(relating, n - 1, entries, c);
      }
    }
    assert Rows(entries, relating, n) == before + row;
  }

  /** The candidates are exactly the related pairs. */
  lemma {:induction false} CandidatesAre(items: nat, entries: nat, relating: Relating, c: Candidate)
    ensures c in Rows(entries, relating, items) <==> Related(items, entries, relating, c)
  {
    RowsListed(entries, relating, items);
    if Related(items, entries, relating, c) {
      RowsHold(entries, relating, items, c);
    }
  }

  // ---------------------------------------------------------------- pairing

  /** Neither the item nor the entry of `c` is paired yet. */
  ghost predicate Free(chosen: set<Candidate>, c: Candidate) {
    forall d :: d in chosen ==> d.item != c.item && d.entry != c.entry
  }

  /** The candidates paired among the first `n`. */
  ghost function Chosen(cs: seq<Candidate>, n: nat): set<Candidate>
    requires n <= |cs|
  {
    if n == 0 then {}
    else
      var chosen := Chosen(cs, n - 1);
      if Free(chosen, cs[n - 1]) then chosen + {cs[n - 1]} else chosen
  }

  ghost predicate Injective(chosen: set<Candidate>) {
    forall c, d :: c in chosen && d in chosen && (c.item == d.item || c.entry == d.entry) ==> c == d
  }

  lemma {:induction false} ChosenIsMatching(cs: seq<Candidate>, n: nat)
    requires n <= |cs|
    ensures Injective(Chosen(cs, n))
    ensures forall c :: c in Chosen(cs, n) ==> c in cs[..n]
  {
    if n > 0 {
      ChosenIsMatching(cs, n - 1);
      assert cs[..n] == cs[..n - 1] + [cs[n - 1]];
    }
  }

  /** Whatever is not paired is kept out by a candidate taken before it. */
  lemma {:induction false} ChosenBlocks(cs: seq<Candidate>, n: nat, k: nat)
    requires Ordered(cs) && k < n <= |cs|
    ensures cs[k] in Chosen(cs, n)
         || exists d :: d in Chosen(cs, n) && d.Before(cs[k]) && (d.item == cs[k].item || d.entry == cs[k].entry)
  {
    if k < n - 1 {
      ChosenBlocks(cs, n - 1, k);
    } else {
      ChosenIsMatching(cs, n - 1);
      if !Free(Chosen(cs, k), cs[k]) {
        var d :| d in Chosen(cs, k) && (d.item == cs[k].item || d.entry == cs[k].entry);
        var p :| 0 <= p < k && cs[..k][p] == d;
        assert cs[p].Before(cs[k]);
      }
    }
  }

  ghost predicate PairsItem(chosen: set<Candidate>, i: nat) {
    exists c :: c in chosen && c.item == i
  }

  ghost predicate TakesEntry(chosen: set<Candidate>, j: nat) {
    exists c :: c in chosen && c.entry == j
  }

  ghost function PairOf(chosen: set<Candidate>, i: nat): Option<(nat, Rank)> {
    if PairsItem(chosen, i) then var c :| c in chosen && c.item == i; Some((c.entry, c.relation.rank)) else None
  }

  function Candidates(items: nat, entries: nat, relating: Relating): seq<Candidate> {
    Sort(Rows(entries, relating, items))
  }

  ghost function Pairing(items: nat, entries: nat, relating: Relating): set<Candidate> {
    var cs := Candidates(items, entries, relating);
    Chosen(cs, |cs|)
  }

  /** For each item what it is paired with, if anything. */
  ghost function Paired(items: nat, entries: nat, relating: Relating): (paired: seq<Option<(nat, Rank)>>)
    ensures |paired| == items
  {
    seq(items, i requires 0 <= i < items => PairOf(Pairing(items, entries, relating), i))
  }

  lemma {:induction false} CandidatesSorted(items: nat, entries: nat, relating: Relating)
    ensures Ordered(Candidates(items, entries, relating))
    ensures forall c :: c in Candidates(items, entries, relating)
                   <==> c.item < items && c.entry < entries && relating(c.item, c.entry) == Some(c.relation)
  {
    var cs := Rows(entries, relating, items);
    RowsListed(entries, relating, items);
    SortOrdered(cs);
    forall c
      ensures c in Sort(cs) <==> c.item < items && c.entry < entries && relating(c.item, c.entry) == Some(c.relation)
    {
      assert c in Sort(cs) <==> c in multiset(Sort(cs));
      CandidatesAre(items, entries, relating, c);
    }
  }

  lemma {:induction false} PairingIsMatching(items: nat, entries: nat, relating: Relating)
    ensures var chosen := Pairing(items, entries, relating);
            && Injective(chosen)
            && forall c :: c in chosen ==> c.item < items && c.entry < entries
                                           && relating(c.item, c.entry) == Some(c.relation)
  {
    var cs := Candidates(items, entries, relating);
    CandidatesSorted(items, entries, relating);
    ChosenIsMatching(cs, |cs|);
    assert cs[..|cs|] == cs;
  }

  /** A chosen candidate that comes before `c` shares its item or entry. */
  ghost predicate Blocked(chosen: set<Candidate>, c: Candidate) {
    exists d :: d in chosen && d.Before(c) && (d.item == c.item || d.entry == c.entry)
  }

  /** A related pair is left apart only for one that comes before it and shares its item or entry. */
  lemma {:induction false} PairingBlocks(items: nat, entries: nat, relating: Relating, c: Candidate)
    requires c.item < items && c.entry < entries && relating(c.item, c.entry) == Some(c.relation)
    ensures var chosen := Pairing(items, entries, relating);
            c in chosen || Blocked(chosen, c)
  {
    var cs := Candidates(items, entries, relating);
    CandidatesSorted(items, entries, relating);
    var k :| 0 <= k < |cs| && cs[k] == c;
    ChosenBlocks(cs, |cs|, k);
  }

  /** A pairing, however it was come by: related pairs, at most one for each item and each entry. */
  ghost predicate OneToOne(items: nat, entries: nat, relating: Relating, chosen: set<Candidate>) {
    && Injective(chosen)
    && forall c :: c in chosen ==> c.item < items && c.entry < entries
                                   && relating(c.item, c.entry) == Some(c.relation)
  }

  /** No related pair left apart would rather be together, in the order candidates are taken in. */
  ghost predicate Stable(items: nat, entries: nat, relating: Relating, chosen: set<Candidate>) {
    forall c: Candidate {:trigger Blocked(chosen, c)} ::
      c.item < items && c.entry < entries && relating(c.item, c.entry) == Some(c.relation)
      ==> c in chosen || Blocked(chosen, c)
  }

  /** The pairing is stable, and so maximal. */
  lemma {:induction false} PairingIsStable(items: nat, entries: nat, relating: Relating)
    ensures OneToOne(items, entries, relating, Pairing(items, entries, relating))
    ensures Stable(items, entries, relating, Pairing(items, entries, relating))
  {
    PairingIsMatching(items, entries, relating);
    forall c: Candidate |
      c.item < items && c.entry < entries && relating(c.item, c.entry) == Some(c.relation)
      ensures c in Pairing(items, entries, relating) || Blocked(Pairing(items, entries, relating), c)
    {
      PairingBlocks(items, entries, relating, c);
    }
  }

  ghost predicate Agree(one: set<Candidate>, other: set<Candidate>, cs: seq<Candidate>, n: nat)
    requires n <= |cs|
  {
    forall p :: 0 <= p < n ==> (cs[p] in one <==> cs[p] in other)
  }

  /** What comes first and is in one stable pairing but not in another has nothing to be kept out by. */
  lemma {:induction false} NoneFirst(items: nat, entries: nat, relating: Relating, one: set<Candidate>,
                                     other: set<Candidate>, cs: seq<Candidate>, k: nat)
    requires OneToOne(items, entries, relating, one) && OneToOne(items, entries, relating, other)
    requires Stable(items, entries, relating, other)
    requires cs == Candidates(items, entries, relating) && k < |cs|
    requires Agree(one, other, cs, k)
    ensures cs[k] in one ==> cs[k] in other
  {
    CandidatesSorted(items, entries, relating);
    var c := cs[k];
    assert c in cs;
    if c !in other {
      assert Blocked(other, c);
      var d :| d in other && d.Before(c) && (d.item == c.item || d.entry == c.entry);
      assert d in cs;
      var p :| 0 <= p < |cs| && cs[p] == d;
      BeforeIsOrder(c, d, c);
      assert p < k;
      BeforeIsOrder(d, c, d);
    }
  }

  lemma {:induction false} StableAgree(items: nat, entries: nat, relating: Relating, one: set<Candidate>,
                                       other: set<Candidate>, cs: seq<Candidate>, n: nat)
    requires OneToOne(items, entries, relating, one) && Stable(items, entries, relating, one)
    requires OneToOne(items, entries, relating, other) && Stable(items, entries, relating, other)
    requires cs == Candidates(items, entries, relating) && n <= |cs|
    ensures Agree(one, other, cs, n) && Agree(other, one, cs, n)
    decreases n
  {
    if n > 0 {
      StableAgree(items, entries, relating, one, other, cs, n - 1);
      NoneFirst(items, entries, relating, one, other, cs, n - 1);
      NoneFirst(items, entries, relating, other, one, cs, n - 1);
    }
  }

  /** There is no other stable pairing: being stable says all there is to say about it. */
  lemma {:induction false} PairingIsUnique(items: nat, entries: nat, relating: Relating, chosen: set<Candidate>)
    requires OneToOne(items, entries, relating, chosen) && Stable(items, entries, relating, chosen)
    ensures chosen == Pairing(items, entries, relating)
  {
    var pairing, cs := Pairing(items, entries, relating), Candidates(items, entries, relating);
    PairingIsStable(items, entries, relating);
    CandidatesSorted(items, entries, relating);
    StableAgree(items, entries, relating, chosen, pairing, cs, |cs|);
    forall c ensures c in chosen <==> c in pairing {
      if c in cs {
        var k :| 0 <= k < |cs| && cs[k] == c;
      }
    }
  }

  // ------------------------------------------------------------ as coded

  /** Who is paired and what is taken, after the first `n` candidates. */
  ghost predicate Records(paired: seq<Option<(nat, Rank)>>, taken: seq<bool>, chosen: set<Candidate>) {
    && (forall i :: 0 <= i < |paired| ==> paired[i] == PairOf(chosen, i))
    && (forall j :: 0 <= j < |taken| ==> (taken[j] <==> TakesEntry(chosen, j)))
  }

  lemma {:induction false} RecordOne(paired: seq<Option<(nat, Rank)>>, taken: seq<bool>, chosen: set<Candidate>,
                                     c: Candidate)
    requires Records(paired, taken, chosen) && Injective(chosen)
    requires c.item < |paired| && c.entry < |taken|
    ensures Free(chosen, c) <==> paired[c.item].None? && !taken[c.entry]
    ensures Free(chosen, c) ==> Records(paired[c.item := Some((c.entry, c.relation.rank))], taken[c.entry := true],
                                        chosen + {c})
  {
    assert paired[c.item].None? <==> !PairsItem(chosen, c.item);
    if Free(chosen, c) {
      forall i | 0 <= i < |paired|
        ensures paired[c.item := Some((c.entry, c.relation.rank))][i] == PairOf(chosen + {c}, i)
      {
        PairOfMore(chosen, c, i);
      }
      forall j | 0 <= j < |taken|
        ensures taken[c.entry := true][j] <==> TakesEntry(chosen + {c}, j)
      {
        if TakesEntry(chosen, j) {
          var d :| d in chosen && d.entry == j;
          assert d in chosen + {c};
        }
        assert c in chosen + {c};
      }
    }
  }

  lemma {:induction false} PairOfMore(chosen: set<Candidate>, c: Candidate, i: nat)
    requires Injective(chosen) && Free(chosen, c)
    ensures PairOf(chosen + {c}, i) == if i == c.item then Some((c.entry, c.relation.rank)) else PairOf(chosen, i)
  {
    assert c in chosen + {c};
    if i != c.item && PairsItem(chosen, i) {
      var d :| d in chosen && d.item == i;
      assert d in chosen + {c};
    }
  }

  lemma {:induction false} NothingRecorded(items: nat, entries: nat)
    ensures Records(seq(items, _ => None), seq(entries, _ => false), {})
  {
  }

  lemma {:induction false} RecordNext(paired: seq<Option<(nat, Rank)>>, taken: seq<bool>, cs: seq<Candidate>, n: nat)
    requires n < |cs| && Records(paired, taken, Chosen(cs, n))
    requires cs[n].item < |paired| && cs[n].entry < |taken|
    ensures if paired[cs[n].item].None? && !taken[cs[n].entry]
            then Records(paired[cs[n].item := Some((cs[n].entry, cs[n].relation.rank))], taken[cs[n].entry := true],
                         Chosen(cs, n + 1))
            else Records(paired, taken, Chosen(cs, n + 1))
  {
    ChosenIsMatching(cs, n);
    RecordOne(paired, taken, Chosen(cs, n), cs[n]);
  }

  /** Pairs the candidates in their order, passing over those whose item or entry is taken. */
  method TakeInOrder(cs: seq<Candidate>, items: nat, entries: nat) returns (paired: seq<Option<(nat, Rank)>>)
    requires forall k :: 0 <= k < |cs| ==> cs[k].item < items && cs[k].entry < entries
    ensures |paired| == items && forall i :: 0 <= i < items ==> paired[i] == PairOf(Chosen(cs, |cs|), i)
  {
    paired := seq(items, _ => None);
    var taken := seq(entries, _ => false);
    NothingRecorded(items, entries);
    for n := 0 to |cs|
      invariant |paired| == items && |taken| == entries
      invariant Records(paired, taken, Chosen(cs, n))
    {
      var c := cs[n];
      RecordNext(paired, taken, cs, n);
      if paired[c.item].None? && !taken[c.entry] {
        paired := paired[c.item := Some((c.entry, c.relation.rank))];
        taken := taken[c.entry := true];
      }
    }
  }

  /** Sorted candidates, each taken if both its sides are still free. */
  method Pair(items: nat, entries: nat, relating: Relating) returns (paired: seq<Option<(nat, Rank)>>)
    ensures paired == Paired(items, entries, relating)
  {
    var cs := Candidates(items, entries, relating);
    CandidatesSorted(items, entries, relating);
    forall k | 0 <= k < |cs| ensures cs[k].item < items && cs[k].entry < entries {
      assert cs[k] in cs;
    }
    paired := TakeInOrder(cs, items, entries);
  }

  /** What an item is paired with is an entry it relates to, and no other item is paired with that. */
  lemma {:induction false} PairedMeans(items: nat, entries: nat, relating: Relating, i: nat)
    requires i < items && Paired(items, entries, relating)[i].Some?
    ensures var (j, rank) := Paired(items, entries, relating)[i].value;
            && j < entries && relating(i, j).Some? && relating(i, j).value.rank == rank
            && forall m: nat ::
                 m < items && Paired(items, entries, relating)[m].Some?
                 && Paired(items, entries, relating)[m].value.0 == j
                 ==> m == i
  {
    var chosen := Pairing(items, entries, relating);
    var (j, rank) := Paired(items, entries, relating)[i].value;
    PairingIsMatching(items, entries, relating);
    var c :| c in chosen && c.item == i && c.entry == j && c.relation.rank == rank;
    forall m: nat | m < items && Paired(items, entries, relating)[m].Some?
                    && Paired(items, entries, relating)[m].value.0 == j
      ensures m == i
    {
      var d :| d in chosen && d.item == m && d.entry == j;
      assert c == d;
    }
  }

  /** A related item and entry are paired, or one of them is paired with something at least as close. */
  lemma {:induction false} PairedIsStable(items: nat, entries: nat, relating: Relating, i: nat, j: nat)
    requires i < items && j < entries && relating(i, j).Some?
    ensures var paired := Paired(items, entries, relating);
            || (paired[i].Some? && relating(i, paired[i].value.0).Some?
                && !relating(i, j).value.Closer(relating(i, paired[i].value.0).value))
            || exists m: nat :: m < items && paired[m].Some? && paired[m].value.0 == j && relating(m, j).Some?
                                && !relating(i, j).value.Closer(relating(m, j).value)
  {
    var chosen, paired := Pairing(items, entries, relating), Paired(items, entries, relating);
    var c := Candidate(relating(i, j).value, i, j);
    PairingIsMatching(items, entries, relating);
    PairingBlocks(items, entries, relating, c);
    var d :| d in chosen && (d == c || d.Before(c)) && (d.item == i || d.entry == j);
    BeforeIsOrder(d, c, d);
    PairOfChosen(items, entries, relating, d);
    if d.item != i {
      assert paired[d.item].value.0 == j;
    }
  }

  lemma {:induction false} PairOfChosen(items: nat, entries: nat, relating: Relating, c: Candidate)
    requires c in Pairing(items, entries, relating)
    ensures c.item < items && Paired(items, entries, relating)[c.item] == Some((c.entry, c.relation.rank))
  {
    PairingIsMatching(items, entries, relating);
    assert PairsItem(Pairing(items, entries, relating), c.item);
  }

  /** Only how items relate to entries matters. */
  lemma {:induction false} PairedSame(items: nat, entries: nat, relating: Relating, other: Relating)
    requires forall i: nat, j: nat :: i < items && j < entries ==> relating(i, j) == other(i, j)
    ensures Paired(items, entries, relating) == Paired(items, entries, other)
  {
    RowsSame(entries, relating, other, items);
  }

  lemma {:induction false} RowSame(relating: Relating, other: Relating, i: nat, m: nat)
    requires forall j: nat :: j < m ==> relating(i, j) == other(i, j)
    ensures Row(relating, i, m) == Row(other, i, m)
  {
    if m > 0 {
      RowSame(relating, other, i, m - 1);
    }
  }

  lemma {:induction false} RowsSame(entries: nat, relating: Relating, other: Relating, n: nat)
    requires forall i: nat, j: nat :: i < n && j < entries ==> relating(i, j) == other(i, j)
    ensures Rows(entries, relating, n) == Rows(entries, other, n)
  {
    if n > 0 {
      RowsSame(entries, relating, other, n - 1);
      RowSame(relating, other, n - 1, entries);
    }
  }

  /** Where every item relates to the entry of its own number as closely as anything can, it is paired with it. */
  lemma {:induction false} PairedInPlace(n: nat, relating: Relating)
    requires forall i: nat :: i < n ==> relating(i, i) == Some(Relation(Same, Finite(0.0)))
    requires forall i: nat, j: nat :: i < n && j < n && relating(i, j).Some? && relating(i, j).value.distance.Finite?
                                      ==> relating(i, j).value.distance.m >= 0.0
    ensures Paired(n, n, relating) == seq(n, i => Some((i, Same)))
  {
    var own := set i: nat | i < n :: Candidate(Relation(Same, Finite(0.0)), i, i);
    forall c: Candidate | c.item < n && c.entry < n && relating(c.item, c.entry) == Some(c.relation) && c !in own
      ensures Blocked(own, c)
    {
      var first := if c.item < c.entry then c.item else c.entry;
      var d := Candidate(Relation(Same, Finite(0.0)), first, first);
      assert d in own;
      assert c.item != c.entry;
    }
    PairingIsUnique(n, n, relating, own);
    forall i | 0 <= i < n ensures Paired(n, n, relating)[i] == Some((i, Same)) {
      PairOfChosen(n, n, relating, Candidate(Relation(Same, Finite(0.0)), i, i));
    }
  }
}
