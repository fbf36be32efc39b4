/**
  Taking a file's items into a collection, one after another: the step that
  the track loop and the waypoint loop of `match_files`
  (src/server/collection_match.rs) share.
*/
module Importing {
  import opened Wrappers
  import opened Pairing

  /** The identity of an entry: a stored row, or the file item that brought it in. */
  datatype Origin = Held(id: int) | File(file: nat, index: nat)

  /** Which item of which file. */
  type ItemKey = (nat, nat)

  datatype Action = Add | Skip | Replace

  type Choices = map<ItemKey, Action>

  /** A line of the review. */
  datatype Matched = Matched(file: nat, index: nat, matched: Option<Origin>, proposed: Action, action: Action) {
    /** An unmatched item cannot replace. */
    predicate MayChoose(action: Action) {
      matched.Some? || !action.Replace?
    }
  }

  /** A waypoint's track: left alone, or set, perhaps to none. */
  datatype Membership = Unchanged | OnTrack(track: Option<Origin>)

  /** One element of the working list; `source` is the item last written over it. */
  datatype Entry<C> = Entry(origin: Origin, content: C, source: Option<ItemKey>, track: Membership)

  /** What matching needs to know about tracks, or waypoints. */
  datatype Kind<!C> = Kind(
    relates: (C, C) -> Option<Relation>,
    sameDetails: (C, C) -> bool,
    taking: (C, C) -> C)

  /** Who takes part: the file, whose waypoints go where, and what the owner decided. */
  datatype Intake = Intake(file: nat, track: Membership, setsTrack: bool, choices: Choices)

  /** The entries so far, the review, the held ids matched, and what became of each of the file's items. */
  datatype Work<C> = Work(
    entries: seq<Entry<C>>,
    review: seq<Matched>,
    matchedHeld: set<int>,
    results: seq<Option<Origin>>)

  /** A choice the item does not allow is as good as none. */
  function Decided(key: ItemKey, matched: Option<Origin>, proposed: Action, choices: Choices): (item: Matched)
    ensures item.file == key.0 && item.index == key.1 && item.matched == matched && item.proposed == proposed
    ensures item.action == proposed || (key in choices && item.action == choices[key] && item.MayChoose(choices[key]))
    ensures key in choices && item.MayChoose(choices[key]) ==> item.action == choices[key]
  {
    var item := Matched(key.0, key.1, matched, proposed, proposed);
    if key in choices && item.MayChoose(choices[key]) then item.(action := choices[key]) else item
  }

  function Proposal<C>(kind: Kind<C>, item: C, pair: Option<(nat, Rank)>, entries: seq<Entry<C>>): Action
    requires pair.Some? ==> pair.value.0 < |entries|
  {
    match pair
    case None => Add
    case Some((j, rank)) =>
      if rank.Same? && kind.sameDetails(item, entries[j].content) then Skip else Replace
  }

  /** One item, paired with an entry or with none, taken in. */
  function TakeOne<C>(kind: Kind<C>, intake: Intake, i: nat, item: C, pair: Option<(nat, Rank)>, w: Work<C>): Work<C>
    requires pair.Some? ==> pair.value.0 < |w.entries|
  {
    var key := (intake.file, i);
    var matched := if pair.Some? then Some(w.entries[pair.value.0].origin) else None;
    var reviewed := Decided(key, matched, Proposal(kind, item, pair, w.entries), intake.choices);
    var held := if matched.Some? && matched.value.Held? then w.matchedHeld + {matched.value.id} else w.matchedHeld;
    var added := Entry(File(intake.file, i), item, Some(key), intake.track);
    if reviewed.action.Add? then
      Work(w.entries + [added], w.review + [reviewed], held, w.results + [Some(added.origin)])
    else if reviewed.action.Replace? && pair.Some? then
      var j := pair.value.0;
      var was := w.entries[j];
      var now := Entry(was.origin, kind.taking(item, was.content), Some(key),
                       if intake.setsTrack then intake.track else was.track);
      Work(w.entries[j := now], w.review + [reviewed], held, w.results + [matched])
    else
      Work(w.entries, w.review + [reviewed], held, w.results + [matched])
  }

  type Pairs = seq<Option<(nat, Rank)>>

  ghost predicate PairsWithin(pairs: Pairs, entries: nat) {
    forall i :: 0 <= i < |pairs| && pairs[i].Some? ==> pairs[i].value.0 < entries
  }

  /** The items from `i` on, taken in one after another. */
  function TakeFrom<C>(kind: Kind<C>, intake: Intake, items: seq<C>, pairs: Pairs, i: nat, w: Work<C>): (after: Work<C>)
    requires i <= |items| == |pairs| && PairsWithin(pairs, |w.entries|)
    ensures |after.results| == |w.results| + |items| - i
    decreases |items| - i
  {
    if i == |items| then w
    else TakeFrom(kind, intake, items, pairs, i + 1, TakeOne(kind, intake, i, items[i], pairs[i], w))
  }

  /** How a file's items relate to the entries. */
  function Relates<C>(kind: Kind<C>, items: seq<C>, entries: seq<Entry<C>>): Relating {
    (i: nat, j: nat) => if i < |items| && j < |entries| then kind.relates(items[i], entries[j].content) else None
  }

  ghost function PairsOf<C>(kind: Kind<C>, items: seq<C>, entries: seq<Entry<C>>): (pairs: Pairs)
    ensures |pairs| == |items|
  {
    Paired(|items|, |entries|, Relates(kind, items, entries))
  }

  lemma {:induction false} PairsOfWithin<C>(kind: Kind<C>, items: seq<C>, entries: seq<Entry<C>>)
    ensures PairsWithin(PairsOf(kind, items, entries), |entries|)
    ensures forall i :: 0 <= i < |items| && PairsOf(kind, items, entries)[i].Some?
              ==> var (j, rank) := PairsOf(kind, items, entries)[i].value;
                  j < |entries| && kind.relates(items[i], entries[j].content).Some?
  {
    forall i | 0 <= i < |items| && PairsOf(kind, items, entries)[i].Some?
      ensures var (j, rank) := PairsOf(kind, items, entries)[i].value;
              j < |entries| && kind.relates(items[i], entries[j].content).Some?
    {
      PairedMeans(|items|, |entries|, Relates(kind, items, entries), i);
    }
  }

  /** Everything a file's items of a kind do: paired with the entries there are, then taken in. */
  ghost function TakeAll<C>(kind: Kind<C>, intake: Intake, items: seq<C>, w: Work<C>): (after: Work<C>)
    requires w.results == []
    ensures |after.results| == |items|
  {
    PairsOfWithin(kind, items, w.entries);
    TakeFrom(kind, intake, items, PairsOf(kind, items, w.entries), 0, w)
  }

  /** The same, as the loop over the items. */
  method TakeItems<C>(kind: Kind<C>, intake: Intake, items: seq<C>, entries: seq<Entry<C>>, review: seq<Matched>,
                      matchedHeld: set<int>) returns (w: Work<C>)
    ensures w == TakeAll(kind, intake, items, Work(entries, review, matchedHeld, []))
  {
    var pairs := Pair(|items|, |entries|, Relates(kind, items, entries));
    PairsOfWithin(kind, items, entries);
    w := Work(entries, review, matchedHeld, []);
    for i := 0 to |items|
      invariant PairsWithin(pairs, |w.entries|)
      invariant TakeFrom(kind, intake, items, pairs, i, w)
             == TakeAll(kind, intake, items, Work(entries, review, matchedHeld, []))
    {
      var item, key := items[i], (intake.file, i);
      var matched := None;
      if pairs[i].Some? {
        matched := Some(w.entries[pairs[i].value.0].origin);
        if matched.value.Held? {
          w := w.(matchedHeld := w.matchedHeld + {matched.value.id});
        }
      }
      var reviewed := Decided(key, matched, Proposal(kind, item, pairs[i], w.entries), intake.choices);
      if reviewed.action.Add? {
        var added := Entry(File(intake.file, i), item, Some(key), intake.track);
        w := w.(entries := w.entries + [added]);
        matched := Some(added.origin);
      } else if reviewed.action.Replace? && pairs[i].Some? {
        var j := pairs[i].value.0;
        var target := w.entries[j];
        target := target.(content := kind.taking(item, target.content), source := Some(key));
        if intake.setsTrack {
          target := target.(track := intake.track);
        }
        w := w.(entries := w.entries[j := target]);
      }
      w := w.(review := w.review + [reviewed], results := w.results + [matched]);
    }
  }

  // ------------------------------------------------- what a file leaves behind

  function Origins<C>(entries: seq<Entry<C>>): (origins: seq<Origin>)
    ensures |origins| == |entries|
  {
    seq(|entries|, k requires 0 <= k < |entries| => entries[k].origin)
  }

  /** The origins of the items a review adds, in its order. */
  function AddedBy(review: seq<Matched>): seq<Origin> {
    if review == [] then []
    else AddedBy(review[..|review| - 1])
         + if review[|review| - 1].action.Add? then [File(review[|review| - 1].file, review[|review| - 1].index)]
           else []
  }

  /** The last item of a review that added or replaced the entry of an origin. */
  function LastSource(review: seq<Matched>, origin: Origin): Option<ItemKey> {
    if review == [] then None
    else
      var last := review[|review| - 1];
      if (last.action.Add? && File(last.file, last.index) == origin)
         || (last.action.Replace? && last.matched == Some(origin)) then
        Some((last.file, last.index))
      else
        LastSource(review[..|review| - 1], origin)
  }

  /** The held ids a review matched. */
  function HeldMatched(review: seq<Matched>): set<int> {
    set m | m in review && m.matched.Some? && m.matched.value.Held? :: m.matched.value.id
  }

  ghost predicate Distinct<T(!new)>(s: seq<T>) {
    forall p, q :: 0 <= p < q < |s| ==> s[p] != s[q]
  }

  /** Every file item behind an entry comes before item `i` of file `f`. */
  ghost predicate Earlier<C>(entries: seq<Entry<C>>, f: nat, i: nat) {
    forall k :: 0 <= k < |entries| && entries[k].origin.File? ==>
      entries[k].origin.file < f || (entries[k].origin.file == f && entries[k].origin.index < i)
  }

  /**
    The books balance: first what the collection held, in its order, then
    what the review added; no entry twice; and each entry's source is the
    last item that added or replaced it.
  */
  ghost predicate Balanced<C>(first: seq<Entry<C>>, entries: seq<Entry<C>>, review: seq<Matched>) {
    && Origins(entries) == Origins(first) + AddedBy(review)
    && (forall p, q :: 0 <= p < q < |entries| ==> entries[p].origin != entries[q].origin)
    && (forall k :: 0 <= k < |entries| ==> entries[k].source == LastSource(review, entries[k].origin))
  }

  lemma {:induction false} OneBalanced<C>(kind: Kind<C>, intake: Intake, i: nat, item: C, pair: Option<(nat, Rank)>,
                                          w: Work<C>, first: seq<Entry<C>>)
    requires pair.Some? ==> pair.value.0 < |w.entries|
    requires Balanced(first, w.entries, w.review) && Earlier(w.entries, intake.file, i)
    ensures var after := TakeOne(kind, intake, i, item, pair, w);
            Balanced(first, after.entries, after.review) && Earlier(after.entries, intake.file, i + 1)
  {
    var after := TakeOne(kind, intake, i, item, pair, w);
    var last := after.review[|after.review| - 1];
    assert after.review[..|after.review| - 1] == w.review;
    assert !last.action.Replace? || pair.Some?;
    forall k | 0 <= k < |after.entries|
      ensures after.entries[k].source == LastSource(after.review, after.entries[k].origin)
    {
      if k < |w.entries| {
        assert after.entries[k].origin == w.entries[k].origin;
      }
    }
    if last.action.Add? {
      assert Origins(after.entries) == Origins(w.entries) + [File(intake.file, i)];
    } else {
      assert Origins(after.entries) == Origins(w.entries);
    }
  }

  lemma {:induction false} FromBalanced<C>(kind: Kind<C>, intake: Intake, items: seq<C>, pairs: Pairs, i: nat,
                                           w: Work<C>, first: seq<Entry<C>>)
    requires i <= |items| == |pairs| && PairsWithin(pairs, |w.entries|)
    requires Balanced(first, w.entries, w.review) && Earlier(w.entries, intake.file, i)
    ensures var after := TakeFrom(kind, intake, items, pairs, i, w);
            Balanced(first, after.entries, after.review) && Earlier(after.entries, intake.file, |items|)
    decreases |items| - i
  {
    if i < |items| {
      OneBalanced(kind, intake, i, items[i], pairs[i], w, first);
      FromBalanced(kind, intake, items, pairs, i + 1, TakeOne(kind, intake, i, items[i], pairs[i], w), first);
    }
  }

  // ------------------------------------------------------- what was reviewed

  /** A review goes over a file's items one by one, in their order. */
  ghost predicate Reviews(more: seq<Matched>, f: nat, from: nat) {
    forall k :: 0 <= k < |more| ==> more[k].file == f && more[k].index == from + k
  }

  lemma {:induction false} FromReviews<C>(kind: Kind<C>, intake: Intake, items: seq<C>, pairs: Pairs, i: nat,
                                          w: Work<C>)
    requires i <= |items| == |pairs| && PairsWithin(pairs, |w.entries|)
    ensures var after := TakeFrom(kind, intake, items, pairs, i, w);
            && |after.review| == |w.review| + |items| - i && after.review[..|w.review|] == w.review
            && Reviews(after.review[|w.review|..], intake.file, i)
    decreases |items| - i
  {
    var after := TakeFrom(kind, intake, items, pairs, i, w);
    if i < |items| {
      var one := TakeOne(kind, intake, i, items[i], pairs[i], w);
      FromReviews(kind, intake, items, pairs, i + 1, one);
      var n := |w.review|;
      assert after.review[..n + 1][..n] == after.review[..n] == w.review;
      forall k | 0 <= k < |items| - i
        ensures after.review[n..][k].file == intake.file && after.review[n..][k].index == i + k
      {
        if k > 0 {
          assert after.review[n..][k] == after.review[n + 1..][k - 1];
        } else {
          assert after.review[n] == after.review[..n + 1][n] == one.review[n];
        }
      }
    } else {
      assert after.review[..|w.review|] == w.review;
    }
  }

  lemma {:induction false} HeldMatchedMore(review: seq<Matched>, m: Matched)
    ensures HeldMatched(review + [m])
         == HeldMatched(review) + if m.matched.Some? && m.matched.value.Held? then {m.matched.value.id} else {}
  {
    assert m in review + [m];
    forall id | id in HeldMatched(review) ensures id in HeldMatched(review + [m]) {
      var n :| n in review && n.matched.Some? && n.matched.value.Held? && n.matched.value.id == id;
      assert n in review + [m];
    }
  }

  /** Exactly the held entries an item of the review matched are taken note of. */
  lemma {:induction false} FromMatchedHeld<C>(kind: Kind<C>, intake: Intake, items: seq<C>, pairs: Pairs, i: nat,
                                              w: Work<C>, others: set<int>)
    requires i <= |items| == |pairs| && PairsWithin(pairs, |w.entries|)
    requires w.matchedHeld == HeldMatched(w.review) + others
    ensures var after := TakeFrom(kind, intake, items, pairs, i, w);
            after.matchedHeld == HeldMatched(after.review) + others
    decreases |items| - i
  {
    if i < |items| {
      var one := TakeOne(kind, intake, i, items[i], pairs[i], w);
      HeldMatchedMore(w.review, one.review[|w.review|]);
      assert one.review == w.review + [one.review[|w.review|]];
      FromMatchedHeld(kind, intake, items, pairs, i + 1, one, others);
    }
  }

  // ----------------------------------------------- where waypoints may belong

  /** The entry of an origin stays: it is there, and if held, was matched. */
  ghost predicate Stays<C>(origin: Origin, entries: seq<Entry<C>>, matchedHeld: set<int>) {
    && (exists k :: 0 <= k < |entries| && entries[k].origin == origin)
    && (origin.Held? ==> origin.id in matchedHeld)
  }

  lemma {:induction false} OneStays<C>(kind: Kind<C>, intake: Intake, i: nat, item: C, pair: Option<(nat, Rank)>,
                                       w: Work<C>, origin: Origin)
    requires pair.Some? ==> pair.value.0 < |w.entries|
    requires Stays(origin, w.entries, w.matchedHeld)
    ensures var after := TakeOne(kind, intake, i, item, pair, w); Stays(origin, after.entries, after.matchedHeld)
  {
    var after := TakeOne(kind, intake, i, item, pair, w);
    var k :| 0 <= k < |w.entries| && w.entries[k].origin == origin;
    assert after.entries[k].origin == origin;
  }

  lemma {:induction false} ResultStays<C>(kind: Kind<C>, intake: Intake, i: nat, item: C, pair: Option<(nat, Rank)>,
                                          w: Work<C>)
    requires pair.Some? ==> pair.value.0 < |w.entries|
    ensures var after := TakeOne(kind, intake, i, item, pair, w);
            var result := after.results[|w.results|];
            result.Some? ==> Stays(result.value, after.entries, after.matchedHeld)
  {
    var after := TakeOne(kind, intake, i, item, pair, w);
    var result := after.results[|w.results|];
    if result.Some? {
      var k := if after.review[|w.review|].action.Add? then |w.entries| else pair.value.0;
      assert after.entries[k].origin == result.value;
    }
  }

  /** Each result so far is an entry that stays. */
  ghost predicate ResultsStay<C>(w: Work<C>) {
    forall k :: 0 <= k < |w.results| && w.results[k].Some? ==> Stays(w.results[k].value, w.entries, w.matchedHeld)
  }

  lemma {:induction false} OneResultsStay<C>(kind: Kind<C>, intake: Intake, i: nat, item: C,
                                             pair: Option<(nat, Rank)>, w: Work<C>)
    requires (pair.Some? ==> pair.value.0 < |w.entries|) && ResultsStay(w)
    ensures ResultsStay(TakeOne(kind, intake, i, item, pair, w))
  {
    var after := TakeOne(kind, intake, i, item, pair, w);
    forall k | 0 <= k < |after.results| && after.results[k].Some?
      ensures Stays(after.results[k].value, after.entries, after.matchedHeld)
    {
      if k < |w.results| {
        assert after.results[k] == w.results[k];
        OneStays(kind, intake, i, item, pair, w, w.results[k].value);
      } else {
        ResultStays(kind, intake, i, item, pair, w);
      }
    }
  }

  /** What became of each of a file's items is an entry that stays, and so does every entry that did. */
  lemma {:induction false} FromStays<C>(kind: Kind<C>, intake: Intake, items: seq<C>, pairs: Pairs, i: nat,
                                        w: Work<C>)
    requires i <= |items| == |pairs| && PairsWithin(pairs, |w.entries|) && ResultsStay(w)
    ensures var after := TakeFrom(kind, intake, items, pairs, i, w);
            && ResultsStay(after)
            && (forall origin :: Stays(origin, w.entries, w.matchedHeld)
                                 ==> Stays(origin, after.entries, after.matchedHeld))
    decreases |items| - i
  {
    if i < |items| {
      var one := TakeOne(kind, intake, i, items[i], pairs[i], w);
      forall origin | Stays(origin, w.entries, w.matchedHeld) ensures Stays(origin, one.entries, one.matchedHeld) {
        OneStays(kind, intake, i, items[i], pairs[i], w, origin);
      }
      OneResultsStay(kind, intake, i, items[i], pairs[i], w);
      FromStays(kind, intake, items, pairs, i + 1, one);
    }
  }

  /** Every held entry an item is paired with is taken note of. */
  lemma {:induction false} PairedAreNoted<C>(kind: Kind<C>, intake: Intake, items: seq<C>, pairs: Pairs, i: nat,
                                             w: Work<C>, m: nat)
    requires i <= |items| == |pairs| && PairsWithin(pairs, |w.entries|)
    requires m < |items| && pairs[m].Some? && w.entries[pairs[m].value.0].origin.Held?
    requires m < i ==> w.entries[pairs[m].value.0].origin.id in w.matchedHeld
    ensures w.entries[pairs[m].value.0].origin.id in TakeFrom(kind, intake, items, pairs, i, w).matchedHeld
    decreases |items| - i
  {
    if i < |items| {
      var one := TakeOne(kind, intake, i, items[i], pairs[i], w);
      assert one.entries[pairs[m].value.0].origin == w.entries[pairs[m].value.0].origin;
      PairedAreNoted(kind, intake, items, pairs, i + 1, one, m);
    }
  }

  /** Every held id an entry has, or an item of the review matched, is one of `ids`. */
  ghost predicate HeldWithin<C>(ids: seq<int>, entries: seq<Entry<C>>, review: seq<Matched>) {
    && (forall k :: 0 <= k < |entries| && entries[k].origin.Held? ==> entries[k].origin.id in ids)
    && (forall k :: 0 <= k < |review| && review[k].matched.Some? && review[k].matched.value.Held?
                    ==> review[k].matched.value.id in ids)
  }

  lemma {:induction false} FromWithin<C>(kind: Kind<C>, intake: Intake, items: seq<C>, pairs: Pairs, i: nat,
                                         w: Work<C>, ids: seq<int>)
    requires i <= |items| == |pairs| && PairsWithin(pairs, |w.entries|) && HeldWithin(ids, w.entries, w.review)
    ensures var after := TakeFrom(kind, intake, items, pairs, i, w); HeldWithin(ids, after.entries, after.review)
    decreases |items| - i
  {
    if i < |items| {
      FromWithin(kind, intake, items, pairs, i + 1, TakeOne(kind, intake, i, items[i], pairs[i], w), ids);
    }
  }

  /** Every entry's track, where it names one, is among `tracks`. */
  ghost predicate BelongsTo<C>(entries: seq<Entry<C>>, tracks: iset<Origin>) {
    forall k :: 0 <= k < |entries| && entries[k].track.OnTrack? && entries[k].track.track.Some?
                ==> entries[k].track.track.value in tracks
  }

  lemma {:induction false} FromBelongs<C>(kind: Kind<C>, intake: Intake, items: seq<C>, pairs: Pairs, i: nat,
                                          w: Work<C>, tracks: iset<Origin>)
    requires i <= |items| == |pairs| && PairsWithin(pairs, |w.entries|)
    requires BelongsTo(w.entries, tracks)
    requires intake.track.OnTrack? && intake.track.track.Some? ==> intake.track.track.value in tracks
    ensures BelongsTo(TakeFrom(kind, intake, items, pairs, i, w).entries, tracks)
    decreases |items| - i
  {
    if i < |items| {
      FromBelongs(kind, intake, items, pairs, i + 1, TakeOne(kind, intake, i, items[i], pairs[i], w), tracks);
    }
  }

  // ------------------------------------------------------------------- names

  /** How contents are named. */
  datatype Naming<!C> = Naming(name: C -> Option<string>, renamed: (C, Option<string>) -> C)

  /** An entry takes an item's contents under the name it has. */
  ghost predicate KeepsNames<C(!new)>(kind: Kind<C>, naming: Naming<C>) {
    && (forall item, was :: kind.relates(item, was).Some?
                            ==> kind.taking(item, was) == naming.renamed(item, naming.name(was))
                                && (naming.name(item).Some? ==> naming.name(item) == naming.name(was)))
    && (forall c, n :: naming.name(naming.renamed(c, n)) == n)
    && (forall c :: naming.renamed(c, naming.name(c)) == c)
  }

  ghost function OriginName<C>(naming: Naming<C>, at: ItemKey -> C, heldName: int -> Option<string>, origin: Origin)
    : Option<string>
  {
    match origin
    case Held(id) => heldName(id)
    case File(file, index) => naming.name(at((file, index)))
  }

  /** An entry goes by the name it came with, and is otherwise what its source says. */
  ghost predicate Told<C>(naming: Naming<C>, at: ItemKey -> C, heldName: int -> Option<string>, e: Entry<C>) {
    && naming.name(e.content) == OriginName(naming, at, heldName, e.origin)
    && (e.source.Some? ==>
          && e.content == naming.renamed(at(e.source.value), naming.name(e.content))
          && (naming.name(at(e.source.value)).Some? ==> naming.name(at(e.source.value)) == naming.name(e.content)))
    && (e.origin.File? ==> e.source.Some?)
  }

  ghost predicate AllTold<C>(naming: Naming<C>, at: ItemKey -> C, heldName: int -> Option<string>,
                             entries: seq<Entry<C>>)
  {
    forall k :: 0 <= k < |entries| ==> Told(naming, at, heldName, entries[k])
  }

  /** From item `i` on, pairs join each item with an entry of its own that it relates to. */
  ghost predicate PairsRelate<C>(kind: Kind<C>, items: seq<C>, pairs: Pairs, i: nat, entries: seq<Entry<C>>)
    requires |pairs| == |items| && PairsWithin(pairs, |entries|)
  {
    && (forall m :: i <= m < |items| && pairs[m].Some?
                    ==> kind.relates(items[m], entries[pairs[m].value.0].content).Some?)
    && (forall m, n :: 0 <= m < n < |items| && pairs[m].Some? && pairs[n].Some?
                       ==> pairs[m].value.0 != pairs[n].value.0)
  }

  lemma {:induction false} PairsOfRelate<C>(kind: Kind<C>, items: seq<C>, entries: seq<Entry<C>>)
    ensures PairsWithin(PairsOf(kind, items, entries), |entries|)
    ensures PairsRelate(kind, items, PairsOf(kind, items, entries), 0, entries)
  {
    var pairs := PairsOf(kind, items, entries);
    PairsOfWithin(kind, items, entries);
    forall m, n | 0 <= m < n < |items| && pairs[m].Some? && pairs[n].Some?
      ensures pairs[m].value.0 != pairs[n].value.0
    {
      PairedMeans(|items|, |entries|, Relates(kind, items, entries), m);
    }
  }

  lemma {:induction false} FromTold<C(!new)>(kind: Kind<C>, intake: Intake, items: seq<C>, pairs: Pairs, i: nat,
                                             w: Work<C>, naming: Naming<C>, at: ItemKey -> C,
                                             heldName: int -> Option<string>)
    requires i <= |items| == |pairs| && PairsWithin(pairs, |w.entries|)
    requires KeepsNames(kind, naming) && PairsRelate(kind, items, pairs, i, w.entries)
    requires forall k :: 0 <= k < |items| ==> at((intake.file, k)) == items[k]
    requires AllTold(naming, at, heldName, w.entries)
    ensures AllTold(naming, at, heldName, TakeFrom(kind, intake, items, pairs, i, w).entries)
    decreases |items| - i
  {
    if i < |items| {
      var one := TakeOne(kind, intake, i, items[i], pairs[i], w);
      forall k | 0 <= k < |one.entries|
        ensures Told(naming, at, heldName, one.entries[k])
      {
        if k < |w.entries| {
          assert Told(naming, at, heldName, w.entries[k]);
        }
      }
      FromTold(kind, intake, items, pairs, i + 1, one, naming, at, heldName);
    }
  }

  // --------------------------------------------------- one upload after another

  /**
    How an upload that comes second sees what one upload of both would: the
    items of the first `first` files are held by now, under ids of their own.
  */
  datatype Later = Later(first: nat, ids: Origin -> int) {
    function Of(origin: Origin): Origin {
      if origin.File? && origin.file >= first then File(origin.file - first, origin.index) else Held(ids(origin))
    }

    function OfOption(origin: Option<Origin>): Option<Origin> {
      match origin case Some(o) => Some(Of(o)) case None => None
    }

    function OfAll(origins: seq<Option<Origin>>): seq<Option<Origin>> {
      seq(|origins|, k requires 0 <= k < |origins| => OfOption(origins[k]))
    }

    function OfSource(source: Option<ItemKey>): Option<ItemKey> {
      if source.Some? && source.value.0 >= first then Some((source.value.0 - first, source.value.1)) else None
    }

    function OfMatched(m: Matched): Matched
      requires m.file >= first
    {
      Matched(m.file - first, m.index, OfOption(m.matched), m.proposed, m.action)
    }

    ghost predicate OfReview(more: seq<Matched>, later: seq<Matched>) {
      |more| == |later| && forall k :: 0 <= k < |more| ==> more[k].file >= first && later[k] == OfMatched(more[k])
    }
  }

  /** A second upload's entry, and the one upload's: alike, but for what the second takes as held. */
  ghost predicate Alike<C>(later: Later, tracks: Later, before: Option<Membership>, whole: Entry<C>, second: Entry<C>) {
    && second.content == whole.content
    && second.origin == later.Of(whole.origin)
    && second.source == later.OfSource(whole.source)
    && (match second.track
        case Unchanged => whole.track == before.GetOr(Unchanged)
        case OnTrack(t) => exists o :: whole.track == OnTrack(o) && t == tracks.OfOption(o))
  }

  ghost predicate AllAlike<C>(later: Later, tracks: Later, before: seq<Entry<C>>, whole: seq<Entry<C>>,
                              second: seq<Entry<C>>)
  {
    && |whole| == |second|
    && forall k :: 0 <= k < |whole| ==>
         Alike(later, tracks, if k < |before| then Some(before[k].track) else None, whole[k], second[k])
  }

  /** The owner decides the second upload's items as they would the one upload's. */
  ghost predicate SameChoices(first: nat, whole: Choices, second: Choices) {
    forall f: nat, i: nat ::
      && ((f, i) in second <==> (f + first, i) in whole)
      && ((f, i) in second ==> second[(f, i)] == whole[(f + first, i)])
  }

  /** The two intakes of one file: the same, seen from either upload. */
  ghost predicate SameIntake(tracks: Later, whole: Intake, second: Intake) {
    && whole.file == second.file + tracks.first
    && whole.setsTrack == second.setsTrack && (second.setsTrack ==> second.track.OnTrack?)
    && (match second.track
        case Unchanged => whole.track.Unchanged?
        case OnTrack(t) => whole.track.OnTrack? && t == tracks.OfOption(whole.track.track))
    && SameChoices(tracks.first, whole.choices, second.choices)
  }

  /** Where the one upload and the second one stand, item by item. */
  ghost predicate InStep<C>(later: Later, tracks: Later, before: seq<Entry<C>>, past: nat, whole: Work<C>,
                            second: Work<C>)
  {
    && AllAlike(later, tracks, before, whole.entries, second.entries)
    && past <= |whole.review| && later.OfReview(whole.review[past..], second.review)
    && second.results == later.OfAll(whole.results)
  }

  lemma {:induction false} OneAlike<C>(kind: Kind<C>, later: Later, tracks: Later, before: seq<Entry<C>>,
                                       wholeIn: Intake, secondIn: Intake, i: nat, item: C, pair: Option<(nat, Rank)>,
                                       whole: Work<C>, second: Work<C>)
    requires later.first == tracks.first && SameIntake(tracks, wholeIn, secondIn)
    requires AllAlike(later, tracks, before, whole.entries, second.entries)
    requires |before| <= |whole.entries| && (pair.Some? ==> pair.value.0 < |whole.entries|)
    ensures AllAlike(later, tracks, before, TakeOne(kind, wholeIn, i, item, pair, whole).entries,
                     TakeOne(kind, secondIn, i, item, pair, second).entries)
  {
    var a, b := TakeOne(kind, wholeIn, i, item, pair, whole), TakeOne(kind, secondIn, i, item, pair, second);
    assert (secondIn.file, i) in secondIn.choices <==> (secondIn.file + later.first, i) in wholeIn.choices;
    forall k | 0 <= k < |a.entries|
      ensures Alike(later, tracks, if k < |before| then Some(before[k].track) else None, a.entries[k], b.entries[k])
    {
      if k < |whole.entries| {
        assert Alike(later, tracks, if k < |before| then Some(before[k].track) else None, whole.entries[k],
                     second.entries[k]);
      }
    }
  }

  lemma {:induction false} OneReviewed<C>(kind: Kind<C>, later: Later, tracks: Later, before: seq<Entry<C>>,
                                          wholeIn: Intake, secondIn: Intake, i: nat, item: C,
                                          pair: Option<(nat, Rank)>, whole: Work<C>, second: Work<C>)
    requires later.first == tracks.first && SameIntake(tracks, wholeIn, secondIn)
    requires AllAlike(later, tracks, before, whole.entries, second.entries)
    requires pair.Some? ==> pair.value.0 < |whole.entries|
    ensures var a, b := TakeOne(kind, wholeIn, i, item, pair, whole), TakeOne(kind, secondIn, i, item, pair, second);
            && b.review[|second.review|] == later.OfMatched(a.review[|whole.review|])
            && b.results[|second.results|] == later.OfOption(a.results[|whole.results|])
  {
    if pair.Some? {
      assert Alike(later, tracks, if pair.value.0 < |before| then Some(before[pair.value.0].track) else None,
                   whole.entries[pair.value.0], second.entries[pair.value.0]);
    }
    assert (secondIn.file, i) in secondIn.choices <==> (secondIn.file + later.first, i) in wholeIn.choices;
  }

  lemma {:induction false} OneInStep<C>(kind: Kind<C>, later: Later, tracks: Later, before: seq<Entry<C>>, past: nat,
                                        wholeIn: Intake, secondIn: Intake, i: nat, item: C, pair: Option<(nat, Rank)>,
                                        whole: Work<C>, second: Work<C>)
    requires later.first == tracks.first && SameIntake(tracks, wholeIn, secondIn)
    requires InStep(later, tracks, before, past, whole, second)
    requires |before| <= |whole.entries| && (pair.Some? ==> pair.value.0 < |whole.entries|)
    ensures InStep(later, tracks, before, past, TakeOne(kind, wholeIn, i, item, pair, whole),
                   TakeOne(kind, secondIn, i, item, pair, second))
  {
    var a := TakeOne(kind, wholeIn, i, item, pair, whole);
    assert a.review[past..] == whole.review[past..] + [a.review[|whole.review|]];
    OneReviewed(kind, later, tracks, before, wholeIn, secondIn, i, item, pair, whole, second);
    OneAlike(kind, later, tracks, before, wholeIn, secondIn, i, item, pair, whole, second);
  }

  lemma {:induction false} FromInStep<C>(kind: Kind<C>, later: Later, tracks: Later, before: seq<Entry<C>>, past: nat,
                                         wholeIn: Intake, secondIn: Intake, items: seq<C>, pairs: Pairs, i: nat,
                                         whole: Work<C>, second: Work<C>)
    requires later.first == tracks.first && SameIntake(tracks, wholeIn, secondIn)
    requires InStep(later, tracks, before, past, whole, second) && |before| <= |whole.entries|
    requires i <= |items| == |pairs| && PairsWithin(pairs, |whole.entries|)
    ensures InStep(later, tracks, before, past, TakeFrom(kind, wholeIn, items, pairs, i, whole),
                   TakeFrom(kind, secondIn, items, pairs, i, second))
    decreases |items| - i
  {
    if i < |items| {
      OneInStep(kind, later, tracks, before, past, wholeIn, secondIn, i, items[i], pairs[i], whole, second);
      FromInStep(kind, later, tracks, before, past, wholeIn, secondIn, items, pairs, i + 1,
                 TakeOne(kind, wholeIn, i, items[i], pairs[i], whole),
                 TakeOne(kind, secondIn, i, items[i], pairs[i], second));
    }
  }

  /** Taking a file in second or within one upload pairs, proposes and does the same. */
  lemma {:induction false} AllInStep<C>(kind: Kind<C>, later: Later, tracks: Later, before: seq<Entry<C>>, past: nat,
                                        wholeIn: Intake, secondIn: Intake, items: seq<C>, whole: Work<C>,
                                        second: Work<C>)
    requires later.first == tracks.first && SameIntake(tracks, wholeIn, secondIn)
    requires InStep(later, tracks, before, past, whole, second) && |before| <= |whole.entries|
    requires whole.results == [] == second.results
    ensures InStep(later, tracks, before, past, TakeAll(kind, wholeIn, items, whole),
                   TakeAll(kind, secondIn, items, second))
  {
    forall i: nat, j: nat | i < |items| && j < |whole.entries|
      ensures Relates(kind, items, whole.entries)(i, j) == Relates(kind, items, second.entries)(i, j)
    {
      assert Alike(later, tracks, if j < |before| then Some(before[j].track) else None, whole.entries[j],
                   second.entries[j]);
    }
    PairedSame(|items|, |whole.entries|, Relates(kind, items, whole.entries), Relates(kind, items, second.entries));
    PairsOfWithin(kind, items, whole.entries);
    FromInStep(kind, later, tracks, before, past, wholeIn, secondIn, items, PairsOf(kind, items, whole.entries), 0,
               whole, second);
  }
}
