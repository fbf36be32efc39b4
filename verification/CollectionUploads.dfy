/**
  Particular uploads (src/server/collection_match.rs): items all added, items
  all skipped, and so the same file twice.
*/
module CollectionUploads {
  import opened Wrappers
  import opened Pairing
  import opened Importing
  import opened CollectionMatch
  import opened Folds

  const EMPTY := Collection([], [])

  /** No decisions: every proposal is taken. */
  const NONE := Decisions(false, map[], map[], {}, {})

  // --------------------------------------------------- items nothing matches

  function AddedEntries<C>(f: nat, items: seq<C>, track: Membership): (entries: seq<Entry<C>>)
    ensures |entries| == |items|
  {
    seq(|items|, k requires 0 <= k < |items| => Entry(File(f, k), items[k], Some((f, k)), track))
  }

  function AddedReview(f: nat, n: nat): (review: seq<Matched>)
    ensures |review| == n
  {
    seq(n, (k: nat) => Matched(f, k, None, Add, Add))
  }

  function SkippedReview(f: nat, n: nat, earlier: nat): (review: seq<Matched>)
    ensures |review| == n
  {
    seq(n, (k: nat) => Matched(f, k, Some(File(earlier, k)), Skip, Skip))
  }

  function Results(f: nat, n: nat): (results: seq<Option<Origin>>)
    ensures |results| == n
  {
    seq(n, (k: nat) => Some(File(f, k)))
  }

  lemma {:induction false} FromAdds<C>(kind: Kind<C>, intake: Intake, items: seq<C>, pairs: Pairs, i: nat, w: Work<C>)
    requires i <= |items| == |pairs| && (forall k :: 0 <= k < |pairs| ==> pairs[k].None?)
    requires intake.choices == map[]
    ensures var after := TakeFrom(kind, intake, items, pairs, i, w);
            var file := intake.file;
            && after.entries == w.entries + AddedEntries(file, items, intake.track)[i..]
            && after.review == w.review + AddedReview(file, |items|)[i..]
            && after.results == w.results + Results(file, |items|)[i..]
            && after.matchedHeld == w.matchedHeld
    decreases |items| - i
  {
    if i < |items| {
      FromAdds(kind, intake, items, pairs, i + 1, TakeOne(kind, intake, i, items[i], pairs[i], w));
    }
  }

  /** Into a collection without any of their kind, items are all added. */
  lemma {:induction false} AllAdded<C>(kind: Kind<C>, intake: Intake, items: seq<C>, w: Work<C>)
    requires w.results == [] && w.entries == [] && intake.choices == map[]
    ensures var after := TakeAll(kind, intake, items, w);
            && after.entries == AddedEntries(intake.file, items, intake.track)
            && after.review == w.review + AddedReview(intake.file, |items|)
            && after.results == Results(intake.file, |items|)
            && after.matchedHeld == w.matchedHeld
  {
    var pairs := PairsOf(kind, items, []);
    PairsOfWithin(kind, items, []);
    FromAdds(kind, intake, items, pairs, 0, w);
    assert AddedEntries(intake.file, items, intake.track)[0..] == AddedEntries(intake.file, items, intake.track);
    assert AddedReview(intake.file, |items|)[0..] == AddedReview(intake.file, |items|);
    assert Results(intake.file, |items|)[0..] == Results(intake.file, |items|);
  }

  lemma {:induction false} NoneTaken<C>(kind: Kind<C>, intake: Intake, w: Work<C>)
    requires w.results == []
    ensures TakeAll(kind, intake, [], w) == w
  {
  }

  // ------------------------------------------------ items that are all there

  /** An item is the same as itself, at no distance, and no distance is less than none. */
  ghost predicate Recognises<C>(kind: Kind<C>, items: seq<C>) {
    && (forall i :: 0 <= i < |items| ==>
          kind.relates(items[i], items[i]) == Some(Relation(Same, Finite(0.0))) && kind.sameDetails(items[i], items[i]))
    && (forall i, j :: 0 <= i < |items| && 0 <= j < |items| && kind.relates(items[i], items[j]).Some?
                       && kind.relates(items[i], items[j]).value.distance.Finite?
                       ==> kind.relates(items[i], items[j]).value.distance.m >= 0.0)
  }

  lemma {:induction false} FromSkips<C>(kind: Kind<C>, intake: Intake, items: seq<C>, pairs: Pairs, i: nat,
                                        w: Work<C>, earlier: nat)
    requires i <= |items| == |pairs| && |w.entries| == |items| && Recognises(kind, items)
    requires forall k :: 0 <= k < |pairs| ==> pairs[k] == Some((k, Same))
    requires forall k :: 0 <= k < |items| ==>
               w.entries[k].origin == File(earlier, k) && w.entries[k].content == items[k]
    requires intake.choices == map[]
    ensures var after := TakeFrom(kind, intake, items, pairs, i, w);
            && after.entries == w.entries
            && after.review == w.review + SkippedReview(intake.file, |items|, earlier)[i..]
            && after.results == w.results + Results(earlier, |items|)[i..]
            && after.matchedHeld == w.matchedHeld
    decreases |items| - i
  {
    if i < |items| {
      FromSkips(kind, intake, items, pairs, i + 1, TakeOne(kind, intake, i, items[i], pairs[i], w), earlier);
    }
  }

  /** Items that are all there already, in their order, are all skipped. */
  lemma {:induction false} AllSkipped<C>(kind: Kind<C>, intake: Intake, items: seq<C>, w: Work<C>, earlier: nat,
                                         track: Membership)
    requires w.results == [] && w.entries == AddedEntries(earlier, items, track) && intake.choices == map[]
    requires Recognises(kind, items)
    ensures var after := TakeAll(kind, intake, items, w);
            && after.entries == w.entries
            && after.review == w.review + SkippedReview(intake.file, |items|, earlier)
            && after.results == Results(earlier, |items|)
            && after.matchedHeld == w.matchedHeld
  {
    var relating := Relates(kind, items, w.entries);
    forall i: nat, j: nat | i < |items| && j < |items|
      ensures relating(i, j) == kind.relates(items[i], items[j])
    {
    }
    PairedInPlace(|items|, relating);
    PairsOfWithin(kind, items, w.entries);
    FromSkips(kind, intake, items, PairsOf(kind, items, w.entries), 0, w, earlier);
    var review := SkippedReview(intake.file, |items|, earlier);
    assert review[0..] == review && Results(earlier, |items|)[0..] == Results(earlier, |items|);
  }

  lemma {:induction false} Recognised(geo: Geometry, file: ParsedFile)
    requires SelfSame(geo) && forall k :: 0 <= k < |file.tracks| ==> file.tracks[k].line != []
    ensures Recognises(TrackKind(geo), file.tracks) && Recognises(WaypointKind(geo), file.waypoints)
  {
  }

  // ------------------------------------------------------ the same file twice

  /** Where a file's waypoints go when all its tracks are its own. */
  function OwnTrack(file: ParsedFile): Membership {
    OnTrack(if |file.tracks| == 1 then Some(File(0, 0)) else None)
  }

  ghost function OnceTaken(file: ParsedFile): State {
    State(AddedEntries(0, file.tracks, Unchanged), AddedEntries(0, file.waypoints, OwnTrack(file)),
          AddedReview(0, |file.tracks|), AddedReview(0, |file.waypoints|), {})
  }

  lemma {:induction false} FirstTaken(geo: Geometry, file: ParsedFile)
    ensures FileTaken(geo, NONE, 0, file, State([], [], [], [], {})) == OnceTaken(file)
  {
    var empty := State([], [], [], [], {});
    AllAdded(TrackKind(geo), Intake(0, Unchanged, false, NONE.tracks), file.tracks, Work([], [], {}, []));
    var w := TracksTaken(geo, NONE, 0, file, empty);
    var intake := WaypointIntake(0, FileTrack(file, w.results), NONE.waypoints);
    assert intake.track == OwnTrack(file);
    AllAdded(WaypointKind(geo), intake, file.waypoints, Work([], [], {}, []));
    assert [] + AddedReview(0, |file.tracks|) == AddedReview(0, |file.tracks|);
    assert [] + AddedReview(0, |file.waypoints|) == AddedReview(0, |file.waypoints|);
  }

  lemma {:induction false} SecondTaken(geo: Geometry, file: ParsedFile)
    requires SelfSame(geo) && forall k :: 0 <= k < |file.tracks| ==> file.tracks[k].line != []
    ensures FileTaken(geo, NONE, 1, file, OnceTaken(file))
         == OnceTaken(file).(
              reviewTracks := OnceTaken(file).reviewTracks + SkippedReview(1, |file.tracks|, 0),
              reviewWaypoints := OnceTaken(file).reviewWaypoints + SkippedReview(1, |file.waypoints|, 0))
  {
    var once := OnceTaken(file);
    Recognised(geo, file);
    AllSkipped(TrackKind(geo), Intake(1, Unchanged, false, NONE.tracks), file.tracks,
               Work(once.tracks, once.reviewTracks, {}, []), 0, Unchanged);
    var w := TracksTaken(geo, NONE, 1, file, once);
    AllSkipped(WaypointKind(geo), WaypointIntake(1, FileTrack(file, w.results), NONE.waypoints), file.waypoints,
               Work(once.waypoints, once.reviewWaypoints, w.matchedHeld, []), 0, OwnTrack(file));
  }

  lemma {:induction false} FoldOne<F, S>(step: (nat, F, S) -> S, a: F, s: S)
    ensures Fold(step, 0, [a], s) == step(0, a, s)
  {
    assert [a][1..] == [];
  }

  lemma {:induction false} FoldTwo<F, S>(step: (nat, F, S) -> S, a: F, b: F, s: S)
    ensures Fold(step, 0, [a, b], s) == step(1, b, step(0, a, s))
  {
    calc {
      Fold(step, 0, [a, b], s);
      { assert [a, b][1..] == [b]; }
      Fold(step, 1, [b], step(0, a, s));
      { assert [b][1..] == []; }
      step(1, b, step(0, a, s));
    }
  }

  /**
    Uploading the same file twice adds nothing: each item of the second copy
    is matched with the first copy's and skipped, even where items share
    names and places, and the collection is what one copy makes it.
  */
  lemma {:induction false} TwiceAddsNothing(geo: Geometry, file: ParsedFile)
    requires SelfSame(geo) && forall k :: 0 <= k < |file.tracks| ==> file.tracks[k].line != []
    ensures var once, twice := Matching(geo, EMPTY, [file], NONE), Matching(geo, EMPTY, [file, file], NONE);
            && twice.outcome == once.outcome
            && twice.tracks == once.tracks + SkippedReview(1, |file.tracks|, 0)
            && twice.waypoints == once.waypoints + SkippedReview(1, |file.waypoints|, 0)
  {
    var empty := State([], [], [], [], {});
    var once := OnceTaken(file);
    assert Started(EMPTY, NONE) == empty;
    FirstTaken(geo, file);
    SecondTaken(geo, file);
    FoldOne(Taking(geo, NONE), file, empty);
    FoldTwo(Taking(geo, NONE), file, file, empty);
    assert EndState(geo, EMPTY, [file], NONE) == once;
  }

  // ------------------------------------------------------ one item, one entry

  lemma {:induction false} OnlyOnePaired(relating: Relating, rank: Rank)
    requires relating(0, 0).Some? && relating(0, 0).value.rank == rank
    ensures Paired(1, 1, relating) == [Some((0, rank))]
  {
    PairedIsStable(1, 1, relating, 0, 0);
    PairedMeans(1, 1, relating, 0);
  }

  /** An item related to the one entry there is, of a file with no other of its kind. */
  lemma {:induction false} OnlyOneTaken<C>(kind: Kind<C>, intake: Intake, item: C, entry: Entry<C>,
                                           review: seq<Matched>, matchedHeld: set<int>, rank: Rank)
    requires kind.relates(item, entry.content).Some? && kind.relates(item, entry.content).value.rank == rank
    ensures var w := Work([entry], review, matchedHeld, []);
            TakeAll(kind, intake, [item], w) == TakeOne(kind, intake, 0, item, Some((0, rank)), w)
  {
    var w := Work([entry], review, matchedHeld, []);
    OnlyOnePaired(Relates(kind, [item], w.entries), rank);
    PairsOfWithin(kind, [item], w.entries);
    var pairs := PairsOf(kind, [item], w.entries);
    assert pairs == [Some((0, rank))];
    var one := TakeOne(kind, intake, 0, item, pairs[0], w);
    assert TakeFrom(kind, intake, [item], pairs, 1, one) == one;
  }

  /** An item not related to the one entry there is. */
  lemma {:induction false} OnlyOneApart<C>(kind: Kind<C>, intake: Intake, item: C, entry: Entry<C>,
                                           review: seq<Matched>, matchedHeld: set<int>)
    requires kind.relates(item, entry.content).None?
    ensures var w := Work([entry], review, matchedHeld, []);
            TakeAll(kind, intake, [item], w) == TakeOne(kind, intake, 0, item, None, w)
  {
    var w := Work([entry], review, matchedHeld, []);
    PairsOfWithin(kind, [item], w.entries);
    var pairs := PairsOf(kind, [item], w.entries);
    assert pairs == [None];
    var one := TakeOne(kind, intake, 0, item, pairs[0], w);
    assert TakeFrom(kind, intake, [item], pairs, 1, one) == one;
  }
}
