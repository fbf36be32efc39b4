/**
  Files taken together or one upload after another end in the same
  collection (src/server/collection_match.rs): the second upload's items
  match, are proposed and decided alike, seen from what the first one left.
*/
module CollectionLaws {
  import opened Wrappers
  import opened Importing
  import opened CollectionMatch
  import opened Folds

  // ----------------------------------------------------- one upload or several

  /** The ids a first upload's tracks and waypoints are stored under. */
  datatype Stored = Stored(first: nat, trackIds: Origin -> int, waypointIds: Origin -> int) {
    function Tracks(): Later { Later(first, trackIds) }

    function Waypoints(): Later { Later(first, waypointIds) }
  }

  /** One upload of all the files, and a second upload of the later ones, side by side. */
  ghost predicate SideBySide(stored: Stored, before: State, whole: State, second: State) {
    var lt, lw := stored.Tracks(), stored.Waypoints();
    && AllAlike(lt, lt, before.tracks, whole.tracks, second.tracks)
    && AllAlike(lw, lt, before.waypoints, whole.waypoints, second.waypoints)
    && |before.tracks| <= |whole.tracks| && |before.waypoints| <= |whole.waypoints|
    && |before.reviewTracks| <= |whole.reviewTracks| && |before.reviewWaypoints| <= |whole.reviewWaypoints|
    && lt.OfReview(whole.reviewTracks[|before.reviewTracks|..], second.reviewTracks)
    && lw.OfReview(whole.reviewWaypoints[|before.reviewWaypoints|..], second.reviewWaypoints)
  }

  lemma {:induction false} TakenGrows<C>(kind: Kind<C>, intake: Intake, items: seq<C>, w: Work<C>)
    requires w.results == []
    ensures var after := TakeAll(kind, intake, items, w);
            |after.entries| >= |w.entries| && |after.review| >= |w.review| && after.review[..|w.review|] == w.review
  {
    PairsOfWithin(kind, items, w.entries);
    FromReviews(kind, intake, items, PairsOf(kind, items, w.entries), 0, w);
    FromGrows(kind, intake, items, PairsOf(kind, items, w.entries), 0, w);
  }

  lemma {:induction false} FromGrows<C>(kind: Kind<C>, intake: Intake, items: seq<C>, pairs: Pairs, i: nat,
                                        w: Work<C>)
    requires i <= |items| == |pairs| && PairsWithin(pairs, |w.entries|)
    ensures |TakeFrom(kind, intake, items, pairs, i, w).entries| >= |w.entries|
    decreases |items| - i
  {
    if i < |items| {
      FromGrows(kind, intake, items, pairs, i + 1, TakeOne(kind, intake, i, items[i], pairs[i], w));
    }
  }

  lemma {:induction false} TracksSideBySide(geo: Geometry, d: Decisions, e: Decisions, f: nat, file: ParsedFile,
                                            stored: Stored, before: State, whole: State, second: State)
    requires SameChoices(stored.first, d.tracks, e.tracks) && SideBySide(stored, before, whole, second)
    ensures var a, b := TracksTaken(geo, d, f + stored.first, file, whole), TracksTaken(geo, e, f, file, second);
            && InStep(stored.Tracks(), stored.Tracks(), before.tracks, |before.reviewTracks|, a, b)
            && |a.entries| >= |whole.tracks| && |a.results| == |file.tracks|
            && b.results == stored.Tracks().OfAll(a.results)
  {
    var lt, n := stored.Tracks(), f + stored.first;
    var a := Work(whole.tracks, whole.reviewTracks, whole.matchedHeld, []);
    var b := Work(second.tracks, second.reviewTracks, second.matchedHeld, []);
    AllInStep(TrackKind(geo), lt, lt, before.tracks, |before.reviewTracks|, Intake(n, Unchanged, false, d.tracks),
              Intake(f, Unchanged, false, e.tracks), file.tracks, a, b);
    TakenGrows(TrackKind(geo), Intake(n, Unchanged, false, d.tracks), file.tracks, a);
  }

  ghost function Beside(stored: Stored, before: State): (State, State) -> bool {
    (whole, second) => SideBySide(stored, before, whole, second)
  }

  /** Both uploads decide alike about the later files. */
  ghost predicate SameDecisions(first: nat, d: Decisions, e: Decisions) {
    SameChoices(first, d.tracks, e.tracks) && SameChoices(first, d.waypoints, e.waypoints)
  }

  lemma {:induction false} WaypointsSideBySide(geo: Geometry, d: Decisions, e: Decisions, f: nat, file: ParsedFile,
                                               stored: Stored, before: State, whole: State, second: State,
                                               w: Work<TrackItem>, v: Work<TrackItem>)
    requires SameChoices(stored.first, d.waypoints, e.waypoints) && SideBySide(stored, before, whole, second)
    requires |w.results| == |file.tracks| && v.results == stored.Tracks().OfAll(w.results)
    ensures var a := WaypointsTaken(geo, d, f + stored.first, file, whole, w);
            var b := WaypointsTaken(geo, e, f, file, second, v);
            && InStep(stored.Waypoints(), stored.Tracks(), before.waypoints, |before.reviewWaypoints|, a, b)
            && |a.entries| >= |whole.waypoints|
  {
    var lt, lw, n := stored.Tracks(), stored.Waypoints(), f + stored.first;
    var a := Work(whole.waypoints, whole.reviewWaypoints, w.matchedHeld, []);
    var b := Work(second.waypoints, second.reviewWaypoints, v.matchedHeld, []);
    var wholeIn := WaypointIntake(n, FileTrack(file, w.results), d.waypoints);
    var secondIn := WaypointIntake(f, FileTrack(file, v.results), e.waypoints);
    AllInStep(WaypointKind(geo), lw, lt, before.waypoints, |before.reviewWaypoints|, wholeIn, secondIn, file.waypoints,
              a, b);
    TakenGrows(WaypointKind(geo), wholeIn, file.waypoints, a);
  }

  lemma {:induction false} BothBeside(stored: Stored, before: State, whole: State, second: State, a: Work<TrackItem>,
                                      b: Work<TrackItem>, c: Work<WaypointItem>, x: Work<WaypointItem>)
    requires Beside(stored, before)(whole, second)
    requires InStep(stored.Tracks(), stored.Tracks(), before.tracks, |before.reviewTracks|, a, b)
    requires InStep(stored.Waypoints(), stored.Tracks(), before.waypoints, |before.reviewWaypoints|, c, x)
    requires |a.entries| >= |whole.tracks| && |c.entries| >= |whole.waypoints|
    ensures Beside(stored, before)(State(a.entries, c.entries, a.review, c.review, c.matchedHeld),
                                   State(b.entries, x.entries, b.review, x.review, x.matchedHeld))
  {
  }

  lemma {:induction false} StepBeside(geo: Geometry, d: Decisions, e: Decisions, f: nat, n: nat, file: ParsedFile,
                                      stored: Stored, before: State, whole: State, second: State)
    requires SameDecisions(stored.first, d, e) && n == f + stored.first
    ensures Together(Taking(geo, d), Taking(geo, e), Beside(stored, before), n, f, file, whole, second)
  {
    if Beside(stored, before)(whole, second) {
      var a, b := TracksTaken(geo, d, n, file, whole), TracksTaken(geo, e, f, file, second);
      TracksSideBySide(geo, d, e, f, file, stored, before, whole, second);
      WaypointsSideBySide(geo, d, e, f, file, stored, before, whole, second, a, b);
      BothBeside(stored, before, whole, second, a, b, WaypointsTaken(geo, d, n, file, whole, a),
                 WaypointsTaken(geo, e, f, file, second, b));
    }
  }

  lemma {:induction false} AlwaysBeside(geo: Geometry, d: Decisions, e: Decisions, stored: Stored, before: State)
    requires SameDecisions(stored.first, d, e)
    ensures AlwaysTogether(Taking(geo, d), Taking(geo, e), Beside(stored, before), stored.first)
  {
    forall n: nat, k: nat, item, a, b | n == k + stored.first
      ensures Together(Taking(geo, d), Taking(geo, e), Beside(stored, before), n, k, item, a, b)
    {
      StepBeside(geo, d, e, k, n, item, stored, before, a, b);
    }
  }

  lemma {:induction false} FilesSideBySide(geo: Geometry, d: Decisions, e: Decisions, files: seq<ParsedFile>,
                                           stored: Stored, before: State, whole: State, second: State)
    requires SameDecisions(stored.first, d, e)
    requires Beside(stored, before)(whole, second)
    ensures Beside(stored, before)(Fold(Taking(geo, d), stored.first, files, whole),
                                   Fold(Taking(geo, e), 0, files, second))
  {
    AlwaysBeside(geo, d, e, stored, before);
    RunsRelate(Taking(geo, d), Taking(geo, e), stored.first, files, whole, second, Beside(stored, before));
  }

  /** What a collection holds once working lists are stored as they stand. */
  function StoredEntries<C>(entries: seq<Entry<C>>, ids: Origin -> int): (items: seq<HeldItem<C>>)
    ensures |items| == |entries|
  {
    seq(|entries|, k requires 0 <= k < |entries| => HeldItem(ids(entries[k].origin), entries[k].content))
  }

  ghost function StoredCollection(s: State, stored: Stored): Collection {
    Collection(StoredEntries(s.tracks, stored.trackIds), StoredEntries(s.waypoints, stored.waypointIds))
  }

  lemma {:induction false} StoredAlike<C>(entries: seq<Entry<C>>, later: Later, tracks: Later)
    requires Sourced(later.first, entries)
    ensures AllAlike(later, tracks, entries, entries, HeldEntries(StoredEntries(entries, later.ids)))
  {
  }

  /** Without removals an outcome lists every entry. */
  lemma {:induction false} FinalsWithoutRemovals<C>(entries: seq<Entry<C>>)
    ensures |Finals(entries, [])| == |entries|
    ensures forall k :: 0 <= k < |entries| ==>
              Finals(entries, [])[k] == Final(entries[k].origin, entries[k].source, entries[k].track)
  {
    if entries != [] {
      FinalsWithoutRemovals(entries[..|entries| - 1]);
    }
  }

  lemma {:induction false} FilterNone<T>(s: seq<T>, keep: T -> bool)
    requires forall x :: !keep(x)
    ensures Filter(s, keep) == []
  {
    if s != [] {
      FilterNone(s[..|s| - 1], keep);
    }
  }

  /** Every entry's source and origin is an item of the files taken so far. */
  ghost predicate Sourced<C>(f: nat, entries: seq<Entry<C>>) {
    forall k :: 0 <= k < |entries| ==>
      (entries[k].source.Some? ==> entries[k].source.value.0 < f)
      && (entries[k].origin.File? ==> entries[k].origin.file < f)
  }

  ghost function StateSourced(): (nat, State) -> bool {
    (f: nat, s: State) => Sourced(f, s.tracks) && Sourced(f, s.waypoints)
  }

  lemma {:induction false} FromSourced<C>(kind: Kind<C>, intake: Intake, items: seq<C>, pairs: Pairs, i: nat,
                                          w: Work<C>)
    requires i <= |items| == |pairs| && PairsWithin(pairs, |w.entries|)
    requires Sourced(intake.file + 1, w.entries)
    ensures Sourced(intake.file + 1, TakeFrom(kind, intake, items, pairs, i, w).entries)
    decreases |items| - i
  {
    if i < |items| {
      FromSourced(kind, intake, items, pairs, i + 1, TakeOne(kind, intake, i, items[i], pairs[i], w));
    }
  }

  lemma {:induction false} AllSourced<C>(kind: Kind<C>, intake: Intake, items: seq<C>, w: Work<C>)
    requires w.results == [] && Sourced(intake.file, w.entries)
    ensures Sourced(intake.file + 1, TakeAll(kind, intake, items, w).entries)
  {
    PairsOfWithin(kind, items, w.entries);
    FromSourced(kind, intake, items, PairsOf(kind, items, w.entries), 0, w);
  }

  lemma {:induction false} FileSourced(geo: Geometry, d: Decisions, f: nat, file: ParsedFile, s: State)
    requires StateSourced()(f, s)
    ensures StateSourced()(f + 1, FileTaken(geo, d, f, file, s))
  {
    AllSourced(TrackKind(geo), Intake(f, Unchanged, false, d.tracks), file.tracks,
               Work(s.tracks, s.reviewTracks, s.matchedHeld, []));
    var w := TracksTaken(geo, d, f, file, s);
    AllSourced(WaypointKind(geo), WaypointIntake(f, FileTrack(file, w.results), d.waypoints), file.waypoints,
               Work(s.waypoints, s.reviewWaypoints, w.matchedHeld, []));
  }

  lemma {:induction false} EndSourced(geo: Geometry, held: Collection, files: seq<ParsedFile>, d: Decisions)
    ensures StateSourced()(|files|, EndState(geo, held, files, d))
  {
    forall f: nat, file, s ensures Kept(Taking(geo, d), StateSourced(), f, file, s) {
      if StateSourced()(f, s) {
        FileSourced(geo, d, f, file, s);
      }
    }
    FoldAlwaysKeeps(Taking(geo, d), 0, files, Started(held, d), StateSourced());
  }

  /** A final entry of the second upload is that of the one upload, seen from there. */
  ghost predicate FinalAlike(later: Later, tracks: Later, before: Option<Membership>, whole: Final, second: Final) {
    && second.origin == later.Of(whole.origin)
    && second.source == later.OfSource(whole.source)
    && (match second.track
        case Unchanged => whole.track == before.GetOr(Unchanged)
        case OnTrack(t) => exists o :: whole.track == OnTrack(o) && t == tracks.OfOption(o))
  }

  ghost predicate FinalsAlike(later: Later, tracks: Later, before: seq<Final>, whole: seq<Final>, second: seq<Final>) {
    && |whole| == |second|
    && forall k :: 0 <= k < |whole| ==>
         FinalAlike(later, tracks, if k < |before| then Some(before[k].track) else None, whole[k], second[k])
  }

  lemma {:induction false} FinalsOfAlike<C>(later: Later, tracks: Later, before: seq<Entry<C>>, whole: seq<Entry<C>>,
                                            second: seq<Entry<C>>)
    requires AllAlike(later, tracks, before, whole, second)
    ensures FinalsAlike(later, tracks, Finals(before, []), Finals(whole, []), Finals(second, []))
  {
    FinalsWithoutRemovals(before);
    FinalsWithoutRemovals(whole);
    FinalsWithoutRemovals(second);
    forall k | 0 <= k < |whole|
      ensures FinalAlike(later, tracks, if k < |before| then Some(Finals(before, [])[k].track) else None,
                         Finals(whole, [])[k], Finals(second, [])[k])
    {
      assert Alike(later, tracks, if k < |before| then Some(before[k].track) else None, whole[k], second[k]);
    }
  }

  ghost predicate NothingRemoved(d: Decisions) {
    d.removeTracks == {} && d.removeWaypoints == {}
  }

  lemma {:induction false} NoRemovals(held: Collection, d: Decisions, s: State)
    requires NothingRemoved(d)
    ensures Finished(held, d, s).outcome.tracks == Finals(s.tracks, [])
    ensures Finished(held, d, s).outcome.waypoints == Finals(s.waypoints, [])
  {
    var r := Finished(held, d, s);
    FilterNone(r.unmatchedTracks, id => id in d.removeTracks);
    FilterNone(r.unmatchedWaypoints, id => id in d.removeWaypoints);
  }

  /** The state after both is that after the one upload, and after the second upload of what the first left. */
  lemma {:induction false} EndStatesSideBySide(geo: Geometry, held: Collection, fs: seq<ParsedFile>,
                                               gs: seq<ParsedFile>, d: Decisions, e: Decisions, stored: Stored)
    requires stored.first == |fs| && !e.replaceAll
    requires SameDecisions(|fs|, d, e)
    ensures var before := EndState(geo, held, fs, d);
            SideBySide(stored, before, EndState(geo, held, fs + gs, d),
                       EndState(geo, StoredCollection(before, stored), gs, e))
  {
    var before := EndState(geo, held, fs, d);
    var second := Started(StoredCollection(before, stored), e);
    EndSourced(geo, held, fs, d);
    StoredAlike(before.tracks, stored.Tracks(), stored.Tracks());
    StoredAlike(before.waypoints, stored.Waypoints(), stored.Tracks());
    assert Beside(stored, before)(before, second);
    FoldGoesOn(Taking(geo, d), fs, gs, Started(held, d));
    FilesSideBySide(geo, d, e, gs, stored, before, before, second);
  }

  /** What was reviewed before is what was reviewed first. */
  ghost predicate ReviewContinues(before: State, s: State) {
    before.reviewTracks <= s.reviewTracks && before.reviewWaypoints <= s.reviewWaypoints
  }

  ghost function Reviewed(before: State): (nat, State) -> bool {
    (_: nat, s: State) => ReviewContinues(before, s)
  }

  lemma {:induction false} FileReviewed(geo: Geometry, d: Decisions, f: nat, file: ParsedFile, before: State,
                                        s: State)
    requires ReviewContinues(before, s)
    ensures ReviewContinues(before, FileTaken(geo, d, f, file, s))
  {
    TakenGrows(TrackKind(geo), Intake(f, Unchanged, false, d.tracks), file.tracks,
               Work(s.tracks, s.reviewTracks, s.matchedHeld, []));
    var w := TracksTaken(geo, d, f, file, s);
    TakenGrows(WaypointKind(geo), WaypointIntake(f, FileTrack(file, w.results), d.waypoints), file.waypoints,
               Work(s.waypoints, s.reviewWaypoints, w.matchedHeld, []));
    PrefixTransitive(before.reviewTracks, s.reviewTracks, w.review);
    PrefixTransitive(before.reviewWaypoints, s.reviewWaypoints, WaypointsTaken(geo, d, f, file, s, w).review);
  }

  lemma {:induction false} PrefixTransitive<T>(a: seq<T>, b: seq<T>, c: seq<T>)
    requires a <= b && |b| <= |c| && c[..|b|] == b
    ensures a <= c
  {
    assert forall k :: 0 <= k < |a| ==> a[k] == b[k] == c[..|b|][k];
  }

  lemma {:induction false} FilesReviewed(geo: Geometry, d: Decisions, n: nat, files: seq<ParsedFile>, before: State)
    ensures ReviewContinues(before, Fold(Taking(geo, d), n, files, before))
  {
    forall f: nat, file, s ensures Kept(Taking(geo, d), Reviewed(before), f, file, s) {
      if ReviewContinues(before, s) {
        FileReviewed(geo, d, f, file, before, s);
      }
    }
    FoldAlwaysKeeps(Taking(geo, d), n, files, before, Reviewed(before));
  }

  /** What was reviewed stays reviewed. */
  lemma {:induction false} ReviewsGrow(geo: Geometry, held: Collection, fs: seq<ParsedFile>, gs: seq<ParsedFile>,
                                       d: Decisions)
    ensures ReviewContinues(EndState(geo, held, fs, d), EndState(geo, held, fs + gs, d))
  {
    var before := EndState(geo, held, fs, d);
    FilesReviewed(geo, d, |fs|, gs, before);
    FoldGoesOn(Taking(geo, d), fs, gs, Started(held, d));
  }

  /**
    Uploading files together ends where uploading them one after another
    does: the later files' items match, are proposed and decided alike, and
    the collection ends up with the same tracks and waypoints.
  */
  lemma {:induction false} TogetherIsOneAfterAnother(geo: Geometry, held: Collection, fs: seq<ParsedFile>,
                                                     gs: seq<ParsedFile>, d: Decisions, e: Decisions, stored: Stored)
    requires stored.first == |fs| && !e.replaceAll && NothingRemoved(d) && NothingRemoved(e)
    requires SameDecisions(|fs|, d, e)
    ensures var between := StoredCollection(EndState(geo, held, fs, d), stored);
            var together, first, second := Matching(geo, held, fs + gs, d), Matching(geo, held, fs, d),
                                           Matching(geo, between, gs, e);
            var lt, lw := stored.Tracks(), stored.Waypoints();
            && first.tracks <= together.tracks && first.waypoints <= together.waypoints
            && lt.OfReview(together.tracks[|first.tracks|..], second.tracks)
            && lw.OfReview(together.waypoints[|first.waypoints|..], second.waypoints)
            && FinalsAlike(lt, lt, first.outcome.tracks, together.outcome.tracks, second.outcome.tracks)
            && FinalsAlike(lw, lt, first.outcome.waypoints, together.outcome.waypoints, second.outcome.waypoints)
  {
    var before, whole := EndState(geo, held, fs, d), EndState(geo, held, fs + gs, d);
    var between := StoredCollection(before, stored);
    var after := EndState(geo, between, gs, e);
    EndStatesSideBySide(geo, held, fs, gs, d, e, stored);
    ReviewsGrow(geo, held, fs, gs, d);
    NoRemovals(held, d, before);
    NoRemovals(held, d, whole);
    NoRemovals(between, e, after);
    FinalsOfAlike(stored.Tracks(), stored.Tracks(), before.tracks, whole.tracks, after.tracks);
    FinalsOfAlike(stored.Waypoints(), stored.Tracks(), before.waypoints, whole.waypoints, after.waypoints);
  }
}
