/**
  Uploads that end otherwise one by one than in one
  (src/server/collection_import/plan.rs): a name storing drops, or makes up,
  is one that matching went, or goes, by.
*/
module CollectionRenamed {
  import opened Wrappers
  import opened Pairing
  import opened Importing
  import opened CollectionMatch
  import opened CollectionLaws
  import opened CollectionStoring
  import opened CollectionSequence
  import opened CollectionChain
  import opened CollectionUploads
  import opened Folds

  // ----------------------------------------------------- files of one item

  function OneWaypoint(w: WaypointItem): ParsedFile {
    ParsedFile([], [w])
  }

  function OneTrack(t: TrackItem): ParsedFile {
    ParsedFile([t], [])
  }

  /** The end after one file more. */
  lemma {:induction false} OneFileMore(geo: Geometry, held: Collection, files: seq<ParsedFile>, file: ParsedFile)
    ensures EndState(geo, held, files + [file], NONE)
         == FileTaken(geo, NONE, |files|, file, EndState(geo, held, files, NONE))
  {
    var s := EndState(geo, held, files, NONE);
    FoldGoesOn(Taking(geo, NONE), files, [file], Started(held, NONE));
    assert [file][1..] == [];
    assert Fold(Taking(geo, NONE), |files|, [file], s) == Taking(geo, NONE)(|files|, file, s);
  }

  /** A collection of one waypoint, and a waypoint at its place that differs. */
  lemma {:induction false} WaypointReplaced(geo: Geometry, u: WaypointItem, f: nat, entry: Entry<WaypointItem>,
                                            review: seq<Matched>)
    requires SelfSame(geo) && u.position == entry.content.position && !SameDetails(u, entry.content)
    requires u.name.Some? ==> u.name == entry.content.name
    ensures var s := FileTaken(geo, NONE, f, OneWaypoint(u), State([], [entry], [], review, {}));
            && s.tracks == [] && s.reviewTracks == []
            && s.waypoints
            == [Entry(entry.origin, u.(name := NameOr(u.name, entry.content.name)), Some((f, 0)), entry.track)]
            && (entry.origin.File? ==> s.matchedHeld == {})
  {
    var s, file := State([], [entry], [], review, {}), OneWaypoint(u);
    NoneTaken(TrackKind(geo), Intake(f, Unchanged, false, NONE.tracks), Work([], [], {}, []));
    var t := TracksTaken(geo, NONE, f, file, s);
    OnlyOneTaken(WaypointKind(geo), WaypointIntake(f, FileTrack(file, t.results), NONE.waypoints), u, entry, review, {},
                 Same);
  }

  // -------------------------------------------------------------- a name lost

  /** A named waypoint, and an unnamed one at its place whose details differ. */
  ghost predicate SamePlaceUnnamed(w: WaypointItem, u: WaypointItem) {
    w.name.Some? && u.name.None? && u.position == w.position && !SameDetails(u, w)
  }

  lemma {:induction false} NamedThenUnnamed(geo: Geometry, w: WaypointItem, u: WaypointItem)
    requires SelfSame(geo) && SamePlaceUnnamed(w, u)
    ensures var s := EndState(geo, EMPTY, [OneWaypoint(w), OneWaypoint(u)], NONE);
            && s.tracks == [] && s.reviewTracks == [] && s.matchedHeld == {}
            && s.waypoints == [Entry(File(0, 0), u.(name := w.name), Some((1, 0)), OwnTrack(OneWaypoint(w)))]
  {
    var once, empty := OnceTaken(OneWaypoint(w)), State([], [], [], [], {});
    assert Started(EMPTY, NONE) == empty;
    FirstTaken(geo, OneWaypoint(w));
    FoldTwo(Taking(geo, NONE), OneWaypoint(w), OneWaypoint(u), empty);
    assert once.tracks == [] && once.reviewTracks == [];
    assert once.waypoints == [Entry(File(0, 0), w, Some((0, 0)), OwnTrack(OneWaypoint(w)))];
    WaypointReplaced(geo, u, 1, once.waypoints[0], once.reviewWaypoints);
  }

  /**
    Uploading a named waypoint and then, in the same upload, an unnamed one
    at its place with other details stores it without its name; uploading
    the second file after the first keeps it.
  */
  lemma {:induction false} NameLost(geo: Geometry, w: WaypointItem, u: WaypointItem, id: int)
    requires SelfSame(geo) && SamePlaceUnnamed(w, u)
    ensures var named, unnamed := OneWaypoint(w), OneWaypoint(u);
            var held := Collection([], [HeldItem(id, w)]);
            var together := EndState(geo, EMPTY, [named, unnamed], NONE).waypoints;
            var after := EndState(geo, held, [unnamed], NONE).waypoints;
            && |together| == |after| == 1
            && together[0].source == Some((1, 0)) && after[0].source == Some((0, 0))
            && WaypointStored(EMPTY, [named, unnamed], EndState(geo, EMPTY, [named, unnamed], NONE), 0) == u
            && WaypointStored(held, [unnamed], EndState(geo, held, [unnamed], NONE), 0) == u.(name := w.name)
  {
    var named, unnamed := OneWaypoint(w), OneWaypoint(u);
    var held := Collection([], [HeldItem(id, w)]);
    NamedThenUnnamed(geo, w, u);
    var entry := Entry(Held(id), w, None, Unchanged);
    assert Started(held, NONE) == State([], [entry], [], [], {});
    FoldOne(Taking(geo, NONE), unnamed, Started(held, NONE));
    WaypointReplaced(geo, u, 0, entry, []);
  }

  /**
    Adding a named waypoint, an unnamed one at its place with other details,
    and the named one again, ends in one waypoint under its name when they go
    in one upload. Where the first two went first, it lost its name in
    storing, and the third is added beside it.
  */
  lemma {:induction false} LostThenAdded(geo: Geometry, w: WaypointItem, u: WaypointItem, shelf: Shelf, rows: Stored)
    requires SelfSame(geo) && SamePlaceUnnamed(w, u)
    ensures var first, next := [OneWaypoint(w), OneWaypoint(u)], [OneWaypoint(w)];
            var together := EndState(geo, EMPTY, first + next, NONE);
            var between := StoredAfter(EMPTY, first, EndState(geo, EMPTY, first, NONE), shelf, rows);
            && |together.waypoints| == 1 && RenamesNone(first + next, together, shelf)
            && WaypointStored(EMPTY, first + next, together, 0) == w
            && |EndState(geo, between, next, NONE).waypoints| == 2
  {
    var first, next := [OneWaypoint(w), OneWaypoint(u)], [OneWaypoint(w)];
    var before := EndState(geo, EMPTY, first, NONE);
    NamedThenUnnamed(geo, w, u);
    OneFileMore(geo, EMPTY, first, OneWaypoint(w));
    assert before == State([], before.waypoints, [], before.reviewWaypoints, {});
    WaypointReplaced(geo, w, 2, before.waypoints[0], before.reviewWaypoints);
    AddedBeside(geo, w, u, StoredAfter(EMPTY, first, before, shelf, rows), rows.waypointIds(File(0, 0)));
  }

  lemma {:induction false} AddedBeside(geo: Geometry, w: WaypointItem, u: WaypointItem, between: Collection, id: int)
    requires w.name.Some? && u.name.None? && between == Collection([], [HeldItem(id, u)])
    ensures |EndState(geo, between, [OneWaypoint(w)], NONE).waypoints| == 2
  {
    var entry, file := Entry(Held(id), u, None, Unchanged), OneWaypoint(w);
    var s := State([], [entry], [], [], {});
    assert Started(between, NONE) == s;
    FoldOne(Taking(geo, NONE), file, s);
    NoneTaken(TrackKind(geo), Intake(0, Unchanged, false, NONE.tracks), Work([], [], {}, []));
    var t := TracksTaken(geo, NONE, 0, file, s);
    OnlyOneApart(WaypointKind(geo), WaypointIntake(0, FileTrack(file, t.results), NONE.waypoints), w, entry, [], {});
  }

  // ----------------------------------------------------------- a name made up

  /** A track without a name, and one elsewhere under the name made up for it. */
  ghost predicate NamedElsewhere(geo: Geometry, madeUp: nat -> string, t: TrackItem, v: TrackItem) {
    t.name.None? && v.name == Some(madeUp(1)) && !geo.linesWithin(v.line, t.line, TRACK_TOLERANCE)
  }

  /** In one upload the two are two tracks. */
  lemma {:induction false} BothAdded(geo: Geometry, madeUp: nat -> string, t: TrackItem, v: TrackItem)
    requires NamedElsewhere(geo, madeUp, t, v)
    ensures |EndState(geo, EMPTY, [OneTrack(t), OneTrack(v)], NONE).tracks| == 2
  {
    var once, empty := OnceTaken(OneTrack(t)), State([], [], [], [], {});
    assert Started(EMPTY, NONE) == empty;
    FirstTaken(geo, OneTrack(t));
    FoldTwo(Taking(geo, NONE), OneTrack(t), OneTrack(v), empty);
    var entry := Entry(File(0, 0), t, Some((0, 0)), Unchanged);
    assert once.tracks == [entry];
    OnlyOneApart(TrackKind(geo), Intake(1, Unchanged, false, NONE.tracks), v, entry, once.reviewTracks, {});
  }

  /** Where the first is stored, the second takes its place. */
  lemma {:induction false} PlaceTaken(geo: Geometry, madeUp: nat -> string, t: TrackItem, v: TrackItem,
                                      between: Collection, id: int)
    requires NamedElsewhere(geo, madeUp, t, v)
    requires between == Collection([HeldItem(id, t.(name := Some(madeUp(1))))], [])
    ensures EndState(geo, between, [OneTrack(v)], NONE).tracks == [Entry(Held(id), v, Some((0, 0)), Unchanged)]
  {
    var entry, file := Entry(Held(id), t.(name := Some(madeUp(1))), None, Unchanged), OneTrack(v);
    var s := State([entry], [], [], [], {});
    assert Started(between, NONE) == s;
    FoldOne(Taking(geo, NONE), file, s);
    OnlyOneTaken(TrackKind(geo), Intake(0, Unchanged, false, NONE.tracks), v, entry, [], {}, Changed);
  }

  lemma {:induction false} StoredMadeUp(geo: Geometry, t: TrackItem, shelf: Shelf, rows: Stored)
    requires t.name.None? && shelf.last == 0
    ensures StoredAfter(EMPTY, [OneTrack(t)], EndState(geo, EMPTY, [OneTrack(t)], NONE), shelf, rows)
         == Collection([HeldItem(rows.trackIds(File(0, 0)), t.(name := Some(shelf.madeUp(1))))], [])
  {
    var once := OnceTaken(OneTrack(t));
    assert Started(EMPTY, NONE) == State([], [], [], [], {});
    FirstTaken(geo, OneTrack(t));
    FoldOne(Taking(geo, NONE), OneTrack(t), Started(EMPTY, NONE));
    assert once.tracks == [Entry(File(0, 0), t, Some((0, 0)), Unchanged)];
    assert Added(once.tracks, 1) == 1 + Added(once.tracks, 0);
  }

  lemma {:induction false} StoredInPlace(geo: Geometry, madeUp: nat -> string, t: TrackItem, v: TrackItem,
                                         between: Collection, id: int, on: Shelf, rows: Stored)
    requires NamedElsewhere(geo, madeUp, t, v)
    requires between == Collection([HeldItem(id, t.(name := Some(madeUp(1))))], [])
    ensures var s := EndState(geo, between, [OneTrack(v)], NONE);
            StoredAfter(between, [OneTrack(v)], s, on, rows).tracks == [HeldItem(rows.trackIds(Held(id)), v)]
  {
    PlaceTaken(geo, madeUp, t, v, between, id);
  }

  lemma {:induction false} OneByOneFirst(geo: Geometry, files: seq<ParsedFile>, u: Uploads, shelf: Shelf)
    requires files != []
    ensures OneByOne(geo, EMPTY, files, u, shelf, 1).0
         == StoredAfter(EMPTY, [files[0]], EndState(geo, EMPTY, [files[0]], u.decisions(0)), shelf, u.Rows(0))
  {
    assert OneByOne(geo, EMPTY, files, u, shelf, 0) == (EMPTY, shelf);
  }

  lemma {:induction false} OneByOneNext(geo: Geometry, files: seq<ParsedFile>, u: Uploads, shelf: Shelf, n: nat)
    requires n < |files|
    ensures var (between, on) := OneByOne(geo, EMPTY, files, u, shelf, n);
            OneByOne(geo, EMPTY, files, u, shelf, n + 1).0
            == StoredAfter(between, [files[n]], EndState(geo, between, [files[n]], u.decisions(n)), on, u.Rows(n))
  {
  }

  /**
    A track without a name is stored under one made up by its place. A track
    elsewhere that goes by that name takes its place in the next upload, and
    is a second track where both go in one.
  */
  lemma {:induction false} MadeUpMatched(geo: Geometry, t: TrackItem, v: TrackItem, u: Uploads, madeUp: nat -> string)
    requires NamedElsewhere(geo, madeUp, t, v) && u.decisions(0) == u.decisions(1) == NONE
    ensures var files, shelf := [OneTrack(t), OneTrack(v)], Shelf(madeUp, 0);
            && |EndState(geo, EMPTY, files, NONE).tracks| == 2
            && exists id :: OneByOne(geo, EMPTY, files, u, shelf, 2).0.tracks == [HeldItem(id, v)]
  {
    var files, shelf := [OneTrack(t), OneTrack(v)], Shelf(madeUp, 0);
    BothAdded(geo, madeUp, t, v);
    StoredMadeUp(geo, t, shelf, u.Rows(0));
    var (between, on) := OneByOne(geo, EMPTY, files, u, shelf, 1);
    OneByOneFirst(geo, files, u, shelf);
    StoredInPlace(geo, madeUp, t, v, between, u.trackIds(0, File(0, 0)), on, u.Rows(1));
    OneByOneNext(geo, files, u, shelf, 1);
  }
}
