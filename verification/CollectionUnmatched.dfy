/**
  What an upload lists as matched by no file (src/server/collection_match.rs):
  track ids and waypoint ids are noted in one set, so the lists are complete
  exactly where a collection's tracks and waypoints share no id.
*/
module CollectionUnmatched {
  import opened Pairing
  import opened Importing
  import opened CollectionMatch
  import opened CollectionOutcome
  import opened CollectionUploads
  import opened Folds

  /** The held ids a review leaves unmatched, of one kind, are just the ones listed. */
  ghost predicate ListsUnmatched(ids: seq<int>, unmatched: seq<int>, review: seq<Matched>) {
    forall id :: id in ids ==> (id in unmatched <==> id !in HeldMatched(review))
  }

  /** However the upload goes, the waypoints no file waypoint matched are listed. */
  ghost predicate AlwaysListsWaypoints(geo: Geometry, held: Collection) {
    forall files: seq<ParsedFile>, d: Decisions {:trigger Matching(geo, held, files, d)} ::
      !d.replaceAll ==> var r := Matching(geo, held, files, d);
                        ListsUnmatched(Ids(held.waypoints), r.unmatchedWaypoints, r.waypoints)
  }

  ghost predicate AlwaysListsTracks(geo: Geometry, held: Collection) {
    forall files: seq<ParsedFile>, d: Decisions {:trigger Matching(geo, held, files, d)} ::
      !d.replaceAll ==> var r := Matching(geo, held, files, d);
                        ListsUnmatched(Ids(held.tracks), r.unmatchedTracks, r.tracks)
  }

  ghost predicate NoSharedId(held: Collection) {
    forall id :: id in Ids(held.tracks) ==> id !in Ids(held.waypoints)
  }

  // --------------------------------------------------- matched ids are held

  ghost function Within(held: Collection): (nat, State) -> bool {
    (_: nat, s: State) => && HeldWithin(Ids(held.tracks), s.tracks, s.reviewTracks)
                          && HeldWithin(Ids(held.waypoints), s.waypoints, s.reviewWaypoints)
  }

  lemma {:induction false} AllWithin<C>(kind: Kind<C>, intake: Intake, items: seq<C>, w: Work<C>, ids: seq<int>)
    requires w.results == [] && HeldWithin(ids, w.entries, w.review)
    ensures var after := TakeAll(kind, intake, items, w); HeldWithin(ids, after.entries, after.review)
  {
    PairsOfWithin(kind, items, w.entries);
    FromWithin(kind, intake, items, PairsOf(kind, items, w.entries), 0, w, ids);
  }

  lemma {:induction false} FileWithin(geo: Geometry, held: Collection, d: Decisions, f: nat, file: ParsedFile, s: State)
    requires Within(held)(f, s)
    ensures Within(held)(f + 1, FileTaken(geo, d, f, file, s))
  {
    AllWithin(TrackKind(geo), Intake(f, Unchanged, false, d.tracks), file.tracks,
              Work(s.tracks, s.reviewTracks, s.matchedHeld, []), Ids(held.tracks));
    var w := TracksTaken(geo, d, f, file, s);
    AllWithin(WaypointKind(geo), WaypointIntake(f, FileTrack(file, w.results), d.waypoints), file.waypoints,
              Work(s.waypoints, s.reviewWaypoints, w.matchedHeld, []), Ids(held.waypoints));
  }

  lemma {:induction false} StartWithin(held: Collection, d: Decisions)
    ensures Within(held)(0, Started(held, d))
  {
    forall k | 0 <= k < |held.tracks| ensures held.tracks[k].id in Ids(held.tracks) {
      assert Ids(held.tracks)[k] == held.tracks[k].id;
    }
    forall k | 0 <= k < |held.waypoints| ensures held.waypoints[k].id in Ids(held.waypoints) {
      assert Ids(held.waypoints)[k] == held.waypoints[k].id;
    }
  }

  /** What an upload matches of a kind is held, of that kind. */
  lemma {:induction false} MatchedAreHeld(geo: Geometry, held: Collection, files: seq<ParsedFile>, d: Decisions)
    ensures var r := Matching(geo, held, files, d);
            && (forall id :: id in HeldMatched(r.tracks) ==> id in Ids(held.tracks))
            && (forall id :: id in HeldMatched(r.waypoints) ==> id in Ids(held.waypoints))
  {
    StartWithin(held, d);
    forall f: nat, file, s ensures Kept(Taking(geo, d), Within(held), f, file, s) {
      if Within(held)(f, s) {
        FileWithin(geo, held, d, f, file, s);
      }
    }
    FoldAlwaysKeeps(Taking(geo, d), 0, files, Started(held, d), Within(held));
    assert Within(held)(|files|, EndState(geo, held, files, d));
  }

  lemma {:induction false} ListsOwn(ids: seq<int>, matched: set<int>, unmatched: seq<int>, own: seq<Matched>,
                                    others: seq<Matched>)
    requires Unmatched(ids, matched, false, unmatched) && matched == HeldMatched(own) + HeldMatched(others)
    requires forall id :: id in ids ==> id !in HeldMatched(others)
    ensures ListsUnmatched(ids, unmatched, own)
  {
  }

  lemma {:induction false} ListsAll(geo: Geometry, held: Collection, files: seq<ParsedFile>, d: Decisions)
    requires IdsDistinct(held.tracks) && IdsDistinct(held.waypoints) && NoSharedId(held) && !d.replaceAll
    ensures var r := Matching(geo, held, files, d);
            && ListsUnmatched(Ids(held.waypoints), r.unmatchedWaypoints, r.waypoints)
            && ListsUnmatched(Ids(held.tracks), r.unmatchedTracks, r.tracks)
  {
    var s, r := EndState(geo, held, files, d), Matching(geo, held, files, d);
    EndInOrder(geo, held, files, d);
    UnmatchedAre(held, d, s);
    MatchedAreHeld(geo, held, files, d);
    ListsOwn(Ids(held.waypoints), s.matchedHeld, r.unmatchedWaypoints, r.waypoints, r.tracks);
    ListsOwn(Ids(held.tracks), s.matchedHeld, r.unmatchedTracks, r.tracks, r.waypoints);
  }

  // ------------------------------------------- a collection's own items hide

  function Contents<C>(items: seq<HeldItem<C>>): (contents: seq<C>)
    ensures |contents| == |items|
  {
    seq(|items|, k requires 0 <= k < |items| => items[k].content)
  }

  /** A collection's own items, uploaded to it, are all matched. */
  lemma {:induction false} OwnAreNoted<C>(kind: Kind<C>, intake: Intake, items: seq<HeldItem<C>>, m: nat)
    requires m < |items| && Recognises(kind, Contents(items))
    ensures items[m].id in TakeAll(kind, intake, Contents(items), Work(HeldEntries(items), [], {}, [])).matchedHeld
  {
    var own, entries := Contents(items), HeldEntries(items);
    var relating := Relates(kind, own, entries);
    forall i: nat, j: nat | i < |items| && j < |items| ensures relating(i, j) == kind.relates(own[i], own[j]) {
    }
    PairedInPlace(|items|, relating);
    PairsOfWithin(kind, own, entries);
    PairedAreNoted(kind, intake, own, PairsOf(kind, own, entries), 0, Work(entries, [], {}, []), m);
  }

  /** Uploading a collection's own tracks hides each waypoint that has the id of one. */
  lemma {:induction false} OwnTracksHide(geo: Geometry, held: Collection, id: int)
    requires SelfSame(geo) && forall k :: 0 <= k < |held.tracks| ==> held.tracks[k].content.line != []
    requires id in Ids(held.tracks)
    ensures var r := Matching(geo, held, [ParsedFile(Contents(held.tracks), [])], NONE);
            r.waypoints == [] && id !in r.unmatchedWaypoints
  {
    var file := ParsedFile(Contents(held.tracks), []);
    var s := Started(held, NONE);
    var m :| 0 <= m < |held.tracks| && Ids(held.tracks)[m] == id;
    Recognised(geo, file);
    OwnAreNoted(TrackKind(geo), Intake(0, Unchanged, false, NONE.tracks), held.tracks, m);
    var w := TracksTaken(geo, NONE, 0, file, s);
    NoneTaken(WaypointKind(geo), WaypointIntake(0, FileTrack(file, w.results), NONE.waypoints),
              Work(s.waypoints, [], w.matchedHeld, []));
    FoldOne(Taking(geo, NONE), file, s);
    UnmatchedAre(held, NONE, EndState(geo, held, [file], NONE));
  }

  /** Uploading a collection's own waypoints hides each track that has the id of one. */
  lemma {:induction false} OwnWaypointsHide(geo: Geometry, held: Collection, id: int)
    requires SelfSame(geo) && id in Ids(held.waypoints)
    ensures var r := Matching(geo, held, [ParsedFile([], Contents(held.waypoints))], NONE);
            r.tracks == [] && id !in r.unmatchedTracks
  {
    var file := ParsedFile([], Contents(held.waypoints));
    var s := Started(held, NONE);
    var m :| 0 <= m < |held.waypoints| && Ids(held.waypoints)[m] == id;
    Recognised(geo, file);
    NoneTaken(TrackKind(geo), Intake(0, Unchanged, false, NONE.tracks), Work(s.tracks, [], {}, []));
    var w := TracksTaken(geo, NONE, 0, file, s);
    OwnAreNoted(WaypointKind(geo), WaypointIntake(0, FileTrack(file, w.results), NONE.waypoints), held.waypoints, m);
    FoldOne(Taking(geo, NONE), file, s);
    UnmatchedAre(held, NONE, EndState(geo, held, [file], NONE));
  }

  lemma {:induction false} NotListed(ids: seq<int>, unmatched: seq<int>, id: int)
    requires id in ids && id !in unmatched
    ensures !ListsUnmatched(ids, unmatched, [])
  {
    assert id !in HeldMatched([]);
  }

  /**
    The waypoints no file waypoint matched are listed by every upload exactly
    where the collection's tracks and waypoints share no id.
  */
  lemma {:induction false} WaypointsListedExactly(geo: Geometry, held: Collection)
    requires SelfSame(geo) && forall k :: 0 <= k < |held.tracks| ==> held.tracks[k].content.line != []
    requires IdsDistinct(held.tracks) && IdsDistinct(held.waypoints)
    ensures AlwaysListsWaypoints(geo, held) <==> NoSharedId(held)
  {
    if NoSharedId(held) {
      forall files: seq<ParsedFile>, d: Decisions | !d.replaceAll
        ensures var r := Matching(geo, held, files, d);
                ListsUnmatched(Ids(held.waypoints), r.unmatchedWaypoints, r.waypoints)
      {
        ListsAll(geo, held, files, d);
      }
    } else {
      var id :| id in Ids(held.tracks) && id in Ids(held.waypoints);
      OwnTracksHide(geo, held, id);
      var r := Matching(geo, held, [ParsedFile(Contents(held.tracks), [])], NONE);
      NotListed(Ids(held.waypoints), r.unmatchedWaypoints, id);
    }
  }

  /** And so are the tracks no file track matched. */
  lemma {:induction false} TracksListedExactly(geo: Geometry, held: Collection)
    requires SelfSame(geo) && IdsDistinct(held.tracks) && IdsDistinct(held.waypoints)
    ensures AlwaysListsTracks(geo, held) <==> NoSharedId(held)
  {
    if NoSharedId(held) {
      forall files: seq<ParsedFile>, d: Decisions | !d.replaceAll
        ensures var r := Matching(geo, held, files, d); ListsUnmatched(Ids(held.tracks), r.unmatchedTracks, r.tracks)
      {
        ListsAll(geo, held, files, d);
      }
    } else {
      var id :| id in Ids(held.tracks) && id in Ids(held.waypoints);
      OwnWaypointsHide(geo, held, id);
      var r := Matching(geo, held, [ParsedFile([], Contents(held.waypoints))], NONE);
      NotListed(Ids(held.tracks), r.unmatchedTracks, id);
    }
  }
}
