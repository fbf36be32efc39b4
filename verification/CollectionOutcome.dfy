/**
  The outcome of matching files against a collection conserves what was
  held, and names nothing it does not hold.
*/
module CollectionOutcome {
  import opened Wrappers
  import opened Importing
  import opened CollectionMatch
  import opened Folds

  // ------------------------------------------------------------- every file

  /** The tracks a waypoint may belong to: there, and if held, matched. */
  ghost function Anchors(tracks: seq<Entry<TrackItem>>, matchedHeld: set<int>): iset<Origin> {
    iset origin | Stays(origin, tracks, matchedHeld)
  }

  /** The books balance for tracks and waypoints, and no waypoint belongs to a track that may go. */
  ghost predicate InOrder(first: State, f: nat, s: State) {
    && Balanced(first.tracks, s.tracks, s.reviewTracks) && Earlier(s.tracks, f, 0)
    && Balanced(first.waypoints, s.waypoints, s.reviewWaypoints) && Earlier(s.waypoints, f, 0)
    && s.matchedHeld == HeldMatched(s.reviewTracks) + HeldMatched(s.reviewWaypoints)
    && BelongsTo(s.waypoints, Anchors(s.tracks, s.matchedHeld))
  }

  ghost function Orderly(first: State): (nat, State) -> bool {
    (f: nat, s: State) => InOrder(first, f, s)
  }

  lemma {:induction false} TracksInOrder(geo: Geometry, d: Decisions, f: nat, file: ParsedFile, first: State,
                                         s: State)
    requires InOrder(first, f, s)
    ensures var w := TracksTaken(geo, d, f, file, s);
            && Balanced(first.tracks, w.entries, w.review) && Earlier(w.entries, f + 1, 0)
            && w.matchedHeld == HeldMatched(w.review) + HeldMatched(s.reviewWaypoints)
            && BelongsTo(s.waypoints, Anchors(w.entries, w.matchedHeld))
            && (FileTrack(file, w.results).GetOr(None).Some?
                ==> FileTrack(file, w.results).value.value in Anchors(w.entries, w.matchedHeld))
  {
    var kind, intake := TrackKind(geo), Intake(f, Unchanged, false, d.tracks);
    var start := Work(s.tracks, s.reviewTracks, s.matchedHeld, []);
    var pairs := PairsOf(kind, file.tracks, s.tracks);
    PairsOfWithin(kind, file.tracks, s.tracks);
    FromBalanced(kind, intake, file.tracks, pairs, 0, start, first.tracks);
    FromMatchedHeld(kind, intake, file.tracks, pairs, 0, start, HeldMatched(s.reviewWaypoints));
    FromStays(kind, intake, file.tracks, pairs, 0, start);
  }

  lemma {:induction false} WaypointsInOrder(geo: Geometry, d: Decisions, f: nat, file: ParsedFile, first: State,
                                            s: State, w: Work<TrackItem>)
    requires InOrder(first, f, s) && |w.results| == |file.tracks|
    requires w.matchedHeld == HeldMatched(w.review) + HeldMatched(s.reviewWaypoints)
    requires BelongsTo(s.waypoints, Anchors(w.entries, w.matchedHeld))
    requires FileTrack(file, w.results).GetOr(None).Some?
             ==> FileTrack(file, w.results).value.value in Anchors(w.entries, w.matchedHeld)
    ensures var v := WaypointsTaken(geo, d, f, file, s, w);
            && Balanced(first.waypoints, v.entries, v.review) && Earlier(v.entries, f + 1, 0)
            && v.matchedHeld == HeldMatched(v.review) + HeldMatched(w.review)
            && w.matchedHeld <= v.matchedHeld
            && BelongsTo(v.entries, Anchors(w.entries, v.matchedHeld))
  {
    var kind, intake := WaypointKind(geo), WaypointIntake(f, FileTrack(file, w.results), d.waypoints);
    var start := Work(s.waypoints, s.reviewWaypoints, w.matchedHeld, []);
    var pairs := PairsOf(kind, file.waypoints, s.waypoints);
    PairsOfWithin(kind, file.waypoints, s.waypoints);
    FromBalanced(kind, intake, file.waypoints, pairs, 0, start, first.waypoints);
    FromMatchedHeld(kind, intake, file.waypoints, pairs, 0, start, HeldMatched(w.review));
    FromMatchedMore(kind, intake, file.waypoints, pairs, 0, start);
    FromBelongs(kind, intake, file.waypoints, pairs, 0, start, Anchors(w.entries, w.matchedHeld));
  }

  lemma {:induction false} FromMatchedMore<C>(kind: Kind<C>, intake: Intake, items: seq<C>, pairs: Pairs, i: nat,
                                              w: Work<C>)
    requires i <= |items| == |pairs| && PairsWithin(pairs, |w.entries|)
    ensures w.matchedHeld <= TakeFrom(kind, intake, items, pairs, i, w).matchedHeld
    decreases |items| - i
  {
    if i < |items| {
      FromMatchedMore(kind, intake, items, pairs, i + 1, TakeOne(kind, intake, i, items[i], pairs[i], w));
    }
  }

  lemma {:induction false} FileInOrder(geo: Geometry, d: Decisions, f: nat, file: ParsedFile, first: State, s: State)
    requires Orderly(first)(f, s)
    ensures Orderly(first)(f + 1, FileTaken(geo, d, f, file, s))
  {
    TracksInOrder(geo, d, f, file, first, s);
    WaypointsInOrder(geo, d, f, file, first, s, TracksTaken(geo, d, f, file, s));
  }

  ghost predicate IdsDistinct<C>(items: seq<HeldItem<C>>) {
    forall p, q :: 0 <= p < q < |items| ==> items[p].id != items[q].id
  }

  lemma {:induction false} StartInOrder(held: Collection, d: Decisions)
    requires IdsDistinct(held.tracks) && IdsDistinct(held.waypoints)
    ensures InOrder(Started(held, d), 0, Started(held, d))
  {
    var first := Started(held, d);
    assert Origins(first.tracks) == Origins(first.tracks) + [];
    assert Origins(first.waypoints) == Origins(first.waypoints) + [];
  }

  lemma {:induction false} EndInOrder(geo: Geometry, held: Collection, files: seq<ParsedFile>, d: Decisions)
    requires IdsDistinct(held.tracks) && IdsDistinct(held.waypoints)
    ensures Orderly(Started(held, d))(|files|, EndState(geo, held, files, d))
  {
    var first := Started(held, d);
    StartInOrder(held, d);
    forall f: nat, file, s ensures Kept(Taking(geo, d), Orderly(first), f, file, s) {
      if Orderly(first)(f, s) {
        FileInOrder(geo, d, f, file, first, s);
      }
    }
    FoldAlwaysKeeps(Taking(geo, d), 0, files, first, Orderly(first));
  }

  // ------------------------------------------------------------- the outcome

  function FinalOrigins(finals: seq<Final>): (origins: seq<Origin>)
    ensures |origins| == |finals|
  {
    seq(|finals|, k requires 0 <= k < |finals| => finals[k].origin)
  }

  lemma {:induction false} FilterMembers<T>(s: seq<T>, keep: T -> bool)
    ensures forall x :: x in Filter(s, keep) <==> x in s && keep(x)
  {
    if s != [] {
      FilterMembers(s[..|s| - 1], keep);
      assert s == s[..|s| - 1] + [s[|s| - 1]];
    }
  }

  lemma {:induction false} FilterAppend<T>(a: seq<T>, b: seq<T>, keep: T -> bool)
    ensures Filter(a + b, keep) == Filter(a, keep) + Filter(b, keep)
  {
    if b == [] {
      assert a + b == a;
    } else {
      assert (a + b)[..|a + b| - 1] == a + b[..|b| - 1];
      FilterAppend(a, b[..|b| - 1], keep);
    }
  }

  lemma {:induction false} FilterAll<T>(s: seq<T>, keep: T -> bool)
    requires forall x :: x in s ==> keep(x)
    ensures Filter(s, keep) == s
  {
    if s != [] {
      FilterAll(s[..|s| - 1], keep);
      assert s == s[..|s| - 1] + [s[|s| - 1]];
    }
  }

  /** An outcome lists the entries that remain, each with its source and track. */
  lemma {:induction false} FinalsAre<C>(entries: seq<Entry<C>>, removed: seq<int>)
    ensures FinalOrigins(Finals(entries, removed)) == Filter(Origins(entries), origin => Remains(removed, origin))
    ensures forall k :: 0 <= k < |Finals(entries, removed)| ==>
              var final := Finals(entries, removed)[k];
              exists m :: 0 <= m < |entries| && final == Final(entries[m].origin, entries[m].source, entries[m].track)
  {
    if entries != [] {
      var n := |entries| - 1;
      FinalsAre(entries[..n], removed);
      assert Origins(entries) == Origins(entries[..n]) + [entries[n].origin];
      assert Origins(entries)[..n] == Origins(entries[..n]);
      forall k | 0 <= k < |Finals(entries, removed)|
        ensures var final := Finals(entries, removed)[k];
                exists m :: 0 <= m < |entries| && final == Final(entries[m].origin, entries[m].source, entries[m].track)
      {
        if k < |Finals(entries[..n], removed)| {
          var m :| 0 <= m < n && Finals(entries[..n], removed)[k]
                                 == Final(entries[..n][m].origin, entries[..n][m].source, entries[..n][m].track);
          assert entries[m] == entries[..n][m];
        } else {
          assert Finals(entries, removed)[k] == Final(entries[n].origin, entries[n].source, entries[n].track);
        }
      }
    }
  }

  lemma {:induction false} AddedAreFiles(review: seq<Matched>)
    ensures forall origin :: origin in AddedBy(review) ==> origin.File?
  {
    if review != [] {
      AddedAreFiles(review[..|review| - 1]);
    }
  }

  /** The origins of held items that are not removed, in their order. */
  function HeldOrigins<C>(items: seq<HeldItem<C>>, removed: seq<int>): seq<Origin> {
    if items == [] then []
    else HeldOrigins(items[..|items| - 1], removed)
         + if items[|items| - 1].id !in removed then [Held(items[|items| - 1].id)] else []
  }

  lemma {:induction false} HeldRemain<C>(items: seq<HeldItem<C>>, removed: seq<int>)
    ensures Filter(Origins(HeldEntries(items)), origin => Remains(removed, origin)) == HeldOrigins(items, removed)
  {
    if items != [] {
      var n := |items| - 1;
      HeldRemain(items[..n], removed);
      assert Origins(HeldEntries(items))[..n] == Origins(HeldEntries(items[..n]));
    }
  }

  /** One kind of entries: what was held and remains, then what was added, each from its last source. */
  ghost predicate Conserved<C>(items: seq<HeldItem<C>>, replaceAll: bool, review: seq<Matched>, finals: seq<Final>,
                               removed: seq<int>)
  {
    && FinalOrigins(finals) == (if replaceAll then [] else HeldOrigins(items, removed)) + AddedBy(review)
    && forall k :: 0 <= k < |finals| ==> finals[k].source == LastSource(review, finals[k].origin)
  }

  lemma {:induction false} EntriesConserved<C>(items: seq<HeldItem<C>>, replaceAll: bool, entries: seq<Entry<C>>,
                                               review: seq<Matched>, removed: seq<int>)
    requires Balanced(if replaceAll then [] else HeldEntries(items), entries, review)
    ensures Conserved(items, replaceAll, review, Finals(entries, removed), removed)
  {
    var first := if replaceAll then [] else HeldEntries(items);
    var keep := (origin: Origin) => Remains(removed, origin);
    FinalsAre(entries, removed);
    AddedAreFiles(review);
    FilterAppend(Origins(first), AddedBy(review), keep);
    FilterAll(AddedBy(review), keep);
    if !replaceAll { HeldRemain(items, removed); }
  }

  ghost predicate Unmatched(ids: seq<int>, matched: set<int>, replaceAll: bool, unmatched: seq<int>) {
    forall id :: id in unmatched <==> !replaceAll && id in ids && id !in matched
  }

  ghost predicate ToRemove(unmatched: seq<int>, remove: set<int>, removed: seq<int>) {
    forall id :: id in removed <==> id in unmatched && id in remove
  }

  lemma {:induction false} UnmatchedAre(held: Collection, d: Decisions, s: State)
    ensures var r := Finished(held, d, s);
            && Unmatched(Ids(held.tracks), s.matchedHeld, d.replaceAll, r.unmatchedTracks)
            && Unmatched(Ids(held.waypoints), s.matchedHeld, d.replaceAll, r.unmatchedWaypoints)
  {
    FilterMembers(Ids(held.tracks), id => id !in s.matchedHeld);
    FilterMembers(Ids(held.waypoints), id => id !in s.matchedHeld);
  }

  lemma {:induction false} RemovedAre(held: Collection, d: Decisions, s: State)
    ensures var r := Finished(held, d, s);
            && ToRemove(r.unmatchedTracks, d.removeTracks, r.outcome.removeTracks)
            && ToRemove(r.unmatchedWaypoints, d.removeWaypoints, r.outcome.removeWaypoints)
  {
    var r := Finished(held, d, s);
    FilterMembers(r.unmatchedTracks, id => id in d.removeTracks);
    FilterMembers(r.unmatchedWaypoints, id => id in d.removeWaypoints);
  }

  /** Every waypoint that is to belong to a track belongs to one of the outcome's. */
  ghost predicate NothingDangles(tracks: seq<Final>, waypoints: seq<Final>) {
    forall k :: 0 <= k < |waypoints| && waypoints[k].track.OnTrack? && waypoints[k].track.track.Some?
                ==> waypoints[k].track.track.value in FinalOrigins(tracks)
  }

  lemma {:induction false} AnchorsRemain(entries: seq<Entry<TrackItem>>, matchedHeld: set<int>, removed: seq<int>,
                                         origin: Origin)
    requires origin in Anchors(entries, matchedHeld) && forall id :: id in removed ==> id !in matchedHeld
    ensures origin in FinalOrigins(Finals(entries, removed))
  {
    var k :| 0 <= k < |entries| && entries[k].origin == origin;
    assert Origins(entries)[k] == origin;
    FinalsAre(entries, removed);
    FilterMembers(Origins(entries), o => Remains(removed, o));
  }

  lemma {:induction false} BelongingRemains(s: State, removed: seq<int>, removedWaypoints: seq<int>)
    requires BelongsTo(s.waypoints, Anchors(s.tracks, s.matchedHeld))
    requires forall id :: id in removed ==> id !in s.matchedHeld
    ensures NothingDangles(Finals(s.tracks, removed), Finals(s.waypoints, removedWaypoints))
  {
    var waypoints := Finals(s.waypoints, removedWaypoints);
    FinalsAre(s.waypoints, removedWaypoints);
    forall k | 0 <= k < |waypoints| && waypoints[k].track.OnTrack? && waypoints[k].track.track.Some?
      ensures waypoints[k].track.track.value in FinalOrigins(Finals(s.tracks, removed))
    {
      var m :| 0 <= m < |s.waypoints|
               && waypoints[k] == Final(s.waypoints[m].origin, s.waypoints[m].source, s.waypoints[m].track);
      AnchorsRemain(s.tracks, s.matchedHeld, removed, waypoints[k].track.track.value);
    }
  }

  /** Exactly the held ids no item of the review matched, of either kind, and the owner chose, are removed. */
  ghost predicate Removed(ids: seq<int>, replaceAll: bool, remove: set<int>, r: Review, removed: seq<int>) {
    forall id :: id in removed <==>
      !replaceAll && id in ids && id in remove && id !in HeldMatched(r.tracks) && id !in HeldMatched(r.waypoints)
  }

  /** No entry is listed twice. */
  ghost predicate OriginsDistinct(finals: seq<Final>) {
    forall j, k :: 0 <= j < k < |finals| ==> finals[j].origin != finals[k].origin
  }

  lemma {:induction false} FinalsDistinct<C>(entries: seq<Entry<C>>, removed: seq<int>)
    requires forall p, q :: 0 <= p < q < |entries| ==> entries[p].origin != entries[q].origin
    ensures OriginsDistinct(Finals(entries, removed))
    ensures forall k :: 0 <= k < |Finals(entries, removed)| ==>
              exists m :: 0 <= m < |entries| && Finals(entries, removed)[k].origin == entries[m].origin
  {
    if entries != [] {
      var n := |entries| - 1;
      var before, finals := Finals(entries[..n], removed), Finals(entries, removed);
      FinalsDistinct(entries[..n], removed);
      forall k | 0 <= k < |finals| ensures exists m :: 0 <= m < |entries| && finals[k].origin == entries[m].origin {
        if k < |before| {
          var m :| 0 <= m < n && before[k].origin == entries[..n][m].origin;
          assert finals[k].origin == entries[m].origin;
        } else {
          assert finals[k].origin == entries[n].origin;
        }
      }
    }
  }

  /** What matching promises of a review and its outcome. */
  ghost predicate Faithful(held: Collection, d: Decisions, r: Review) {
    && r.outcome.replaceAll == d.replaceAll
    && Conserved(held.tracks, d.replaceAll, r.tracks, r.outcome.tracks, r.outcome.removeTracks)
    && Conserved(held.waypoints, d.replaceAll, r.waypoints, r.outcome.waypoints, r.outcome.removeWaypoints)
    && Removed(Ids(held.tracks), d.replaceAll, d.removeTracks, r, r.outcome.removeTracks)
    && Removed(Ids(held.waypoints), d.replaceAll, d.removeWaypoints, r, r.outcome.removeWaypoints)
    && OriginsDistinct(r.outcome.tracks) && OriginsDistinct(r.outcome.waypoints)
    && NothingDangles(r.outcome.tracks, r.outcome.waypoints)
  }

  lemma {:induction false} FinishedTracks(held: Collection, d: Decisions, s: State)
    requires Balanced(Started(held, d).tracks, s.tracks, s.reviewTracks)
    ensures var r := Finished(held, d, s);
            Conserved(held.tracks, d.replaceAll, r.tracks, r.outcome.tracks, r.outcome.removeTracks)
  {
    EntriesConserved(held.tracks, d.replaceAll, s.tracks, s.reviewTracks, Finished(held, d, s).outcome.removeTracks);
  }

  lemma {:induction false} FinishedWaypoints(held: Collection, d: Decisions, s: State)
    requires Balanced(Started(held, d).waypoints, s.waypoints, s.reviewWaypoints)
    ensures var r := Finished(held, d, s);
            Conserved(held.waypoints, d.replaceAll, r.waypoints, r.outcome.waypoints, r.outcome.removeWaypoints)
  {
    EntriesConserved(held.waypoints, d.replaceAll, s.waypoints, s.reviewWaypoints,
                     Finished(held, d, s).outcome.removeWaypoints);
  }

  lemma {:induction false} FinishedBelongs(held: Collection, d: Decisions, s: State)
    requires BelongsTo(s.waypoints, Anchors(s.tracks, s.matchedHeld))
    ensures var o := Finished(held, d, s).outcome; NothingDangles(o.tracks, o.waypoints)
  {
    var o := Finished(held, d, s).outcome;
    UnmatchedAre(held, d, s);
    RemovedAre(held, d, s);
    BelongingRemains(s, o.removeTracks, o.removeWaypoints);
  }

  lemma {:induction false} FinishedFaithful(held: Collection, d: Decisions, f: nat, s: State)
    requires InOrder(Started(held, d), f, s)
    ensures Faithful(held, d, Finished(held, d, s))
  {
    FinishedTracks(held, d, s);
    FinishedWaypoints(held, d, s);
    FinishedBelongs(held, d, s);
    UnmatchedAre(held, d, s);
    RemovedAre(held, d, s);
    FinalsDistinct(s.tracks, Finished(held, d, s).outcome.removeTracks);
    FinalsDistinct(s.waypoints, Finished(held, d, s).outcome.removeWaypoints);
  }

  /**
    The outcome conserves the collection: first what it held and keeps, in
    its order, then what the review added, each entry taking its contents
    from the last item that added or replaced it, and none listed twice. What
    goes is just what the owner chose of what no file matched, and no
    waypoint is left belonging to a track that does.
  */
  lemma {:induction false} OutcomeConserves(geo: Geometry, held: Collection, files: seq<ParsedFile>, d: Decisions)
    requires IdsDistinct(held.tracks) && IdsDistinct(held.waypoints)
    ensures Faithful(held, d, Matching(geo, held, files, d))
  {
    EndInOrder(geo, held, files, d);
    FinishedFaithful(held, d, |files|, EndState(geo, held, files, d));
  }

  // ------------------------------------------------- every item is reviewed

  function KeysOf(review: seq<Matched>): (keys: seq<ItemKey>)
    ensures |keys| == |review|
  {
    seq(|review|, k requires 0 <= k < |review| => (review[k].file, review[k].index))
  }

  function Numbered(f: nat, n: nat): (keys: seq<ItemKey>)
    ensures |keys| == n
  {
    seq(n, i => (f, i))
  }

  /** The keys of the first `f` files' tracks, file by file and each in its order. */
  function TrackKeys(files: seq<ParsedFile>, f: nat): seq<ItemKey>
    requires f <= |files|
  {
    if f == 0 then [] else TrackKeys(files, f - 1) + Numbered(f - 1, |files[f - 1].tracks|)
  }

  function WaypointKeys(files: seq<ParsedFile>, f: nat): seq<ItemKey>
    requires f <= |files|
  {
    if f == 0 then [] else WaypointKeys(files, f - 1) + Numbered(f - 1, |files[f - 1].waypoints|)
  }

  ghost function Complete(files: seq<ParsedFile>): (nat, State) -> bool {
    (f: nat, s: State) => f <= |files| && KeysOf(s.reviewTracks) == TrackKeys(files, f)
                          && KeysOf(s.reviewWaypoints) == WaypointKeys(files, f)
  }

  lemma {:induction false} AllReviewed<C>(kind: Kind<C>, intake: Intake, items: seq<C>, w: Work<C>)
    requires w.results == []
    ensures KeysOf(TakeAll(kind, intake, items, w).review) == KeysOf(w.review) + Numbered(intake.file, |items|)
  {
    PairsOfWithin(kind, items, w.entries);
    FromReviews(kind, intake, items, PairsOf(kind, items, w.entries), 0, w);
    var after := TakeAll(kind, intake, items, w);
    var n := |w.review|;
    forall k | 0 <= k < |after.review|
      ensures KeysOf(after.review)[k] == (KeysOf(w.review) + Numbered(intake.file, |items|))[k]
    {
      if k < n {
        assert after.review[k] == after.review[..n][k];
      } else {
        assert after.review[k] == after.review[n..][k - n];
      }
    }
  }

  lemma {:induction false} NextKeys(files: seq<ParsedFile>, f: nat)
    requires f < |files|
    ensures TrackKeys(files, f + 1) == TrackKeys(files, f) + Numbered(f, |files[f].tracks|)
    ensures WaypointKeys(files, f + 1) == WaypointKeys(files, f) + Numbered(f, |files[f].waypoints|)
  {
  }

  lemma {:induction false} FileReviewed(geo: Geometry, d: Decisions, f: nat, files: seq<ParsedFile>, s: State)
    requires f < |files| && Complete(files)(f, s)
    ensures Complete(files)(f + 1, FileTaken(geo, d, f, files[f], s))
  {
    var after := FileTaken(geo, d, f, files[f], s);
    TracksReviewed(geo, d, f, files[f], s);
    WaypointsReviewed(geo, d, f, files[f], s, TracksTaken(geo, d, f, files[f], s));
    NextKeys(files, f);
    assert KeysOf(after.reviewTracks) == TrackKeys(files, f + 1);
    assert KeysOf(after.reviewWaypoints) == WaypointKeys(files, f + 1);
  }

  lemma {:induction false} TracksReviewed(geo: Geometry, d: Decisions, f: nat, file: ParsedFile, s: State)
    ensures KeysOf(TracksTaken(geo, d, f, file, s).review) == KeysOf(s.reviewTracks) + Numbered(f, |file.tracks|)
  {
    AllReviewed(TrackKind(geo), Intake(f, Unchanged, false, d.tracks), file.tracks,
                Work(s.tracks, s.reviewTracks, s.matchedHeld, []));
  }

  lemma {:induction false} WaypointsReviewed(geo: Geometry, d: Decisions, f: nat, file: ParsedFile, s: State,
                                             w: Work<TrackItem>)
    requires |w.results| == |file.tracks|
    ensures KeysOf(WaypointsTaken(geo, d, f, file, s, w).review)
         == KeysOf(s.reviewWaypoints) + Numbered(f, |file.waypoints|)
  {
    AllReviewed(WaypointKind(geo), WaypointIntake(f, FileTrack(file, w.results), d.waypoints), file.waypoints,
                Work(s.waypoints, s.reviewWaypoints, w.matchedHeld, []));
  }

  lemma {:induction false} StartReviewed(held: Collection, files: seq<ParsedFile>, d: Decisions)
    ensures Complete(files)(0, Started(held, d))
  {
  }

  lemma {:induction false} EndReviewed(geo: Geometry, held: Collection, files: seq<ParsedFile>, d: Decisions)
    ensures Complete(files)(|files|, EndState(geo, held, files, d))
  {
    StartReviewed(held, files, d);
    forall f: nat, file, s | 0 <= f < 0 + |files| && file == files[f - 0]
      ensures Kept(Taking(geo, d), Complete(files), f, file, s)
    {
      if Complete(files)(f, s) {
        FileReviewed(geo, d, f, files, s);
      }
    }
    FoldKeeps(Taking(geo, d), 0, files, Started(held, d), Complete(files));
  }

  /** The review goes over every item of every file once, in the files' order. */
  lemma {:induction false} EveryItemReviewed(geo: Geometry, held: Collection, files: seq<ParsedFile>, d: Decisions)
    ensures var r := Matching(geo, held, files, d);
            KeysOf(r.tracks) == TrackKeys(files, |files|) && KeysOf(r.waypoints) == WaypointKeys(files, |files|)
  {
    EndReviewed(geo, held, files, d);
  }
}
