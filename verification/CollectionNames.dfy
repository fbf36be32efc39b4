/**
  What is matched and proposed, by what the items and entries hold
  (src/server/collection_match.rs): a name is found again however far its
  track or waypoint moved, and what is skipped is there already.
*/
module CollectionNames {
  import opened Wrappers
  import opened LineGrid
  import opened Pairing
  import opened Importing
  import opened CollectionMatch
  import opened CollectionLaws
  import opened CollectionUploads
  import opened Folds

  // ---------------------------------------------------- one file's review

  /** No two items are paired with one entry. */
  ghost predicate Apart(pairs: Pairs) {
    forall m, n :: 0 <= m < n < |pairs| && pairs[m].Some? && pairs[n].Some? ==> pairs[m].value.0 != pairs[n].value.0
  }

  /** From item `i` on, the entries the items are paired with are as they were before the file. */
  ghost predicate Untouched<C>(first: seq<Entry<C>>, entries: seq<Entry<C>>, pairs: Pairs, i: nat) {
    && |first| <= |entries|
    && (forall j :: 0 <= j < |first| ==> entries[j].origin == first[j].origin)
    && (forall m :: i <= m < |pairs| && pairs[m].Some? && pairs[m].value.0 < |first|
                    ==> entries[pairs[m].value.0].content == first[pairs[m].value.0].content)
  }

  /** What the review says of item `k`: what it is paired with among the entries before the file, and the proposal. */
  ghost predicate SaysOf<C>(kind: Kind<C>, f: nat, items: seq<C>, k: nat, pair: Option<(nat, Rank)>,
                            first: seq<Entry<C>>, m: Matched)
    requires k < |items| && (pair.Some? ==> pair.value.0 < |first|)
  {
    && m.file == f && m.index == k
    && m.matched == (if pair.Some? then Some(first[pair.value.0].origin) else None)
    && m.proposed == Proposal(kind, items[k], pair, first)
  }

  lemma {:induction false} FromSays<C>(kind: Kind<C>, intake: Intake, items: seq<C>, pairs: Pairs, i: nat, w: Work<C>,
                                       first: seq<Entry<C>>, k: nat)
    requires i <= k < |items| == |pairs| && PairsWithin(pairs, |first|) && Apart(pairs)
    requires Untouched(first, w.entries, pairs, i)
    ensures var after := TakeFrom(kind, intake, items, pairs, i, w);
            && |after.review| > |w.review| + k - i
            && SaysOf(kind, intake.file, items, k, pairs[k], first, after.review[|w.review| + k - i])
    decreases |items| - i
  {
    var one := TakeOne(kind, intake, i, items[i], pairs[i], w);
    FromReviews(kind, intake, items, pairs, i, w);
    if i < k {
      OneUntouched(kind, intake, items, pairs, i, w, first);
      FromSays(kind, intake, items, pairs, i + 1, one, first, k);
    } else {
      FromReviews(kind, intake, items, pairs, i + 1, one);
      var after := TakeFrom(kind, intake, items, pairs, i, w);
      assert after.review[|w.review|] == after.review[..|one.review|][|w.review|] == one.review[|w.review|];
    }
  }

  lemma {:induction false} OneUntouched<C>(kind: Kind<C>, intake: Intake, items: seq<C>, pairs: Pairs, i: nat,
                                           w: Work<C>, first: seq<Entry<C>>)
    requires i < |items| == |pairs| && PairsWithin(pairs, |first|) && Apart(pairs)
    requires Untouched(first, w.entries, pairs, i)
    ensures Untouched(first, TakeOne(kind, intake, i, items[i], pairs[i], w).entries, pairs, i + 1)
  {
  }

  lemma {:induction false} PairsApart<C>(kind: Kind<C>, items: seq<C>, entries: seq<Entry<C>>)
    ensures Apart(PairsOf(kind, items, entries))
  {
    var pairs := PairsOf(kind, items, entries);
    forall m, n | 0 <= m < n < |pairs| && pairs[m].Some? && pairs[n].Some?
      ensures pairs[m].value.0 != pairs[n].value.0
    {
      PairedMeans(|items|, |entries|, Relates(kind, items, entries), m);
    }
  }

  /** The review of a file says of each item what the pairing with the entries before the file says. */
  lemma {:induction false} AllSay<C>(kind: Kind<C>, intake: Intake, items: seq<C>, w: Work<C>, k: nat)
    requires w.results == [] && k < |items|
    ensures PairsWithin(PairsOf(kind, items, w.entries), |w.entries|)
    ensures var after := TakeAll(kind, intake, items, w);
            && |after.review| > |w.review| + k
            && SaysOf(kind, intake.file, items, k, PairsOf(kind, items, w.entries)[k], w.entries,
                      after.review[|w.review| + k])
  {
    PairsOfWithin(kind, items, w.entries);
    PairsApart(kind, items, w.entries);
    FromSays(kind, intake, items, PairsOf(kind, items, w.entries), 0, w, w.entries, k);
  }

  // ------------------------------------------------------ by their names

  /** Items under the same name relate, wherever they are. */
  ghost predicate NamesRelate<C(!new)>(kind: Kind<C>, naming: Naming<C>) {
    forall file: C, held: C :: naming.name(file).Some? && naming.name(file) == naming.name(held)
                               ==> kind.relates(file, held).Some?
  }

  lemma {:induction false} KindsRelateByName(geo: Geometry)
    ensures NamesRelate(TrackKind(geo), TRACK_NAMING) && NamesRelate(WaypointKind(geo), WAYPOINT_NAMING)
  {
  }

  /** A review of some items, the first of which stands at `from`, that go against some entries. */
  datatype Round<C> = Round(items: seq<C>, entries: seq<Entry<C>>, review: seq<Matched>, from: nat) {
    predicate Valid() {
      from + |items| <= |review|
    }

    function Of(k: nat): Matched
      requires Valid() && k < |items|
    {
      review[from + k]
    }
  }

  /** An entry is matched by another item than the `k`th. */
  ghost predicate MatchedByOther<C>(r: Round<C>, k: nat, origin: Origin)
    requires r.Valid()
  {
    exists o: nat :: o < |r.items| && o != k && r.Of(o).matched == Some(origin)
  }

  /** A named item that matched nothing leaves no entry of its name unmatched. */
  ghost predicate NoneLeft<C>(naming: Naming<C>, r: Round<C>, k: nat)
    requires r.Valid() && k < |r.items|
  {
    naming.name(r.items[k]).Some? && r.Of(k).matched.None? ==>
      forall j :: 0 <= j < |r.entries| && naming.name(r.entries[j].content) == naming.name(r.items[k])
                  ==> MatchedByOther(r, k, r.entries[j].origin)
  }

  /** A named item that matched something matched an entry of its name. */
  ghost predicate OfItsName<C>(naming: Naming<C>, r: Round<C>, k: nat)
    requires r.Valid() && k < |r.items|
  {
    naming.name(r.items[k]).Some? && r.Of(k).matched.Some? ==>
      exists j :: 0 <= j < |r.entries| && Some(r.entries[j].origin) == r.Of(k).matched
                  && naming.name(r.entries[j].content) == naming.name(r.items[k])
  }

  /** What was reviewed is what one file's items do to the entries before it. */
  ghost predicate Reviewed<C(!new)>(kind: Kind<C>, f: nat, r: Round<C>) {
    && r.Valid() && PairsWithin(PairsOf(kind, r.items, r.entries), |r.entries|)
    && forall k: nat :: k < |r.items| ==>
         SaysOf(kind, f, r.items, k, PairsOf(kind, r.items, r.entries)[k], r.entries, r.Of(k))
  }

  lemma {:induction false} FoundByName<C(!new)>(kind: Kind<C>, naming: Naming<C>, f: nat, r: Round<C>, k: nat)
    requires Reviewed(kind, f, r) && k < |r.items| && NamesRelate(kind, naming) && KeepsNames(kind, naming)
    ensures NoneLeft(naming, r, k) && OfItsName(naming, r, k)
  {
    var pairs, relating := PairsOf(kind, r.items, r.entries), Relates(kind, r.items, r.entries);
    assert SaysOf(kind, f, r.items, k, pairs[k], r.entries, r.Of(k));
    if pairs[k].Some? {
      PairedMeans(|r.items|, |r.entries|, relating, k);
    } else {
      forall j | 0 <= j < |r.entries| && naming.name(r.entries[j].content) == naming.name(r.items[k])
                 && naming.name(r.items[k]).Some?
        ensures MatchedByOther(r, k, r.entries[j].origin)
      {
        assert relating(k, j).Some?;
        PairedIsStable(|r.items|, |r.entries|, relating, k, j);
        var o: nat :| o < |r.items| && pairs[o].Some? && pairs[o].value.0 == j;
        assert SaysOf(kind, f, r.items, o, pairs[o], r.entries, r.Of(o));
      }
    }
  }

  ghost predicate OriginsApart<C>(entries: seq<Entry<C>>) {
    forall p, q :: 0 <= p < q < |entries| ==> entries[p].origin != entries[q].origin
  }

  lemma {:induction false} OtherOfItsName<C(!new)>(kind: Kind<C>, naming: Naming<C>, f: nat, r: Round<C>, o: nat,
                                                    j: nat)
    requires Reviewed(kind, f, r) && o < |r.items| && j < |r.entries| && OriginsApart(r.entries)
    requires NamesRelate(kind, naming) && KeepsNames(kind, naming)
    requires naming.name(r.items[o]).Some? && r.Of(o).matched == Some(r.entries[j].origin)
    ensures naming.name(r.entries[j].content) == naming.name(r.items[o])
  {
    FoundByName(kind, naming, f, r, o);
    var i :| 0 <= i < |r.entries| && Some(r.entries[i].origin) == r.Of(o).matched
             && naming.name(r.entries[i].content) == naming.name(r.items[o]);
    assert i == j;
  }

  // ------------------------------------------------------ over every upload

  /** The review of file `f`'s tracks in an upload, and the tracks it goes against. */
  ghost function TrackRound(geo: Geometry, held: Collection, files: seq<ParsedFile>, d: Decisions, f: nat)
    : Round<TrackItem>
    requires f < |files|
  {
    var before := EndState(geo, held, files[..f], d);
    Round(files[f].tracks, before.tracks, Matching(geo, held, files, d).tracks, |before.reviewTracks|)
  }

  ghost function WaypointRound(geo: Geometry, held: Collection, files: seq<ParsedFile>, d: Decisions, f: nat)
    : Round<WaypointItem>
    requires f < |files|
  {
    var before := EndState(geo, held, files[..f], d);
    Round(files[f].waypoints, before.waypoints, Matching(geo, held, files, d).waypoints, |before.reviewWaypoints|)
  }

  lemma {:induction false} OneFileMore(geo: Geometry, held: Collection, files: seq<ParsedFile>, d: Decisions, f: nat)
    requires f < |files|
    ensures EndState(geo, held, files[..f + 1], d)
         == FileTaken(geo, d, f, files[f], EndState(geo, held, files[..f], d))
  {
    var s := EndState(geo, held, files[..f], d);
    assert files[..f + 1] == files[..f] + [files[f]] && [files[f]][1..] == [];
    FoldGoesOn(Taking(geo, d), files[..f], [files[f]], Started(held, d));
    assert Fold(Taking(geo, d), f, [files[f]], s) == Taking(geo, d)(f, files[f], s);
  }

  /** What was reviewed of a file stays so. */
  lemma {:induction false} FileStays(geo: Geometry, held: Collection, files: seq<ParsedFile>, d: Decisions, f: nat)
    requires f < |files|
    ensures var s := FileTaken(geo, d, f, files[f], EndState(geo, held, files[..f], d));
            var r := Matching(geo, held, files, d);
            s.reviewTracks <= r.tracks && s.reviewWaypoints <= r.waypoints
  {
    OneFileMore(geo, held, files, d, f);
    assert files[..f + 1] + files[f + 1..] == files;
    ReviewsGrow(geo, held, files[..f + 1], files[f + 1..], d);
  }

  lemma {:induction false} RoundReviewed<C(!new)>(kind: Kind<C>, intake: Intake, w: Work<C>, r: Round<C>)
    requires w.results == [] && r.entries == w.entries && r.from == |w.review|
    requires TakeAll(kind, intake, r.items, w).review <= r.review
    ensures Reviewed(kind, intake.file, r)
  {
    PairsOfWithin(kind, r.items, w.entries);
    var after := TakeAll(kind, intake, r.items, w);
    FromReviews(kind, intake, r.items, PairsOf(kind, r.items, w.entries), 0, w);
    forall k: nat | k < |r.items|
      ensures SaysOf(kind, intake.file, r.items, k, PairsOf(kind, r.items, r.entries)[k], r.entries, r.Of(k))
    {
      AllSay(kind, intake, r.items, w, k);
      assert r.review[r.from + k] == after.review[r.from + k];
    }
  }

  lemma {:induction false} RoundsReviewed(geo: Geometry, held: Collection, files: seq<ParsedFile>, d: Decisions, f: nat)
    requires f < |files|
    ensures Reviewed(TrackKind(geo), f, TrackRound(geo, held, files, d, f))
    ensures Reviewed(WaypointKind(geo), f, WaypointRound(geo, held, files, d, f))
  {
    var s := EndState(geo, held, files[..f], d);
    var w := TracksTaken(geo, d, f, files[f], s);
    FileStays(geo, held, files, d, f);
    RoundReviewed(TrackKind(geo), Intake(f, Unchanged, false, d.tracks),
                  Work(s.tracks, s.reviewTracks, s.matchedHeld, []), TrackRound(geo, held, files, d, f));
    RoundReviewed(WaypointKind(geo), WaypointIntake(f, FileTrack(files[f], w.results), d.waypoints),
                  Work(s.waypoints, s.reviewWaypoints, w.matchedHeld, []), WaypointRound(geo, held, files, d, f));
  }

  /**
    A named track or waypoint is matched with one of its name, however far it
    moved. If it is reviewed as matching nothing, every entry there was under
    its name is matched by another item of the same file.
  */
  lemma {:induction false} MatchedByName(geo: Geometry, held: Collection, files: seq<ParsedFile>, d: Decisions, f: nat)
    requires f < |files|
    ensures var t, w := TrackRound(geo, held, files, d, f), WaypointRound(geo, held, files, d, f);
            && t.Valid() && w.Valid()
            && (forall k: nat :: k < |t.items| ==> t.Of(k).file == f && t.Of(k).index == k
                                                   && NoneLeft(TRACK_NAMING, t, k) && OfItsName(TRACK_NAMING, t, k))
            && (forall k: nat :: k < |w.items| ==> w.Of(k).file == f && w.Of(k).index == k
                                                   && NoneLeft(WAYPOINT_NAMING, w, k)
                                                   && OfItsName(WAYPOINT_NAMING, w, k))
  {
    var t, w := TrackRound(geo, held, files, d, f), WaypointRound(geo, held, files, d, f);
    RoundsReviewed(geo, held, files, d, f);
    KindsRelateByName(geo);
    KindsKeepNames(geo);
    forall k: nat | k < |t.items|
      ensures t.Of(k).file == f && t.Of(k).index == k && NoneLeft(TRACK_NAMING, t, k) && OfItsName(TRACK_NAMING, t, k)
    {
      assert SaysOf(TrackKind(geo), f, t.items, k, PairsOf(TrackKind(geo), t.items, t.entries)[k], t.entries, t.Of(k));
      FoundByName(TrackKind(geo), TRACK_NAMING, f, t, k);
    }
    forall k: nat | k < |w.items|
      ensures w.Of(k).file == f && w.Of(k).index == k && NoneLeft(WAYPOINT_NAMING, w, k)
      ensures OfItsName(WAYPOINT_NAMING, w, k)
    {
      assert SaysOf(WaypointKind(geo), f, w.items, k, PairsOf(WaypointKind(geo), w.items, w.entries)[k], w.entries,
                    w.Of(k));
      FoundByName(WaypointKind(geo), WAYPOINT_NAMING, f, w, k);
    }
  }

  // --------------------------------------------------------- what is skipped

  /** The track is there already: its line lies within thirty metres. */
  predicate SameTrack(geo: Geometry, file: TrackItem, held: TrackItem) {
    geo.linesWithin(file.line, held.line, 30.0)
  }

  /** The waypoint is there already: within thirty metres, no more than one higher or lower, and told the same way. */
  predicate SameWaypoint(geo: Geometry, file: WaypointItem, held: WaypointItem) {
    && geo.distance(file.position, held.position) <= 30.0
    && file.description == held.description && file.symbol == held.symbol
    && (file.ele.None? <==> held.ele.None?)
    && (file.ele.Some? && held.ele.Some? ==> -1.0 <= file.ele.value - held.ele.value <= 1.0)
  }

  function SameTracks(geo: Geometry): (TrackItem, TrackItem) -> bool {
    (a: TrackItem, b: TrackItem) => SameTrack(geo, a, b)
  }

  function SameWaypoints(geo: Geometry): (WaypointItem, WaypointItem) -> bool {
    (a: WaypointItem, b: WaypointItem) => SameWaypoint(geo, a, b)
  }

  /** Added if it matched nothing, and else skipped if it is there already, and put in its place if it is not. */
  ghost predicate ProposedBy<C>(same: (C, C) -> bool, r: Round<C>, k: nat)
    requires r.Valid() && k < |r.items|
  {
    var m := r.Of(k);
    && (m.matched.None? ==> m.proposed == Add)
    && (m.matched.Some? ==>
          exists j :: 0 <= j < |r.entries| && m.matched == Some(r.entries[j].origin)
                      && m.proposed == if same(r.items[k], r.entries[j].content) then Skip else Replace)
  }

  /** Items of a kind relate as the same, and have the same details, just where they are the same. */
  ghost predicate Tells<C(!new)>(kind: Kind<C>, same: (C, C) -> bool) {
    forall a: C, b: C :: kind.relates(a, b).Some? ==>
      (same(a, b) <==> kind.relates(a, b).value.rank.Same? && kind.sameDetails(a, b))
  }

  lemma {:induction false} KindsTell(geo: Geometry)
    ensures Tells(TrackKind(geo), SameTracks(geo))
    ensures Tells(WaypointKind(geo), SameWaypoints(geo))
  {
  }

  lemma {:induction false} ItemProposed<C(!new)>(kind: Kind<C>, same: (C, C) -> bool, f: nat, r: Round<C>, k: nat)
    requires Reviewed(kind, f, r) && k < |r.items| && Tells(kind, same)
    ensures ProposedBy(same, r, k)
  {
    var pairs := PairsOf(kind, r.items, r.entries);
    assert SaysOf(kind, f, r.items, k, pairs[k], r.entries, r.Of(k));
    if pairs[k].Some? {
      var j := pairs[k].value.0;
      PairedMeans(|r.items|, |r.entries|, Relates(kind, r.items, r.entries), k);
      assert r.Of(k).matched == Some(r.entries[j].origin);
    }
  }

  /**
    The proposals of every upload: what matched nothing is to be added, what
    is there already to be skipped, and what changed to replace what it
    matched.
  */
  lemma {:induction false} ProposedExactly(geo: Geometry, held: Collection, files: seq<ParsedFile>, d: Decisions,
                                           f: nat)
    requires f < |files|
    ensures var t, w := TrackRound(geo, held, files, d, f), WaypointRound(geo, held, files, d, f);
            && t.Valid() && w.Valid()
            && (forall k: nat :: k < |t.items| ==>
                  ProposedBy(SameTracks(geo), t, k))
            && (forall k: nat :: k < |w.items| ==>
                  ProposedBy(SameWaypoints(geo), w, k))
  {
    var t, w := TrackRound(geo, held, files, d, f), WaypointRound(geo, held, files, d, f);
    RoundsReviewed(geo, held, files, d, f);
    KindsTell(geo);
    forall k: nat | k < |t.items| ensures ProposedBy(SameTracks(geo), t, k) {
      ItemProposed(TrackKind(geo), SameTracks(geo), f, t, k);
    }
    forall k: nat | k < |w.items|
      ensures ProposedBy(SameWaypoints(geo), w, k)
    {
      ItemProposed(WaypointKind(geo), SameWaypoints(geo), f, w, k);
    }
  }

  // ----------------------------------------------------------- which of them

  /** Item `k` matches entry `j`, to which it relates. */
  ghost predicate Pairs<C(!new)>(kind: Kind<C>, r: Round<C>, k: nat, j: nat)
    requires r.Valid()
  {
    && k < |r.items| && j < |r.entries| && r.Of(k).matched == Some(r.entries[j].origin)
    && kind.relates(r.items[k], r.entries[j].content).Some?
  }

  /** Item `k` and entry `j` are no closer to each other than item `i` and entry `e`. */
  ghost predicate NoCloserThan<C(!new)>(kind: Kind<C>, r: Round<C>, k: nat, j: nat, i: nat, e: nat)
    requires k < |r.items| && j < |r.entries| && i < |r.items| && e < |r.entries|
  {
    var a, b := kind.relates(r.items[k], r.entries[j].content), kind.relates(r.items[i], r.entries[e].content);
    a.Some? && b.Some? && !a.value.Closer(b.value)
  }

  /** Of an item and an entry that relate, one is matched with something at least as close. */
  lemma {:induction false} CloserTaken<C(!new)>(kind: Kind<C>, f: nat, r: Round<C>, k: nat, j: nat)
    returns (i: nat, e: nat)
    requires Reviewed(kind, f, r) && k < |r.items| && j < |r.entries|
    requires kind.relates(r.items[k], r.entries[j].content).Some?
    ensures (i == k || e == j) && Pairs(kind, r, i, e) && NoCloserThan(kind, r, k, j, i, e)
  {
    var pairs, relating := PairsOf(kind, r.items, r.entries), Relates(kind, r.items, r.entries);
    PairedIsStable(|r.items|, |r.entries|, relating, k, j);
    if pairs[k].Some? && relating(k, pairs[k].value.0).Some?
       && !relating(k, j).value.Closer(relating(k, pairs[k].value.0).value) {
      i, e := k, pairs[k].value.0;
    } else {
      var m: nat :| m < |r.items| && pairs[m].Some? && pairs[m].value.0 == j && relating(m, j).Some?
                    && !relating(k, j).value.Closer(relating(m, j).value);
      i, e := m, j;
    }
    assert SaysOf(kind, f, r.items, i, pairs[i], r.entries, r.Of(i));
  }

  /** A waypoint may match another: by their name, or without one within thirty metres. */
  predicate MayMatch(geo: Geometry, file: WaypointItem, held: WaypointItem) {
    if file.name.Some? then file.name == held.name else geo.distance(file.position, held.position) <= 30.0
  }

  /** An item matches an entry no farther than `far`. */
  ghost predicate MatchesWithin(geo: Geometry, r: Round<WaypointItem>, k: nat, j: nat, far: real)
    requires r.Valid() && k < |r.items| && j < |r.entries|
  {
    && r.Of(k).matched == Some(r.entries[j].origin)
    && geo.distance(r.items[k].position, r.entries[j].content.position) <= far
  }

  /** Of an item and an entry that may match, one matches something at least as near. */
  ghost predicate NearestTaken(geo: Geometry, r: Round<WaypointItem>, k: nat, j: nat)
    requires r.Valid() && k < |r.items| && j < |r.entries|
  {
    var far := geo.distance(r.items[k].position, r.entries[j].content.position);
    || (exists i: nat :: i < |r.entries| && MatchesWithin(geo, r, k, i, far))
    || (exists o: nat :: o < |r.items| && MatchesWithin(geo, r, o, j, far))
  }

  lemma {:induction false} NoFarther(geo: Geometry, a: WaypointItem, b: WaypointItem, c: WaypointItem, d: WaypointItem)
    requires WaypointRelation(geo, a, b).Some? && WaypointRelation(geo, c, d).Some?
    requires !WaypointRelation(geo, a, b).value.Closer(WaypointRelation(geo, c, d).value)
    ensures geo.distance(c.position, d.position) <= geo.distance(a.position, b.position)
  {
  }

  /** Waypoints match the nearest they may, in every upload: none is passed over for one farther off. */
  lemma {:induction false} NearestMatched(geo: Geometry, held: Collection, files: seq<ParsedFile>, d: Decisions, f: nat,
                                          k: nat, j: nat)
    requires f < |files|
    requires var r := WaypointRound(geo, held, files, d, f);
             k < |r.items| && j < |r.entries| && MayMatch(geo, r.items[k], r.entries[j].content)
    ensures WaypointRound(geo, held, files, d, f).Valid()
    ensures NearestTaken(geo, WaypointRound(geo, held, files, d, f), k, j)
  {
    var r := WaypointRound(geo, held, files, d, f);
    RoundsReviewed(geo, held, files, d, f);
    var i, e := CloserTaken(WaypointKind(geo), f, r, k, j);
    NoFarther(geo, r.items[k], r.entries[j].content, r.items[i], r.entries[e].content);
    assert MatchesWithin(geo, r, i, e, geo.distance(r.items[k].position, r.entries[j].content.position));
  }

  /** Where a line's extremes lie, point by point. */
  ghost predicate Extremes(line: seq<Position>, south: nat, north: nat, west: nat, east: nat) {
    && south < |line| && north < |line| && west < |line| && east < |line|
    && (forall k :: 0 <= k < |line| ==> line[south].lat <= line[k].lat <= line[north].lat)
    && (forall k :: 0 <= k < |line| ==> line[west].lon <= line[k].lon <= line[east].lon)
  }

  /** Where the extremes lie with one point more. */
  lemma {:induction false} ExtremesOfMore(line: seq<Position>, last: Position, south: nat, north: nat, west: nat,
                                          east: nat)
    requires Extremes(line, south, north, west, east)
    ensures var n := |line|;
            Extremes(line + [last], if last.lat <= line[south].lat then n else south,
                     if last.lat >= line[north].lat then n else north, if last.lon <= line[west].lon then n else west,
                     if last.lon >= line[east].lon then n else east)
  {
  }

  lemma {:induction false} CornersAre(line: seq<Position>) returns (south: nat, north: nat, west: nat, east: nat)
    requires line != []
    ensures Extremes(line, south, north, west, east)
    ensures CollectionMatch.Corners(line)
         == (Position(line[south].lat, line[west].lon), Position(line[north].lat, line[east].lon))
  {
    var n := |line| - 1;
    if n == 0 {
      south, north, west, east := 0, 0, 0, 0;
    } else {
      var before, last := line[..n], line[n];
      south, north, west, east := CornersAre(before);
      ExtremesOfMore(before, last, south, north, west, east);
      assert line == before + [last];
      south := if last.lat <= before[south].lat then n else south;
      north := if last.lat >= before[north].lat then n else north;
      west := if last.lon <= before[west].lon then n else west;
      east := if last.lon >= before[east].lon then n else east;
    }
  }

  /** A line's centre lies half way between its extremes; a line without a point has none. */
  lemma {:induction false} CentreHalfway(line: seq<Position>) returns (south: nat, north: nat, west: nat, east: nat)
    ensures Centre(line).Some? <==> line != []
    ensures line != [] ==>
              && Extremes(line, south, north, west, east)
              && 2.0 * Centre(line).value.lat == line[south].lat + line[north].lat
              && 2.0 * Centre(line).value.lon == line[west].lon + line[east].lon
  {
    if line != [] {
      south, north, west, east := CornersAre(line);
    } else {
      south, north, west, east := 0, 0, 0, 0;
    }
  }

  /** How far apart two lines' centres are, if they have any. */
  function Away(geo: Geometry, a: TrackItem, b: TrackItem): Option<real> {
    match (Centre(a.line), Centre(b.line))
    case (Some(p), Some(q)) => Some(geo.distance(p, q))
    case _ => None
  }

  predicate NoLess(a: Option<real>, b: Option<real>) {
    a.Some? ==> b.Some? && b.value <= a.value
  }

  /** Track `c` is as good a match for `d` as `a` is for `b`: the same rather than changed, and then no farther off. */
  predicate AsGood(geo: Geometry, a: TrackItem, b: TrackItem, c: TrackItem, d: TrackItem) {
    if SameTrack(geo, a, b) then SameTrack(geo, c, d) && NoLess(Away(geo, a, b), Away(geo, c, d))
    else SameTrack(geo, c, d) || NoLess(Away(geo, a, b), Away(geo, c, d))
  }

  predicate MayMatchTrack(geo: Geometry, file: TrackItem, held: TrackItem) {
    if file.name.Some? then file.name == held.name else SameTrack(geo, file, held)
  }

  /** Item `i` matches entry `e`, as good a match as item `k` and entry `j` are. */
  ghost predicate MatchesAsWell(geo: Geometry, r: Round<TrackItem>, k: nat, j: nat, i: nat, e: nat)
    requires r.Valid() && k < |r.items| && j < |r.entries| && i < |r.items| && e < |r.entries|
  {
    && r.Of(i).matched == Some(r.entries[e].origin)
    && AsGood(geo, r.items[k], r.entries[j].content, r.items[i], r.entries[e].content)
  }

  /** Of an item and an entry that may match, one matches something at least as good. */
  ghost predicate BestTaken(geo: Geometry, r: Round<TrackItem>, k: nat, j: nat)
    requires r.Valid() && k < |r.items| && j < |r.entries|
  {
    || (exists e: nat :: e < |r.entries| && MatchesAsWell(geo, r, k, j, k, e))
    || (exists i: nat :: i < |r.items| && MatchesAsWell(geo, r, k, j, i, j))
  }

  lemma {:induction false} NoCloser(geo: Geometry, a: TrackItem, b: TrackItem, c: TrackItem, d: TrackItem)
    requires TrackRelation(geo, a, b).Some? && TrackRelation(geo, c, d).Some?
    requires !TrackRelation(geo, a, b).value.Closer(TrackRelation(geo, c, d).value)
    ensures AsGood(geo, a, b, c, d)
  {
  }

  /** Tracks match what is the same before what changed, and then what is nearest, in every upload. */
  lemma {:induction false} BestMatched(geo: Geometry, held: Collection, files: seq<ParsedFile>, d: Decisions, f: nat,
                                       k: nat, j: nat)
    requires f < |files|
    requires var r := TrackRound(geo, held, files, d, f);
             k < |r.items| && j < |r.entries| && MayMatchTrack(geo, r.items[k], r.entries[j].content)
    ensures TrackRound(geo, held, files, d, f).Valid()
    ensures BestTaken(geo, TrackRound(geo, held, files, d, f), k, j)
  {
    var r := TrackRound(geo, held, files, d, f);
    RoundsReviewed(geo, held, files, d, f);
    var i, e := CloserTaken(TrackKind(geo), f, r, k, j);
    NoCloser(geo, r.items[k], r.entries[j].content, r.items[i], r.entries[e].content);
    assert MatchesAsWell(geo, r, k, j, i, e);
  }

  // ------------------------------------------------------------- it happens

  /** A waypoint held, and one of its name that a file has somewhere else: matched, and to take its place. */
  lemma {:induction false} MovedIsFound(geo: Geometry, id: int, w: WaypointItem, v: WaypointItem)
    requires w.name.Some? && v.name == w.name && geo.distance(v.position, w.position) > 30.0
    ensures var r := Matching(geo, Collection([], [HeldItem(id, w)]), [ParsedFile([], [v])], NONE);
            && r.waypoints == [Matched(0, 0, Some(Held(id)), Replace, Replace)]
            && r.unmatchedWaypoints == [] && |r.outcome.waypoints| == 1
  {
    var held, file := Collection([], [HeldItem(id, w)]), ParsedFile([], [v]);
    var entry := Entry(Held(id), w, None, Unchanged);
    var s := State([], [entry], [], [], {});
    assert Started(held, NONE) == s;
    NoneTaken(TrackKind(geo), Intake(0, Unchanged, false, NONE.tracks), Work([], [], {}, []));
    var t := TracksTaken(geo, NONE, 0, file, s);
    var intake := WaypointIntake(0, FileTrack(file, t.results), NONE.waypoints);
    OnlyOneTaken(WaypointKind(geo), intake, v, entry, [], {}, Changed);
    FoldOne(Taking(geo, NONE), file, s);
    var end := EndState(geo, held, [file], NONE);
    assert end.waypoints == [Entry(Held(id), v, Some((0, 0)), Unchanged)];
    assert end.matchedHeld == {id};
    OneEnds(held, end, id);
  }

  lemma {:induction false} OnlyOneLeft(id: int, keep: int -> bool)
    requires !keep(id)
    ensures Filter([id], keep) == []
  {
    assert [id][..0] == [];
  }

  /** The end of an upload that matched the one waypoint held. */
  lemma {:induction false} OneEnds(held: Collection, s: State, id: int)
    requires |held.waypoints| == 1 && held.waypoints[0].id == id && s.matchedHeld == {id} && |s.waypoints| == 1
    ensures var r := Finished(held, NONE, s); r.unmatchedWaypoints == [] && |r.outcome.waypoints| == 1
  {
    assert Ids(held.waypoints) == [id];
    OnlyOneLeft(id, x => x !in s.matchedHeld);
    NoRemovals(held, NONE, s);
    FinalsWithoutRemovals(s.waypoints);
  }
}
