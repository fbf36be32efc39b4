/**
  One upload of many files against one upload for each
  (src/server/collection_match.rs, src/server/collection_import/plan.rs): the
  uploads one by one go as one upload of all matches, tracks without a name
  under one made up for them, as long as no track of the files goes by one.
*/
module CollectionChain {
  import opened Wrappers
  import opened Importing
  import opened CollectionMatch
  import opened CollectionLaws
  import opened CollectionStoring
  import opened CollectionUnseen
  import opened CollectionSequence
  import opened CollectionUploads
  import opened Folds

  /** How single uploads go: what the owner decides in each, and which ids the rows get. */
  datatype Uploads = Uploads(
    decisions: nat -> Decisions,
    trackIds: (nat, Origin) -> int,
    waypointIds: (nat, Origin) -> int)
  {
    function Rows(n: nat): Stored {
      Stored(1, (o: Origin) => trackIds(n, o), (o: Origin) => waypointIds(n, o))
    }
  }

  /** A row keeps its id. */
  ghost predicate KeepsIds(ids: (nat, Origin) -> int) {
    forall n: nat, id: int :: ids(n, Held(id)) == id
  }

  /** The id after `n` uploads of what comes from somewhere in one upload of all. */
  function IdAfter(ids: (nat, Origin) -> int, n: nat, o: Origin): int {
    if n == 0 then match o case Held(id) => id case File(_, _) => 0
    else
      var m := n - 1;
      ids(m, if o.File? && o.file >= m then File(o.file - m, o.index) else Held(IdAfter(ids, m, o)))
  }

  function IdsAfter(ids: (nat, Origin) -> int, n: nat): Origin -> int {
    (o: Origin) => IdAfter(ids, n, o)
  }

  function StoredBy(u: Uploads, n: nat): Stored {
    Stored(n, IdsAfter(u.trackIds, n), IdsAfter(u.waypointIds, n))
  }

  /** The collection and its shelf after the first `n` files, each uploaded on its own. */
  ghost function OneByOne(geo: Geometry, held: Collection, files: seq<ParsedFile>, u: Uploads, shelf: Shelf, n: nat)
    : (Collection, Shelf)
    requires n <= |files|
  {
    if n == 0 then (held, shelf)
    else
      var (c, on) := OneByOne(geo, held, files, u, shelf, n - 1);
      var s := EndState(geo, c, [files[n - 1]], u.decisions(n - 1));
      (StoredAfter(c, [files[n - 1]], s, on, u.Rows(n - 1)), ShelfAfter(on, s))
  }

  /** The end state of one upload of the first `n` files. */
  ghost function AtOnce(geo: Geometry, held: Collection, files: seq<ParsedFile>, d: Decisions, n: nat): State
    requires n <= |files|
  {
    EndState(geo, held, files[..n], d)
  }

  /** The owner decides alike either way, nothing held goes first, and rows have ids of their own. */
  ghost predicate Comparable(geo: Geometry, held: Collection, files: seq<ParsedFile>, d: Decisions, u: Uploads,
                             shelf: Shelf)
  {
    && !d.replaceAll && KeepsIds(u.trackIds) && KeepsIds(u.waypointIds)
    && (forall n: nat :: n < |files| ==> !u.decisions(n).replaceAll && SameDecisions(n, d, u.decisions(n)))
    && (forall n: nat :: n <= |files| ==> IdsApart(OneByOne(geo, held, files, u, shelf, n).0))
  }

  /** The first `n` files, uploaded one by one, leave what one upload of them matches by, under the names made up. */
  ghost predicate AsNamed(geo: Geometry, held: Collection, files: seq<ParsedFile>, d: Decisions, u: Uploads,
                          shelf: Shelf, n: nat)
    requires n <= |files|
  {
    var s := AtOnce(geo, held, files, d, n);
    OneByOne(geo, held, files, u, shelf, n) == (NamedCollection(s, shelf, StoredBy(u, n)), ShelfAfter(shelf, s))
  }

  lemma {:induction false} NamedAtFirst(geo: Geometry, held: Collection, files: seq<ParsedFile>, d: Decisions,
                                        u: Uploads, shelf: Shelf)
    requires !d.replaceAll
    ensures AsNamed(geo, held, files, d, u, shelf, 0)
  {
    var s := AtOnce(geo, held, files, d, 0);
    assert s == Started(held, d);
    var c := NamedCollection(s, shelf, StoredBy(u, 0));
    forall k | 0 <= k < |held.tracks| ensures c.tracks[k] == held.tracks[k] {
      assert s.tracks[k] == Entry(Held(held.tracks[k].id), held.tracks[k].content, None, Unchanged);
      assert TrackNamed(s, shelf, k) == held.tracks[k].content;
      assert c.tracks[k].id == IdAfter(u.trackIds, 0, Held(held.tracks[k].id));
    }
    forall k | 0 <= k < |held.waypoints| ensures c.waypoints[k] == held.waypoints[k] {
      assert s.waypoints[k] == Entry(Held(held.waypoints[k].id), held.waypoints[k].content, None, Unchanged);
    }
    assert c.tracks == held.tracks && c.waypoints == held.waypoints;
    NoneAdded(s.tracks, |s.tracks|);
  }

  // ------------------------------------------------------ one file's own items

  /** What a file adds is still its own: no other item of the file took its place. */
  ghost predicate Own<C>(entries: seq<Entry<C>>) {
    forall k :: 0 <= k < |entries| && entries[k].origin.File? ==>
      entries[k].source == Some((entries[k].origin.file, entries[k].origin.index))
  }

  lemma {:induction false} FromOwn<C>(kind: Kind<C>, intake: Intake, items: seq<C>, pairs: Pairs, i: nat, w: Work<C>,
                                      first: nat)
    requires i <= |items| == |pairs| && PairsWithin(pairs, first) && first <= |w.entries| && Own(w.entries)
    requires forall k :: 0 <= k < first ==> w.entries[k].origin.Held?
    ensures Own(TakeFrom(kind, intake, items, pairs, i, w).entries)
    decreases |items| - i
  {
    if i < |items| {
      FromOwn(kind, intake, items, pairs, i + 1, TakeOne(kind, intake, i, items[i], pairs[i], w), first);
    }
  }

  lemma {:induction false} AllOwn<C>(kind: Kind<C>, intake: Intake, items: seq<C>, w: Work<C>)
    requires w.results == [] && forall k :: 0 <= k < |w.entries| ==> w.entries[k].origin.Held?
    ensures Own(TakeAll(kind, intake, items, w).entries)
  {
    PairsOfWithin(kind, items, w.entries);
    FromOwn(kind, intake, items, PairsOf(kind, items, w.entries), 0, w, |w.entries|);
  }

  lemma {:induction false} OneFileOwn(geo: Geometry, held: Collection, file: ParsedFile, e: Decisions)
    ensures var s := EndState(geo, held, [file], e); Own(s.tracks) && Own(s.waypoints)
  {
    var s := Started(held, e);
    FoldOne(Taking(geo, e), file, s);
    AllOwn(TrackKind(geo), Intake(0, Unchanged, false, e.tracks), file.tracks,
           Work(s.tracks, s.reviewTracks, s.matchedHeld, []));
    var w := TracksTaken(geo, e, 0, file, s);
    AllOwn(WaypointKind(geo), WaypointIntake(0, FileTrack(file, w.results), e.waypoints), file.waypoints,
           Work(s.waypoints, s.reviewWaypoints, w.matchedHeld, []));
  }

  /** What a later file added is its own in one upload of all as well. */
  lemma {:induction false} OwnSeen<C>(later: Later, whole: seq<Entry<C>>, second: seq<Entry<C>>, k: nat)
    requires SeenFrom(later, whole, second) && Own(second) && k < |whole|
    requires whole[k].origin.File? && whole[k].origin.file >= later.first
    ensures whole[k].source == Some((whole[k].origin.file, whole[k].origin.index))
  {
    assert second[k].source == Some((second[k].origin.file, second[k].origin.index));
  }

  // ------------------------------------------------------------ one file more

  /** Rows get the ids they would, seen from one upload of all. */
  lemma {:induction false} IdsAgree(u: Uploads, n: nat, o: Origin)
    ensures IdAfter(u.trackIds, n + 1, o) == u.trackIds(n, StoredBy(u, n).Tracks().Of(o))
    ensures IdAfter(u.waypointIds, n + 1, o) == u.waypointIds(n, StoredBy(u, n).Waypoints().Of(o))
  {
  }

  /** No track of the next file goes by a name made up for one that the first `n` files brought in. */
  ghost predicate UnheardNext(geo: Geometry, held: Collection, files: seq<ParsedFile>, d: Decisions, shelf: Shelf,
                              n: nat)
    requires n < |files|
  {
    Unheard(files[..n], AtOnce(geo, held, files, d, n), shelf, [files[n]])
  }

  /** What the next file's own upload ends in. */
  ghost function NextOne(geo: Geometry, held: Collection, files: seq<ParsedFile>, u: Uploads, shelf: Shelf, n: nat)
    : State
    requires n < |files|
  {
    EndState(geo, OneByOne(geo, held, files, u, shelf, n).0, [files[n]], u.decisions(n))
  }

  /** The next file's own upload, one by one. */
  ghost predicate NextInTurn(geo: Geometry, held: Collection, files: seq<ParsedFile>, d: Decisions, u: Uploads,
                             shelf: Shelf, n: nat)
    requires n < |files|
  {
    && files[..n + 1] == files[..n] + [files[n]] && AsNamed(geo, held, files, d, u, shelf, n)
    && InTurn(geo, held, files[..n], [files[n]], d, u.decisions(n), shelf, StoredBy(u, n),
              OneByOne(geo, held, files, u, shelf, n).0)
  }

  lemma {:induction false} TakesItsTurn(geo: Geometry, held: Collection, files: seq<ParsedFile>, d: Decisions,
                                        u: Uploads, shelf: Shelf, n: nat)
    requires n < |files| && Comparable(geo, held, files, d, u, shelf) && AsNamed(geo, held, files, d, u, shelf, n)
    requires UnheardNext(geo, held, files, d, shelf, n)
    ensures NextInTurn(geo, held, files, d, u, shelf, n)
  {
    var fs, between := files[..n], OneByOne(geo, held, files, u, shelf, n).0;
    ComparableAt(geo, held, files, d, u, shelf, n);
    LeftNamed(geo, held, files, d, u, shelf, n);
    UnheardIs(geo, held, files, d, shelf, n);
    IsInTurn(geo, held, fs, [files[n]], d, u.decisions(n), shelf, StoredBy(u, n), between,
             EndState(geo, held, fs, d), n);
    SplitsAt(files, n);
  }

  lemma {:induction false} SplitsAt(files: seq<ParsedFile>, n: nat)
    requires n < |files|
    ensures files[..n + 1] == files[..n] + [files[n]]
  {
  }

  lemma {:induction false} UnheardIs(geo: Geometry, held: Collection, files: seq<ParsedFile>, d: Decisions,
                                     shelf: Shelf, n: nat)
    requires n < |files| && UnheardNext(geo, held, files, d, shelf, n)
    ensures Unheard(files[..n], EndState(geo, held, files[..n], d), shelf, [files[n]])
  {
  }

  lemma {:induction false} LeftNamed(geo: Geometry, held: Collection, files: seq<ParsedFile>, d: Decisions, u: Uploads,
                                     shelf: Shelf, n: nat)
    requires n <= |files| && AsNamed(geo, held, files, d, u, shelf, n)
    ensures OneByOne(geo, held, files, u, shelf, n).0
         == NamedCollection(EndState(geo, held, files[..n], d), shelf, StoredBy(u, n))
  {
  }

  lemma {:induction false} IsInTurn(geo: Geometry, held: Collection, fs: seq<ParsedFile>, gs: seq<ParsedFile>,
                                    d: Decisions, e: Decisions, shelf: Shelf, stored: Stored, between: Collection,
                                    before: State, n: nat)
    requires before == EndState(geo, held, fs, d) && between == NamedCollection(before, shelf, stored)
    requires stored.first == |fs| == n && !e.replaceAll && SameDecisions(n, d, e) && Unheard(fs, before, shelf, gs)
    requires IdsApart(held) && IdsApart(between)
    ensures InTurn(geo, held, fs, gs, d, e, shelf, stored, between)
  {
  }

  lemma {:induction false} ComparableAt(geo: Geometry, held: Collection, files: seq<ParsedFile>, d: Decisions,
                                        u: Uploads, shelf: Shelf, n: nat)
    requires n < |files| && Comparable(geo, held, files, d, u, shelf)
    ensures !u.decisions(n).replaceAll && SameDecisions(n, d, u.decisions(n))
    ensures IdsApart(held) && IdsApart(OneByOne(geo, held, files, u, shelf, n).0)
  {
    assert OneByOne(geo, held, files, u, shelf, 0).0 == held;
    assert IdsApart(OneByOne(geo, held, files, u, shelf, 0).0);
    assert IdsApart(OneByOne(geo, held, files, u, shelf, n).0);
  }

  /** What the first `n` files left keeps its origin, and what the next file adds is its own. */
  ghost predicate OwnAfter<C>(first: nat, before: seq<Entry<C>>, whole: seq<Entry<C>>) {
    && |before| <= |whole|
    && forall k :: |before| <= k < |whole| ==>
         whole[k].origin.File? && whole[k].source == Some((whole[k].origin.file, whole[k].origin.index))
  }

  lemma {:induction false} NextOwn(geo: Geometry, held: Collection, files: seq<ParsedFile>, d: Decisions, u: Uploads,
                                   shelf: Shelf, n: nat)
    requires n < |files| && NextInTurn(geo, held, files, d, u, shelf, n)
    ensures var before, whole := AtOnce(geo, held, files, d, n), AtOnce(geo, held, files, d, n + 1);
            OwnAfter(n, before.tracks, whole.tracks) && OwnAfter(n, before.waypoints, whole.waypoints)
  {
    var before, whole := AtOnce(geo, held, files, d, n), AtOnce(geo, held, files, d, n + 1);
    var between, second := OneByOne(geo, held, files, u, shelf, n).0, NextOne(geo, held, files, u, shelf, n);
    EndSince(geo, held, files[..n], [files[n]], d);
    SidesSeen(geo, held, files[..n], [files[n]], d, u.decisions(n), shelf, StoredBy(u, n), between);
    OneFileOwn(geo, between, files[n], u.decisions(n));
    forall k | |before.tracks| <= k < |whole.tracks|
      ensures whole.tracks[k].source == Some((whole.tracks[k].origin.file, whole.tracks[k].origin.index))
    {
      OwnSeen(StoredBy(u, n).Tracks(), whole.tracks, second.tracks, k);
    }
    forall k | |before.waypoints| <= k < |whole.waypoints|
      ensures whole.waypoints[k].source == Some((whole.waypoints[k].origin.file, whole.waypoints[k].origin.index))
    {
      OwnSeen(StoredBy(u, n).Waypoints(), whole.waypoints, second.waypoints, k);
    }
  }

  /** The next file's own upload stores what one upload matches by, under the names made up. */
  lemma {:induction false} NextStored(geo: Geometry, held: Collection, files: seq<ParsedFile>, d: Decisions, u: Uploads,
                                      shelf: Shelf, n: nat)
    requires n < |files| && NextInTurn(geo, held, files, d, u, shelf, n)
    ensures var (between, on) := OneByOne(geo, held, files, u, shelf, n);
            var whole, second := AtOnce(geo, held, files, d, n + 1), NextOne(geo, held, files, u, shelf, n);
            && |whole.tracks| == |second.tracks| && |whole.waypoints| == |second.waypoints|
            && ShelfAfter(on, second) == ShelfAfter(shelf, whole)
            && (forall k :: 0 <= k < |whole.tracks| ==>
                  TrackStored(between, [files[n]], second, on, k) == TrackNamed(whole, shelf, k))
            && (forall k :: 0 <= k < |whole.waypoints| ==>
                  WaypointStored(between, [files[n]], second, k) == whole.waypoints[k].content)
  {
    var between, whole := OneByOne(geo, held, files, u, shelf, n).0, AtOnce(geo, held, files, d, n + 1);
    NextOwn(geo, held, files, d, u, shelf, n);
    StoredByName(geo, held, files[..n + 1], d, shelf, whole);
    BothStoredLater(geo, held, files[..n], [files[n]], d, u.decisions(n), shelf, StoredBy(u, n), between);
  }

  lemma {:induction false} NextIds(geo: Geometry, held: Collection, files: seq<ParsedFile>, d: Decisions, u: Uploads,
                                   shelf: Shelf, n: nat)
    requires n < |files| && NextInTurn(geo, held, files, d, u, shelf, n)
    ensures var whole, second := AtOnce(geo, held, files, d, n + 1), NextOne(geo, held, files, u, shelf, n);
            && |whole.tracks| == |second.tracks| && |whole.waypoints| == |second.waypoints|
            && (forall k :: 0 <= k < |whole.tracks| ==>
                  u.trackIds(n, second.tracks[k].origin) == IdAfter(u.trackIds, n + 1, whole.tracks[k].origin))
            && (forall k :: 0 <= k < |whole.waypoints| ==>
                  u.waypointIds(n, second.waypoints[k].origin)
                  == IdAfter(u.waypointIds, n + 1, whole.waypoints[k].origin))
  {
    var whole, second := AtOnce(geo, held, files, d, n + 1), NextOne(geo, held, files, u, shelf, n);
    SidesSeen(geo, held, files[..n], [files[n]], d, u.decisions(n), shelf, StoredBy(u, n),
              OneByOne(geo, held, files, u, shelf, n).0);
    forall k | 0 <= k < |whole.tracks|
      ensures u.trackIds(n, second.tracks[k].origin) == IdAfter(u.trackIds, n + 1, whole.tracks[k].origin)
    {
      IdsAgree(u, n, whole.tracks[k].origin);
    }
    forall k | 0 <= k < |whole.waypoints|
      ensures u.waypointIds(n, second.waypoints[k].origin)
           == IdAfter(u.waypointIds, n + 1, whole.waypoints[k].origin)
    {
      IdsAgree(u, n, whole.waypoints[k].origin);
    }
  }

  lemma {:induction false} NextNamed(geo: Geometry, held: Collection, files: seq<ParsedFile>, d: Decisions, u: Uploads,
                                     shelf: Shelf, n: nat)
    requires n < |files| && Comparable(geo, held, files, d, u, shelf) && AsNamed(geo, held, files, d, u, shelf, n)
    requires UnheardNext(geo, held, files, d, shelf, n)
    ensures AsNamed(geo, held, files, d, u, shelf, n + 1)
  {
    TakesItsTurn(geo, held, files, d, u, shelf, n);
    NextStored(geo, held, files, d, u, shelf, n);
    NextIds(geo, held, files, d, u, shelf, n);
    var (between, on) := OneByOne(geo, held, files, u, shelf, n);
    IsNamed(between, files[n], NextOne(geo, held, files, u, shelf, n), on, AtOnce(geo, held, files, d, n + 1), shelf,
            u, n);
  }

  /** A collection stored so is what is matched by, under the names made up. */
  lemma {:induction false} IsNamed(between: Collection, file: ParsedFile, second: State, on: Shelf, whole: State,
                                   shelf: Shelf, u: Uploads, n: nat)
    requires |whole.tracks| == |second.tracks| && |whole.waypoints| == |second.waypoints|
    requires forall k :: 0 <= k < |whole.tracks| ==>
               && TrackStored(between, [file], second, on, k) == TrackNamed(whole, shelf, k)
               && u.trackIds(n, second.tracks[k].origin) == IdAfter(u.trackIds, n + 1, whole.tracks[k].origin)
    requires forall k :: 0 <= k < |whole.waypoints| ==>
               && WaypointStored(between, [file], second, k) == whole.waypoints[k].content
               && u.waypointIds(n, second.waypoints[k].origin)
                  == IdAfter(u.waypointIds, n + 1, whole.waypoints[k].origin)
    ensures StoredAfter(between, [file], second, on, u.Rows(n)) == NamedCollection(whole, shelf, StoredBy(u, n + 1))
  {
    var one := StoredAfter(between, [file], second, on, u.Rows(n));
    var all := NamedCollection(whole, shelf, StoredBy(u, n + 1));
    assert one.tracks == all.tracks && one.waypoints == all.waypoints;
  }

  ghost predicate UnheardUpTo(geo: Geometry, held: Collection, files: seq<ParsedFile>, d: Decisions, shelf: Shelf,
                              n: nat)
    requires n <= |files|
  {
    forall m: nat :: m < n ==> UnheardNext(geo, held, files, d, shelf, m)
  }

  /** As long as none of the files carries a name made up before it, they go one by one as in one upload. */
  lemma {:induction false} NamedUpTo(geo: Geometry, held: Collection, files: seq<ParsedFile>, d: Decisions, u: Uploads,
                                     shelf: Shelf, n: nat)
    requires n <= |files| && Comparable(geo, held, files, d, u, shelf)
    requires UnheardUpTo(geo, held, files, d, shelf, n)
    ensures AsNamed(geo, held, files, d, u, shelf, n)
  {
    if n == 0 {
      NamedAtFirst(geo, held, files, d, u, shelf);
    } else {
      var m := n - 1;
      assert UnheardNext(geo, held, files, d, shelf, m);
      NamedUpTo(geo, held, files, d, u, shelf, m);
      NextNamed(geo, held, files, d, u, shelf, m);
    }
  }

  // -------------------------------------------------- how many places are given

  function TrackCount(files: seq<ParsedFile>): nat {
    if files == [] then 0 else TrackCount(files[..|files| - 1]) + |files[|files| - 1].tracks|
  }

  /** No track of the files goes by a name made up for one they may add. */
  ghost predicate NoneCarried(files: seq<ParsedFile>, shelf: Shelf) {
    forall place: nat :: shelf.last < place <= shelf.last + TrackCount(files) ==> !Carries(files, shelf.madeUp(place))
  }

  lemma {:induction false} AddedMonotone<C>(entries: seq<Entry<C>>, j: nat, k: nat)
    requires j <= k <= |entries|
    ensures Added(entries, j) <= Added(entries, k)
  {
    if j < k {
      AddedMonotone(entries, j, k - 1);
    }
  }

  lemma {:induction false} FromAddsAtMost<C>(kind: Kind<C>, intake: Intake, items: seq<C>, pairs: Pairs, i: nat,
                                             w: Work<C>)
    requires i <= |items| == |pairs| && PairsWithin(pairs, |w.entries|)
    ensures var after := TakeFrom(kind, intake, items, pairs, i, w).entries;
            Added(after, |after|) <= Added(w.entries, |w.entries|) + |items| - i
    decreases |items| - i
  {
    if i < |items| {
      var one := TakeOne(kind, intake, i, items[i], pairs[i], w);
      AddedSame(w.entries, one.entries, |w.entries|);
      FromAddsAtMost(kind, intake, items, pairs, i + 1, one);
    }
  }

  lemma {:induction false} NextTaken(geo: Geometry, held: Collection, files: seq<ParsedFile>, d: Decisions, n: nat)
    requires n < |files|
    ensures AtOnce(geo, held, files, d, n + 1) == FileTaken(geo, d, n, files[n], AtOnce(geo, held, files, d, n))
  {
    var s := AtOnce(geo, held, files, d, n);
    assert files[..n + 1] == files[..n] + [files[n]] && [files[n]][1..] == [];
    FoldGoesOn(Taking(geo, d), files[..n], [files[n]], Started(held, d));
    assert Fold(Taking(geo, d), n, [files[n]], s) == Taking(geo, d)(n, files[n], s);
  }

  lemma {:induction false} AddedAtMost(geo: Geometry, held: Collection, files: seq<ParsedFile>, d: Decisions, n: nat)
    requires n <= |files|
    ensures var s := AtOnce(geo, held, files, d, n); Added(s.tracks, |s.tracks|) <= TrackCount(files[..n])
  {
    if n == 0 {
      assert AtOnce(geo, held, files, d, 0) == Started(held, d);
      NoneAdded(Started(held, d).tracks, |Started(held, d).tracks|);
    } else {
      var s, items := AtOnce(geo, held, files, d, n - 1), files[n - 1].tracks;
      AddedAtMost(geo, held, files, d, n - 1);
      NextTaken(geo, held, files, d, n - 1);
      PairsOfWithin(TrackKind(geo), items, s.tracks);
      FromAddsAtMost(TrackKind(geo), Intake(n - 1, Unchanged, false, d.tracks), items,
                     PairsOf(TrackKind(geo), items, s.tracks), 0, Work(s.tracks, s.reviewTracks, s.matchedHeld, []));
      assert files[..n][..n - 1] == files[..n - 1] && files[..n][n - 1] == files[n - 1];
    }
  }

  lemma {:induction false} CountMonotone(files: seq<ParsedFile>, n: nat)
    requires n <= |files|
    ensures TrackCount(files[..n]) <= TrackCount(files)
    decreases |files|
  {
    if n == |files| {
      assert files[..n] == files;
    } else {
      assert files[..|files| - 1][..n] == files[..n];
      CountMonotone(files[..|files| - 1], n);
    }
  }

  /** Places are given one by one, no more than there are tracks. */
  lemma {:induction false} PlaceWithin(geo: Geometry, held: Collection, files: seq<ParsedFile>, d: Decisions,
                                       last: nat, n: nat, k: nat)
    requires n <= |files| && k < |AtOnce(geo, held, files, d, n).tracks|
    requires AtOnce(geo, held, files, d, n).tracks[k].origin.File?
    ensures last < Place(AtOnce(geo, held, files, d, n).tracks, last, k) <= last + TrackCount(files)
  {
    var entries := AtOnce(geo, held, files, d, n).tracks;
    AddedMonotone(entries, k + 1, |entries|);
    AddedAtMost(geo, held, files, d, n);
    CountMonotone(files, n);
  }

  lemma {:induction false} AllUnheard(geo: Geometry, held: Collection, files: seq<ParsedFile>, d: Decisions,
                                      shelf: Shelf, n: nat)
    requires n < |files| && NoneCarried(files, shelf)
    ensures UnheardNext(geo, held, files, d, shelf, n)
  {
    var before := AtOnce(geo, held, files, d, n);
    forall k | 0 <= k < |before.tracks| && AddedUnnamed(files[..n], before, k)
      ensures !Carries([files[n]], shelf.madeUp(Place(before.tracks, shelf.last, k)))
    {
      PlaceWithin(geo, held, files, d, shelf.last, n, k);
      CarriedByAll(files, n, shelf.madeUp(Place(before.tracks, shelf.last, k)));
    }
  }

  lemma {:induction false} CarriedByAll(files: seq<ParsedFile>, n: nat, name: string)
    requires n < |files|
    ensures Carries([files[n]], name) ==> Carries(files, name)
  {
    if f: nat, i: nat :| f < 1 && i < |[files[n]][f].tracks| && [files[n]][f].tracks[i].name == Some(name) {
      assert files[n].tracks[i].name == Some(name);
    }
  }

  // ------------------------------------------------------------- the promise

  /**
    Files uploaded one by one, each stored before the next is matched, leave
    at every step just what one upload of them goes by — ids, order and
    contents — with each track added without a name under the one made up for
    its place, if no track of the files goes by such a name.
  */
  lemma {:induction false} OneByOneAsNamed(geo: Geometry, held: Collection, files: seq<ParsedFile>, d: Decisions,
                                           u: Uploads, shelf: Shelf, n: nat)
    requires n <= |files| && Comparable(geo, held, files, d, u, shelf) && NoneCarried(files, shelf)
    ensures AsNamed(geo, held, files, d, u, shelf, n)
  {
    forall m: nat | m < n ensures UnheardNext(geo, held, files, d, shelf, m) {
      AllUnheard(geo, held, files, d, shelf, m);
    }
    NamedUpTo(geo, held, files, d, u, shelf, n);
  }

  /** No name made up is one that a track was added under, so none makes up for one that goes. */
  lemma {:induction false} LosesWhatGoes(geo: Geometry, held: Collection, files: seq<ParsedFile>, d: Decisions,
                                         shelf: Shelf, k: nat)
    requires NoneCarried(files, shelf) && k < |EndState(geo, held, files, d).tracks|
    ensures TrackLoses(files, EndState(geo, held, files, d), shelf, k)
       <==> TrackNameGone(files, EndState(geo, held, files, d), k)
  {
    var whole := EndState(geo, held, files, d);
    assert files[..|files|] == files && AtOnce(geo, held, files, d, |files|) == whole;
    if TrackNameGone(files, whole, k) {
      var o := whole.tracks[k].origin;
      PlaceWithin(geo, held, files, d, shelf.last, |files|, k);
      assert files[o.file].tracks[o.index].name == TrackAt(files)((o.file, o.index)).name;
      assert Carries(files, TrackAt(files)((o.file, o.index)).name.value);
    }
  }

  /**
    So the files end stored as in one upload of all, each track and waypoint,
    exactly unless it was added under a name and an unnamed item of a later
    file took its place last.
  */
  lemma {:induction false} OneByOneIsTogether(geo: Geometry, held: Collection, files: seq<ParsedFile>, d: Decisions,
                                              u: Uploads, shelf: Shelf)
    requires Comparable(geo, held, files, d, u, shelf) && NoneCarried(files, shelf)
    ensures var whole := EndState(geo, held, files, d);
            var c := OneByOne(geo, held, files, u, shelf, |files|).0;
            && |c.tracks| == |whole.tracks| && |c.waypoints| == |whole.waypoints|
            && (forall k :: 0 <= k < |whole.tracks| ==>
                  (c.tracks[k].content == TrackStored(held, files, whole, shelf, k)
                   <==> !TrackNameGone(files, whole, k)))
            && (forall k :: 0 <= k < |whole.waypoints| ==>
                  (c.waypoints[k].content == WaypointStored(held, files, whole, k)
                   <==> !WaypointNameGone(files, whole, k)))
  {
    var whole := EndState(geo, held, files, d);
    assert files[..|files|] == files;
    OneByOneAsNamed(geo, held, files, d, u, shelf, |files|);
    assert IdsApart(OneByOne(geo, held, files, u, shelf, 0).0);
    StoredByName(geo, held, files, d, shelf, whole);
    forall k | 0 <= k < |whole.tracks|
      ensures TrackLoses(files, whole, shelf, k) <==> TrackNameGone(files, whole, k)
    {
      LosesWhatGoes(geo, held, files, d, shelf, k);
    }
  }

  // ------------------------------------------------------ names in the working list

  /** What uploading the first `n` files one by one stored is what one upload of them matches by. */
  ghost predicate AsMatched(geo: Geometry, held: Collection, files: seq<ParsedFile>, d: Decisions, u: Uploads,
                            shelf: Shelf, n: nat)
    requires n <= |files|
  {
    OneByOne(geo, held, files, u, shelf, n).0 == StoredCollection(AtOnce(geo, held, files, d, n), StoredBy(u, n))
  }

  ghost predicate AddedNamed(files: seq<ParsedFile>, s: State) {
    forall k :: 0 <= k < |s.tracks| ==> !AddedUnnamed(files, s, k)
  }

  /** One upload of the first `n` files adds no track unnamed. */
  ghost predicate NamedSoFar(geo: Geometry, held: Collection, files: seq<ParsedFile>, d: Decisions, n: nat)
    requires n <= |files|
  {
    AddedNamed(files[..n], AtOnce(geo, held, files, d, n))
  }

  /** The first `n` files brought in what was there before the next, and that file the rest. */
  lemma {:induction false} OriginsSplit(geo: Geometry, held: Collection, files: seq<ParsedFile>, d: Decisions, n: nat)
    requires n < |files|
    ensures var before, whole := AtOnce(geo, held, files, d, n).tracks, AtOnce(geo, held, files, d, n + 1).tracks;
            && |before| <= |whole|
            && (forall k :: 0 <= k < |before| ==>
                  whole[k].origin == before[k].origin && (whole[k].origin.File? ==> whole[k].origin.file < n))
            && (forall k :: |before| <= k < |whole| ==> whole[k].origin.File? && whole[k].origin.file == n)
  {
    assert files[..n + 1] == files[..n] + [files[n]];
    EndSince(geo, held, files[..n], [files[n]], d);
    EndSourced(geo, held, files[..n], d);
    EndSourced(geo, held, files[..n + 1], d);
  }

  /** Up to the first `n` files, each upload one by one left the collection as one upload matches. */
  ghost predicate AsMatchedUpTo(geo: Geometry, held: Collection, files: seq<ParsedFile>, d: Decisions, u: Uploads,
                                shelf: Shelf, n: nat)
    requires n <= |files|
  {
    forall m: nat :: m <= n ==> AsMatched(geo, held, files, d, u, shelf, m)
  }

  lemma {:induction false} UpToOneMore(geo: Geometry, held: Collection, files: seq<ParsedFile>, d: Decisions,
                                       u: Uploads, shelf: Shelf, n: nat)
    requires n < |files|
    ensures AsMatchedUpTo(geo, held, files, d, u, shelf, n) ==> AsMatched(geo, held, files, d, u, shelf, n)
    ensures AsMatchedUpTo(geo, held, files, d, u, shelf, n + 1)
       <==> AsMatchedUpTo(geo, held, files, d, u, shelf, n) && AsMatched(geo, held, files, d, u, shelf, n + 1)
  {
  }

  lemma {:induction false} NamedBefore(geo: Geometry, held: Collection, files: seq<ParsedFile>, d: Decisions, n: nat)
    requires n < |files| && NamedSoFar(geo, held, files, d, n + 1)
    ensures NamedSoFar(geo, held, files, d, n)
  {
    var before, whole := AtOnce(geo, held, files, d, n), AtOnce(geo, held, files, d, n + 1);
    OriginsSplit(geo, held, files, d, n);
    forall k | 0 <= k < |before.tracks| ensures !AddedUnnamed(files[..n], before, k) {
      assert !AddedUnnamed(files[..n + 1], whole, k);
    }
  }

  /** With no track added unnamed no name is made up, so what goes under names made up is as matched. */
  lemma {:induction false} NamedIsMatched(geo: Geometry, held: Collection, files: seq<ParsedFile>, d: Decisions,
                                          u: Uploads, shelf: Shelf, n: nat)
    requires n <= |files| && Comparable(geo, held, files, d, u, shelf) && AsNamed(geo, held, files, d, u, shelf, n)
    ensures AsMatched(geo, held, files, d, u, shelf, n) <==> NamedSoFar(geo, held, files, d, n)
  {
    var fs, s, c := files[..n], AtOnce(geo, held, files, d, n), OneByOne(geo, held, files, u, shelf, n).0;
    assert IdsApart(OneByOne(geo, held, files, u, shelf, 0).0);
    TracksTold(geo, held, fs, [], d);
    assert fs + [] == fs;
    forall k | 0 <= k < |s.tracks| ensures TrackNamed(s, shelf, k) == s.tracks[k].content <==> !AddedUnnamed(fs, s, k) {
      assert Told(TRACK_NAMING, TrackAt(fs), TrackName(held), s.tracks[k]);
    }
    var plain := StoredCollection(s, StoredBy(u, n));
    forall k | 0 <= k < |s.tracks| ensures c.tracks[k] == plain.tracks[k] <==> !AddedUnnamed(fs, s, k) {
    }
    if NamedSoFar(geo, held, files, d, n) {
      assert c.tracks == plain.tracks;
    }
  }

  lemma {:induction false} NamedUnheard(geo: Geometry, held: Collection, files: seq<ParsedFile>, d: Decisions,
                                        shelf: Shelf, n: nat)
    requires n < |files| && NamedSoFar(geo, held, files, d, n)
    ensures UnheardNext(geo, held, files, d, shelf, n)
  {
  }

  lemma {:induction false} NamedOneLess(geo: Geometry, held: Collection, files: seq<ParsedFile>, d: Decisions, n: nat)
    requires n <= |files| && NamedSoFar(geo, held, files, d, n)
    ensures n > 0 ==> NamedSoFar(geo, held, files, d, n - 1)
  {
    if n > 0 {
      NamedBefore(geo, held, files, d, n - 1);
    }
  }

  lemma {:induction false} NamedUnheardUpTo(geo: Geometry, held: Collection, files: seq<ParsedFile>, d: Decisions,
                                            shelf: Shelf, n: nat)
    requires n <= |files| && (n > 0 ==> NamedSoFar(geo, held, files, d, n - 1))
    ensures UnheardUpTo(geo, held, files, d, shelf, n)
  {
    if n > 0 {
      var m := n - 1;
      NamedUnheard(geo, held, files, d, shelf, m);
      NamedOneLess(geo, held, files, d, m);
      NamedUnheardUpTo(geo, held, files, d, shelf, m);
      UnheardOneMore(geo, held, files, d, shelf, m);
    }
  }

  lemma {:induction false} UnheardOneMore(geo: Geometry, held: Collection, files: seq<ParsedFile>, d: Decisions,
                                          shelf: Shelf, n: nat)
    requires n < |files| && UnheardUpTo(geo, held, files, d, shelf, n) && UnheardNext(geo, held, files, d, shelf, n)
    ensures UnheardUpTo(geo, held, files, d, shelf, n + 1)
  {
  }

  /** After files that added no track unnamed, one more leaves what is matched by exactly if it adds none either. */
  lemma {:induction false} MatchedIsNamed(geo: Geometry, held: Collection, files: seq<ParsedFile>, d: Decisions,
                                          u: Uploads, shelf: Shelf, n: nat)
    requires n <= |files| && Comparable(geo, held, files, d, u, shelf)
    requires n > 0 ==> NamedSoFar(geo, held, files, d, n - 1)
    ensures AsMatched(geo, held, files, d, u, shelf, n) <==> NamedSoFar(geo, held, files, d, n)
  {
    NamedUnheardUpTo(geo, held, files, d, shelf, n);
    NamedUpTo(geo, held, files, d, u, shelf, n);
    NamedIsMatched(geo, held, files, d, u, shelf, n);
  }

  /**
    The uploads one by one leave the very contents that one upload goes by,
    names too, at every step, exactly if that one upload adds no track
    unnamed.
  */
  lemma {:induction false} OneByOneAsMatched(geo: Geometry, held: Collection, files: seq<ParsedFile>, d: Decisions,
                                             u: Uploads, shelf: Shelf, n: nat)
    requires n <= |files| && Comparable(geo, held, files, d, u, shelf)
    ensures AsMatchedUpTo(geo, held, files, d, u, shelf, n) <==> NamedSoFar(geo, held, files, d, n)
  {
    if n == 0 {
      MatchedIsNamed(geo, held, files, d, u, shelf, 0);
    } else {
      var m := n - 1;
      OneByOneAsMatched(geo, held, files, d, u, shelf, m);
      UpToOneMore(geo, held, files, d, u, shelf, m);
      if NamedSoFar(geo, held, files, d, m) {
        MatchedIsNamed(geo, held, files, d, u, shelf, n);
      } else if NamedSoFar(geo, held, files, d, n) {
        NamedBefore(geo, held, files, d, m);
        assert false;
      }
    }
  }
}
