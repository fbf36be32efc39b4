/**
  Files taken in one upload, or in two with what the first leaves stored in
  between (src/server/collection_match.rs, src/server/collection_import/plan.rs):
  what is stored in the end is the same, exactly but for the names that
  storing loses.
*/
module CollectionSequence {
  import opened Wrappers
  import opened Importing
  import opened CollectionMatch
  import opened CollectionOutcome
  import opened CollectionLaws
  import opened CollectionStoring
  import opened CollectionUnseen
  import opened Folds

  // ------------------------------------------------ what later files change

  /** Since `before`, only files from number `first` on added or replaced entries. */
  ghost predicate Since<C>(first: nat, before: seq<Entry<C>>, entries: seq<Entry<C>>) {
    && |before| <= |entries|
    && (forall k :: 0 <= k < |before| ==> entries[k].origin == before[k].origin)
    && (forall k :: 0 <= k < |before| ==>
          || (entries[k].source == before[k].source && entries[k].content == before[k].content)
          || (entries[k].source.Some? && entries[k].source.value.0 >= first))
    && (forall k :: |before| <= k < |entries| ==> entries[k].origin.File? && entries[k].origin.file >= first)
    && (forall k :: |before| <= k < |entries| ==> entries[k].source.Some? && entries[k].source.value.0 >= first)
  }

  lemma {:induction false} FromSince<C>(kind: Kind<C>, intake: Intake, items: seq<C>, pairs: Pairs, i: nat, w: Work<C>,
                                        first: nat, before: seq<Entry<C>>)
    requires i <= |items| == |pairs| && PairsWithin(pairs, |w.entries|)
    requires intake.file >= first && Since(first, before, w.entries)
    ensures Since(first, before, TakeFrom(kind, intake, items, pairs, i, w).entries)
    decreases |items| - i
  {
    if i < |items| {
      FromSince(kind, intake, items, pairs, i + 1, TakeOne(kind, intake, i, items[i], pairs[i], w), first, before);
    }
  }

  lemma {:induction false} AllSince<C>(kind: Kind<C>, intake: Intake, items: seq<C>, w: Work<C>, first: nat,
                                       before: seq<Entry<C>>)
    requires w.results == [] && intake.file >= first && Since(first, before, w.entries)
    ensures Since(first, before, TakeAll(kind, intake, items, w).entries)
  {
    PairsOfWithin(kind, items, w.entries);
    FromSince(kind, intake, items, PairsOf(kind, items, w.entries), 0, w, first, before);
  }

  ghost predicate BothSince(first: nat, before: State, s: State) {
    Since(first, before.tracks, s.tracks) && Since(first, before.waypoints, s.waypoints)
  }

  ghost function StatesSince(first: nat, before: State): (nat, State) -> bool {
    (f: nat, s: State) => f >= first && BothSince(first, before, s)
  }

  lemma {:induction false} FileSince(geo: Geometry, d: Decisions, f: nat, file: ParsedFile, first: nat, before: State,
                                     s: State)
    requires f >= first && BothSince(first, before, s)
    ensures BothSince(first, before, FileTaken(geo, d, f, file, s))
  {
    AllSince(TrackKind(geo), Intake(f, Unchanged, false, d.tracks), file.tracks,
             Work(s.tracks, s.reviewTracks, s.matchedHeld, []), first, before.tracks);
    var w := TracksTaken(geo, d, f, file, s);
    AllSince(WaypointKind(geo), WaypointIntake(f, FileTrack(file, w.results), d.waypoints), file.waypoints,
             Work(s.waypoints, s.reviewWaypoints, w.matchedHeld, []), first, before.waypoints);
  }

  lemma {:induction false} SinceSelf<C>(first: nat, before: seq<Entry<C>>)
    ensures Since(first, before, before)
  {
  }

  lemma {:induction false} FilesSince(geo: Geometry, d: Decisions, first: nat, files: seq<ParsedFile>, before: State)
    ensures BothSince(first, before, Fold(Taking(geo, d), first, files, before))
  {
    forall f: nat, file, s ensures Kept(Taking(geo, d), StatesSince(first, before), f, file, s) {
      if StatesSince(first, before)(f, s) {
        FileSince(geo, d, f, file, first, before, s);
      }
    }
    SinceSelf(first, before.tracks);
    SinceSelf(first, before.waypoints);
    assert BothSince(first, before, before);
    FoldAlwaysKeeps(Taking(geo, d), first, files, before, StatesSince(first, before));
  }

  lemma {:induction false} EndSince(geo: Geometry, held: Collection, fs: seq<ParsedFile>, gs: seq<ParsedFile>,
                                    d: Decisions)
    ensures BothSince(|fs|, EndState(geo, held, fs, d), EndState(geo, held, fs + gs, d))
  {
    FilesSince(geo, d, |fs|, gs, EndState(geo, held, fs, d));
    FoldGoesOn(Taking(geo, d), fs, gs, Started(held, d));
  }

  // ------------------------------------------------------------ their places

  lemma {:induction false} AddedSame<C>(before: seq<Entry<C>>, whole: seq<Entry<C>>, k: nat)
    requires k <= |before| <= |whole|
    requires forall j :: 0 <= j < |before| ==> whole[j].origin == before[j].origin
    ensures Added(whole, k) == Added(before, k)
  {
    if k > 0 {
      AddedSame(before, whole, k - 1);
    }
  }

  lemma {:induction false} NoneAdded<C>(entries: seq<Entry<C>>, k: nat)
    requires k <= |entries| && forall j :: 0 <= j < k ==> entries[j].origin.Held?
    ensures Added(entries, k) == 0
  {
    if k > 0 {
      NoneAdded(entries, k - 1);
    }
  }

  /** Which entries the second upload adds: those of the later files. */
  ghost predicate AddedLater<C>(first: nat, before: seq<Entry<C>>, whole: seq<Entry<C>>, second: seq<Entry<C>>) {
    && |before| <= |whole| == |second|
    && (forall j :: 0 <= j < |before| ==> whole[j].origin == before[j].origin && second[j].origin.Held?)
    && (forall j :: |before| <= j < |whole| ==> whole[j].origin.File? && second[j].origin.File?)
  }

  lemma {:induction false} AddedSplits<C>(first: nat, before: seq<Entry<C>>, whole: seq<Entry<C>>,
                                          second: seq<Entry<C>>, k: nat)
    requires AddedLater(first, before, whole, second) && |before| <= k <= |whole|
    ensures Added(whole, k) == Added(before, |before|) + Added(second, k)
  {
    if k == |before| {
      AddedSame(before, whole, k);
      NoneAdded(second, k);
    } else {
      AddedSplits(first, before, whole, second, k - 1);
    }
  }

  /** The places of what the later files add are the same in either. */
  lemma {:induction false} PlacesAgree<C>(first: nat, before: seq<Entry<C>>, whole: seq<Entry<C>>,
                                          second: seq<Entry<C>>, last: nat, k: nat)
    requires AddedLater(first, before, whole, second) && k < |whole|
    ensures k >= |before| ==> Place(second, last + Added(before, |before|), k) == Place(whole, last, k)
    ensures k < |before| ==> Place(whole, last, k) == Place(before, last, k)
  {
    if k >= |before| {
      AddedSplits(first, before, whole, second, k + 1);
    } else {
      AddedSame(before, whole, k + 1);
    }
  }

  // ---------------------------------------------------------- entry by entry

  /** Every file item behind an entry is of one of the first files. */
  ghost predicate Behind<C>(first: nat, e: Entry<C>) {
    && (e.origin.File? ==> e.origin.file < first && e.source.Some?)
    && (e.source.Some? ==> e.source.value.0 < first)
  }

  /** What an entry is matched by, an added one without a name under the one made up for its place. */
  function Named<C>(naming: Naming<C>, spare: Spare, e: Entry<C>, place: nat): C {
    if e.origin.File? && naming.name(e.content).None? then naming.renamed(e.content, spare(place)) else e.content
  }

  /** Added under a name, an entry an unnamed item took the place of last. */
  predicate NameGone<C>(naming: Naming<C>, at: ItemKey -> C, e: Entry<C>) {
    && e.origin.File? && naming.name(at((e.origin.file, e.origin.index))).Some?
    && e.source.Some? && naming.name(at(e.source.value)).None?
  }

  /** Storing loses its name: none is made up that happens to be the same. */
  predicate Loses<C>(naming: Naming<C>, at: ItemKey -> C, spare: Spare, e: Entry<C>, place: nat) {
    NameGone(naming, at, e) && spare(place) != naming.name(at((e.origin.file, e.origin.index)))
  }

  /** An entry is stored as it is matched, or under the name made up for it, exactly unless storing loses its name. */
  lemma {:induction false} StoredNamed<C(!new)>(naming: Naming<C>, at: ItemKey -> C, heldName: int -> Option<string>,
                                                spare: Spare, e: Entry<C>, place: nat)
    requires Names(naming) && Told(naming, at, heldName, e)
    ensures StoredAs(naming, at, heldName, spare, e, place) == Named(naming, spare, e, place)
       <==> !Loses(naming, at, spare, e, place)
  {
    if e.source.Some? {
      var item := at(e.source.value);
      var other := match e.origin case Held(id) => heldName(id) case File(_, _) => spare(place);
      assert naming.name(StoredAs(naming, at, heldName, spare, e, place)) == NameOr(naming.name(item), other);
    }
  }

  /** What is stored of an entry, once in one upload and once in two. */
  datatype Storings<!C> = Storings(
    naming: Naming<C>,
    at: ItemKey -> C,
    heldName: int -> Option<string>,
    spare: Spare,
    later: Later,
    heldNameLater: int -> Option<string>)
  {
    function AtLater(): ItemKey -> C {
      (key: ItemKey) => at((key.0 + later.first, key.1))
    }

    function Whole(e: Entry<C>, place: nat): C {
      StoredAs(naming, at, heldName, spare, e, place)
    }

    function Second(e: Entry<C>, place: nat): C {
      StoredAs(naming, AtLater(), heldNameLater, spare, e, place)
    }
  }

  /** An entry the later files added is stored alike. */
  lemma {:induction false} LaterStoredAlike<C(!new)>(st: Storings<C>, whole: Entry<C>, second: Entry<C>, place: nat)
    requires whole.origin.File? && whole.origin.file >= st.later.first
    requires whole.source.Some? && whole.source.value.0 >= st.later.first
    requires second.origin == st.later.Of(whole.origin) && second.source == st.later.OfSource(whole.source)
    ensures st.Second(second, place) == st.Whole(whole, place)
  {
    var key := whole.source.value;
    assert second.source == Some((key.0 - st.later.first, key.1));
    assert st.AtLater()(second.source.value) == st.at(key);
  }

  /** What the first upload left of an entry, by the name it is held under then. */
  ghost predicate LeftAs<C>(st: Storings<C>, before: Entry<C>, place: nat) {
    st.heldNameLater(st.later.ids(before.origin)) == st.naming.name(Named(st.naming, st.spare, before, place))
  }

  /** The second upload's view of an entry: where it comes from, and what is held of one the later files left alone. */
  ghost predicate SeenLater<C>(st: Storings<C>, before: Entry<C>, whole: Entry<C>, second: Entry<C>, place: nat) {
    && second.origin == st.later.Of(whole.origin) && second.source == st.later.OfSource(whole.source)
    && (second.source.None? ==> second.content == Named(st.naming, st.spare, before, place))
  }

  /** The later files added nothing here: they left the entry alone, or replaced it. */
  ghost predicate WasThere<C>(st: Storings<C>, before: Entry<C>, whole: Entry<C>) {
    && Behind(st.later.first, before) && whole.origin == before.origin
    && ((whole.source == before.source && whole.content == before.content)
        || (whole.source.Some? && whole.source.value.0 >= st.later.first))
  }

  /** The second upload stores an entry that was there by the name one upload of all matches it by, or makes up. */
  lemma {:induction false} StoredAsNamed<C(!new)>(st: Storings<C>, before: Entry<C>, whole: Entry<C>, second: Entry<C>,
                                                 place: nat, placeLater: nat)
    requires Names(st.naming) && WasThere(st, before, whole)
    requires Told(st.naming, st.at, st.heldName, before) && Told(st.naming, st.at, st.heldName, whole)
    requires LeftAs(st, before, place) && SeenLater(st, before, whole, second, place)
    ensures st.Second(second, placeLater) == Named(st.naming, st.spare, whole, place)
  {
    if second.source.Some? {
      var key := whole.source.value;
      assert second.origin == Held(st.later.ids(before.origin));
      assert second.source == Some((key.0 - st.later.first, key.1));
      assert st.AtLater()(second.source.value) == st.at(key);
      assert st.naming.name(whole.content) == st.naming.name(before.content);
    } else {
      assert whole.source == before.source;
    }
  }

  ghost predicate BothTold<C>(st: Storings<C>, before: seq<Entry<C>>, whole: seq<Entry<C>>) {
    && AllTold(st.naming, st.at, st.heldName, before) && AllTold(st.naming, st.at, st.heldName, whole)
    && forall k :: 0 <= k < |before| ==> Behind(st.later.first, before[k])
  }

  ghost predicate AllLeft<C>(st: Storings<C>, before: seq<Entry<C>>, last: nat) {
    forall k :: 0 <= k < |before| ==> LeftAs(st, before[k], Place(before, last, k))
  }

  /** What the second upload ends in, seen from the one upload of all. */
  ghost predicate SeenFrom<C>(later: Later, whole: seq<Entry<C>>, second: seq<Entry<C>>) {
    && |whole| == |second|
    && forall k :: 0 <= k < |whole| ==> second[k].origin == later.Of(whole[k].origin)
                                         && second[k].source == later.OfSource(whole[k].source)
  }

  /** What the first upload left the second one has as it was left, unless it was replaced. */
  ghost predicate Alone<C>(st: Storings<C>, before: seq<Entry<C>>, second: seq<Entry<C>>, last: nat) {
    && |before| <= |second|
    && forall k :: 0 <= k < |before| && second[k].source.None? ==>
         second[k].content == Named(st.naming, st.spare, before[k], Place(before, last, k))
  }

  /** What the two uploads come to, for one kind. */
  ghost predicate TwoUploads<C(!new)>(st: Storings<C>, before: seq<Entry<C>>, whole: seq<Entry<C>>,
                                      second: seq<Entry<C>>, last: nat)
  {
    && Names(st.naming) && Since(st.later.first, before, whole) && BothTold(st, before, whole)
    && AllLeft(st, before, last) && SeenFrom(st.later, whole, second) && Alone(st, before, second, last)
  }

  lemma {:induction false} AddedLaterOf<C(!new)>(st: Storings<C>, before: seq<Entry<C>>, whole: seq<Entry<C>>,
                                                 second: seq<Entry<C>>, last: nat)
    requires TwoUploads(st, before, whole, second, last)
    ensures AddedLater(st.later.first, before, whole, second)
  {
    forall j | 0 <= j < |before| ensures second[j].origin.Held? {
      assert Behind(st.later.first, before[j]);
    }
  }

  /** In two uploads an entry that was there is stored under its name; one that was not, as in one upload. */
  ghost predicate StoredLater<C>(st: Storings<C>, before: seq<Entry<C>>, whole: seq<Entry<C>>, second: seq<Entry<C>>,
                                 last: nat, lastLater: nat, k: nat)
    requires k < |whole| == |second|
  {
    st.Second(second[k], Place(second, lastLater, k))
    == if k < |before| then Named(st.naming, st.spare, whole[k], Place(whole, last, k))
       else st.Whole(whole[k], Place(whole, last, k))
  }

  lemma {:induction false} StoredLaterOne<C(!new)>(st: Storings<C>, before: seq<Entry<C>>, whole: seq<Entry<C>>,
                                                  second: seq<Entry<C>>, last: nat, lastLater: nat, k: nat)
    requires TwoUploads(st, before, whole, second, last) && k < |whole|
    requires k >= |before| ==> st.spare(Place(second, lastLater, k)) == st.spare(Place(whole, last, k))
    requires k < |before| ==> Place(whole, last, k) == Place(before, last, k)
    ensures StoredLater(st, before, whole, second, last, lastLater, k)
  {
    var place, placeLater := Place(whole, last, k), Place(second, lastLater, k);
    if k < |before| {
      assert WasThere(st, before[k], whole[k]);
      StoredAsNamed(st, before[k], whole[k], second[k], place, placeLater);
    } else {
      LaterStoredAlike(st, whole[k], second[k], place);
    }
  }

  lemma {:induction false} AllStoredLater<C(!new)>(st: Storings<C>, before: seq<Entry<C>>, whole: seq<Entry<C>>,
                                                  second: seq<Entry<C>>, last: nat, lastLater: nat)
    requires TwoUploads(st, before, whole, second, last)
    requires lastLater == last + Added(before, |before|) || st.spare == NoSpare()
    ensures Added(whole, |whole|) == Added(before, |before|) + Added(second, |second|)
    ensures forall k :: 0 <= k < |whole| ==> StoredLater(st, before, whole, second, last, lastLater, k)
  {
    AddedLaterOf(st, before, whole, second, last);
    AddedSplits(st.later.first, before, whole, second, |whole|);
    forall k | 0 <= k < |whole| ensures StoredLater(st, before, whole, second, last, lastLater, k) {
      PlacesAgree(st.later.first, before, whole, second, last, k);
      StoredLaterOne(st, before, whole, second, last, lastLater, k);
    }
  }

  // -------------------------------------------------------- the two uploads

  /** What a collection holds once an upload is stored; without removals, every entry. */
  function StoredAfter(held: Collection, files: seq<ParsedFile>, s: State, shelf: Shelf, stored: Stored): Collection {
    Collection(seq(|s.tracks|, k requires 0 <= k < |s.tracks| =>
                 HeldItem(stored.trackIds(s.tracks[k].origin), TrackStored(held, files, s, shelf, k))),
               seq(|s.waypoints|, k requires 0 <= k < |s.waypoints| =>
                 HeldItem(stored.waypointIds(s.waypoints[k].origin), WaypointStored(held, files, s, k))))
  }

  /** Storing an upload's end state renames nothing. */
  ghost predicate RenamesNone(files: seq<ParsedFile>, s: State, shelf: Shelf) {
    && (forall k :: 0 <= k < |s.tracks| ==> !TrackRenamed(files, s, shelf, k))
    && (forall k :: 0 <= k < |s.waypoints| ==> !WaypointRenamed(files, s, k))
  }

  /** The shelf after an upload: the tracks added went behind the last one. */
  function ShelfAfter(shelf: Shelf, s: State): Shelf {
    shelf.(last := shelf.last + Added(s.tracks, |s.tracks|))
  }

  ghost predicate IdsApart(c: Collection) {
    IdsDistinct(c.tracks) && IdsDistinct(c.waypoints)
  }

  function TrackNamed(s: State, shelf: Shelf, k: nat): TrackItem
    requires k < |s.tracks|
  {
    Named(TRACK_NAMING, Numbering(shelf.madeUp), s.tracks[k], Place(s.tracks, shelf.last, k))
  }

  /** What a collection holds that stores what it is matched by, with a name made up where a track has none. */
  function NamedCollection(s: State, shelf: Shelf, stored: Stored): Collection {
    Collection(seq(|s.tracks|, k requires 0 <= k < |s.tracks| =>
                 HeldItem(stored.trackIds(s.tracks[k].origin), TrackNamed(s, shelf, k))),
               StoredEntries(s.waypoints, stored.waypointIds))
  }

  /** A track was added under a name, and an unnamed item took its place last. */
  predicate TrackNameGone(files: seq<ParsedFile>, s: State, k: nat)
    requires k < |s.tracks|
  {
    NameGone(TRACK_NAMING, TrackAt(files), s.tracks[k])
  }

  predicate WaypointNameGone(files: seq<ParsedFile>, s: State, k: nat)
    requires k < |s.waypoints|
  {
    NameGone(WAYPOINT_NAMING, WaypointAt(files), s.waypoints[k])
  }

  predicate TrackLoses(files: seq<ParsedFile>, s: State, shelf: Shelf, k: nat)
    requires k < |s.tracks|
  {
    Loses(TRACK_NAMING, TrackAt(files), Numbering(shelf.madeUp), s.tracks[k], Place(s.tracks, shelf.last, k))
  }

  /** Storing an upload's end state loses no name. */
  ghost predicate LosesNone(files: seq<ParsedFile>, s: State, shelf: Shelf) {
    && (forall k :: 0 <= k < |s.tracks| ==> !TrackLoses(files, s, shelf, k))
    && (forall k :: 0 <= k < |s.waypoints| ==> !WaypointNameGone(files, s, k))
  }

  lemma {:induction false} WaypointNamed(e: Entry<WaypointItem>, place: nat)
    ensures Named(WAYPOINT_NAMING, NoSpare(), e, place) == e.content
  {
  }

  /** What is stored, by what it is matched by. */
  lemma {:induction false} StoredByName(geo: Geometry, held: Collection, files: seq<ParsedFile>, d: Decisions,
                                        shelf: Shelf, s: State)
    requires IdsApart(held) && s == EndState(geo, held, files, d)
    ensures forall k :: 0 <= k < |s.tracks| ==>
              (TrackStored(held, files, s, shelf, k) == TrackNamed(s, shelf, k) <==> !TrackLoses(files, s, shelf, k))
    ensures forall k :: 0 <= k < |s.waypoints| ==>
              (WaypointStored(held, files, s, k) == s.waypoints[k].content <==> !WaypointNameGone(files, s, k))
  {
    EndsTold(geo, held, files, [], d);
    assert files + [] == files;
    NamesItems();
    forall k | 0 <= k < |s.tracks|
      ensures TrackStored(held, files, s, shelf, k) == TrackNamed(s, shelf, k) <==> !TrackLoses(files, s, shelf, k)
    {
      StoredNamed(TRACK_NAMING, TrackAt(files), TrackName(held), Numbering(shelf.madeUp), s.tracks[k],
                  Place(s.tracks, shelf.last, k));
    }
    forall k | 0 <= k < |s.waypoints|
      ensures WaypointStored(held, files, s, k) == s.waypoints[k].content <==> !WaypointNameGone(files, s, k)
    {
      StoredNamed(WAYPOINT_NAMING, WaypointAt(files), WaypointName(held), NoSpare(), s.waypoints[k],
                  Place(s.waypoints, 0, k));
      WaypointNamed(s.waypoints[k], Place(s.waypoints, 0, k));
    }
  }

  /** Where storing loses no name, what is stored is what is matched by, with names made up. */
  lemma {:induction false} StoredIsNamed(geo: Geometry, held: Collection, files: seq<ParsedFile>, d: Decisions,
                                         shelf: Shelf, stored: Stored)
    requires IdsApart(held) && LosesNone(files, EndState(geo, held, files, d), shelf)
    ensures var s := EndState(geo, held, files, d);
            StoredAfter(held, files, s, shelf, stored) == NamedCollection(s, shelf, stored)
  {
    StoredByName(geo, held, files, d, shelf, EndState(geo, held, files, d));
  }

  lemma {:induction false} AllBehind<C>(naming: Naming<C>, at: ItemKey -> C, heldName: int -> Option<string>,
                                        first: nat, entries: seq<Entry<C>>)
    requires Sourced(first, entries) && AllTold(naming, at, heldName, entries)
    ensures forall k :: 0 <= k < |entries| ==> Behind(first, entries[k])
  {
    forall k | 0 <= k < |entries| ensures Behind(first, entries[k]) {
      assert Told(naming, at, heldName, entries[k]);
    }
  }

  lemma {:induction false} SameAt<C>(st: Storings<C>, at: ItemKey -> C, e: Entry<C>, place: nat)
    requires forall key: ItemKey :: at(key) == st.AtLater()(key)
    ensures st.Second(e, place) == StoredAs(st.naming, at, st.heldNameLater, st.spare, e, place)
  {
  }

  lemma {:induction false} NamesItems()
    ensures Names(TRACK_NAMING) && Names(WAYPOINT_NAMING)
  {
  }

  lemma {:induction false} LaterItems(fs: seq<ParsedFile>, gs: seq<ParsedFile>)
    ensures forall key: ItemKey :: TrackAt(gs)(key) == TrackAt(fs + gs)((key.0 + |fs|, key.1))
    ensures forall key: ItemKey :: WaypointAt(gs)(key) == WaypointAt(fs + gs)((key.0 + |fs|, key.1))
  {
  }

  function TrackStorings(held: Collection, files: seq<ParsedFile>, shelf: Shelf, stored: Stored, between: Collection)
    : Storings<TrackItem>
  {
    Storings(TRACK_NAMING, TrackAt(files), TrackName(held), Numbering(shelf.madeUp), stored.Tracks(),
             TrackName(between))
  }

  function WaypointStorings(held: Collection, files: seq<ParsedFile>, stored: Stored, between: Collection)
    : Storings<WaypointItem>
  {
    Storings(WAYPOINT_NAMING, WaypointAt(files), WaypointName(held), NoSpare(), stored.Waypoints(),
             WaypointName(between))
  }

  lemma {:induction false} TracksTold(geo: Geometry, held: Collection, fs: seq<ParsedFile>, gs: seq<ParsedFile>,
                                       d: Decisions)
    requires IdsApart(held)
    ensures var before := EndState(geo, held, fs, d).tracks;
            && AllTold(TRACK_NAMING, TrackAt(fs + gs), TrackName(held), before)
            && forall k :: 0 <= k < |before| ==> Behind(|fs|, before[k])
  {
    EndsTold(geo, held, fs, gs, d);
    EndSourced(geo, held, fs, d);
    AllBehind(TRACK_NAMING, TrackAt(fs + gs), TrackName(held), |fs|, EndState(geo, held, fs, d).tracks);
  }

  lemma {:induction false} WaypointsTold(geo: Geometry, held: Collection, fs: seq<ParsedFile>, gs: seq<ParsedFile>,
                                       d: Decisions)
    requires IdsApart(held)
    ensures var before := EndState(geo, held, fs, d).waypoints;
            && AllTold(WAYPOINT_NAMING, WaypointAt(fs + gs), WaypointName(held), before)
            && forall k :: 0 <= k < |before| ==> Behind(|fs|, before[k])
  {
    EndsTold(geo, held, fs, gs, d);
    EndSourced(geo, held, fs, d);
    AllBehind(WAYPOINT_NAMING, WaypointAt(fs + gs), WaypointName(held), |fs|, EndState(geo, held, fs, d).waypoints);
  }

  lemma {:induction false} SidesAlike(geo: Geometry, held: Collection, fs: seq<ParsedFile>, gs: seq<ParsedFile>,
                                      d: Decisions, e: Decisions, stored: Stored, before: State, between: Collection)
    requires stored.first == |fs| && !e.replaceAll && SameDecisions(|fs|, d, e)
    requires before == EndState(geo, held, fs, d) && between == StoredCollection(before, stored)
    ensures var whole, second := EndState(geo, held, fs + gs, d), EndState(geo, between, gs, e);
            && AllAlike(stored.Tracks(), stored.Tracks(), before.tracks, whole.tracks, second.tracks)
            && AllAlike(stored.Waypoints(), stored.Tracks(), before.waypoints, whole.waypoints, second.waypoints)
  {
    EndStatesSideBySide(geo, held, fs, gs, d, e, stored);
  }

  // ------------------------------------------- matched under the names made up

  /** The item that brought track `k` in has no name. */
  predicate AddedUnnamed(files: seq<ParsedFile>, s: State, k: nat)
    requires k < |s.tracks|
  {
    var o := s.tracks[k].origin;
    o.File? && TrackAt(files)((o.file, o.index)).name.None?
  }

  /** No track of the later files goes by a name made up for one that the first files brought in. */
  ghost predicate Unheard(fs: seq<ParsedFile>, before: State, shelf: Shelf, gs: seq<ParsedFile>) {
    forall k :: 0 <= k < |before.tracks| && AddedUnnamed(fs, before, k)
                ==> !Carries(gs, shelf.madeUp(Place(before.tracks, shelf.last, k)))
  }

  /** A first upload of `fs`, and one of `gs` to what it leaves, its tracks under the names made up. */
  ghost predicate InTurn(geo: Geometry, held: Collection, fs: seq<ParsedFile>, gs: seq<ParsedFile>, d: Decisions,
                         e: Decisions, shelf: Shelf, stored: Stored, between: Collection)
  {
    var before := EndState(geo, held, fs, d);
    && stored.first == |fs| && !e.replaceAll && SameDecisions(|fs|, d, e) && Unheard(fs, before, shelf, gs)
    && IdsApart(held) && IdsApart(between) && between == NamedCollection(before, shelf, stored)
  }

  /** It is all the same to the later files whether those tracks are under no name yet. */
  lemma {:induction false} NamesUnseen(geo: Geometry, held: Collection, fs: seq<ParsedFile>, gs: seq<ParsedFile>,
                                       d: Decisions, e: Decisions, shelf: Shelf, stored: Stored, between: Collection)
    requires InTurn(geo, held, fs, gs, d, e, shelf, stored, between)
    ensures StatesUnseen([], EndState(geo, StoredCollection(EndState(geo, held, fs, d), stored), gs, e),
                         EndState(geo, between, gs, e))
  {
    var before := EndState(geo, held, fs, d);
    var plain := StoredCollection(before, stored);
    TracksTold(geo, held, fs, [], d);
    assert fs + [] == fs;
    forall k | 0 <= k < |before.tracks|
      ensures NamedUnseen(gs, plain.tracks[k].content, between.tracks[k].content)
    {
      var entry := before.tracks[k];
      assert Told(TRACK_NAMING, TrackAt(fs), TrackName(held), entry);
      assert plain.tracks[k].content == entry.content && between.tracks[k].content == TrackNamed(before, shelf, k);
      assert entry.origin.File? ==> entry.content.name == TrackAt(fs)((entry.origin.file, entry.origin.index)).name;
      assert AddedUnnamed(fs, before, k) ==> !Carries(gs, shelf.madeUp(Place(before.tracks, shelf.last, k)));
    }
    UnseenNames(geo, gs, e, plain, between);
  }

  lemma {:induction false} SeenAlike<C>(later: Later, tracks: Later, before: seq<Entry<C>>, whole: seq<Entry<C>>,
                                        second: seq<Entry<C>>)
    requires AllAlike(later, tracks, before, whole, second)
    ensures SeenFrom(later, whole, second)
    ensures forall k :: 0 <= k < |whole| ==> second[k].content == whole[k].content
  {
    forall k | 0 <= k < |whole|
      ensures second[k].content == whole[k].content && second[k].origin == later.Of(whole[k].origin)
      ensures second[k].source == later.OfSource(whole[k].source)
    {
      assert Alike(later, tracks, if k < |before| then Some(before[k].track) else None, whole[k], second[k]);
    }
  }

  lemma {:induction false} SidesSeen(geo: Geometry, held: Collection, fs: seq<ParsedFile>, gs: seq<ParsedFile>,
                                     d: Decisions, e: Decisions, shelf: Shelf, stored: Stored, between: Collection)
    requires InTurn(geo, held, fs, gs, d, e, shelf, stored, between)
    ensures var whole, second := EndState(geo, held, fs + gs, d), EndState(geo, between, gs, e);
            && SeenFrom(stored.Tracks(), whole.tracks, second.tracks)
            && SeenFrom(stored.Waypoints(), whole.waypoints, second.waypoints)
            && (forall k :: 0 <= k < |whole.waypoints| ==> second.waypoints[k].content == whole.waypoints[k].content)
  {
    var before, whole := EndState(geo, held, fs, d), EndState(geo, held, fs + gs, d);
    var plain, second := EndState(geo, StoredCollection(before, stored), gs, e), EndState(geo, between, gs, e);
    SidesAlike(geo, held, fs, gs, d, e, stored, before, StoredCollection(before, stored));
    SeenAlike(stored.Tracks(), stored.Tracks(), before.tracks, whole.tracks, plain.tracks);
    SeenAlike(stored.Waypoints(), stored.Tracks(), before.waypoints, whole.waypoints, plain.waypoints);
    NamesUnseen(geo, held, fs, gs, d, e, shelf, stored, between);
    forall k | 0 <= k < |whole.tracks|
      ensures second.tracks[k].origin == stored.Tracks().Of(whole.tracks[k].origin)
      ensures second.tracks[k].source == stored.Tracks().OfSource(whole.tracks[k].source)
    {
      assert EntryUnseen([], plain.tracks[k], second.tracks[k]);
    }
  }

  /** What the first upload left, the later files have as it stands unless they replaced it. */
  lemma {:induction false} LeftAlone(geo: Geometry, held: Collection, files: seq<ParsedFile>, e: Decisions)
    requires !e.replaceAll
    ensures var s := EndState(geo, held, files, e);
            && |held.tracks| <= |s.tracks| && |held.waypoints| <= |s.waypoints|
            && (forall k :: 0 <= k < |held.tracks| ==>
                  (s.tracks[k].source.None? ==> s.tracks[k].content == held.tracks[k].content))
            && (forall k :: 0 <= k < |held.waypoints| ==>
                  (s.waypoints[k].source.None? ==> s.waypoints[k].content == held.waypoints[k].content))
  {
    FilesSince(geo, e, 0, files, Started(held, e));
  }

  lemma {:induction false} AllLeftAs<C>(st: Storings<C>, items: seq<HeldItem<C>>, before: seq<Entry<C>>, last: nat)
    requires IdsDistinct(items) && |items| == |before|
    requires forall k :: 0 <= k < |before| ==> items[k].id == st.later.ids(before[k].origin)
    requires forall k :: 0 <= k < |before| ==>
               items[k].content == Named(st.naming, st.spare, before[k], Place(before, last, k))
    requires forall id :: st.heldNameLater(id) == HeldName(st.naming, items, id)
    ensures AllLeft(st, before, last)
  {
    forall k | 0 <= k < |before| ensures LeftAs(st, before[k], Place(before, last, k)) {
      HeldNameIs(st.naming, items, k);
    }
  }

  lemma {:induction false} TracksBothTold(geo: Geometry, held: Collection, fs: seq<ParsedFile>, gs: seq<ParsedFile>,
                                          d: Decisions, shelf: Shelf, stored: Stored, between: Collection)
    requires IdsApart(held) && stored.first == |fs|
    ensures BothTold(TrackStorings(held, fs + gs, shelf, stored, between), EndState(geo, held, fs, d).tracks,
                     EndState(geo, held, fs + gs, d).tracks)
  {
    TracksTold(geo, held, fs, gs, d);
    TracksTold(geo, held, fs + gs, [], d);
    assert fs + gs + [] == fs + gs;
  }

  lemma {:induction false} WaypointsBothTold(geo: Geometry, held: Collection, fs: seq<ParsedFile>, gs: seq<ParsedFile>,
                                             d: Decisions, stored: Stored, between: Collection)
    requires IdsApart(held) && stored.first == |fs|
    ensures BothTold(WaypointStorings(held, fs + gs, stored, between), EndState(geo, held, fs, d).waypoints,
                     EndState(geo, held, fs + gs, d).waypoints)
  {
    WaypointsTold(geo, held, fs, gs, d);
    WaypointsTold(geo, held, fs + gs, [], d);
    assert fs + gs + [] == fs + gs;
  }

  lemma {:induction false} TracksLeft(held: Collection, files: seq<ParsedFile>, shelf: Shelf, stored: Stored,
                                      before: State, between: Collection)
    requires between == NamedCollection(before, shelf, stored) && IdsApart(between)
    ensures AllLeft(TrackStorings(held, files, shelf, stored, between), before.tracks, shelf.last)
  {
    AllLeftAs(TrackStorings(held, files, shelf, stored, between), between.tracks, before.tracks, shelf.last);
  }

  lemma {:induction false} WaypointsLeft(held: Collection, files: seq<ParsedFile>, shelf: Shelf, stored: Stored,
                                         before: State, between: Collection)
    requires between == NamedCollection(before, shelf, stored) && IdsApart(between)
    ensures AllLeft(WaypointStorings(held, files, stored, between), before.waypoints, 0)
  {
    forall k | 0 <= k < |before.waypoints|
      ensures Named(WAYPOINT_NAMING, NoSpare(), before.waypoints[k], Place(before.waypoints, 0, k))
           == before.waypoints[k].content
    {
      WaypointNamed(before.waypoints[k], Place(before.waypoints, 0, k));
    }
    AllLeftAs(WaypointStorings(held, files, stored, between), between.waypoints, before.waypoints, 0);
  }

  lemma {:induction false} BothAlone(geo: Geometry, held: Collection, files: seq<ParsedFile>, gs: seq<ParsedFile>,
                                     e: Decisions, shelf: Shelf, stored: Stored, before: State, between: Collection)
    requires !e.replaceAll && between == NamedCollection(before, shelf, stored)
    ensures var second := EndState(geo, between, gs, e);
            && Alone(TrackStorings(held, files, shelf, stored, between), before.tracks, second.tracks, shelf.last)
            && Alone(WaypointStorings(held, files, stored, between), before.waypoints, second.waypoints, 0)
  {
    var second := EndState(geo, between, gs, e);
    LeftAlone(geo, between, gs, e);
    forall k | 0 <= k < |before.waypoints|
      ensures Named(WAYPOINT_NAMING, NoSpare(), before.waypoints[k], Place(before.waypoints, 0, k))
           == before.waypoints[k].content
    {
      WaypointNamed(before.waypoints[k], Place(before.waypoints, 0, k));
    }
    forall k | 0 <= k < |before.tracks| && second.tracks[k].source.None?
      ensures second.tracks[k].content == TrackNamed(before, shelf, k)
    {
      assert between.tracks[k].content == TrackNamed(before, shelf, k);
    }
    forall k | 0 <= k < |before.waypoints| && second.waypoints[k].source.None?
      ensures second.waypoints[k].content == before.waypoints[k].content
    {
      assert between.waypoints[k].content == before.waypoints[k].content;
    }
  }

  lemma {:induction false} TracksInTurn(geo: Geometry, held: Collection, fs: seq<ParsedFile>, gs: seq<ParsedFile>,
                                        d: Decisions, e: Decisions, shelf: Shelf, stored: Stored, between: Collection)
    requires InTurn(geo, held, fs, gs, d, e, shelf, stored, between)
    ensures TwoUploads(TrackStorings(held, fs + gs, shelf, stored, between), EndState(geo, held, fs, d).tracks,
                       EndState(geo, held, fs + gs, d).tracks, EndState(geo, between, gs, e).tracks, shelf.last)
  {
    var before := EndState(geo, held, fs, d);
    NamesItems();
    EndSince(geo, held, fs, gs, d);
    TracksBothTold(geo, held, fs, gs, d, shelf, stored, between);
    TracksLeft(held, fs + gs, shelf, stored, before, between);
    SidesSeen(geo, held, fs, gs, d, e, shelf, stored, between);
    BothAlone(geo, held, fs + gs, gs, e, shelf, stored, before, between);
  }

  lemma {:induction false} WaypointsInTurn(geo: Geometry, held: Collection, fs: seq<ParsedFile>, gs: seq<ParsedFile>,
                                           d: Decisions, e: Decisions, shelf: Shelf, stored: Stored,
                                           between: Collection)
    requires InTurn(geo, held, fs, gs, d, e, shelf, stored, between)
    ensures TwoUploads(WaypointStorings(held, fs + gs, stored, between), EndState(geo, held, fs, d).waypoints,
                       EndState(geo, held, fs + gs, d).waypoints, EndState(geo, between, gs, e).waypoints, 0)
  {
    var before := EndState(geo, held, fs, d);
    NamesItems();
    EndSince(geo, held, fs, gs, d);
    WaypointsBothTold(geo, held, fs, gs, d, stored, between);
    WaypointsLeft(held, fs + gs, shelf, stored, before, between);
    SidesSeen(geo, held, fs, gs, d, e, shelf, stored, between);
    BothAlone(geo, held, fs + gs, gs, e, shelf, stored, before, between);
  }

  /** What the second upload stores of each track. */
  ghost predicate TracksLater(held: Collection, files: seq<ParsedFile>, before: State, whole: State, shelf: Shelf,
                              between: Collection, gs: seq<ParsedFile>, second: State, next: Shelf)
  {
    && |before.tracks| <= |whole.tracks| == |second.tracks| && ShelfAfter(next, second) == ShelfAfter(shelf, whole)
    && forall k :: 0 <= k < |whole.tracks| ==>
         TrackStored(between, gs, second, next, k)
         == if k < |before.tracks| then TrackNamed(whole, shelf, k) else TrackStored(held, files, whole, shelf, k)
  }

  /** What the second upload stores of each waypoint. */
  ghost predicate WaypointsLater(held: Collection, files: seq<ParsedFile>, before: State, whole: State,
                                 between: Collection, gs: seq<ParsedFile>, second: State)
  {
    && |before.waypoints| <= |whole.waypoints| == |second.waypoints|
    && forall k :: 0 <= k < |whole.waypoints| ==>
         WaypointStored(between, gs, second, k)
         == if k < |before.waypoints| then whole.waypoints[k].content else WaypointStored(held, files, whole, k)
  }

  lemma {:induction false} TracksOfTwo(held: Collection, fs: seq<ParsedFile>, gs: seq<ParsedFile>, before: State,
                                       whole: State, shelf: Shelf, stored: Stored, between: Collection, second: State)
    requires stored.first == |fs|
    requires TwoUploads(TrackStorings(held, fs + gs, shelf, stored, between), before.tracks, whole.tracks,
                        second.tracks, shelf.last)
    ensures TracksLater(held, fs + gs, before, whole, shelf, between, gs, second, ShelfAfter(shelf, before))
  {
    var st, next := TrackStorings(held, fs + gs, shelf, stored, between), ShelfAfter(shelf, before);
    AllStoredLater(st, before.tracks, whole.tracks, second.tracks, shelf.last, next.last);
    LaterItems(fs, gs);
    forall k | 0 <= k < |whole.tracks|
      ensures TrackStored(between, gs, second, next, k)
           == if k < |before.tracks| then TrackNamed(whole, shelf, k)
              else TrackStored(held, fs + gs, whole, shelf, k)
    {
      assert StoredLater(st, before.tracks, whole.tracks, second.tracks, shelf.last, next.last, k);
      SameAt(st, TrackAt(gs), second.tracks[k], Place(second.tracks, next.last, k));
    }
  }

  lemma {:induction false} WaypointsOfTwo(held: Collection, fs: seq<ParsedFile>, gs: seq<ParsedFile>, before: State,
                                          whole: State, stored: Stored, between: Collection, second: State)
    requires stored.first == |fs|
    requires TwoUploads(WaypointStorings(held, fs + gs, stored, between), before.waypoints, whole.waypoints,
                        second.waypoints, 0)
    ensures WaypointsLater(held, fs + gs, before, whole, between, gs, second)
  {
    var st := WaypointStorings(held, fs + gs, stored, between);
    AllStoredLater(st, before.waypoints, whole.waypoints, second.waypoints, 0, 0);
    LaterItems(fs, gs);
    forall k | 0 <= k < |whole.waypoints|
      ensures WaypointStored(between, gs, second, k)
           == if k < |before.waypoints| then whole.waypoints[k].content
              else WaypointStored(held, fs + gs, whole, k)
    {
      assert StoredLater(st, before.waypoints, whole.waypoints, second.waypoints, 0, 0, k);
      SameAt(st, WaypointAt(gs), second.waypoints[k], Place(second.waypoints, 0, k));
      WaypointNamed(whole.waypoints[k], Place(whole.waypoints, 0, k));
    }
  }

  /** The second upload stores what was there by its name or one made up, and the rest as one upload would. */
  lemma {:induction false} BothStoredLater(geo: Geometry, held: Collection, fs: seq<ParsedFile>, gs: seq<ParsedFile>,
                                           d: Decisions, e: Decisions, shelf: Shelf, stored: Stored,
                                           between: Collection)
    requires InTurn(geo, held, fs, gs, d, e, shelf, stored, between)
    ensures var before, whole := EndState(geo, held, fs, d), EndState(geo, held, fs + gs, d);
            var second := EndState(geo, between, gs, e);
            && TracksLater(held, fs + gs, before, whole, shelf, between, gs, second, ShelfAfter(shelf, before))
            && WaypointsLater(held, fs + gs, before, whole, between, gs, second)
  {
    var before, whole := EndState(geo, held, fs, d), EndState(geo, held, fs + gs, d);
    var second := EndState(geo, between, gs, e);
    TracksInTurn(geo, held, fs, gs, d, e, shelf, stored, between);
    TracksOfTwo(held, fs, gs, before, whole, shelf, stored, between, second);
    WaypointsInTurn(geo, held, fs, gs, d, e, shelf, stored, between);
    WaypointsOfTwo(held, fs, gs, before, whole, stored, between, second);
  }

  /** A first upload of `fs` that loses no name, and one of `gs` after it, decided as both would be. */
  ghost predicate InTwo(geo: Geometry, held: Collection, fs: seq<ParsedFile>, gs: seq<ParsedFile>, d: Decisions,
                        e: Decisions, shelf: Shelf, stored: Stored)
  {
    var s := EndState(geo, held, fs, d);
    && stored.first == |fs| && !e.replaceAll && SameDecisions(|fs|, d, e)
    && IdsApart(held) && IdsApart(StoredAfter(held, fs, s, shelf, stored))
    && LosesNone(fs, s, shelf) && Unheard(fs, s, shelf, gs)
  }

  /** Each track is stored as in one upload, exactly unless it was there after the first and one loses its name. */
  ghost predicate TracksAlike(held: Collection, files: seq<ParsedFile>, before: State, whole: State, shelf: Shelf,
                              between: Collection, gs: seq<ParsedFile>, second: State, next: Shelf)
  {
    && |whole.tracks| == |second.tracks| && ShelfAfter(next, second) == ShelfAfter(shelf, whole)
    && forall k :: 0 <= k < |whole.tracks| ==>
         (TrackStored(between, gs, second, next, k) == TrackStored(held, files, whole, shelf, k)
          <==> !(TrackLoses(files, whole, shelf, k) && k < |before.tracks|))
  }

  ghost predicate WaypointsAlike(held: Collection, files: seq<ParsedFile>, before: State, whole: State,
                                 between: Collection, gs: seq<ParsedFile>, second: State)
  {
    && |whole.waypoints| == |second.waypoints|
    && forall k :: 0 <= k < |whole.waypoints| ==>
         (WaypointStored(between, gs, second, k) == WaypointStored(held, files, whole, k)
          <==> !(WaypointNameGone(files, whole, k) && k < |before.waypoints|))
  }

  /**
    Uploading files together stores what uploading them in two does, with the
    first upload's end state stored in between, made-up names and all. Where
    storing that loses no name, and no later track goes by one made up, each
    track and waypoint ends up the same, exactly but for those of the first
    upload that lose their name in one upload of all: an unnamed item of the
    later files took their place last.
  */
  lemma {:induction false} StoredTogether(geo: Geometry, held: Collection, fs: seq<ParsedFile>, gs: seq<ParsedFile>,
                                          d: Decisions, e: Decisions, shelf: Shelf, stored: Stored)
    requires InTwo(geo, held, fs, gs, d, e, shelf, stored)
    ensures var before, whole := EndState(geo, held, fs, d), EndState(geo, held, fs + gs, d);
            var between := StoredAfter(held, fs, before, shelf, stored);
            var second := EndState(geo, between, gs, e);
            && TracksAlike(held, fs + gs, before, whole, shelf, between, gs, second, ShelfAfter(shelf, before))
            && WaypointsAlike(held, fs + gs, before, whole, between, gs, second)
  {
    var before, whole := EndState(geo, held, fs, d), EndState(geo, held, fs + gs, d);
    var between := StoredAfter(held, fs, before, shelf, stored);
    StoredIsNamed(geo, held, fs, d, shelf, stored);
    BothStoredLater(geo, held, fs, gs, d, e, shelf, stored, between);
    StoredByName(geo, held, fs + gs, d, shelf, whole);
  }
}
