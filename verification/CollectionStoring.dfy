/**
  What is stored after an upload (src/server/collection_import/plan.rs), and
  exactly where it differs from what the upload was matched by.
*/
module CollectionStoring {
  import opened Wrappers
  import opened LineGrid
  import opened Importing
  import opened CollectionMatch
  import opened CollectionOutcome
  import opened Folds

  /** The name an entry of the collection is held under. */
  function HeldName<C>(naming: Naming<C>, items: seq<HeldItem<C>>, id: int): Option<string> {
    if items == [] then None
    else if items[0].id == id then naming.name(items[0].content)
    else HeldName(naming, items[1..], id)
  }

  /** The name made up for an added item without one, by its place; none where none is made up. */
  type Spare = nat -> Option<string>

  function NoSpare(): Spare {
    (place: nat) => None
  }

  function Numbering(madeUp: nat -> string): Spare {
    (place: nat) => Some(madeUp(place))
  }

  /** How many of the first `k` entries are added ones. */
  function Added<C>(entries: seq<Entry<C>>, k: nat): nat
    requires k <= |entries|
  {
    if k == 0 then 0 else Added(entries, k - 1) + if entries[k - 1].origin.File? then 1 else 0
  }

  /** The place of an added entry: after the last one held, and after those added before it. */
  function Place<C>(entries: seq<Entry<C>>, last: nat, k: nat): nat
    requires k < |entries|
  {
    last + Added(entries, k + 1)
  }

  /**
    What an entry is stored with: what it holds where no file item took its
    place, else the contents of its source, under the source's own name, or
    that of the held one it replaces, or one made up for it.
  */
  function StoredAs<C>(naming: Naming<C>, at: ItemKey -> C, heldName: int -> Option<string>, spare: Spare, e: Entry<C>,
                       place: nat): C
  {
    match e.source
    case None => e.content
    case Some(key) =>
      var other := match e.origin case Held(id) => heldName(id) case File(_, _) => spare(place);
      naming.renamed(at(key), NameOr(naming.name(at(key)), other))
  }

  /**
    Storing gives an entry another name than it was matched by: it was added,
    its source is unnamed, and what it is then called is not what it was
    added as — a name it loses, or one made up.
  */
  predicate Renames<C(==)>(naming: Naming<C>, at: ItemKey -> C, spare: Spare, e: Entry<C>, place: nat) {
    && e.origin.File? && e.source.Some? && naming.name(at(e.source.value)).None?
    && spare(place) != naming.name(at((e.origin.file, e.origin.index)))
  }

  /** An entry is stored as it was matched, exactly unless storing renames it. */
  ghost predicate StoredUnlessRenamed<C>(naming: Naming<C>, at: ItemKey -> C, heldName: int -> Option<string>,
                                         spare: Spare, e: Entry<C>, place: nat)
  {
    StoredAs(naming, at, heldName, spare, e, place) == e.content <==> !Renames(naming, at, spare, e, place)
  }

  /** Naming twice is naming once, and a name given is the name. */
  ghost predicate Names<C(!new)>(naming: Naming<C>) {
    && (forall c, n :: naming.name(naming.renamed(c, n)) == n)
    && (forall c :: naming.renamed(c, naming.name(c)) == c)
  }

  lemma {:induction false} ToldIsStored<C(!new)>(naming: Naming<C>, at: ItemKey -> C, heldName: int -> Option<string>,
                                                 spare: Spare, e: Entry<C>, place: nat)
    requires Names(naming) && Told(naming, at, heldName, e)
    ensures StoredUnlessRenamed(naming, at, heldName, spare, e, place)
  {
    if e.source.Some? {
      var item := at(e.source.value);
      var other := match e.origin case Held(id) => heldName(id) case File(_, _) => spare(place);
      assert naming.name(StoredAs(naming, at, heldName, spare, e, place)) == NameOr(naming.name(item), other);
    }
  }

  lemma {:induction false} AllStored<C(!new)>(naming: Naming<C>, at: ItemKey -> C, heldName: int -> Option<string>,
                                              spare: Spare, entries: seq<Entry<C>>, last: nat)
    requires Names(naming) && AllTold(naming, at, heldName, entries)
    ensures forall k :: 0 <= k < |entries| ==>
              StoredUnlessRenamed(naming, at, heldName, spare, entries[k], Place(entries, last, k))
  {
    forall k | 0 <= k < |entries|
      ensures StoredUnlessRenamed(naming, at, heldName, spare, entries[k], Place(entries, last, k))
    {
      ToldIsStored(naming, at, heldName, spare, entries[k], Place(entries, last, k));
    }
  }

  // ------------------------------------------------------- over every upload

  const NO_TRACK := TrackItem(None, [])

  const NO_WAYPOINT := WaypointItem(None, None, Position(0.0, 0.0), None, None)

  function TrackAt(files: seq<ParsedFile>): ItemKey -> TrackItem {
    (key: ItemKey) => if key.0 < |files| && key.1 < |files[key.0].tracks| then files[key.0].tracks[key.1] else NO_TRACK
  }

  function WaypointAt(files: seq<ParsedFile>): ItemKey -> WaypointItem {
    (key: ItemKey) =>
      if key.0 < |files| && key.1 < |files[key.0].waypoints| then files[key.0].waypoints[key.1] else NO_WAYPOINT
  }

  function TrackName(held: Collection): int -> Option<string> {
    (id: int) => HeldName(TRACK_NAMING, held.tracks, id)
  }

  function WaypointName(held: Collection): int -> Option<string> {
    (id: int) => HeldName(WAYPOINT_NAMING, held.waypoints, id)
  }

  ghost function Telling(held: Collection, files: seq<ParsedFile>): (nat, State) -> bool {
    (f: nat, s: State) =>
      && f <= |files|
      && AllTold(TRACK_NAMING, TrackAt(files), TrackName(held), s.tracks)
      && AllTold(WAYPOINT_NAMING, WaypointAt(files), WaypointName(held), s.waypoints)
  }

  lemma {:induction false} HeldNameIs<C>(naming: Naming<C>, items: seq<HeldItem<C>>, k: nat)
    requires IdsDistinct(items) && k < |items|
    ensures HeldName(naming, items, items[k].id) == naming.name(items[k].content)
  {
    if k > 0 {
      assert items[1..][k - 1] == items[k];
      HeldNameIs(naming, items[1..], k - 1);
    }
  }

  lemma {:induction false} HeldTold<C>(naming: Naming<C>, at: ItemKey -> C, heldName: int -> Option<string>,
                                       items: seq<HeldItem<C>>)
    requires IdsDistinct(items) && forall id :: heldName(id) == HeldName(naming, items, id)
    ensures AllTold(naming, at, heldName, HeldEntries(items))
  {
    forall k | 0 <= k < |items|
      ensures Told(naming, at, heldName, HeldEntries(items)[k])
    {
      HeldNameIs(naming, items, k);
    }
  }

  lemma {:induction false} AllTaken<C(!new)>(kind: Kind<C>, naming: Naming<C>, intake: Intake, items: seq<C>,
                                             w: Work<C>, at: ItemKey -> C, heldName: int -> Option<string>)
    requires w.results == [] && KeepsNames(kind, naming)
    requires forall k :: 0 <= k < |items| ==> at((intake.file, k)) == items[k]
    requires AllTold(naming, at, heldName, w.entries)
    ensures AllTold(naming, at, heldName, TakeAll(kind, intake, items, w).entries)
  {
    PairsOfRelate(kind, items, w.entries);
    FromTold(kind, intake, items, PairsOf(kind, items, w.entries), 0, w, naming, at, heldName);
  }

  lemma {:induction false} FileTold(geo: Geometry, held: Collection, d: Decisions, f: nat, files: seq<ParsedFile>,
                                    s: State)
    requires f < |files| && Telling(held, files)(f, s)
    ensures Telling(held, files)(f + 1, FileTaken(geo, d, f, files[f], s))
  {
    KindsKeepNames(geo);
    AllTaken(TrackKind(geo), TRACK_NAMING, Intake(f, Unchanged, false, d.tracks), files[f].tracks,
             Work(s.tracks, s.reviewTracks, s.matchedHeld, []), TrackAt(files), TrackName(held));
    var w := TracksTaken(geo, d, f, files[f], s);
    AllTaken(WaypointKind(geo), WAYPOINT_NAMING, WaypointIntake(f, FileTrack(files[f], w.results), d.waypoints),
             files[f].waypoints, Work(s.waypoints, s.reviewWaypoints, w.matchedHeld, []), WaypointAt(files),
             WaypointName(held));
  }

  lemma {:induction false} StartTold(held: Collection, files: seq<ParsedFile>, d: Decisions)
    requires IdsDistinct(held.tracks) && IdsDistinct(held.waypoints)
    ensures Telling(held, files)(0, Started(held, d))
  {
    var s := Started(held, d);
    assert AllTold(TRACK_NAMING, TrackAt(files), TrackName(held), s.tracks) by {
      HeldTold(TRACK_NAMING, TrackAt(files), TrackName(held), held.tracks);
    }
    assert AllTold(WAYPOINT_NAMING, WaypointAt(files), WaypointName(held), s.waypoints) by {
      HeldTold(WAYPOINT_NAMING, WaypointAt(files), WaypointName(held), held.waypoints);
    }
  }

  lemma {:induction false} EndTold(geo: Geometry, held: Collection, files: seq<ParsedFile>, more: seq<ParsedFile>,
                                   d: Decisions)
    requires IdsDistinct(held.tracks) && IdsDistinct(held.waypoints)
    ensures Telling(held, files + more)(|files|, EndState(geo, held, files, d))
  {
    StartTold(held, files + more, d);
    forall f: nat, file, s | 0 <= f < 0 + |files| && file == files[f - 0]
      ensures Kept(Taking(geo, d), Telling(held, files + more), f, file, s)
    {
      if Telling(held, files + more)(f, s) {
        FileTold(geo, held, d, f, files + more, s);
      }
    }
    FoldKeeps(Taking(geo, d), 0, files, Started(held, d), Telling(held, files + more));
  }

  lemma {:induction false} EndsTold(geo: Geometry, held: Collection, files: seq<ParsedFile>, more: seq<ParsedFile>,
                                    d: Decisions)
    requires IdsDistinct(held.tracks) && IdsDistinct(held.waypoints)
    ensures AllTold(TRACK_NAMING, TrackAt(files + more), TrackName(held), EndState(geo, held, files, d).tracks)
    ensures AllTold(WAYPOINT_NAMING, WaypointAt(files + more), WaypointName(held),
                    EndState(geo, held, files, d).waypoints)
  {
    EndTold(geo, held, files, more, d);
  }

  /** What made-up names there are, and the place of the last track held. */
  datatype Shelf = Shelf(madeUp: nat -> string, last: nat)

  function TrackStored(held: Collection, files: seq<ParsedFile>, s: State, shelf: Shelf, k: nat): TrackItem
    requires k < |s.tracks|
  {
    StoredAs(TRACK_NAMING, TrackAt(files), TrackName(held), Numbering(shelf.madeUp), s.tracks[k],
             Place(s.tracks, shelf.last, k))
  }

  function WaypointStored(held: Collection, files: seq<ParsedFile>, s: State, k: nat): WaypointItem
    requires k < |s.waypoints|
  {
    StoredAs(WAYPOINT_NAMING, WaypointAt(files), WaypointName(held), NoSpare(), s.waypoints[k],
             Place(s.waypoints, 0, k))
  }

  predicate TrackRenamed(files: seq<ParsedFile>, s: State, shelf: Shelf, k: nat)
    requires k < |s.tracks|
  {
    Renames(TRACK_NAMING, TrackAt(files), Numbering(shelf.madeUp), s.tracks[k], Place(s.tracks, shelf.last, k))
  }

  predicate WaypointRenamed(files: seq<ParsedFile>, s: State, k: nat)
    requires k < |s.waypoints|
  {
    Renames(WAYPOINT_NAMING, WaypointAt(files), NoSpare(), s.waypoints[k], Place(s.waypoints, 0, k))
  }

  /**
    After any upload, a track or waypoint is stored as the matching of later
    files went by — name, line or details and all — exactly unless it was
    added, an unnamed item is its source, and it is then called otherwise
    than it was added.
  */
  lemma {:induction false} StoredAsMatched(geo: Geometry, held: Collection, files: seq<ParsedFile>, d: Decisions,
                                           shelf: Shelf)
    requires IdsDistinct(held.tracks) && IdsDistinct(held.waypoints)
    ensures var s := EndState(geo, held, files, d);
            && (forall k :: 0 <= k < |s.tracks| ==>
                  (TrackStored(held, files, s, shelf, k) == s.tracks[k].content <==> !TrackRenamed(files, s, shelf, k)))
            && (forall k :: 0 <= k < |s.waypoints| ==>
                  (WaypointStored(held, files, s, k) == s.waypoints[k].content <==> !WaypointRenamed(files, s, k)))
  {
    var s := EndState(geo, held, files, d);
    EndsTold(geo, held, files, [], d);
    assert files + [] == files;
    AllStored(TRACK_NAMING, TrackAt(files), TrackName(held), Numbering(shelf.madeUp), s.tracks, shelf.last);
    AllStored(WAYPOINT_NAMING, WaypointAt(files), WaypointName(held), NoSpare(), s.waypoints, 0);
    forall k | 0 <= k < |s.tracks|
      ensures TrackStored(held, files, s, shelf, k) == s.tracks[k].content <==> !TrackRenamed(files, s, shelf, k)
    {
      assert StoredUnlessRenamed(TRACK_NAMING, TrackAt(files), TrackName(held), Numbering(shelf.madeUp), s.tracks[k],
                                 Place(s.tracks, shelf.last, k));
    }
    forall k | 0 <= k < |s.waypoints|
      ensures WaypointStored(held, files, s, k) == s.waypoints[k].content <==> !WaypointRenamed(files, s, k)
    {
      assert StoredUnlessRenamed(WAYPOINT_NAMING, WaypointAt(files), WaypointName(held), NoSpare(), s.waypoints[k],
                                 Place(s.waypoints, 0, k));
    }
  }
}
