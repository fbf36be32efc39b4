/**
  How an upload is matched (src/server/collection_match.rs): a run over its
  files in which each one's tracks, and then its waypoints, are paired with
  the entries that the run has come to.
*/
module CollectionMatch {
  import opened Wrappers
  import opened LineGrid
  import opened Pairing
  import opened Importing
  import opened Folds

  const TRACK_TOLERANCE := 30.0
  const WAYPOINT_TOLERANCE := 30.0
  const ELEVATION_TOLERANCE := 1.0

  datatype TrackItem = TrackItem(name: Option<string>, line: seq<Position>)

  datatype WaypointItem = WaypointItem(
    name: Option<string>,
    description: Option<string>,
    position: Position,
    ele: Option<real>,
    symbol: Option<string>)

  datatype ParsedFile = ParsedFile(tracks: seq<TrackItem>, waypoints: seq<WaypointItem>)

  datatype HeldItem<C> = HeldItem(id: int, content: C)

  /** What is stored for a collection before the upload. */
  datatype Collection = Collection(tracks: seq<HeldItem<TrackItem>>, waypoints: seq<HeldItem<WaypointItem>>)

  /** What the owner chose in the review; an item missing from it goes as proposed. */
  datatype Decisions = Decisions(
    replaceAll: bool,
    tracks: Choices,
    waypoints: Choices,
    removeTracks: set<int>,
    removeWaypoints: set<int>)

  // -------------------------------------------------------------- relations

  /** Whether two lines lie within a tolerance of each other, and how far apart two places are. */
  datatype Geometry = Geometry(
    linesWithin: (seq<Position>, seq<Position>, real) -> bool,
    distance: (Position, Position) -> real)

  function Min(a: real, b: real): real { if a < b then a else b }

  function Max(a: real, b: real): real { if a > b then a else b }

  /** The least and the greatest coordinates of a line. */
  function Corners(line: seq<Position>): (Position, Position)
    requires line != []
  {
    var last := line[|line| - 1];
    if |line| == 1 then (last, last)
    else
      var (low, high) := Corners(line[..|line| - 1]);
      (Position(Min(low.lat, last.lat), Min(low.lon, last.lon)),
       Position(Max(high.lat, last.lat), Max(high.lon, last.lon)))
  }

  /** Half way between the corners, by which two lines are ranked. */
  function Centre(line: seq<Position>): Option<Position> {
    if line == [] then None
    else
      var (low, high) := Corners(line);
      Some(Position((low.lat + high.lat) / 2.0, (low.lon + high.lon) / 2.0))
  }

  /** Lines under different names never relate; an unnamed one relates by place alone. */
  function TrackRelation(geo: Geometry, file: TrackItem, held: TrackItem): Option<Relation> {
    var sameName := file.name.Some? && file.name == held.name;
    if !sameName && file.name.Some? then None
    else
      var distance := match (Centre(file.line), Centre(held.line))
        case (Some(a), Some(b)) => Finite(geo.distance(a, b))
        case _ => Infinite;
      if geo.linesWithin(file.line, held.line, TRACK_TOLERANCE) then Some(Relation(Same, distance))
      else if sameName then Some(Relation(Changed, distance))
      else None
  }

  function WaypointRelation(geo: Geometry, file: WaypointItem, held: WaypointItem): Option<Relation> {
    var sameName := file.name.Some? && file.name == held.name;
    if !sameName && file.name.Some? then None
    else
      var distance := geo.distance(file.position, held.position);
      if distance <= WAYPOINT_TOLERANCE then Some(Relation(Same, Finite(distance)))
      else if sameName then Some(Relation(Changed, Finite(distance)))
      else None
  }

  /** What an item matched at the same place may still differ in. */
  predicate SameDetails(file: WaypointItem, held: WaypointItem) {
    && (match (file.ele, held.ele)
        case (Some(a), Some(b)) => AbsReal(a - b) <= ELEVATION_TOLERANCE
        case (a, b) => a.None? && b.None?)
    && file.description == held.description
    && file.symbol == held.symbol
  }

  function NameOr(name: Option<string>, other: Option<string>): Option<string> {
    if name.Some? then name else other
  }

  function TrackKind(geo: Geometry): Kind<TrackItem> {
    Kind((file: TrackItem, held: TrackItem) => TrackRelation(geo, file, held),
         (file: TrackItem, held: TrackItem) => true,
         (file: TrackItem, held: TrackItem) => file.(name := NameOr(file.name, held.name)))
  }

  function WaypointKind(geo: Geometry): Kind<WaypointItem> {
    Kind((file: WaypointItem, held: WaypointItem) => WaypointRelation(geo, file, held),
         (file: WaypointItem, held: WaypointItem) => SameDetails(file, held),
         (file: WaypointItem, held: WaypointItem) => file.(name := NameOr(file.name, held.name)))
  }

  const TRACK_NAMING: Naming<TrackItem> :=
    Naming((t: TrackItem) => t.name, (t: TrackItem, name) => t.(name := name))

  const WAYPOINT_NAMING: Naming<WaypointItem> :=
    Naming((w: WaypointItem) => w.name, (w: WaypointItem, name) => w.(name := name))

  /** A file's item relates to an entry by its name or without one, so a replaced entry keeps its own. */
  lemma {:induction false} KindsKeepNames(geo: Geometry)
    ensures KeepsNames(TrackKind(geo), TRACK_NAMING)
    ensures KeepsNames(WaypointKind(geo), WAYPOINT_NAMING)
  {
  }

  // ------------------------------------------------------------------ files

  /** Where matching stands between two files. */
  datatype State = State(
    tracks: seq<Entry<TrackItem>>,
    waypoints: seq<Entry<WaypointItem>>,
    reviewTracks: seq<Matched>,
    reviewWaypoints: seq<Matched>,
    matchedHeld: set<int>)

  function HeldEntries<C>(items: seq<HeldItem<C>>): (entries: seq<Entry<C>>)
    ensures |entries| == |items|
  {
    seq(|items|, k requires 0 <= k < |items| => Entry(Held(items[k].id), items[k].content, None, Unchanged))
  }

  function Started(held: Collection, decisions: Decisions): State {
    if decisions.replaceAll then State([], [], [], [], {})
    else State(HeldEntries(held.tracks), HeldEntries(held.waypoints), [], [], {})
  }

  /** Where a file has just one track: what became of that track. */
  function FileTrack(file: ParsedFile, results: seq<Option<Origin>>): Option<Option<Origin>>
    requires |results| == |file.tracks|
  {
    if |file.tracks| == 1 then Some(results[0]) else None
  }

  function WaypointIntake(f: nat, fileTrack: Option<Option<Origin>>, choices: Choices): Intake {
    Intake(f, OnTrack(fileTrack.GetOr(None)), fileTrack.Some?, choices)
  }

  ghost function TracksTaken(geo: Geometry, d: Decisions, f: nat, file: ParsedFile, s: State): (w: Work<TrackItem>)
    ensures |w.results| == |file.tracks|
  {
    TakeAll(TrackKind(geo), Intake(f, Unchanged, false, d.tracks), file.tracks,
            Work(s.tracks, s.reviewTracks, s.matchedHeld, []))
  }

  ghost function WaypointsTaken(geo: Geometry, d: Decisions, f: nat, file: ParsedFile, s: State,
                                w: Work<TrackItem>): Work<WaypointItem>
    requires |w.results| == |file.tracks|
  {
    TakeAll(WaypointKind(geo), WaypointIntake(f, FileTrack(file, w.results), d.waypoints), file.waypoints,
            Work(s.waypoints, s.reviewWaypoints, w.matchedHeld, []))
  }

  /** One file taken in: its tracks, then its waypoints. */
  ghost function FileTaken(geo: Geometry, d: Decisions, f: nat, file: ParsedFile, s: State): State {
    var w := TracksTaken(geo, d, f, file, s);
    var v := WaypointsTaken(geo, d, f, file, s, w);
    State(w.entries, v.entries, w.review, v.review, v.matchedHeld)
  }

  ghost function Taking(geo: Geometry, d: Decisions): (nat, ParsedFile, State) -> State {
    (f: nat, file: ParsedFile, s: State) => FileTaken(geo, d, f, file, s)
  }

  // ---------------------------------------------------------------- outcome

  /** An entry as the outcome lists it; its `source` is what to write over it, if anything. */
  datatype Final = Final(origin: Origin, source: Option<ItemKey>, track: Membership)

  datatype Outcome = Outcome(
    replaceAll: bool,
    tracks: seq<Final>,
    waypoints: seq<Final>,
    removeTracks: seq<int>,
    removeWaypoints: seq<int>)

  datatype Review = Review(
    tracks: seq<Matched>,
    waypoints: seq<Matched>,
    unmatchedTracks: seq<int>,
    unmatchedWaypoints: seq<int>,
    outcome: Outcome)

  function Filter<T>(s: seq<T>, keep: T -> bool): seq<T> {
    if s == [] then [] else Filter(s[..|s| - 1], keep) + if keep(s[|s| - 1]) then [s[|s| - 1]] else []
  }

  function Ids<C>(items: seq<HeldItem<C>>): (ids: seq<int>)
    ensures |ids| == |items|
  {
    seq(|items|, k requires 0 <= k < |items| => items[k].id)
  }

  /** What is neither added to nor removed from the collection, or added to it. */
  predicate Remains(removed: seq<int>, origin: Origin) {
    !(origin.Held? && origin.id in removed)
  }

  function Finals<C>(entries: seq<Entry<C>>, removed: seq<int>): seq<Final> {
    if entries == [] then []
    else
      var last := entries[|entries| - 1];
      Finals(entries[..|entries| - 1], removed)
      + if Remains(removed, last.origin) then [Final(last.origin, last.source, last.track)] else []
  }

  /** The review and the outcome the files end in. */
  function Finished(held: Collection, d: Decisions, s: State): Review {
    var unmatched := (ids: seq<int>) => if d.replaceAll then [] else Filter(ids, id => id !in s.matchedHeld);
    var unmatchedTracks, unmatchedWaypoints := unmatched(Ids(held.tracks)), unmatched(Ids(held.waypoints));
    var removeTracks := Filter(unmatchedTracks, id => id in d.removeTracks);
    var removeWaypoints := Filter(unmatchedWaypoints, id => id in d.removeWaypoints);
    Review(s.reviewTracks, s.reviewWaypoints, unmatchedTracks, unmatchedWaypoints,
           Outcome(d.replaceAll, Finals(s.tracks, removeTracks), Finals(s.waypoints, removeWaypoints),
                   removeTracks, removeWaypoints))
  }

  ghost function EndState(geo: Geometry, held: Collection, files: seq<ParsedFile>, d: Decisions): State {
    Fold(Taking(geo, d), 0, files, Started(held, d))
  }

  ghost function Matching(geo: Geometry, held: Collection, files: seq<ParsedFile>, d: Decisions): Review {
    Finished(held, d, EndState(geo, held, files, d))
  }

  /** The loop over the files, with the lists it updates. */
  method MatchFiles(geo: Geometry, held: Collection, files: seq<ParsedFile>, d: Decisions) returns (review: Review)
    ensures review == Matching(geo, held, files, d)
  {
    var s := Started(held, d);
    var tracks, waypoints, matchedHeld := s.tracks, s.waypoints, s.matchedHeld;
    var reviewTracks, reviewWaypoints: seq<Matched> := [], [];
    assert files[0..] == files;
    for f := 0 to |files|
      invariant Fold(Taking(geo, d), f, files[f..],
                     State(tracks, waypoints, reviewTracks, reviewWaypoints, matchedHeld))
             == EndState(geo, held, files, d)
    {
      assert files[f..][1..] == files[f + 1..];
      var file := files[f];
      var w := TakeItems(TrackKind(geo), Intake(f, Unchanged, false, d.tracks), file.tracks, tracks, reviewTracks,
                         matchedHeld);
      var fileTrack := FileTrack(file, w.results);
      var v := TakeItems(WaypointKind(geo), WaypointIntake(f, fileTrack, d.waypoints), file.waypoints, waypoints,
                         reviewWaypoints, w.matchedHeld);
      tracks, reviewTracks := w.entries, w.review;
      waypoints, reviewWaypoints, matchedHeld := v.entries, v.review, v.matchedHeld;
    }
    review := Finished(held, d, State(tracks, waypoints, reviewTracks, reviewWaypoints, matchedHeld));
  }

  // ------------------------------------------------------------- on the map

  /** Two lines, each near the other all along its points. */
  ghost predicate LinesWithin(project: Projection, a: seq<Position>, b: seq<Position>, tolerance: real) {
    && a != [] && b != []
    && var flatA, flatB := Projected(project, a[0], a), Projected(project, a[0], b);
       && (forall k :: 0 <= k < |a| ==> Near(flatB, tolerance, flatA[k]))
       && (forall k :: 0 <= k < |b| ==> Near(flatA, tolerance, flatB[k]))
  }

  /** The same, by grids of the lines' segments. */
  method AreLinesWithin(h: Hypot, project: Projection, a: seq<Position>, b: seq<Position>, tolerance: real)
    returns (within: bool)
    requires IsHypot(h)
    ensures within <==> LinesWithin(project, a, b, tolerance)
  {
    if a == [] || b == [] {
      return false;
    }
    var flatA, flatB := Projected(project, a[0], a), Projected(project, a[0], b);
    var nearA := NewGrid(flatA, tolerance);
    var nearB := NewGrid(flatB, tolerance);
    forall p ensures nearA.Reaches(h, p) <==> Near(flatA, tolerance, p) {
      ReachesIsNear(h, nearA, flatA, tolerance, p);
    }
    forall p ensures nearB.Reaches(h, p) <==> Near(flatB, tolerance, p) {
      ReachesIsNear(h, nearB, flatB, tolerance, p);
    }
    within := (forall k :: 0 <= k < |flatA| ==> nearB.Reaches(h, flatA[k]))
              && (forall k :: 0 <= k < |flatB| ==> nearA.Reaches(h, flatB[k]));
  }

  /** Lines and places compared as they are, projected around the first one's start. */
  ghost function MapGeometry(h: Hypot, project: Projection): Geometry {
    Geometry((a, b, tolerance) => LinesWithin(project, a, b, tolerance),
             (a, b) => Distance(h, project(a, a), project(a, b)))
  }

  /** A line with a point is the same as itself, and a place nowhere but where it is. */
  ghost predicate SelfSame(geo: Geometry) {
    && (forall line :: line != [] ==> geo.linesWithin(line, line, TRACK_TOLERANCE))
    && (forall p, q :: geo.distance(p, q) >= 0.0)
    && (forall p :: geo.distance(p, p) == 0.0)
  }

  lemma {:induction false} MapIsSelfSame(h: Hypot, project: Projection)
    requires IsHypot(h)
    ensures SelfSame(MapGeometry(h, project))
  {
    forall line: seq<Position> | line != []
      ensures LinesWithin(project, line, line, TRACK_TOLERANCE)
    {
      var flat := Projected(project, line[0], line);
      forall k | 0 <= k < |line| ensures Near(flat, TRACK_TOLERANCE, flat[k]) {
        VertexNear(flat, TRACK_TOLERANCE, k);
      }
    }
    forall p, q
      ensures Distance(h, project(p, p), project(p, q)) >= 0.0 && Distance(h, project(p, p), project(p, p)) == 0.0
    {
      DistanceToSelf(h, project(p, p));
    }
  }
}
