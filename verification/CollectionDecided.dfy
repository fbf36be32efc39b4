/**
  What the owner's choices come to, and which tracks waypoints go on
  (src/server/collection_match.rs), over every upload.
*/
module CollectionDecided {
  import opened Wrappers
  import opened Reals
  import opened LineGrid
  import opened Pairing
  import opened Importing
  import opened CollectionMatch
  import opened CollectionOutcome
  import opened CollectionNames
  import opened Folds

  // ---------------------------------------------------------------- choices

  /** Done is what the owner chose, or what is proposed where they chose nothing, or to replace what there is not. */
  ghost predicate AsChosen(choices: Choices, m: Matched) {
    var key := (m.file, m.index);
    m.action == if key in choices && (choices[key].Replace? ==> m.matched.Some?) then choices[key] else m.proposed
  }

  ghost predicate AllAsChosen(choices: Choices, review: seq<Matched>) {
    forall k :: 0 <= k < |review| ==> AsChosen(choices, review[k])
  }

  lemma {:induction false} FromAsChosen<C>(kind: Kind<C>, intake: Intake, items: seq<C>, pairs: Pairs, i: nat,
                                           w: Work<C>)
    requires i <= |items| == |pairs| && PairsWithin(pairs, |w.entries|) && AllAsChosen(intake.choices, w.review)
    ensures AllAsChosen(intake.choices, TakeFrom(kind, intake, items, pairs, i, w).review)
    decreases |items| - i
  {
    if i < |items| {
      FromAsChosen(kind, intake, items, pairs, i + 1, TakeOne(kind, intake, i, items[i], pairs[i], w));
    }
  }

  ghost predicate Chosen(d: Decisions, s: State) {
    AllAsChosen(d.tracks, s.reviewTracks) && AllAsChosen(d.waypoints, s.reviewWaypoints)
  }

  ghost function AllChosen(d: Decisions): (nat, State) -> bool {
    (f: nat, s: State) => Chosen(d, s)
  }

  lemma {:induction false} FileChosen(geo: Geometry, d: Decisions, f: nat, file: ParsedFile, s: State)
    requires Chosen(d, s)
    ensures Chosen(d, FileTaken(geo, d, f, file, s))
  {
    var w := TracksTaken(geo, d, f, file, s);
    PairsOfWithin(TrackKind(geo), file.tracks, s.tracks);
    FromAsChosen(TrackKind(geo), Intake(f, Unchanged, false, d.tracks), file.tracks,
                 PairsOf(TrackKind(geo), file.tracks, s.tracks), 0, Work(s.tracks, s.reviewTracks, s.matchedHeld, []));
    PairsOfWithin(WaypointKind(geo), file.waypoints, s.waypoints);
    FromAsChosen(WaypointKind(geo), WaypointIntake(f, FileTrack(file, w.results), d.waypoints), file.waypoints,
                 PairsOf(WaypointKind(geo), file.waypoints, s.waypoints), 0,
                 Work(s.waypoints, s.reviewWaypoints, w.matchedHeld, []));
  }

  /** What is done with each item of an upload is what the owner chose, where it can be done, and else the proposal. */
  lemma {:induction false} ChoicesDecide(geo: Geometry, held: Collection, files: seq<ParsedFile>, d: Decisions)
    ensures AllAsChosen(d.tracks, Matching(geo, held, files, d).tracks)
    ensures AllAsChosen(d.waypoints, Matching(geo, held, files, d).waypoints)
  {
    forall f: nat, file, s ensures Kept(Taking(geo, d), AllChosen(d), f, file, s) {
      if Chosen(d, s) {
        FileChosen(geo, d, f, file, s);
      }
    }
    FoldAlwaysKeeps(Taking(geo, d), 0, files, Started(held, d), AllChosen(d));
  }

  // ------------------------------------------------------- waypoints' tracks

  /** The entry that an item of a file is by now: one of its own, or the one it matched. */
  function Became(m: Matched): Option<Origin> {
    if m.action.Add? then Some(File(m.file, m.index)) else m.matched
  }

  /** Where the waypoints of a file with just one track go: on what that became. Any other file has no such place. */
  type Homes = nat -> Option<Option<Origin>>

  ghost function HomesOf(geo: Geometry, held: Collection, files: seq<ParsedFile>, d: Decisions): Homes {
    (f: nat) =>
      if f < |files| && |files[f].tracks| == 1 && TrackRound(geo, held, files, d, f).Valid() then
        Some(Became(TrackRound(geo, held, files, d, f).Of(0)))
      else None
  }

  /**
    The track of the waypoint of an origin: of the file that last set it,
    which is the one that added it, or a later one with one track that wrote
    over it. Added by a file with none or several it is on no track.
  */
  function Placed(homes: Homes, review: seq<Matched>, origin: Origin): Membership {
    if review == [] then Unchanged
    else
      var last := review[|review| - 1];
      if last.action.Add? && File(last.file, last.index) == origin then OnTrack(homes(last.file).GetOr(None))
      else if last.action.Replace? && last.matched == Some(origin) && homes(last.file).Some? then
        OnTrack(homes(last.file).value)
      else Placed(homes, review[..|review| - 1], origin)
  }

  ghost predicate AllPlaced<C>(homes: Homes, review: seq<Matched>, entries: seq<Entry<C>>) {
    forall k :: 0 <= k < |entries| ==> entries[k].track == Placed(homes, review, entries[k].origin)
  }

  ghost predicate Goes(intake: Intake, homes: Homes) {
    && intake.track == OnTrack(homes(intake.file).GetOr(None))
    && (intake.setsTrack <==> homes(intake.file).Some?)
  }

  lemma {:induction false} OnePlaced<C>(kind: Kind<C>, intake: Intake, i: nat, item: C, pair: Option<(nat, Rank)>,
                                        w: Work<C>, homes: Homes)
    requires pair.Some? ==> pair.value.0 < |w.entries|
    requires OriginsApart(w.entries) && Earlier(w.entries, intake.file, i) && Goes(intake, homes)
    requires AllPlaced(homes, w.review, w.entries)
    ensures var after := TakeOne(kind, intake, i, item, pair, w); AllPlaced(homes, after.review, after.entries)
  {
    var after := TakeOne(kind, intake, i, item, pair, w);
    var last := after.review[|after.review| - 1];
    assert after.review[..|after.review| - 1] == w.review;
    forall k | 0 <= k < |after.entries|
      ensures after.entries[k].track == Placed(homes, after.review, after.entries[k].origin)
    {
      if k < |w.entries| {
        assert after.entries[k].origin == w.entries[k].origin;
        assert last.action.Replace? && pair.Some? && k != pair.value.0 ==> last.matched != Some(w.entries[k].origin);
      }
    }
  }

  lemma {:induction false} FromPlaced<C>(kind: Kind<C>, intake: Intake, items: seq<C>, pairs: Pairs, i: nat,
                                         w: Work<C>, first: seq<Entry<C>>, homes: Homes)
    requires i <= |items| == |pairs| && PairsWithin(pairs, |w.entries|) && Goes(intake, homes)
    requires Balanced(first, w.entries, w.review) && Earlier(w.entries, intake.file, i)
    requires AllPlaced(homes, w.review, w.entries)
    ensures var after := TakeFrom(kind, intake, items, pairs, i, w); AllPlaced(homes, after.review, after.entries)
    decreases |items| - i
  {
    if i < |items| {
      OneBalanced(kind, intake, i, items[i], pairs[i], w, first);
      OnePlaced(kind, intake, i, items[i], pairs[i], w, homes);
      FromPlaced(kind, intake, items, pairs, i + 1, TakeOne(kind, intake, i, items[i], pairs[i], w), first, homes);
    }
  }

  /** A file's only track is reviewed as what its waypoints go on. */
  lemma {:induction false} OnlyTrackBecame(geo: Geometry, d: Decisions, f: nat, file: ParsedFile, s: State)
    requires |file.tracks| == 1
    ensures var w := TracksTaken(geo, d, f, file, s);
            |w.review| == |s.reviewTracks| + 1 && w.results == [Became(w.review[|s.reviewTracks|])]
  {
    var kind, intake := TrackKind(geo), Intake(f, Unchanged, false, d.tracks);
    var start := Work(s.tracks, s.reviewTracks, s.matchedHeld, []);
    PairsOfWithin(kind, file.tracks, s.tracks);
    var pairs := PairsOf(kind, file.tracks, s.tracks);
    var one := TakeOne(kind, intake, 0, file.tracks[0], pairs[0], start);
    assert TakeFrom(kind, intake, file.tracks, pairs, 1, one) == one;
  }

  lemma {:induction false} HomeIs(geo: Geometry, held: Collection, files: seq<ParsedFile>, d: Decisions, f: nat)
    requires f < |files|
    ensures var w := TracksTaken(geo, d, f, files[f], EndState(geo, held, files[..f], d));
            Goes(WaypointIntake(f, FileTrack(files[f], w.results), d.waypoints), HomesOf(geo, held, files, d))
  {
    var s := EndState(geo, held, files[..f], d);
    RoundsReviewed(geo, held, files, d, f);
    if |files[f].tracks| == 1 {
      FileStays(geo, held, files, d, f);
      OnlyTrackBecame(geo, d, f, files[f], s);
    }
  }

  lemma {:induction false} FilePlaced(geo: Geometry, held: Collection, files: seq<ParsedFile>, d: Decisions, f: nat)
    requires f < |files| && IdsDistinct(held.tracks) && IdsDistinct(held.waypoints)
    requires var s := EndState(geo, held, files[..f], d);
             AllPlaced(HomesOf(geo, held, files, d), s.reviewWaypoints, s.waypoints)
    ensures var s := EndState(geo, held, files[..f + 1], d);
            AllPlaced(HomesOf(geo, held, files, d), s.reviewWaypoints, s.waypoints)
  {
    var s, file := EndState(geo, held, files[..f], d), files[f];
    var w := TracksTaken(geo, d, f, file, s);
    HomeIs(geo, held, files, d, f);
    EndInOrder(geo, held, files[..f], d);
    PairsOfWithin(WaypointKind(geo), file.waypoints, s.waypoints);
    FromPlaced(WaypointKind(geo), WaypointIntake(f, FileTrack(file, w.results), d.waypoints), file.waypoints,
               PairsOf(WaypointKind(geo), file.waypoints, s.waypoints), 0,
               Work(s.waypoints, s.reviewWaypoints, w.matchedHeld, []), Started(held, d).waypoints,
               HomesOf(geo, held, files, d));
    OneFileMore(geo, held, files, d, f);
  }

  lemma {:induction false} FilesPlaced(geo: Geometry, held: Collection, files: seq<ParsedFile>, d: Decisions, f: nat)
    requires f <= |files| && IdsDistinct(held.tracks) && IdsDistinct(held.waypoints)
    ensures var s := EndState(geo, held, files[..f], d);
            AllPlaced(HomesOf(geo, held, files, d), s.reviewWaypoints, s.waypoints)
  {
    if f > 0 {
      FilesPlaced(geo, held, files, d, f - 1);
      FilePlaced(geo, held, files, d, f - 1);
    }
  }

  /** Which track each waypoint of an outcome is to go on, by the review alone. */
  lemma {:induction false} PlacedExactly(geo: Geometry, held: Collection, files: seq<ParsedFile>, d: Decisions)
    requires IdsDistinct(held.tracks) && IdsDistinct(held.waypoints)
    ensures var r := Matching(geo, held, files, d);
            forall k :: 0 <= k < |r.outcome.waypoints| ==>
              r.outcome.waypoints[k].track
              == Placed(HomesOf(geo, held, files, d), r.waypoints, r.outcome.waypoints[k].origin)
  {
    var s, r := EndState(geo, held, files, d), Matching(geo, held, files, d);
    FilesPlaced(geo, held, files, d, |files|);
    assert files[..|files|] == files;
    FinalsAre(s.waypoints, r.outcome.removeWaypoints);
    forall k | 0 <= k < |r.outcome.waypoints|
      ensures r.outcome.waypoints[k].track
           == Placed(HomesOf(geo, held, files, d), r.waypoints, r.outcome.waypoints[k].origin)
    {
      var m :| 0 <= m < |s.waypoints|
               && r.outcome.waypoints[k] == Final(s.waypoints[m].origin, s.waypoints[m].source, s.waypoints[m].track);
    }
  }

  // ------------------------------------------------------- on the map

  lemma {:induction false} AlongHalf(half: Line, i: nat, t: real)
    requires half == [Flat(0.0, 0.0), Flat(500.0, 0.0)] && i < |Segments(half)| && 0.0 <= t <= 1.0
    ensures On(Segments(half)[i].0, Segments(half)[i].1, t).x <= 500.0
  {
    assert Segments(half)[i] == (half[0], half[1]);
  }

  lemma {:induction false} FiveHundredOff(dx: real, dy: real)
    requires dx >= 500.0
    ensures dx * dx + dy * dy > 30.0 * 30.0
  {
    ProductNonNegative(dx - 500.0, dx + 500.0);
    ProductNonNegative(if dy < 0.0 then -dy else dy, if dy < 0.0 then -dy else dy);
  }

  /** From the first half of a line as long as a thousand metres, its far end is not near. */
  lemma {:induction false} FarEndNotNear(half: Line)
    requires half == [Flat(0.0, 0.0), Flat(500.0, 0.0)]
    ensures !Near(half, 30.0, Flat(1000.0, 0.0))
  {
    forall i: nat, t: real ensures !NearAt(half, 30.0, Flat(1000.0, 0.0), i, t) {
      if i < |Segments(half)| && 0.0 <= t <= 1.0 {
        var q := On(Segments(half)[i].0, Segments(half)[i].1, t);
        AlongHalf(half, i, t);
        FiveHundredOff(1000.0 - q.x, 0.0 - q.y);
      }
    }
  }

  /** A line and its first half are not the same, whichever is held: all of both is compared. */
  lemma {:induction false} HalfIsNotSame(project: Projection, whole: seq<Position>, half: seq<Position>)
    requires whole != [] && half != [] && whole[0] == half[0]
    requires Projected(project, whole[0], whole) == [Flat(0.0, 0.0), Flat(1000.0, 0.0)]
    requires Projected(project, whole[0], half) == [Flat(0.0, 0.0), Flat(500.0, 0.0)]
    ensures !LinesWithin(project, whole, half, 30.0) && !LinesWithin(project, half, whole, 30.0)
  {
    var flat, flatHalf := Projected(project, whole[0], whole), Projected(project, whole[0], half);
    FarEndNotNear(flatHalf);
    assert flat[1] == Flat(1000.0, 0.0) && !Near(flatHalf, 30.0, flat[1]);
  }

  /** Two places are as far apart as they are on the map around the first: the same place within thirty metres of it. */
  lemma {:induction false} MapMeasures(h: Hypot, project: Projection, a: Position, b: Position)
    requires IsHypot(h)
    ensures var d, p, q := MapGeometry(h, project).distance(a, b), project(a, a), project(a, b);
            && d >= 0.0 && d * d == (p.x - q.x) * (p.x - q.x) + (p.y - q.y) * (p.y - q.y)
            && (d <= 30.0 <==> Within(p, q, 30.0))
  {
    var d, p, q := Distance(h, project(a, a), project(a, b)), project(a, a), project(a, b);
    assert (q.x - p.x) * (q.x - p.x) == (p.x - q.x) * (p.x - q.x);
    assert (q.y - p.y) * (q.y - p.y) == (p.y - q.y) * (p.y - q.y);
    SquareOrder(d, 30.0);
  }
}
