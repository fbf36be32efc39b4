/**
  Links proposed by geometry (src/server/link_check.rs and
  src/server/repo/link/proposal.rs), and those the owner confirms, makes,
  dismisses or removes. The store is a class whose fields are the tables; a
  lookup by extent is any relation that loses nothing within the distance
  asked for.
*/
module LinkCheck {
  import opened Wrappers
  import opened LineGrid
  import opened LinkMatch

  datatype TripKind = Recorded | Planned

  datatype Trip = Trip(kind: TripKind, line: seq<Position>)

  datatype Pair =
    | Plan(recorded: int, planned: int)
    | Track(trip: int, track: int)
    | Waypoint(trip: int, waypoint: int)

  /** The figures stored with a proposed link; one to a waypoint has none. */
  datatype Proposal = Proposal(planCovered: Option<real>, tripOnPlan: Option<real>, pointsReached: Option<real>)

  function ProposalOf(c: Coverage): Proposal {
    match c.judged
    case ByLine => Proposal(Some(c.planCovered), Some(c.tripOnPlan), None)
    case ByPoints => Proposal(None, None, Some(c.pointsReached))
  }

  const PASSED := Proposal(None, None, None)

  /** The trips, tracks and waypoints a link may join. */
  datatype Contents = Contents(
    trips: map<int, Trip>,
    tracks: map<int, seq<Position>>,
    waypoints: map<int, Position>)

  /** How lengths are measured, positions projected, and what a lookup by extent finds. */
  datatype Geography = Geography(
    hypot: Hypot,
    project: Projection,
    overlaps: (seq<Position>, real, seq<Position>) -> bool)
  {
    /** A lookup around a line finds every line with a point within the distance of one of its own. */
    ghost predicate Sound() {
      && IsHypot(hypot)
      && forall a: seq<Position>, b: seq<Position>, reach: real, origin: Position ::
           && a != [] && b != [] && (origin == a[0] || origin == b[0])
           && Meet(Projected(project, origin, a), Projected(project, origin, b), reach)
           ==> overlaps(a, reach, b)
    }
  }

  ghost function Judged(geo: Geography, trip: seq<Position>, plan: seq<Position>): Option<Proposal> {
    match FollowingAt(geo.hypot, geo.project, trip, plan, CONFIGURED)
    case Some(coverage) => Some(ProposalOf(coverage))
    case None => None
  }

  /** What a pair is to be proposed on, worked out from the contents alone. */
  ghost function Verdict(geo: Geography, c: Contents, pair: Pair): Option<Proposal> {
    match pair
    case Plan(r, p) =>
      if r in c.trips && p in c.trips && c.trips[r].kind.Recorded? && c.trips[p].kind.Planned? then
        Judged(geo, c.trips[r].line, c.trips[p].line)
      else None
    case Track(t, k) =>
      if t in c.trips && k in c.tracks then Judged(geo, c.trips[t].line, c.tracks[k]) else None
    case Waypoint(t, w) =>
      if t in c.trips && w in c.waypoints && PassesAt(geo.project, c.trips[t].line, c.waypoints[w], CONFIGURED) then
        Some(PASSED)
      else None
  }

  /** What the archive goes by: its contents, what is linked, and what the owner put away since it was last checked. */
  datatype Known = Known(contents: Contents, linked: set<Pair>, away: set<Pair>)

  /** What a pair is proposed on: what geometry says, unless it is linked or was put away. */
  ghost function Due(geo: Geography, k: Known, pair: Pair): Option<Proposal> {
    if pair in k.linked || pair in k.away then None else Verdict(geo, k.contents, pair)
  }

  function ProposedOn(proposals: map<Pair, Proposal>, pair: Pair): Option<Proposal> {
    if pair in proposals then Some(proposals[pair]) else None
  }

  /** The proposals are exactly the pairs due, each on what it is due on. */
  ghost predicate UpToDate(geo: Geography, k: Known, proposals: map<Pair, Proposal>) {
    forall pair :: Due(geo, k, pair) == ProposedOn(proposals, pair)
  }

  /** So they are what the rest makes them, in whatever order that came. */
  lemma {:induction false} OrderIgnored(geo: Geography, k: Known, one: map<Pair, Proposal>, other: map<Pair, Proposal>)
    requires UpToDate(geo, k, one) && UpToDate(geo, k, other)
    ensures one == other
  {
    forall pair ensures ProposedOn(one, pair) == ProposedOn(other, pair) {
      assert Due(geo, k, pair) == ProposedOn(one, pair);
    }
    forall pair ensures pair in one <==> pair in other {
      assert ProposedOn(one, pair) == ProposedOn(other, pair);
    }
    forall pair | pair in one ensures one[pair] == other[pair] {
      assert ProposedOn(one, pair) == ProposedOn(other, pair);
    }
  }

  /** A trip that followed a plan is found near it, and the plan near the trip. */
  lemma {:induction false} FollowedIsNear(geo: Geography, trip: seq<Position>, plan: seq<Position>)
    requires geo.Sound() && Judged(geo, trip, plan).Some?
    ensures trip != [] && plan != []
    ensures geo.overlaps(trip, Reach(CONFIGURED), plan) && geo.overlaps(plan, Reach(CONFIGURED), trip)
  {
    var a, b := Projected(geo.project, plan[0], trip), Projected(geo.project, plan[0], plan);
    ReachLosesNothing(geo.hypot, a, b, CONFIGURED);
    MeetSymmetric(a, b, Reach(CONFIGURED));
  }

  lemma {:induction false} MeetSymmetric(a: Line, b: Line, reach: real)
    requires Meet(a, b, reach)
    ensures Meet(b, a, reach)
  {
    var p, q :| OnLine(a, p) && OnLine(b, q) && Within(p, q, reach);
    WithinSymmetric(p, q, reach);
  }

  /** A waypoint a line passed is found near it, and the line near the waypoint. */
  lemma {:induction false} PassedIsNear(geo: Geography, line: seq<Position>, at: Position)
    requires geo.Sound() && PassesAt(geo.project, line, at, CONFIGURED)
    ensures line != []
    ensures geo.overlaps(line, Reach(CONFIGURED), [at]) && geo.overlaps([at], CONFIGURED.waypointDistance, line)
  {
    var a, p := Projected(geo.project, line[0], line), geo.project(line[0], at);
    PassedMeets(a, p, CONFIGURED);
    assert Projected(geo.project, line[0], [at]) == [p];
    MeetSymmetric(a, [p], CONFIGURED.waypointDistance);
  }

  // ------------------------------------------------------------- a check

  type Found = seq<(Pair, Proposal)>

  ghost predicate Lists(found: Found, pair: Pair) {
    exists k :: 0 <= k < |found| && found[k].0 == pair
  }

  ghost predicate Correct(geo: Geography, c: Contents, found: Found) {
    forall k :: 0 <= k < |found| ==> Verdict(geo, c, found[k].0) == Some(found[k].1)
  }

  /** What a check looks for links of. */
  datatype Scope = OfTrip(id: int) | OfItems(tracks: set<int>, waypoints: set<int>) {
    predicate Concerns(pair: Pair) {
      match this
      case OfTrip(id) =>
        (match pair
         case Plan(r, p) => r == id || p == id
         case Track(t, _) => t == id
         case Waypoint(t, _) => t == id)
      case OfItems(tracks, waypoints) =>
        (match pair
         case Plan(_, _) => false
         case Track(_, k) => k in tracks
         case Waypoint(_, w) => w in waypoints)
    }
  }

  /** What was proposed before stays; what is new is right, not linked, and within the scope nothing else is missing. */
  ghost predicate Checked(geo: Geography, c: Contents, linked: set<Pair>, before: map<Pair, Proposal>,
                          after: map<Pair, Proposal>, scope: Scope)
  {
    && (forall pair :: pair in before ==> pair in after && after[pair] == before[pair])
    && (forall pair :: pair in after && pair !in before
                       ==> scope.Concerns(pair) && pair !in linked && Verdict(geo, c, pair) == Some(after[pair]))
    && (forall pair :: scope.Concerns(pair) && Verdict(geo, c, pair).Some? && pair !in linked ==> pair in after)
  }

  /** Inserting what was found, a pair already there staying as it is. */
  function Inserted(proposals: map<Pair, Proposal>, linked: set<Pair>, found: Found): map<Pair, Proposal>
    decreases |found|
  {
    if found == [] then proposals
    else
      var (pair, proposal) := found[0];
      var more := if pair in proposals || pair in linked then proposals else proposals[pair := proposal];
      Inserted(more, linked, found[1..])
  }

  lemma {:induction false} ListsTail(found: Found, pair: Pair)
    requires found != []
    ensures Lists(found, pair) <==> found[0].0 == pair || Lists(found[1..], pair)
  {
    if Lists(found, pair) {
      var k :| 0 <= k < |found| && found[k].0 == pair;
      if k > 0 { assert found[1..][k - 1].0 == pair; }
    }
    if Lists(found[1..], pair) {
      var k :| 0 <= k < |found[1..]| && found[1..][k].0 == pair;
      assert found[k + 1].0 == pair;
    }
  }

  lemma {:induction false} InsertedKeeps(proposals: map<Pair, Proposal>, linked: set<Pair>, found: Found, pair: Pair)
    ensures var after := Inserted(proposals, linked, found);
            && (pair in after <==> pair in proposals || (Lists(found, pair) && pair !in linked))
            && (pair in proposals ==> after[pair] == proposals[pair])
            && (pair in after && pair !in proposals ==> (pair, after[pair]) in found)
    decreases |found|
  {
    if found != [] {
      var (p, proposal) := found[0];
      var first := if p in proposals || p in linked then proposals else proposals[p := proposal];
      InsertedKeeps(first, linked, found[1..], pair);
      ListsTail(found, pair);
      assert found[0] in found;
    }
  }

  lemma {:induction false} CheckedBy(geo: Geography, c: Contents, linked: set<Pair>, before: map<Pair, Proposal>,
                                     found: Found, scope: Scope)
    requires Correct(geo, c, found)
    requires forall pair :: Lists(found, pair) ==> scope.Concerns(pair)
    requires forall pair :: scope.Concerns(pair) && Verdict(geo, c, pair).Some? ==> Lists(found, pair)
    ensures Checked(geo, c, linked, before, Inserted(before, linked, found), scope)
  {
    var after := Inserted(before, linked, found);
    forall pair
      ensures pair in after <==> pair in before || (Lists(found, pair) && pair !in linked)
      ensures pair in before ==> after[pair] == before[pair]
      ensures pair in after && pair !in before ==> Verdict(geo, c, pair) == Some(after[pair])
    {
      InsertedKeeps(before, linked, found, pair);
    }
  }

  // ------------------------------------------------------ what happens to it

  datatype Event =
    | TripEntered(id: int, trip: Trip)
    | ItemsEntered(tracks: map<int, seq<Position>>, waypoints: map<int, Position>)
    | TripCheckedAgain(id: int)
    | ItemsCheckedAgain(trackIds: set<int>, waypointIds: set<int>)
    | Confirmed(pairs: seq<Pair>)
    | Dismissed(pairs: seq<Pair>)
    | Linked(ends: set<Pair>)
    | Unlinked(pair: Pair)
    | Deleted(scope: Scope)

  /** What does not concern the scope. */
  function Outside(pairs: set<Pair>, scope: Scope): set<Pair> {
    set pair | pair in pairs && !scope.Concerns(pair)
  }

  function Without(c: Contents, scope: Scope): Contents {
    match scope
    case OfTrip(id) => c.(trips := c.trips - {id})
    case OfItems(tracks, waypoints) => c.(tracks := c.tracks - tracks, waypoints := c.waypoints - waypoints)
  }

  function PairSet(pairs: seq<Pair>): set<Pair> {
    set k | 0 <= k < |pairs| :: pairs[k]
  }

  /** Whether each of `pairs`, none of them twice, is a proposal. */
  ghost predicate AllDue(geo: Geography, k: Known, pairs: seq<Pair>) {
    && (forall i :: 0 <= i < |pairs| ==> Due(geo, k, pairs[i]).Some?)
    && (forall i, j :: 0 <= i < j < |pairs| ==> pairs[i] != pairs[j])
  }

  ghost function After(geo: Geography, k: Known, e: Event): Known {
    match e
    case TripEntered(id, trip) =>
      k.(contents := k.contents.(trips := k.contents.trips[id := trip]), away := Outside(k.away, OfTrip(id)))
    case ItemsEntered(tracks, waypoints) =>
      k.(contents := k.contents.(tracks := k.contents.tracks + tracks, waypoints := k.contents.waypoints + waypoints),
         away := Outside(k.away, OfItems(tracks.Keys, waypoints.Keys)))
    case TripCheckedAgain(id) => k.(away := Outside(k.away, OfTrip(id)))
    case ItemsCheckedAgain(tracks, waypoints) => k.(away := Outside(k.away, OfItems(tracks, waypoints)))
    case Confirmed(pairs) => if AllDue(geo, k, pairs) then k.(linked := k.linked + PairSet(pairs)) else k
    case Dismissed(pairs) => if AllDue(geo, k, pairs) then k.(away := k.away + PairSet(pairs)) else k
    case Linked(ends) => k.(linked := k.linked + ends)
    case Unlinked(pair) => k.(linked := k.linked - {pair}, away := k.away + {pair})
    case Deleted(scope) => k.(contents := Without(k.contents, scope), linked := Outside(k.linked, scope))
  }

  ghost function AfterAll(geo: Geography, k: Known, events: seq<Event>): Known
    decreases |events|
  {
    if events == [] then k else AfterAll(geo, After(geo, k, events[0]), events[1..])
  }

  /** A trip that enters is new; collection items may be new or replaced. */
  ghost predicate Possible(geo: Geography, k: Known, events: seq<Event>)
    decreases |events|
  {
    events != [] ==>
      && (events[0].TripEntered? ==> events[0].id !in k.contents.trips)
      && Possible(geo, After(geo, k, events[0]), events[1..])
  }

  function Forgotten(proposals: map<Pair, Proposal>, scope: Scope): map<Pair, Proposal> {
    map pair | pair in proposals && !scope.Concerns(pair) :: proposals[pair]
  }

  lemma {:induction false} TripEnteredUpToDate(geo: Geography, k: Known, id: int, trip: Trip,
                                               before: map<Pair, Proposal>, after: map<Pair, Proposal>)
    requires UpToDate(geo, k, before) && id !in k.contents.trips
    requires Checked(geo, After(geo, k, TripEntered(id, trip)).contents, k.linked, before, after, OfTrip(id))
    ensures UpToDate(geo, After(geo, k, TripEntered(id, trip)), after)
  {
    var next := After(geo, k, TripEntered(id, trip));
    forall pair ensures Due(geo, next, pair) == ProposedOn(after, pair) {
      assert Due(geo, k, pair) == ProposedOn(before, pair);
      if !OfTrip(id).Concerns(pair) {
        assert Verdict(geo, next.contents, pair) == Verdict(geo, k.contents, pair);
      }
    }
  }

  lemma {:induction false} ItemsEnteredUpToDate(geo: Geography, k: Known, e: Event, before: map<Pair, Proposal>,
                                                after: map<Pair, Proposal>)
    requires UpToDate(geo, k, before) && e.ItemsEntered?
    requires var scope := OfItems(e.tracks.Keys, e.waypoints.Keys);
             Checked(geo, After(geo, k, e).contents, k.linked, Forgotten(before, scope), after, scope)
    ensures UpToDate(geo, After(geo, k, e), after)
  {
    var next, scope := After(geo, k, e), OfItems(e.tracks.Keys, e.waypoints.Keys);
    forall pair ensures Due(geo, next, pair) == ProposedOn(after, pair) {
      assert Due(geo, k, pair) == ProposedOn(before, pair);
      if !scope.Concerns(pair) {
        assert Verdict(geo, next.contents, pair) == Verdict(geo, k.contents, pair);
      }
    }
  }

  /** Checking once more proposes again what was put away, and changes nothing else. */
  lemma {:induction false} CheckedAgainUpToDate(geo: Geography, k: Known, scope: Scope,
                                                before: map<Pair, Proposal>, after: map<Pair, Proposal>)
    requires UpToDate(geo, k, before) && Checked(geo, k.contents, k.linked, before, after, scope)
    ensures UpToDate(geo, k.(away := Outside(k.away, scope)), after)
    ensures forall pair :: pair in after && pair !in before ==> pair in k.away
  {
    forall pair
      ensures Due(geo, k.(away := Outside(k.away, scope)), pair) == ProposedOn(after, pair)
      ensures pair in after && pair !in before ==> pair in k.away
    {
      assert Due(geo, k, pair) == ProposedOn(before, pair);
    }
  }

  lemma {:induction false} PairSetHas(pairs: seq<Pair>, pair: Pair)
    ensures pair in PairSet(pairs) <==> pair in pairs
  {
  }

  lemma {:induction false} OneMoreDue(geo: Geography, k: Known, proposals: map<Pair, Proposal>, pairs: seq<Pair>,
                                      n: nat)
    requires UpToDate(geo, k, proposals) && n < |pairs| && AllDue(geo, k, pairs[..n])
    ensures AllDue(geo, k, pairs[..n + 1]) <==> pairs[n] in proposals - PairSet(pairs[..n])
    ensures AllDue(geo, k, pairs) ==> AllDue(geo, k, pairs[..n + 1])
    ensures PairSet(pairs[..n + 1]) == PairSet(pairs[..n]) + {pairs[n]}
  {
    var some, more := pairs[..n], pairs[..n + 1];
    assert more == some + [pairs[n]];
    PairSetHas(some, pairs[n]);
    assert Due(geo, k, pairs[n]) == ProposedOn(proposals, pairs[n]);
    forall pair ensures pair in PairSet(more) <==> pair in PairSet(some) || pair == pairs[n] {
      PairSetHas(more, pair);
      PairSetHas(some, pair);
    }
    if AllDue(geo, k, more) {
      assert more[n] == pairs[n] && Due(geo, k, more[n]).Some?;
      assert forall i :: 0 <= i < n ==> more[i] == some[i] && more[i] != more[n];
    }
  }

  /** What leaves the proposals, linked or put away, is not due any more, and nothing else changes. */
  lemma {:induction false} TakenOutUpToDate(geo: Geography, k: Known, next: Known, before: map<Pair, Proposal>,
                                            out: set<Pair>)
    requires UpToDate(geo, k, before) && next.contents == k.contents
    requires forall pair :: pair in out ==> pair in next.linked + next.away
    requires forall pair :: pair !in out ==> (pair in next.linked + next.away <==> pair in k.linked + k.away)
    ensures UpToDate(geo, next, before - out)
  {
    forall pair ensures Due(geo, next, pair) == ProposedOn(before - out, pair) {
      assert Due(geo, k, pair) == ProposedOn(before, pair);
      assert pair in next.linked + next.away <==> pair in next.linked || pair in next.away;
      assert pair in k.linked + k.away <==> pair in k.linked || pair in k.away;
    }
  }

  lemma {:induction false} DeletedUpToDate(geo: Geography, k: Known, scope: Scope, before: map<Pair, Proposal>)
    requires UpToDate(geo, k, before)
    ensures UpToDate(geo, After(geo, k, Deleted(scope)), Forgotten(before, scope))
  {
    var next := After(geo, k, Deleted(scope));
    forall pair ensures Due(geo, next, pair) == ProposedOn(Forgotten(before, scope), pair) {
      assert Due(geo, k, pair) == ProposedOn(before, pair);
      if !scope.Concerns(pair) {
        assert Verdict(geo, next.contents, pair) == Verdict(geo, k.contents, pair);
      }
    }
  }

  /** An event leaves a link alone unless it removes it, or an end of it. */
  predicate Spares(e: Event, pair: Pair) {
    !(e.Unlinked? && e.pair == pair) && !(e.Deleted? && e.scope.Concerns(pair))
  }

  /** A link is never proposed again, whatever is checked, as long as it and its ends are there. */
  lemma {:induction false} LinkedIsNeverDue(geo: Geography, k: Known, events: seq<Event>, pair: Pair)
    requires pair in k.linked && forall i :: 0 <= i < |events| ==> Spares(events[i], pair)
    ensures pair in AfterAll(geo, k, events).linked && Due(geo, AfterAll(geo, k, events), pair) == None
    decreases |events|
  {
    if events != [] {
      assert Spares(events[0], pair);
      LinkedIsNeverDue(geo, After(geo, k, events[0]), events[1..], pair);
    }
  }

  /** What an event looks for links of. */
  function Looks(e: Event): Option<Scope> {
    match e
    case TripEntered(id, _) => Some(OfTrip(id))
    case ItemsEntered(tracks, waypoints) => Some(OfItems(tracks.Keys, waypoints.Keys))
    case TripCheckedAgain(id) => Some(OfTrip(id))
    case ItemsCheckedAgain(tracks, waypoints) => Some(OfItems(tracks, waypoints))
    case _ => None
  }

  predicate LooksAt(e: Event, pair: Pair) {
    Looks(e).Some? && Looks(e).value.Concerns(pair)
  }

  /**
    A dismissed proposal stays away, whatever happens, until an end of it is
    checked again. It comes back then exactly if geometry says so and it is
    not linked by now.
  */
  lemma {:induction false} DismissedUntilChecked(geo: Geography, k: Known, events: seq<Event>, e: Event, pair: Pair)
    requires pair in k.away && forall i :: 0 <= i < |events| ==> !LooksAt(events[i], pair)
    ensures var was := AfterAll(geo, k, events);
            var next := After(geo, was, e);
            && Due(geo, was, pair) == None
            && (Due(geo, next, pair).Some?
                <==> LooksAt(e, pair) && pair !in was.linked && Verdict(geo, next.contents, pair).Some?)
    decreases |events|
  {
    if events != [] {
      assert !LooksAt(events[0], pair);
      DismissedUntilChecked(geo, After(geo, k, events[0]), events[1..], e, pair);
    }
  }

  // --------------------------------------------------------------- the store

  lemma {:induction false} ListsAppend(a: Found, b: Found, pair: Pair)
    ensures Lists(a + b, pair) <==> Lists(a, pair) || Lists(b, pair)
  {
    if Lists(a, pair) {
      var k :| 0 <= k < |a| && a[k].0 == pair;
      assert (a + b)[k].0 == pair;
    }
    if Lists(b, pair) {
      var k :| 0 <= k < |b| && b[k].0 == pair;
      assert (a + b)[|a| + k].0 == pair;
    }
  }

  lemma {:induction false} ListsPush(found: Found, pair: Pair, proposal: Proposal)
    ensures forall other :: Lists(found + [(pair, proposal)], other) <==> Lists(found, other) || other == pair
  {
    forall other
      ensures Lists(found + [(pair, proposal)], other) <==> Lists(found, other) || other == pair
    {
      ListsAppend(found, [(pair, proposal)], other);
      if other == pair { assert [(pair, proposal)][0].0 == other; }
    }
  }

  /** A pair of a trip and a plan or track, both of which exist. */
  predicate Judgeable(c: Contents, pair: Pair) {
    match pair
    case Plan(r, p) => r in c.trips && p in c.trips && c.trips[r].kind.Recorded? && c.trips[p].kind.Planned?
    case Track(t, k) => t in c.trips && k in c.tracks
    case Waypoint(_, _) => false
  }

  lemma {:induction false} HasMember<T>(s: set<T>)
    ensures s == {} || exists x :: x in s
  {
    if !exists x :: x in s {
      assert s == {};
    }
  }

  /** Two lists of what was found, each complete for its pairs, are complete for a scope the pairs suffice for. */
  lemma {:induction false} CheckedByBoth(geo: Geography, c: Contents, linked: set<Pair>, before: map<Pair, Proposal>,
                                         a: Found, b: Found, pairs: set<Pair>, more: set<Pair>, scope: Scope)
    requires Correct(geo, c, a) && Correct(geo, c, b)
    requires forall pair :: Lists(a, pair) <==> pair in pairs && Verdict(geo, c, pair).Some?
    requires forall pair :: Lists(b, pair) <==> pair in more && Verdict(geo, c, pair).Some?
    requires forall pair :: pair in pairs + more ==> scope.Concerns(pair)
    requires forall pair :: scope.Concerns(pair) && Verdict(geo, c, pair).Some? ==> pair in pairs + more
    ensures Checked(geo, c, linked, before, Inserted(before, linked, a + b), scope)
  {
    forall pair ensures Lists(a + b, pair) <==> Lists(a, pair) || Lists(b, pair) {
      ListsAppend(a, b, pair);
    }
    forall k | 0 <= k < |a + b|
      ensures Verdict(geo, c, (a + b)[k].0) == Some((a + b)[k].1)
    {
      assert (a + b)[k] == if k < |a| then a[k] else b[k - |a|];
    }
    CheckedBy(geo, c, linked, before, a + b, scope);
  }

  lemma {:induction false} OnlyOnePassed(project: Projection, line: seq<Position>, at: Position, passed: seq<nat>)
    requires forall k :: 0 <= k < |passed| ==> passed[k] < 1 && PassesAt(project, line, [at][passed[k]], CONFIGURED)
    requires forall i: nat :: i < 1 && PassesAt(project, line, [at][i], CONFIGURED) ==> i in passed
    ensures passed != [] <==> PassesAt(project, line, at, CONFIGURED)
  {
    if PassesAt(project, line, at, CONFIGURED) {
      assert PassesAt(project, line, [at][0], CONFIGURED);
    }
    if passed != [] {
      assert [at][passed[0]] == at;
    }
  }

  class Archive {
    const geo: Geography
    var contents: Contents
    var proposals: map<Pair, Proposal>
    var linked: set<Pair>
    ghost var away: set<Pair>

    ghost function Now(): Known
      reads this
    {
      Known(contents, linked, away)
    }

    ghost predicate Current()
      reads this
    {
      geo.Sound() && UpToDate(geo, Now(), proposals)
    }

    constructor (geo: Geography)
      requires geo.Sound()
      ensures this.geo == geo && Now() == Known(Contents(map[], map[], map[]), {}, {}) && proposals == map[]
      ensures Current()
    {
      this.geo := geo;
      contents, proposals, linked, away := Contents(map[], map[], map[]), map[], {}, {};
    }

    // The lookups by extent: rows in no particular order.

    function TripsNear(kind: TripKind, query: seq<Position>, reach: real): set<int>
      reads this
    {
      set id | id in contents.trips && contents.trips[id].kind == kind
               && geo.overlaps(query, reach, contents.trips[id].line)
    }

    function AllTripsNear(query: seq<Position>, reach: real): set<int>
      reads this
    {
      TripsNear(Recorded, query, reach) + TripsNear(Planned, query, reach)
    }

    function TracksNear(query: seq<Position>, reach: real): set<int>
      reads this
    {
      set id | id in contents.tracks && geo.overlaps(query, reach, contents.tracks[id])
    }

    function WaypointsNear(query: seq<Position>, reach: real): set<int>
      reads this
    {
      set id | id in contents.waypoints && geo.overlaps(query, reach, [contents.waypoints[id]])
    }

    /** The pairs judged followed, each with its figures. */
    method Followings(pairs: set<Pair>) returns (found: Found)
      requires geo.Sound() && forall pair :: pair in pairs ==> Judgeable(contents, pair)
      ensures Correct(geo, contents, found)
      ensures forall pair :: Lists(found, pair) <==> pair in pairs && Verdict(geo, contents, pair).Some?
    {
      found := [];
      var rest := pairs;
      while rest != {}
        invariant rest <= pairs
        invariant Correct(geo, contents, found)
        invariant forall pair :: Lists(found, pair) <==> pair in pairs - rest && Verdict(geo, contents, pair).Some?
        decreases rest
      {
        HasMember(rest);
        var pair :| pair in rest;
        rest := rest - {pair};
        var (trip, plan) := match pair
          case Plan(r, p) => (contents.trips[r].line, contents.trips[p].line)
          case Track(t, track) => (contents.trips[t].line, contents.tracks[track]);
        var coverage := FollowedAt(geo.hypot, geo.project, trip, plan, CONFIGURED);
        if coverage.Some? {
          ListsPush(found, pair, ProposalOf(coverage.value));
          found := found + [(pair, ProposalOf(coverage.value))];
        }
      }
    }

    /** The pairs judged passed. */
    method Passed(pairs: set<Pair>) returns (found: Found)
      requires geo.Sound()
      requires forall pair :: pair in pairs ==> pair.Waypoint? && pair.trip in contents.trips
                                                && pair.waypoint in contents.waypoints
      ensures Correct(geo, contents, found)
      ensures forall pair :: Lists(found, pair) <==> pair in pairs && Verdict(geo, contents, pair).Some?
    {
      found := [];
      var rest := pairs;
      while rest != {}
        invariant rest <= pairs
        invariant Correct(geo, contents, found)
        invariant forall pair :: Lists(found, pair) <==> pair in pairs - rest && Verdict(geo, contents, pair).Some?
        decreases rest
      {
        HasMember(rest);
        var pair :| pair in rest;
        rest := rest - {pair};
        var at := contents.waypoints[pair.waypoint];
        var line := contents.trips[pair.trip].line;
        var passed := WaypointsPassedAt(geo.hypot, geo.project, line, [at], CONFIGURED);
        OnlyOnePassed(geo.project, line, at, passed);
        if passed != [] {
          ListsPush(found, pair, PASSED);
          found := found + [(pair, PASSED)];
        }
      }
    }

    /** The insertion, which ignores pairs that are there, and counts the others. */
    method Propose(found: Found) returns (count: nat)
      modifies this`proposals
      ensures proposals == Inserted(old(proposals), linked, found)
      ensures count == |proposals| - |old(proposals)|
    {
      count := 0;
      assert found[0..] == found;
      for k := 0 to |found|
        invariant Inserted(proposals, linked, found[k..]) == Inserted(old(proposals), linked, found)
        invariant count == |proposals| - |old(proposals)|
      {
        assert found[k..][1..] == found[k + 1..];
        var (pair, proposal) := found[k];
        if pair !in proposals && pair !in linked {
          proposals := proposals[pair := proposal];
          count := count + 1;
        }
      }
    }

    /** The pairs a check of a trip judges: it with every plan or planned trip near it, and every track. */
    function PairsOfTrip(id: int): (pairs: set<Pair>)
      requires id in contents.trips
      reads this
    {
      var trip := contents.trips[id];
      (match trip.kind
       case Recorded => set other | other in TripsNear(Planned, trip.line, Reach(CONFIGURED)) :: Plan(id, other)
       case Planned => set other | other in TripsNear(Recorded, trip.line, Reach(CONFIGURED)) :: Plan(other, id))
      + (set track | track in TracksNear(trip.line, Reach(CONFIGURED)) :: Track(id, track))
    }

    function WaypointPairsOfTrip(id: int): set<Pair>
      requires id in contents.trips
      reads this
    {
      set w | w in WaypointsNear(contents.trips[id].line, Reach(CONFIGURED)) :: Waypoint(id, w)
    }

    function PairsOfItems(tracks: set<int>): set<Pair>
      reads this
    {
      set k, t | k in tracks && k in contents.tracks && contents.tracks[k] != []
                 && t in AllTripsNear(contents.tracks[k], Reach(CONFIGURED))
        :: Track(t, k)
    }

    function WaypointPairsOfItems(waypoints: set<int>): set<Pair>
      reads this
    {
      set w, t | w in waypoints && w in contents.waypoints
                 && t in AllTripsNear([contents.waypoints[w]], CONFIGURED.waypointDistance)
        :: Waypoint(t, w)
    }

    /** Looking only near the trip misses nothing it is to be linked to. */
    lemma {:induction false} TripPairsSuffice(id: int, pair: Pair)
      requires geo.Sound() && id in contents.trips
      requires OfTrip(id).Concerns(pair) && Verdict(geo, contents, pair).Some?
      ensures pair in PairsOfTrip(id) + WaypointPairsOfTrip(id)
    {
      match pair
      case Plan(r, p) => FollowedIsNear(geo, contents.trips[r].line, contents.trips[p].line);
      case Track(t, k) => FollowedIsNear(geo, contents.trips[t].line, contents.tracks[k]);
      case Waypoint(t, w) => PassedIsNear(geo, contents.trips[t].line, contents.waypoints[w]);
    }

    /** Looking only near each item misses no trip that is to be linked to it. */
    lemma {:induction false} ItemPairsSuffice(tracks: set<int>, waypoints: set<int>, pair: Pair)
      requires geo.Sound()
      requires OfItems(tracks, waypoints).Concerns(pair) && Verdict(geo, contents, pair).Some?
      ensures pair in PairsOfItems(tracks) + WaypointPairsOfItems(waypoints)
    {
      match pair
      case Track(t, k) => FollowedIsNear(geo, contents.trips[t].line, contents.tracks[k]);
      case Waypoint(t, w) => PassedIsNear(geo, contents.trips[t].line, contents.waypoints[w]);
    }

    /** The check of one trip. */
    method CheckTrip(id: int) returns (count: Option<nat>)
      requires geo.Sound()
      modifies this`proposals
      ensures count.Some? <==> id in contents.trips
      ensures count.Some? ==> count.value == |proposals| - |old(proposals)|
      ensures Checked(geo, contents, linked, old(proposals), proposals, OfTrip(id))
    {
      if id !in contents.trips {
        return None;
      }
      if contents.trips[id].line == [] {
        return Some(0);
      }
      var found := Followings(PairsOfTrip(id));
      var passed := Passed(WaypointPairsOfTrip(id));
      forall pair | OfTrip(id).Concerns(pair) && Verdict(geo, contents, pair).Some?
        ensures pair in PairsOfTrip(id) + WaypointPairsOfTrip(id)
      {
        TripPairsSuffice(id, pair);
      }
      CheckedByBoth(geo, contents, linked, proposals, found, passed, PairsOfTrip(id), WaypointPairsOfTrip(id),
                    OfTrip(id));
      var added := Propose(found + passed);
      count := Some(added);
    }

    /** The check of some collection items. */
    method CheckCollectionItems(tracks: set<int>, waypoints: set<int>) returns (count: nat)
      requires geo.Sound()
      modifies this`proposals
      ensures count == |proposals| - |old(proposals)|
      ensures Checked(geo, contents, linked, old(proposals), proposals, OfItems(tracks, waypoints))
    {
      var scope := OfItems(tracks, waypoints);
      var found := Followings(PairsOfItems(tracks));
      var passed := Passed(WaypointPairsOfItems(waypoints));
      forall pair | scope.Concerns(pair) && Verdict(geo, contents, pair).Some?
        ensures pair in PairsOfItems(tracks) + WaypointPairsOfItems(waypoints)
      {
        ItemPairsSuffice(tracks, waypoints, pair);
      }
      CheckedByBoth(geo, contents, linked, proposals, found, passed, PairsOfItems(tracks),
                    WaypointPairsOfItems(waypoints), scope);
      count := Propose(found + passed);
    }

    /** Items that are new, or were replaced, lose their proposals and are checked. */
    method AfterItemsEntered(tracks: set<int>, waypoints: set<int>)
      requires geo.Sound()
      modifies this`proposals
      ensures var scope := OfItems(tracks, waypoints);
              Checked(geo, contents, linked, Forgotten(old(proposals), scope), proposals, scope)
    {
      proposals := Forgotten(proposals, OfItems(tracks, waypoints));
      var _ := CheckCollectionItems(tracks, waypoints);
    }

    /** Take every pair out of the proposals, all or none: not if one is no proposal, or not any more. */
    method Settle(pairs: seq<Pair>) returns (settled: bool)
      requires Current()
      modifies this`proposals
      ensures settled <==> AllDue(geo, Now(), pairs)
      ensures proposals == if settled then old(proposals) - PairSet(pairs) else old(proposals)
    {
      var rest := proposals;
      for k := 0 to |pairs|
        invariant proposals == old(proposals) && AllDue(geo, Now(), pairs[..k])
        invariant rest == proposals - PairSet(pairs[..k])
      {
        OneMoreDue(geo, Now(), proposals, pairs, k);
        if pairs[k] !in rest {
          return false;
        }
        rest := rest - {pairs[k]};
      }
      assert pairs[..|pairs|] == pairs;
      proposals := rest;
      settled := true;
    }

    /** Something happens to the archive; afterwards the proposals are exactly what is due. */
    method Happen(e: Event)
      requires Current() && (e.TripEntered? ==> e.id !in contents.trips)
      modifies this
      ensures Current() && Now() == After(geo, old(Now()), e)
    {
      ghost var before, was := proposals, Now();
      match e {
        case TripEntered(id, trip) =>
          contents := contents.(trips := contents.trips[id := trip]);
          away := Outside(away, OfTrip(id));
          var _ := CheckTrip(id);
          TripEnteredUpToDate(geo, was, id, trip, before, proposals);
        case ItemsEntered(tracks, waypoints) =>
          contents := contents.(tracks := contents.tracks + tracks, waypoints := contents.waypoints + waypoints);
          away := Outside(away, OfItems(tracks.Keys, waypoints.Keys));
          AfterItemsEntered(tracks.Keys, waypoints.Keys);
          ItemsEnteredUpToDate(geo, was, e, before, proposals);
        case TripCheckedAgain(id) =>
          away := Outside(away, OfTrip(id));
          var _ := CheckTrip(id);
          CheckedAgainUpToDate(geo, was, OfTrip(id), before, proposals);
        case ItemsCheckedAgain(tracks, waypoints) =>
          away := Outside(away, OfItems(tracks, waypoints));
          var _ := CheckCollectionItems(tracks, waypoints);
          CheckedAgainUpToDate(geo, was, OfItems(tracks, waypoints), before, proposals);
        case Confirmed(pairs) =>
          var settled := Settle(pairs);
          if settled {
            linked := linked + PairSet(pairs);
            TakenOutUpToDate(geo, was, Now(), before, PairSet(pairs));
          }
        case Dismissed(pairs) =>
          var settled := Settle(pairs);
          if settled {
            away := away + PairSet(pairs);
            TakenOutUpToDate(geo, was, Now(), before, PairSet(pairs));
          }
        case Linked(ends) =>
          proposals, linked := proposals - ends, linked + ends;
          TakenOutUpToDate(geo, was, Now(), before, ends);
        case Unlinked(pair) =>
          proposals, linked, away := proposals - {pair}, linked - {pair}, away + {pair};
          TakenOutUpToDate(geo, was, Now(), before, {pair});
        case Deleted(scope) =>
          contents, proposals, linked := Without(contents, scope), Forgotten(proposals, scope), Outside(linked, scope);
          DeletedUpToDate(geo, was, scope, before);
      }
    }

    /** Whatever happens, in whatever order, the proposals are exactly what is due. */
    method HappenAll(events: seq<Event>)
      requires Current() && Possible(geo, Now(), events)
      modifies this
      ensures Current() && Now() == AfterAll(geo, old(Now()), events)
    {
      assert events[0..] == events;
      for k := 0 to |events|
        invariant Current() && Possible(geo, Now(), events[k..])
        invariant AfterAll(geo, Now(), events[k..]) == AfterAll(geo, old(Now()), events)
      {
        assert events[k..][1..] == events[k + 1..];
        Happen(events[k]);
      }
    }
  }
}
