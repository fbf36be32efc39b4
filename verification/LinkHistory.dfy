/**
  What an archive goes by after any run of events (src/server/link_check.rs
  and src/server/repo/link/proposal.rs): for each link, each proposal put
  away and each trip or item, the last event that bears on it decides.
*/
module LinkHistory {
  import opened LineGrid
  import opened LinkCheck

  /** The archive before event `i`. */
  ghost function Before(geo: Geography, k: Known, events: seq<Event>, i: nat): Known {
    AfterAll(geo, k, if i <= |events| then events[..i] else events)
  }

  lemma {:induction false} OneMoreEvent(geo: Geography, k: Known, events: seq<Event>, e: Event)
    ensures AfterAll(geo, k, events + [e]) == After(geo, AfterAll(geo, k, events), e)
    decreases |events|
  {
    if events == [] {
      assert [e][1..] == [];
    } else {
      OneMoreEvent(geo, After(geo, k, events[0]), events[1..], e);
      assert (events + [e])[1..] == events[1..] + [e];
    }
  }

  lemma {:induction false} BeforeNext(geo: Geography, k: Known, events: seq<Event>, i: nat)
    requires i < |events|
    ensures Before(geo, k, events, i + 1) == After(geo, Before(geo, k, events, i), events[i])
  {
    assert events[..i + 1] == events[..i] + [events[i]];
    OneMoreEvent(geo, k, events[..i], events[i]);
  }

  lemma {:induction false} BeforeAll(geo: Geography, k: Known, events: seq<Event>)
    ensures Before(geo, k, events, 0) == k && Before(geo, k, events, |events|) == AfterAll(geo, k, events)
  {
    assert events[..|events|] == events;
  }

  /** Step `i` made it so, and no later one of `n` undid it. */
  ghost predicate LastSet(n: nat, sets: nat -> bool, clears: nat -> bool, i: nat) {
    i < n && sets(i) && forall j: nat :: i < j < n ==> !clears(j)
  }

  /** Nothing undid it. */
  ghost predicate NeverCleared(n: nat, clears: nat -> bool) {
    forall j: nat :: j < n ==> !clears(j)
  }

  /** What each step makes so, or undoes, or leaves, is so in the end exactly if the last of these made it so. */
  lemma {:induction false} LastDecides(n: nat, holds: nat -> bool, sets: nat -> bool, clears: nat -> bool)
    requires forall i: nat :: i < n ==> (holds(i + 1) <==> sets(i) || (holds(i) && !clears(i)))
    ensures holds(n) <==> (holds(0) && NeverCleared(n, clears)) || exists i: nat :: LastSet(n, sets, clears, i)
  {
    if n > 0 {
      var m := n - 1;
      LastDecides(m, holds, sets, clears);
      assert holds(m + 1) <==> sets(m) || (holds(m) && !clears(m));
      if sets(m) {
        assert LastSet(n, sets, clears, m);
      }
      if i: nat :| LastSet(m, sets, clears, i) && !clears(m) {
        assert LastSet(n, sets, clears, i);
      }
      if i: nat :| LastSet(n, sets, clears, i) && !sets(m) {
        assert LastSet(m, sets, clears, i);
      }
    }
  }

  // ------------------------------------------------------------------- links

  /** The owner makes a link: confirms it among proposals that all were due, or links its ends. */
  ghost predicate Joins(geo: Geography, k: Known, e: Event, pair: Pair) {
    (e.Confirmed? && AllDue(geo, k, e.pairs) && pair in e.pairs) || (e.Linked? && pair in e.ends)
  }

  /** Joined by event `i`, and neither taken apart nor deprived of an end later. */
  ghost predicate JoinedAt(geo: Geography, k: Known, events: seq<Event>, pair: Pair, i: nat) {
    && i < |events| && Joins(geo, Before(geo, k, events, i), events[i], pair)
    && forall j: nat :: i < j < |events| ==> Spares(events[j], pair)
  }

  lemma {:induction false} LinkedNext(geo: Geography, k: Known, e: Event, pair: Pair)
    ensures pair in After(geo, k, e).linked <==> Joins(geo, k, e, pair) || (pair in k.linked && Spares(e, pair))
  {
  }

  /** Linked is exactly what the owner linked, and has not unlinked since, nor removed a trip or an item of. */
  lemma {:induction false} LinkedExactly(geo: Geography, k: Known, events: seq<Event>, pair: Pair)
    ensures pair in AfterAll(geo, k, events).linked <==>
              || (pair in k.linked && forall j: nat :: j < |events| ==> Spares(events[j], pair))
              || exists i: nat :: JoinedAt(geo, k, events, pair, i)
  {
    var n := |events|;
    var holds := (i: nat) => pair in Before(geo, k, events, i).linked;
    var sets := (i: nat) => i < n && Joins(geo, Before(geo, k, events, i), events[i], pair);
    var clears := (i: nat) => i < n && !Spares(events[i], pair);
    forall i: nat | i < n ensures holds(i + 1) <==> sets(i) || (holds(i) && !clears(i)) {
      BeforeNext(geo, k, events, i);
      LinkedNext(geo, Before(geo, k, events, i), events[i], pair);
    }
    LastDecides(n, holds, sets, clears);
    BeforeAll(geo, k, events);
    assert forall j: nat :: j < n ==> (clears(j) <==> !Spares(events[j], pair));
    forall i: nat ensures LastSet(n, sets, clears, i) <==> JoinedAt(geo, k, events, pair, i) {
      assert i < n ==> (sets(i) <==> Joins(geo, Before(geo, k, events, i), events[i], pair));
    }
  }

  // --------------------------------------------------------------- put away

  /** The owner puts a proposal away: dismisses it among proposals that all were due, or unlinks what it was. */
  ghost predicate PutsAway(geo: Geography, k: Known, e: Event, pair: Pair) {
    (e.Dismissed? && AllDue(geo, k, e.pairs) && pair in e.pairs) || (e.Unlinked? && e.pair == pair)
  }

  ghost predicate PutAwayAt(geo: Geography, k: Known, events: seq<Event>, pair: Pair, i: nat) {
    && i < |events| && PutsAway(geo, Before(geo, k, events, i), events[i], pair)
    && forall j: nat :: i < j < |events| ==> !LooksAt(events[j], pair)
  }

  lemma {:induction false} AwayNext(geo: Geography, k: Known, e: Event, pair: Pair)
    ensures pair in After(geo, k, e).away <==> PutsAway(geo, k, e, pair) || (pair in k.away && !LooksAt(e, pair))
  {
  }

  /** Put away is exactly what the owner dismissed or unlinked, and no check has looked at since. */
  lemma {:induction false} AwayExactly(geo: Geography, k: Known, events: seq<Event>, pair: Pair)
    ensures pair in AfterAll(geo, k, events).away <==>
              || (pair in k.away && forall j: nat :: j < |events| ==> !LooksAt(events[j], pair))
              || exists i: nat :: PutAwayAt(geo, k, events, pair, i)
  {
    var n := |events|;
    var holds := (i: nat) => pair in Before(geo, k, events, i).away;
    var sets := (i: nat) => i < n && PutsAway(geo, Before(geo, k, events, i), events[i], pair);
    var clears := (i: nat) => i < n && LooksAt(events[i], pair);
    forall i: nat | i < n ensures holds(i + 1) <==> sets(i) || (holds(i) && !clears(i)) {
      BeforeNext(geo, k, events, i);
      AwayNext(geo, Before(geo, k, events, i), events[i], pair);
    }
    LastDecides(n, holds, sets, clears);
    BeforeAll(geo, k, events);
    assert forall j: nat :: j < n ==> (clears(j) <==> LooksAt(events[j], pair));
    forall i: nat ensures LastSet(n, sets, clears, i) <==> PutAwayAt(geo, k, events, pair, i) {
      assert i < n ==> (sets(i) <==> PutsAway(geo, Before(geo, k, events, i), events[i], pair));
    }
  }

  // ---------------------------------------------------------- what there is

  /** A trip, a track or a waypoint, and the id it goes by. */
  datatype Thing = ATrip(id: int, trip: Trip) | ATrack(id: int, line: seq<Position>) | AWaypoint(id: int, at: Position)

  ghost predicate Holds(c: Contents, thing: Thing) {
    match thing
    case ATrip(id, trip) => id in c.trips && c.trips[id] == trip
    case ATrack(id, line) => id in c.tracks && c.tracks[id] == line
    case AWaypoint(id, at) => id in c.waypoints && c.waypoints[id] == at
  }

  ghost predicate Enters(e: Event, thing: Thing) {
    match thing
    case ATrip(id, trip) => e.TripEntered? && e.id == id && e.trip == trip
    case ATrack(id, line) => e.ItemsEntered? && id in e.tracks && e.tracks[id] == line
    case AWaypoint(id, at) => e.ItemsEntered? && id in e.waypoints && e.waypoints[id] == at
  }

  /** Deleted, or replaced by another under its id. */
  ghost predicate Supersedes(e: Event, thing: Thing) {
    match thing
    case ATrip(id, _) => (e.TripEntered? && e.id == id) || (e.Deleted? && e.scope.OfTrip? && e.scope.id == id)
    case ATrack(id, _) =>
      (e.ItemsEntered? && id in e.tracks) || (e.Deleted? && e.scope.OfItems? && id in e.scope.tracks)
    case AWaypoint(id, _) =>
      (e.ItemsEntered? && id in e.waypoints) || (e.Deleted? && e.scope.OfItems? && id in e.scope.waypoints)
  }

  ghost predicate EnteredAt(events: seq<Event>, thing: Thing, i: nat) {
    i < |events| && Enters(events[i], thing) && forall j: nat :: i < j < |events| ==> !Supersedes(events[j], thing)
  }

  lemma {:induction false} HoldsNext(geo: Geography, k: Known, e: Event, thing: Thing)
    ensures Holds(After(geo, k, e).contents, thing)
       <==> Enters(e, thing) || (Holds(k.contents, thing) && !Supersedes(e, thing))
  {
  }

  /** What there is is exactly what was entered, and not replaced or removed since. */
  lemma {:induction false} ContentsExactly(geo: Geography, k: Known, events: seq<Event>, thing: Thing)
    ensures Holds(AfterAll(geo, k, events).contents, thing) <==>
              || (Holds(k.contents, thing) && forall j: nat :: j < |events| ==> !Supersedes(events[j], thing))
              || exists i: nat :: EnteredAt(events, thing, i)
  {
    var n := |events|;
    var holds := (i: nat) => Holds(Before(geo, k, events, i).contents, thing);
    var sets := (i: nat) => i < n && Enters(events[i], thing);
    var clears := (i: nat) => i < n && Supersedes(events[i], thing);
    forall i: nat | i < n ensures holds(i + 1) <==> sets(i) || (holds(i) && !clears(i)) {
      BeforeNext(geo, k, events, i);
      HoldsNext(geo, Before(geo, k, events, i), events[i], thing);
    }
    LastDecides(n, holds, sets, clears);
    BeforeAll(geo, k, events);
    assert forall j: nat :: j < n ==> (clears(j) <==> Supersedes(events[j], thing));
    forall i: nat ensures LastSet(n, sets, clears, i) <==> EnteredAt(events, thing, i) {
      assert i < n ==> (sets(i) <==> Enters(events[i], thing));
    }
  }
}
