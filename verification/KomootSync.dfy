/**
  Pulling tours from a Komoot account (src/server/komoot_sync.rs): listing
  them page by page, importing the ones asked for until the first failure,
  and backfilling what is not linked yet. A tour's trip and its link are one
  transaction; each run has its own answers from the network.
*/
module KomootSync {
  import opened Wrappers
  import opened Search

  /** How many tours one page of a listing holds. */
  const PAGE_SIZE := 200

  datatype Kind = Recorded | Planned

  datatype Tour = Tour(id: string, name: string)

  datatype Candidate = Candidate(tour: Tour, kind: Kind)

  /** A trip row: pulled from a tour, or anything else, a trip since deleted included. */
  datatype Trip = Pulled(candidate: Candidate) | Other

  /** The link row of a tour: to its trip, or kept after that was deleted until Komoot deletes the tour too. */
  datatype Link = To(trip: nat) | Deleting

  /** The trips, each identified by its place, and the link rows by tour. */
  datatype State = State(trips: seq<Trip>, links: map<string, Link>) {
    /** A pulled trip is the one its tour's link names: no tour has two, none is without its link. */
    ghost predicate Valid() {
      && (forall t: nat :: t < |trips| && trips[t].Pulled? ==>
            trips[t].candidate.tour.id in links && links[trips[t].candidate.tour.id] == To(t))
      && (forall id :: id in links && links[id].To? ==>
            && links[id].trip < |trips| && trips[links[id].trip].Pulled?
            && trips[links[id].trip].candidate.tour.id == id)
    }
  }

  datatype Failure = NotListed | NotPulled

  /** What a run imported, in order, and the failure that halted it. */
  datatype Summary = Summary(imported: seq<(string, nat)>, failed: Option<(string, Failure)>)

  // ----------------------------------------------------------------- listing

  /** One page of a listing, the last ones short or empty. */
  function Page(account: seq<Tour>, page: nat): seq<Tour> {
    var from := page * PAGE_SIZE;
    if from >= |account| then []
    else if from + PAGE_SIZE > |account| then account[from..]
    else account[from..from + PAGE_SIZE]
  }

  /** Every tour of a listing, page by page until a short one; none when a page needed was not answered. */
  method ListAllTours(account: seq<Tour>, answers: nat -> bool) returns (all: Option<seq<Tour>>)
    ensures all.Some? ==> all.value == account
    ensures all.Some? <==> forall page: nat :: page <= |account| / 200 ==> answers(page)
  {
    var tours, page := [], 0;
    while true
      invariant page * PAGE_SIZE <= |account| && tours == account[..page * PAGE_SIZE]
      invariant forall k: nat :: k < page ==> answers(k)
      decreases |account| - page * PAGE_SIZE
    {
      if !answers(page) {
        return None;
      }
      var batch := Page(account, page);
      tours := tours + batch;
      if |batch| < PAGE_SIZE {
        assert |account| / PAGE_SIZE == page;
        break;
      }
      page := page + 1;
    }
    all := Some(tours);
  }

  function Tagged(tours: seq<Tour>, kind: Kind): (candidates: seq<Candidate>)
    ensures |candidates| == |tours|
  {
    seq(|tours|, k requires 0 <= k < |tours| => Candidate(tours[k], kind))
  }

  /** The candidates of a listing not linked yet, in order. */
  function Unlinked(listed: seq<Candidate>, linked: set<string>): seq<Candidate> {
    if listed == [] then []
    else
      var before, last := Unlinked(listed[..|listed| - 1], linked), listed[|listed| - 1];
      if last.tour.id in linked then before else before + [last]
  }

  function Ids(candidates: seq<Candidate>): (ids: seq<string>)
    ensures |ids| == |candidates|
  {
    seq(|candidates|, k requires 0 <= k < |candidates| => candidates[k].tour.id)
  }

  // --------------------------------------------------------------- importing

  /** The listing by tour id; of two entries with one id the later counts. */
  function ById(listed: seq<Candidate>): map<string, Candidate> {
    if listed == [] then map[]
    else ById(listed[..|listed| - 1])[listed[|listed| - 1].tour.id := listed[|listed| - 1]]
  }

  /** The first `n` ids asked for, without repeats and without those linked already. */
  function Due(requested: seq<string>, linked: set<string>, n: nat): seq<string>
    requires n <= |requested|
  {
    if n == 0 then []
    else
      var before, id := Due(requested, linked, n - 1), requested[n - 1];
      if id in requested[..n - 1] || id in linked then before else before + [id]
  }

  /** Whether a tour is listed and the network lets it be pulled. */
  function Pullable(byId: map<string, Candidate>, fetches: Candidate -> bool): string -> bool {
    id => id in byId && fetches(byId[id])
  }

  ghost predicate AllPullable(listed: seq<Candidate>, fetches: Candidate -> bool, ids: seq<string>) {
    forall k :: 0 <= k < |ids| ==> Pullable(ById(listed), fetches)(ids[k])
  }

  /** The ids a run imports: up to the first that fails. */
  function Imports(s: State, listed: seq<Candidate>, requested: seq<string>, fetches: Candidate -> bool): seq<string> {
    var due := Due(requested, s.links.Keys, |requested|);
    due[..PartitionPoint(due, Pullable(ById(listed), fetches))]
  }

  /** The archive after pulling tours one after another. */
  function Pulling(s: State, byId: map<string, Candidate>, ids: seq<string>): State
    requires forall k :: 0 <= k < |ids| ==> ids[k] in byId
  {
    if ids == [] then s
    else
      var n := |ids| - 1;
      var before := Pulling(s, byId, ids[..n]);
      State(before.trips + [Pulled(byId[ids[n]])], before.links[ids[n] := To(|before.trips|)])
  }

  function Entries(ids: seq<string>, first: nat): seq<(string, nat)> {
    seq(|ids|, k requires 0 <= k < |ids| => (ids[k], first + k))
  }

  /** The archive after a run. */
  function Imported(s: State, listed: seq<Candidate>, requested: seq<string>, fetches: Candidate -> bool): State {
    Pulling(s, ById(listed), Imports(s, listed, requested, fetches))
  }

  /** What a run reports. */
  function Reported(s: State, listed: seq<Candidate>, requested: seq<string>, fetches: Candidate -> bool): Summary {
    var due, ids := Due(requested, s.links.Keys, |requested|), Imports(s, listed, requested, fetches);
    Summary(Entries(ids, |s.trips|),
            if |ids| == |due| then None
            else Some((due[|ids|], if due[|ids|] in ById(listed) then NotPulled else NotListed)))
  }

  /** What the network answers during one run; an account's listings do not change meanwhile. */
  datatype Komoot = Komoot(signsIn: bool, recorded: seq<Tour>, planned: seq<Tour>,
                           answers: (Kind, nat) -> bool, fetches: Candidate -> bool) {
    function Account(kind: Kind): seq<Tour> {
      if kind.Recorded? then recorded else planned
    }

    function AnswersFor(kind: Kind): nat -> bool {
      (page: nat) => answers(kind, page)
    }

    /** Every page of a listing is answered. */
    ghost predicate Lists(kind: Kind) {
      forall page: nat :: page <= |Account(kind)| / PAGE_SIZE ==> AnswersFor(kind)(page)
    }
  }

  /** The ids a backfill asks for: those of a listing not linked yet, as many as the limit allows. */
  function Wanted(s: State, listed: seq<Candidate>, limit: Option<nat>): seq<string> {
    var ids := Ids(Unlinked(listed, s.links.Keys));
    if limit.Some? && limit.value < |ids| then ids[..limit.value] else ids
  }

  lemma {:induction false} DuePrefix(requested: seq<string>, linked: set<string>, n: nat, m: nat)
    requires n <= m <= |requested|
    ensures Due(requested, linked, n) <= Due(requested, linked, m)
  {
    if n < m {
      DuePrefix(requested, linked, n, m - 1);
    }
  }

  lemma {:induction false} PrefixPasses<T>(s: seq<T>, p: T -> bool, n: nat)
    requires n <= |s| && (forall k :: 0 <= k < n ==> p(s[k])) && (n < |s| ==> !p(s[n]))
    ensures PartitionPoint(s, p) == n
  {
    if n > 0 {
      assert p(s[0]);
      PrefixPasses(s[1..], p, n - 1);
    }
  }

  /** A run halted on an id that was due: what went before it is what it imported. */
  lemma {:induction false} Halted(s: State, listed: seq<Candidate>, requested: seq<string>,
                                  fetches: Candidate -> bool, n: nat)
    requires n < |requested|
    requires var ids := Due(requested, s.links.Keys, n);
             && Due(requested, s.links.Keys, n + 1) == ids + [requested[n]]
             && AllPullable(listed, fetches, ids)
             && !Pullable(ById(listed), fetches)(requested[n])
    ensures var ids, id := Due(requested, s.links.Keys, n), requested[n];
            && Imports(s, listed, requested, fetches) == ids
            && Reported(s, listed, requested, fetches)
               == Summary(Entries(ids, |s.trips|), Some((id, if id in ById(listed) then NotPulled else NotListed)))
  {
    var ids, due := Due(requested, s.links.Keys, n), Due(requested, s.links.Keys, |requested|);
    DuePrefix(requested, s.links.Keys, n + 1, |requested|);
    assert ids + [requested[n]] <= due && due[..|ids|] == ids && due[|ids|] == requested[n];
    PrefixPasses(due, Pullable(ById(listed), fetches), |ids|);
  }

  lemma {:induction false} Completed(s: State, listed: seq<Candidate>, requested: seq<string>,
                                     fetches: Candidate -> bool)
    requires AllPullable(listed, fetches, Due(requested, s.links.Keys, |requested|))
    ensures var ids := Due(requested, s.links.Keys, |requested|);
            && Imports(s, listed, requested, fetches) == ids
            && Reported(s, listed, requested, fetches) == Summary(Entries(ids, |s.trips|), None)
  {
    var ids := Due(requested, s.links.Keys, |requested|);
    PrefixPasses(ids, Pullable(ById(listed), fetches), |ids|);
    assert ids[..|ids|] == ids;
  }

  class Archive {
    var trips: seq<Trip>
    var links: map<string, Link>

    function Contents(): State
      reads this
    {
      State(trips, links)
    }

    constructor ()
      ensures Contents() == State([], map[]) && Contents().Valid()
    {
      trips, links := [], map[];
    }

    /** Pulls one tour: its trip and its link, or neither. A tour linked meanwhile fails on its link row. */
    method SyncOneTour(candidate: Candidate, fetches: Candidate -> bool) returns (trip: Option<nat>)
      modifies this
      ensures trip.Some? <==> fetches(candidate) && candidate.tour.id !in old(links)
      ensures trip.Some? ==> && trip.value == |old(trips)| && trips == old(trips) + [Pulled(candidate)]
                             && links == old(links)[candidate.tour.id := To(|old(trips)|)]
      ensures trip.None? ==> Contents() == old(Contents())
    {
      if !fetches(candidate) || candidate.tour.id in links {
        return None;
      }
      trip := Some(|trips|);
      links := links[candidate.tour.id := To(|trips|)];
      trips := trips + [Pulled(candidate)];
    }

    /** The loop over a selection, up to the first tour that fails. */
    method ImportSelectedTours(listed: seq<Candidate>, requested: seq<string>, fetches: Candidate -> bool)
      returns (summary: Summary)
      modifies this
      ensures Contents() == Imported(old(Contents()), listed, requested, fetches)
      ensures summary == Reported(old(Contents()), listed, requested, fetches)
    {
      var alreadyLinked := links.Keys;
      var all := ById(listed);
      var byId := all;
      var attempted: set<string> := {};
      summary := Summary([], None);
      ghost var s := Contents();
      for n := 0 to |requested|
        invariant alreadyLinked == s.links.Keys && summary.failed.None?
        invariant forall id :: id in attempted <==> id in requested[..n]
        invariant Pulls(s, listed, fetches, Due(requested, alreadyLinked, n), Contents(), summary.imported)
        invariant forall id :: id !in attempted ==> (id in byId <==> id in all) && (id in all ==> byId[id] == all[id])
        invariant forall id :: id in links ==> id in alreadyLinked || id in attempted
      {
        var id := requested[n];
        ghost var pulled := Due(requested, alreadyLinked, n);
        assert requested[..n + 1] == requested[..n] + [id];
        if id in attempted {
          continue;
        }
        attempted := attempted + {id};
        if id in alreadyLinked {
          continue;
        }
        if id !in byId {
          summary := summary.(failed := Some((id, NotListed)));
          Halted(s, listed, requested, fetches, n);
          return;
        }
        var candidate := byId[id];
        byId := byId - {id};
        ByIdNames(listed, id);
        var trip := SyncOneTour(candidate, fetches);
        if trip.None? {
          summary := summary.(failed := Some((id, NotPulled)));
          Halted(s, listed, requested, fetches, n);
          return;
        }
        summary := summary.(imported := summary.imported + [(id, trip.value)]);
        PullsOneMore(s, listed, fetches, pulled, id);
      }
      Completed(s, listed, requested, fetches);
    }

    /** Every tour of one kind not linked yet, as many as the limit allows; nothing happens when it cannot be listed. */
    method Backfill(komoot: Komoot, limit: Option<nat>, kind: Kind) returns (summary: Option<Summary>)
      modifies this
      ensures summary.Some? <==> komoot.signsIn && komoot.Lists(kind)
      ensures summary.None? ==> Contents() == old(Contents())
      ensures summary.Some? ==>
                var listed := Tagged(komoot.Account(kind), kind);
                var wanted := Wanted(old(Contents()), listed, limit);
                && Contents() == Imported(old(Contents()), listed, wanted, komoot.fetches)
                && summary.value == Reported(old(Contents()), listed, wanted, komoot.fetches)
    {
      if !komoot.signsIn {
        return None;
      }
      var tours := ListAllTours(komoot.Account(kind), komoot.AnswersFor(kind));
      if tours.None? {
        return None;
      }
      var listed := Tagged(tours.value, kind);
      var ran := ImportSelectedTours(listed, Wanted(Contents(), listed, limit), komoot.fetches);
      summary := Some(ran);
    }

    /** Imports a selection, listing only the kinds it spans. */
    method SyncSelectedTours(komoot: Komoot, selected: seq<(string, Kind)>) returns (summary: Option<Summary>)
      modifies this
      ensures summary.Some? <==> komoot.signsIn && forall kind :: Spans(selected, kind) ==> komoot.Lists(kind)
      ensures summary.None? ==> Contents() == old(Contents())
      ensures summary.Some? ==>
                var listed := Spanned(komoot, selected, Recorded) + Spanned(komoot, selected, Planned);
                var requested := seq(|selected|, k requires 0 <= k < |selected| => selected[k].0);
                && Contents() == Imported(old(Contents()), listed, requested, komoot.fetches)
                && summary.value == Reported(old(Contents()), listed, requested, komoot.fetches)
    {
      if !komoot.signsIn {
        return None;
      }
      var recorded, planned := Some([]), Some([]);
      if Spans(selected, Recorded) {
        recorded := ListAllTours(komoot.recorded, komoot.AnswersFor(Recorded));
        if recorded.None? {
          assert !komoot.Lists(Recorded);
          return None;
        }
      }
      if Spans(selected, Planned) {
        planned := ListAllTours(komoot.planned, komoot.AnswersFor(Planned));
        if planned.None? {
          assert !komoot.Lists(Planned);
          return None;
        }
      }
      var requested := seq(|selected|, k requires 0 <= k < |selected| => selected[k].0);
      var listed := Tagged(recorded.value, Recorded) + Tagged(planned.value, Planned);
      var ran := ImportSelectedTours(listed, requested, komoot.fetches);
      summary := Some(ran);
    }
  }

  predicate Spans(selected: seq<(string, Kind)>, kind: Kind) {
    exists k :: 0 <= k < |selected| && selected[k].1 == kind
  }

  /** The listing of a kind, when a selection spans it. */
  function Spanned(komoot: Komoot, selected: seq<(string, Kind)>, kind: Kind): seq<Candidate> {
    Tagged(if Spans(selected, kind) then komoot.Account(kind) else [], kind)
  }

  /** Having pulled `ids`, all of them pullable. */
  ghost predicate Pulls(s: State, listed: seq<Candidate>, fetches: Candidate -> bool, ids: seq<string>, now: State,
                        imported: seq<(string, nat)>) {
    && AllPullable(listed, fetches, ids)
    && now == Pulling(s, ById(listed), ids) && imported == Entries(ids, |s.trips|)
  }

  lemma {:induction false} PullingAppends(s: State, byId: map<string, Candidate>, ids: seq<string>)
    requires forall k :: 0 <= k < |ids| ==> ids[k] in byId
    ensures |Pulling(s, byId, ids).trips| == |s.trips| + |ids| && s.trips <= Pulling(s, byId, ids).trips
    ensures forall k :: 0 <= k < |ids| ==> Pulling(s, byId, ids).trips[|s.trips| + k] == Pulled(byId[ids[k]])
  {
    if ids != [] {
      PullingAppends(s, byId, ids[..|ids| - 1]);
    }
  }

  lemma {:induction false} PullsOneMore(s: State, listed: seq<Candidate>, fetches: Candidate -> bool,
                                        ids: seq<string>, id: string)
    requires AllPullable(listed, fetches, ids)
    requires Pullable(ById(listed), fetches)(id)
    ensures var byId, now := ById(listed), Pulling(s, ById(listed), ids);
            && |now.trips| == |s.trips| + |ids|
            && Pulls(s, listed, fetches, ids + [id],
                     State(now.trips + [Pulled(byId[id])], now.links[id := To(|now.trips|)]),
                     Entries(ids, |s.trips|) + [(id, |now.trips|)])
  {
    PullingAppends(s, ById(listed), ids);
    assert (ids + [id])[..|ids|] == ids;
  }

  /** Candidate `k` is the last one listed with its id. */
  ghost predicate LastOfId(listed: seq<Candidate>, k: nat) {
    k < |listed| && forall j :: k < j < |listed| ==> listed[j].tour.id != listed[k].tour.id
  }

  /** Of two candidates listed with one id the later counts. */
  lemma {:induction false} LaterCounts(listed: seq<Candidate>, k: nat)
    requires LastOfId(listed, k)
    ensures listed[k].tour.id in ById(listed) && ById(listed)[listed[k].tour.id] == listed[k]
  {
    var n := |listed| - 1;
    if k < n {
      assert listed[n].tour.id != listed[k].tour.id;
      assert LastOfId(listed[..n], k);
      LaterCounts(listed[..n], k);
    }
  }

  /** A listing by id names each tour by its own id, and holds exactly the ids listed. */
  lemma {:induction false} ByIdNames(listed: seq<Candidate>, id: string)
    ensures id in ById(listed) <==> exists k :: 0 <= k < |listed| && listed[k].tour.id == id
    ensures id in ById(listed) ==>
              exists k :: 0 <= k < |listed| && listed[k] == ById(listed)[id] && listed[k].tour.id == id
  {
    if listed != [] {
      var before := listed[..|listed| - 1];
      ByIdNames(before, id);
      assert forall k :: 0 <= k < |before| ==> before[k] == listed[k];
      if k :| 0 <= k < |listed| && listed[k].tour.id == id {
        assert k < |before| ==> before[k].tour.id == id;
      }
      assert listed[|listed| - 1].tour.id == id ==> id in ById(listed);
      if id in ById(before) {
        var k :| 0 <= k < |before| && before[k] == ById(before)[id] && before[k].tour.id == id;
        assert listed[k].tour.id == id;
      }
    }
  }
}
