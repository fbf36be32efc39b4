/**
  What a run of imports leaves behind, and what any series of backfills comes
  to: each run halts cleanly, and the next takes up where it halted.
*/
module KomootRuns {
  import opened Wrappers
  import opened KomootSync

  // ----------------------------------------------------------------- one run

  /** Where an id is first asked for; past the end for one that is not. */
  function FirstAt(requested: seq<string>, id: string): (n: nat)
    ensures n <= |requested|
  {
    if requested == [] || requested[0] == id then 0 else 1 + FirstAt(requested[1..], id)
  }

  lemma {:induction false} FirstAtIs(requested: seq<string>, id: string, n: nat)
    requires n < |requested| && requested[n] == id && id !in requested[..n]
    ensures FirstAt(requested, id) == n
  {
    if n > 0 {
      assert requested[0] in requested[..n];
      assert requested[1..][..n - 1] == requested[..n][1..];
      FirstAtIs(requested[1..], id, n - 1);
    }
  }

  lemma {:induction false} FirstAtFinds(requested: seq<string>, id: string)
    requires FirstAt(requested, id) < |requested|
    ensures requested[FirstAt(requested, id)] == id
  {
    if requested[0] != id {
      FirstAtFinds(requested[1..], id);
    }
  }

  ghost predicate Lists(ids: seq<string>, id: string) {
    exists k :: 0 <= k < |ids| && ids[k] == id
  }

  /** By first request, so no tour twice. */
  ghost predicate InOrder(requested: seq<string>, ids: seq<string>) {
    forall j, k :: 0 <= j < k < |ids| ==> FirstAt(requested, ids[j]) < FirstAt(requested, ids[k])
  }

  /** What is due is what was asked for and not linked, in the order first asked for. */
  lemma {:induction false} DueAre(requested: seq<string>, linked: set<string>, n: nat)
    requires n <= |requested|
    ensures var due := Due(requested, linked, n);
            && InOrder(requested, due)
            && (forall k :: 0 <= k < |due| ==> FirstAt(requested, due[k]) < n && due[k] !in linked)
            && (forall i :: 0 <= i < n && requested[i] !in linked ==> Lists(due, requested[i]))
  {
    if n > 0 {
      DueAre(requested, linked, n - 1);
      var before, due, id := Due(requested, linked, n - 1), Due(requested, linked, n), requested[n - 1];
      forall other | Lists(before, other) ensures Lists(due, other) {
        var k :| 0 <= k < |before| && before[k] == other;
        assert due[k] == other;
      }
      if id in requested[..n - 1] {
        var i :| 0 <= i < n - 1 && requested[i] == id;
      } else {
        FirstAtIs(requested, id, n - 1);
        assert id !in linked ==> due[|before|] == id;
      }
    }
  }

  /** Nothing that was there is changed: rows are only added. */
  ghost predicate Extends(before: State, after: State) {
    && before.trips <= after.trips
    && (forall id :: id in before.links ==> id in after.links && after.links[id] == before.links[id])
    && (forall t :: |before.trips| <= t < |after.trips| ==> after.trips[t].Pulled?)
  }

  ghost predicate Distinct(ids: seq<string>) {
    forall j, k :: 0 <= j < k < |ids| ==> ids[j] != ids[k]
  }

  lemma {:induction false} PullingLinks(s: State, listed: seq<Candidate>, ids: seq<string>)
    requires forall k :: 0 <= k < |ids| ==> ids[k] in ById(listed)
    ensures forall id :: id in Pulling(s, ById(listed), ids).links <==> id in s.links || Lists(ids, id)
  {
    if ids != [] {
      var n := |ids| - 1;
      PullingLinks(s, listed, ids[..n]);
      forall id ensures Lists(ids, id) <==> Lists(ids[..n], id) || id == ids[n] {
        if Lists(ids[..n], id) {
          var k :| 0 <= k < n && ids[..n][k] == id;
          assert ids[k] == id;
        }
        if Lists(ids, id) && id != ids[n] {
          var k :| 0 <= k < |ids| && ids[k] == id;
          assert ids[..n][k] == id;
        }
      }
    }
  }

  /** Pulling adds one trip for each tour, and keeps the archive sound. */
  lemma {:induction false} PullingKeeps(s: State, listed: seq<Candidate>, ids: seq<string>)
    requires s.Valid() && Distinct(ids)
    requires forall k :: 0 <= k < |ids| ==> ids[k] in ById(listed) && ids[k] !in s.links
    ensures var after := Pulling(s, ById(listed), ids);
            after.Valid() && Extends(s, after) && |after.trips| == |s.trips| + |ids|
  {
    if ids != [] {
      var n := |ids| - 1;
      PullingKeeps(s, listed, ids[..n]);
      PullingLinks(s, listed, ids[..n]);
      ByIdNames(listed, ids[n]);
      assert ids[n] !in Pulling(s, ById(listed), ids[..n]).links;
    }
  }

  lemma {:induction false} ImportsAre(s: State, listed: seq<Candidate>, requested: seq<string>,
                                      fetches: Candidate -> bool)
    ensures var ids := Imports(s, listed, requested, fetches);
            && AllPullable(listed, fetches, ids) && InOrder(requested, ids) && Distinct(ids)
            && (forall k :: 0 <= k < |ids| ==>
                  ids[k] in ById(listed) && ids[k] !in s.links && FirstAt(requested, ids[k]) < |requested|)
  {
    DueAre(requested, s.links.Keys, |requested|);
  }

  /**
    A run keeps the archive sound and changes nothing in it; it imports only
    tours that were asked for and not linked, each once, in the order first
    asked for, each to a trip of its own.
  */
  lemma {:induction false} ImportsInOrder(s: State, listed: seq<Candidate>, requested: seq<string>,
                                          fetches: Candidate -> bool)
    requires s.Valid()
    ensures var after := Imported(s, listed, requested, fetches);
            var imported := Reported(s, listed, requested, fetches).imported;
            && after.Valid() && Extends(s, after)
            && |after.trips| == |s.trips| + |imported|
            && (forall j, k :: 0 <= j < k < |imported| ==>
                  FirstAt(requested, imported[j].0) < FirstAt(requested, imported[k].0))
            && (forall k :: 0 <= k < |imported| ==>
                  && imported[k].0 !in s.links && FirstAt(requested, imported[k].0) < |requested|
                  && imported[k].1 == |s.trips| + k && imported[k].0 in after.links
                  && after.links[imported[k].0] == To(imported[k].1))
  {
    var ids, after := Imports(s, listed, requested, fetches), Imported(s, listed, requested, fetches);
    ImportsAre(s, listed, requested, fetches);
    PullingKeeps(s, listed, ids);
    PullingAppends(s, ById(listed), ids);
    forall k | 0 <= k < |ids| ensures ids[k] in after.links && after.links[ids[k]] == To(|s.trips| + k) {
      ByIdNames(listed, ids[k]);
      assert after.trips[|s.trips| + k].candidate.tour.id == ids[k];
    }
  }

  /** A run that reports no failure leaves every tour asked for linked. */
  lemma {:induction false} CompletesAll(s: State, listed: seq<Candidate>, requested: seq<string>,
                                        fetches: Candidate -> bool)
    requires Reported(s, listed, requested, fetches).failed.None?
    ensures forall i :: 0 <= i < |requested| ==> requested[i] in Imported(s, listed, requested, fetches).links
  {
    var due, ids := Due(requested, s.links.Keys, |requested|), Imports(s, listed, requested, fetches);
    DueAre(requested, s.links.Keys, |requested|);
    ImportsAre(s, listed, requested, fetches);
    PullingLinks(s, listed, ids);
    assert ids == due;
  }

  /** What a run imports are the first of what is due; the one it failed on is the next. */
  lemma {:induction false} FailsNext(s: State, listed: seq<Candidate>, requested: seq<string>,
                                     fetches: Candidate -> bool)
    requires Reported(s, listed, requested, fetches).failed.Some?
    ensures var due, ids := Due(requested, s.links.Keys, |requested|), Imports(s, listed, requested, fetches);
            var failed := Reported(s, listed, requested, fetches).failed.value;
            && |ids| < |due| && ids == due[..|ids|] && failed.0 == due[|ids|]
            && !Pullable(ById(listed), fetches)(failed.0)
            && (failed.1 == NotPulled <==> failed.0 in ById(listed))
  {
  }

  /** Of what is due, exactly what comes first is asked for first. */
  lemma {:induction false} DueBefore(requested: seq<string>, linked: set<string>, m: nat, i: nat)
    requires var due := Due(requested, linked, |requested|);
             m < |due| && i < |requested| && requested[i] !in linked
    ensures var due := Due(requested, linked, |requested|);
            Lists(due[..m], requested[i]) <==> FirstAt(requested, requested[i]) < FirstAt(requested, due[m])
  {
    var due := Due(requested, linked, |requested|);
    DueAre(requested, linked, |requested|);
    var k :| 0 <= k < |due| && due[k] == requested[i];
    if k < m {
      assert due[..m][k] == requested[i];
    } else {
      forall j | 0 <= j < m ensures due[..m][j] != requested[i] {
        assert FirstAt(requested, due[j]) < FirstAt(requested, due[k]);
      }
    }
  }

  /**
    A run that failed on `f` has linked every tour asked for before it, not
    `f`, and has touched nothing first asked for after it. It failed because
    `f` is not listed, or could not be pulled.
  */
  lemma {:induction false} HaltsCleanly(s: State, listed: seq<Candidate>, requested: seq<string>,
                                        fetches: Candidate -> bool)
    requires Reported(s, listed, requested, fetches).failed.Some?
    ensures var after := Imported(s, listed, requested, fetches);
            var failed := Reported(s, listed, requested, fetches).failed.value;
            var f := failed.0;
            && FirstAt(requested, f) < |requested| && f !in after.links
            && (failed.1 == NotListed <==> forall k :: 0 <= k < |listed| ==> listed[k].tour.id != f)
            && (failed.1 == NotPulled ==> f in ById(listed) && !fetches(ById(listed)[f]))
            && forall i: nat :: i < |requested| ==> HaltedAt(requested, f, s, after, i)
  {
    var ids, after := Imports(s, listed, requested, fetches), Imported(s, listed, requested, fetches);
    var f := Reported(s, listed, requested, fetches).failed.value.0;
    FailsNext(s, listed, requested, fetches);
    ByIdNames(listed, f);
    ImportsAre(s, listed, requested, fetches);
    PullingLinks(s, listed, ids);
    FailedIsDue(requested, s.links.Keys, |ids|);
    forall i: nat | i < |requested| ensures HaltedAt(requested, f, s, after, i) {
      if requested[i] !in s.links {
        DueBefore(requested, s.links.Keys, |ids|, i);
      }
    }
  }

  /** What a halt on `f` means for the `i`-th tour asked for. */
  ghost predicate HaltedAt(requested: seq<string>, f: string, s: State, after: State, i: nat)
    requires i < |requested|
  {
    var id := requested[i];
    && (FirstAt(requested, id) < FirstAt(requested, f) ==> id in after.links)
    && (FirstAt(requested, id) > FirstAt(requested, f) ==> (id in after.links <==> id in s.links))
  }

  lemma {:induction false} FailedIsDue(requested: seq<string>, linked: set<string>, m: nat)
    requires m < |Due(requested, linked, |requested|)|
    ensures var due := Due(requested, linked, |requested|);
            && due[m] !in linked && !Lists(due[..m], due[m]) && FirstAt(requested, due[m]) < |requested|
  {
    DueAre(requested, linked, |requested|);
  }

  // --------------------------------------------------------- many backfills

  datatype Run = Run(komoot: Komoot, limit: Option<nat>, kind: Kind) {
    /** It gets as far as having its listing. */
    ghost predicate Starts() {
      komoot.signsIn && komoot.Lists(kind)
    }

    function Listed(): seq<Candidate> {
      Tagged(komoot.Account(kind), kind)
    }
  }

  ghost function Backfilled(s: State, run: Run): State {
    if run.Starts() then Imported(s, run.Listed(), Wanted(s, run.Listed(), run.limit), run.komoot.fetches) else s
  }

  /** What a backfill that starts reports. */
  function Report(s: State, run: Run): Summary {
    Reported(s, run.Listed(), Wanted(s, run.Listed(), run.limit), run.komoot.fetches)
  }

  ghost function After(s: State, runs: seq<Run>): State {
    if runs == [] then s else Backfilled(After(s, runs[..|runs| - 1]), runs[|runs| - 1])
  }

  /** However many backfills run, failing or not, the archive stays sound and rows are only added. */
  lemma {:induction false} BackfillsKeep(s: State, runs: seq<Run>)
    requires s.Valid()
    ensures After(s, runs).Valid() && Extends(s, After(s, runs))
  {
    if runs != [] {
      var run := runs[|runs| - 1];
      BackfillsKeep(s, runs[..|runs| - 1]);
      var before := After(s, runs[..|runs| - 1]);
      ImportsInOrder(before, run.Listed(), Wanted(before, run.Listed(), run.limit), run.komoot.fetches);
    }
  }

  lemma {:induction false} UnlinkedAre(listed: seq<Candidate>, linked: set<string>)
    ensures var unlinked := Unlinked(listed, linked);
            && (forall k :: 0 <= k < |unlinked| ==> unlinked[k].tour.id !in linked)
            && (forall k :: 0 <= k < |unlinked| ==> exists j :: 0 <= j < |listed| && listed[j] == unlinked[k])
            && (forall j :: 0 <= j < |listed| && listed[j].tour.id !in linked ==>
                  Lists(Ids(unlinked), listed[j].tour.id))
  {
    if listed != [] {
      var n := |listed| - 1;
      UnlinkedAre(listed[..n], linked);
      var before, unlinked := Unlinked(listed[..n], linked), Unlinked(listed, linked);
      forall k | 0 <= k < |before| ensures exists j :: 0 <= j < |listed| && listed[j] == before[k] {
        var j :| 0 <= j < n && listed[..n][j] == before[k];
        assert listed[j] == before[k];
      }
      forall j | 0 <= j < |listed| && listed[j].tour.id !in linked ensures Lists(Ids(unlinked), listed[j].tour.id) {
        if j < n {
          assert listed[..n][j] == listed[j];
          var k :| 0 <= k < |before| && Ids(before)[k] == listed[j].tour.id;
          assert Ids(unlinked)[k] == listed[j].tour.id;
        } else {
          assert Ids(unlinked)[|before|] == listed[j].tour.id;
        }
      }
    }
  }

  /** A trip of a tour that a series of runs added. */
  ghost predicate Adds(s: State, end: State, id: string, t: nat) {
    |s.trips| <= t < |end.trips| && end.trips[t].Pulled? && end.trips[t].candidate.tour.id == id
  }

  /** What was added since is exactly one trip for each tour linked since. */
  lemma {:induction false} AddedOnce(s: State, end: State, id: string)
    requires s.Valid() && end.Valid() && Extends(s, end)
    ensures forall t: nat, u: nat :: Adds(s, end, id, t) && Adds(s, end, id, u) ==> t == u
    ensures (exists t: nat :: Adds(s, end, id, t)) ==> id !in s.links
    ensures id !in s.links && id in end.links && end.links[id].To? ==> exists t: nat :: Adds(s, end, id, t)
  {
    if t: nat :| Adds(s, end, id, t) {
      assert end.links[id] == To(t);
    }
    if id !in s.links && id in end.links && end.links[id].To? {
      var t := end.links[id].trip;
      assert forall u: nat :: u < |s.trips| ==> s.trips[u] == end.trips[u];
      assert Adds(s, end, id, t);
    }
  }

  /** Runs add no link without a trip. */
  lemma {:induction false} LinksLead(s: State, runs: seq<Run>, id: string)
    requires s.Valid()
    ensures id in After(s, runs).links && id !in s.links ==> After(s, runs).links[id].To?
  {
    if runs != [] {
      var run, before := runs[|runs| - 1], After(s, runs[..|runs| - 1]);
      LinksLead(s, runs[..|runs| - 1], id);
      BackfillsKeep(s, runs[..|runs| - 1]);
      var wanted := Wanted(before, run.Listed(), run.limit);
      var ids := Imports(before, run.Listed(), wanted, run.komoot.fetches);
      ImportsAre(before, run.Listed(), wanted, run.komoot.fetches);
      PullingLinks(before, run.Listed(), ids);
      ImportsInOrder(before, run.Listed(), wanted, run.komoot.fetches);
      if id !in before.links && id in After(s, runs).links {
        var k :| 0 <= k < |ids| && ids[k] == id;
        assert Reported(before, run.Listed(), wanted, run.komoot.fetches).imported[k].0 == id;
      }
    }
  }

  /**
    Any number of backfills, each with its own limit, listing and failures,
    followed by one without a limit that reports no failure, have imported
    every tour of its listing that was not linked before exactly once, and
    changed nothing else that was there.
  */
  lemma {:induction false} BackfillResumes(s: State, runs: seq<Run>, last: Run)
    requires s.Valid() && last.Starts() && last.limit.None? && Report(After(s, runs), last).failed.None?
    ensures var end := After(s, runs + [last]);
            && end.Valid() && Extends(s, end)
            && (forall k :: 0 <= k < |last.Listed()| ==>
                  var id := last.Listed()[k].tour.id;
                  id in end.links && (id in s.links || exists t: nat :: Adds(s, end, id, t)))
            && (forall id, t: nat, u: nat :: Adds(s, end, id, t) && Adds(s, end, id, u) ==> t == u)
            && (forall id, t: nat :: Adds(s, end, id, t) ==> id !in s.links)
  {
    var all, middle := runs + [last], After(s, runs);
    assert all[..|runs|] == runs;
    var end, listed := After(s, all), last.Listed();
    BackfillsKeep(s, runs);
    BackfillsKeep(s, all);
    CompletesAll(middle, listed, Wanted(middle, listed, None), last.komoot.fetches);
    ImportsInOrder(middle, listed, Wanted(middle, listed, None), last.komoot.fetches);
    UnlinkedAre(listed, middle.links.Keys);
    forall id ensures forall t: nat, u: nat :: Adds(s, end, id, t) && Adds(s, end, id, u) ==> t == u
              ensures forall t: nat :: Adds(s, end, id, t) ==> id !in s.links
    {
      AddedOnce(s, end, id);
    }
    forall k | 0 <= k < |listed|
      ensures var id := listed[k].tour.id;
              id in end.links && (id in s.links || exists t: nat :: Adds(s, end, id, t))
    {
      var id := listed[k].tour.id;
      if id !in middle.links {
        assert Lists(Wanted(middle, listed, None), id);
      }
      LinksLead(s, all, id);
      AddedOnce(s, end, id);
    }
  }

  /**
    A backfill whose every tour can be pulled reports no failure; with a
    limit it stays within it, and takes at least one while any is left.
  */
  lemma {:induction false} BackfillAdvances(s: State, run: Run)
    requires s.Valid() && forall k :: 0 <= k < |run.Listed()| ==> run.komoot.fetches(run.Listed()[k])
    ensures Report(s, run).failed.None?
    ensures run.limit.Some? ==> |Report(s, run).imported| <= run.limit.value
    ensures run.limit != Some(0) && (exists k :: 0 <= k < |run.Listed()| && run.Listed()[k].tour.id !in s.links)
            ==> Report(s, run).imported != []
  {
    var listed, fetches := run.Listed(), run.komoot.fetches;
    var wanted := Wanted(s, listed, run.limit);
    var due := Due(wanted, s.links.Keys, |wanted|);
    UnlinkedAre(listed, s.links.Keys);
    DueAre(wanted, s.links.Keys, |wanted|);
    DueWithin(wanted, s.links.Keys, |wanted|);
    forall k | 0 <= k < |due| ensures Pullable(ById(listed), fetches)(due[k]) {
      FirstAtFinds(wanted, due[k]);
      var i := FirstAt(wanted, due[k]);
      assert wanted[i] == Ids(Unlinked(listed, s.links.Keys))[i];
      ByIdNames(listed, due[k]);
    }
    Completed(s, listed, wanted, fetches);
    if run.limit != Some(0) && exists k :: 0 <= k < |listed| && listed[k].tour.id !in s.links {
      assert wanted != [];
      assert wanted[0] == Ids(Unlinked(listed, s.links.Keys))[0];
      assert Lists(due, wanted[0]);
    }
  }

  /** Where in a listing the tours not linked yet stand: all of them, in its order. */
  ghost predicate StandAt(listed: seq<Candidate>, linked: set<string>, at: seq<nat>) {
    && (forall k :: 0 <= k < |at| ==> at[k] < |listed| && listed[at[k]].tour.id !in linked)
    && (forall j, k :: 0 <= j < k < |at| ==> at[j] < at[k])
    && (forall i :: 0 <= i < |listed| && listed[i].tour.id !in linked ==> exists k :: 0 <= k < |at| && at[k] == i)
  }

  lemma {:induction false} OneMoreStands(listed: seq<Candidate>, last: Candidate, linked: set<string>, at: seq<nat>)
    requires StandAt(listed, linked, at)
    ensures StandAt(listed + [last], linked, if last.tour.id in linked then at else at + [|listed|])
  {
    var all := listed + [last];
    var next := if last.tour.id in linked then at else at + [|listed|];
    forall i | 0 <= i < |all| && all[i].tour.id !in linked ensures exists k :: 0 <= k < |next| && next[k] == i {
      if i < |listed| {
        assert listed[i] == all[i];
        var k :| 0 <= k < |at| && at[k] == i;
        assert next[k] == i;
      } else {
        assert next[|at|] == i;
      }
    }
  }

  /** What stands there, one for one. */
  ghost predicate StandFor(listed: seq<Candidate>, at: seq<nat>, candidates: seq<Candidate>) {
    |at| == |candidates| && forall k :: 0 <= k < |at| ==> at[k] < |listed| && candidates[k] == listed[at[k]]
  }

  lemma {:induction false} OneMoreStandsFor(listed: seq<Candidate>, last: Candidate, at: seq<nat>,
                                            candidates: seq<Candidate>)
    requires StandFor(listed, at, candidates)
    ensures StandFor(listed + [last], at, candidates)
    ensures StandFor(listed + [last], at + [|listed|], candidates + [last])
  {
  }

  ghost predicate Stand(listed: seq<Candidate>, linked: set<string>, at: seq<nat>) {
    StandAt(listed, linked, at) && StandFor(listed, at, Unlinked(listed, linked))
  }

  function WithLast(listed: seq<Candidate>, last: Candidate, linked: set<string>, at: seq<nat>): seq<nat> {
    if last.tour.id in linked then at else at + [|listed|]
  }

  lemma {:induction false} OneMoreStand(listed: seq<Candidate>, last: Candidate, linked: set<string>, at: seq<nat>)
    requires Stand(listed, linked, at)
    ensures Stand(listed + [last], linked, WithLast(listed, last, linked, at))
  {
    OneMoreStands(listed, last, linked, at);
    OneMoreStandsFor(listed, last, at, Unlinked(listed, linked));
    OneMoreUnlinked(listed, last, linked);
  }

  lemma {:induction false} OneMoreUnlinked(listed: seq<Candidate>, last: Candidate, linked: set<string>)
    ensures Unlinked(listed + [last], linked)
         == if last.tour.id in linked then Unlinked(listed, linked) else Unlinked(listed, linked) + [last]
  {
    assert (listed + [last])[..|listed|] == listed;
  }

  lemma {:induction false} UnlinkedStand(listed: seq<Candidate>, linked: set<string>) returns (at: seq<nat>)
    ensures Stand(listed, linked, at)
  {
    if listed == [] {
      at := [];
    } else {
      var before, last := listed[..|listed| - 1], listed[|listed| - 1];
      var some := UnlinkedStand(before, linked);
      OneMoreStand(before, last, linked, some);
      assert listed == before + [last];
      at := WithLast(before, last, linked, some);
    }
  }

  /** Ids that are neither linked nor asked for twice are due as they stand. */
  lemma {:induction false} DueAsTheyStand(requested: seq<string>, linked: set<string>, n: nat)
    requires n <= |requested| && Distinct(requested)
    requires forall k :: 0 <= k < |requested| ==> requested[k] !in linked
    ensures Due(requested, linked, n) == requested[..n]
  {
    if n > 0 {
      DueAsTheyStand(requested, linked, n - 1);
      assert requested[n - 1] !in requested[..n - 1];
      assert requested[..n] == requested[..n - 1] + [requested[n - 1]];
    }
  }

  function AtMost(limit: Option<nat>, n: nat): nat {
    if limit.Some? && limit.value < n then limit.value else n
  }

  /** What a backfill asks for: of the tours not linked yet the first ones of the listing, as many as the limit says. */
  lemma {:induction false} WantedAre(s: State, listed: seq<Candidate>, limit: Option<nat>) returns (at: seq<nat>)
    requires forall j, k :: 0 <= j < k < |listed| ==> listed[j].tour.id != listed[k].tour.id
    ensures StandAt(listed, s.links.Keys, at) && |Wanted(s, listed, limit)| == AtMost(limit, |at|)
    ensures forall k :: 0 <= k < AtMost(limit, |at|) ==> Wanted(s, listed, limit)[k] == listed[at[k]].tour.id
    ensures Distinct(Wanted(s, listed, limit))
    ensures forall k :: 0 <= k < |Wanted(s, listed, limit)| ==> Wanted(s, listed, limit)[k] !in s.links
  {
    at := UnlinkedStand(listed, s.links.Keys);
    var wanted := Wanted(s, listed, limit);
    forall k | 0 <= k < |wanted| ensures wanted[k] == listed[at[k]].tour.id {
      assert Ids(Unlinked(listed, s.links.Keys))[k] == listed[at[k]].tour.id;
    }
  }

  /** A listing without repeats, every tour of which can be pulled. */
  ghost predicate AllFetched(run: Run) {
    && (forall k :: 0 <= k < |run.Listed()| ==> run.komoot.fetches(run.Listed()[k]))
    && (forall j, k :: 0 <= j < k < |run.Listed()| ==> run.Listed()[j].tour.id != run.Listed()[k].tour.id)
  }

  lemma {:induction false} ListedAt(run: Run, k: nat)
    requires AllFetched(run) && k < |run.Listed()|
    ensures var id, listed := run.Listed()[k].tour.id, run.Listed();
            && id in ById(listed) && ById(listed)[id] == listed[k] && Pullable(ById(listed), run.komoot.fetches)(id)
  {
    assert LastOfId(run.Listed(), k);
    LaterCounts(run.Listed(), k);
  }

  /** Then it imports just what it wants. */
  lemma {:induction false} AllWantedImported(s: State, run: Run)
    requires AllFetched(run)
    ensures Imports(s, run.Listed(), Wanted(s, run.Listed(), run.limit), run.komoot.fetches)
         == Wanted(s, run.Listed(), run.limit)
    ensures Report(s, run).imported == Entries(Wanted(s, run.Listed(), run.limit), |s.trips|)
  {
    var listed, fetches, wanted := run.Listed(), run.komoot.fetches, Wanted(s, run.Listed(), run.limit);
    var at := WantedAre(s, listed, run.limit);
    DueAsTheyStand(wanted, s.links.Keys, |wanted|);
    assert wanted[..|wanted|] == wanted;
    forall k | 0 <= k < |wanted| ensures Pullable(ById(listed), fetches)(wanted[k]) {
      ListedAt(run, at[k]);
    }
    Completed(s, listed, wanted, fetches);
  }

  /**
    A backfill whose every tour can be pulled imports, in the order of the
    listing, the first tours of it not linked yet, just as many as the limit
    says or there are, all of them without a limit: each as a trip of its own
    and of the kind listed.
  */
  lemma {:induction false} BackfillTakes(s: State, run: Run) returns (at: seq<nat>)
    requires s.Valid() && AllFetched(run)
    ensures StandAt(run.Listed(), s.links.Keys, at) && |Report(s, run).imported| == AtMost(run.limit, |at|)
    ensures forall k :: 0 <= k < |Report(s, run).imported| ==>
              Report(s, run).imported[k].0 == run.Listed()[at[k]].tour.id
    ensures run.Starts() ==> Backfilled(s, run).trips == s.trips + TripsOf(run, at[..AtMost(run.limit, |at|)])
  {
    var listed, wanted := run.Listed(), Wanted(s, run.Listed(), run.limit);
    at := WantedAre(s, listed, run.limit);
    AllWantedImported(s, run);
    var pulled := TripsOf(run, at[..AtMost(run.limit, |at|)]);
    forall k | 0 <= k < |wanted| ensures wanted[k] in ById(listed) && Pulled(ById(listed)[wanted[k]]) == pulled[k] {
      ListedAt(run, at[k]);
    }
    PullingTrips(s, listed, wanted, pulled);
  }

  lemma {:induction false} PullingTrips(s: State, listed: seq<Candidate>, ids: seq<string>, pulled: seq<Trip>)
    requires |pulled| == |ids|
    requires forall k :: 0 <= k < |ids| ==> ids[k] in ById(listed) && Pulled(ById(listed)[ids[k]]) == pulled[k]
    ensures Pulling(s, ById(listed), ids).trips == s.trips + pulled
  {
    PullingAppends(s, ById(listed), ids);
    var trips := Pulling(s, ById(listed), ids).trips;
    assert trips[..|s.trips|] == s.trips;
    assert trips == s.trips + trips[|s.trips|..];
    assert trips[|s.trips|..] == pulled;
  }

  /** The trips pulled from the tours at some places of an account's listing. */
  function TripsOf(run: Run, at: seq<nat>): (trips: seq<Trip>)
    requires forall k :: 0 <= k < |at| ==> at[k] < |run.komoot.Account(run.kind)|
  {
    seq(|at|, k requires 0 <= k < |at| => Pulled(Candidate(run.komoot.Account(run.kind)[at[k]], run.kind)))
  }

  lemma {:induction false} DueWithin(requested: seq<string>, linked: set<string>, n: nat)
    requires n <= |requested|
    ensures |Due(requested, linked, n)| <= n
  {
    if n > 0 {
      DueWithin(requested, linked, n - 1);
    }
  }

  lemma {:induction false} NoneUnlinked(listed: seq<Candidate>, linked: set<string>)
    requires forall k :: 0 <= k < |listed| ==> listed[k].tour.id in linked
    ensures Unlinked(listed, linked) == []
  {
    if listed != [] {
      NoneUnlinked(listed[..|listed| - 1], linked);
    }
  }

  /** Importing every candidate offered, without a failure, leaves none to offer. */
  lemma {:induction false} SyncedNothingLeft(s: State, offered: seq<Candidate>, listed: seq<Candidate>,
                                             fetches: Candidate -> bool)
    requires Reported(s, listed, Ids(Unlinked(offered, s.links.Keys)), fetches).failed.None?
    ensures Unlinked(offered, Imported(s, listed, Ids(Unlinked(offered, s.links.Keys)), fetches).links.Keys) == []
  {
    var requested := Ids(Unlinked(offered, s.links.Keys));
    CompletesAll(s, listed, requested, fetches);
    ImportsAre(s, listed, requested, fetches);
    PullingLinks(s, listed, Imports(s, listed, requested, fetches));
    UnlinkedAre(offered, s.links.Keys);
    forall k | 0 <= k < |offered| && offered[k].tour.id !in s.links ensures Lists(requested, offered[k].tour.id) {
    }
    NoneUnlinked(offered, Imported(s, listed, requested, fetches).links.Keys);
  }
}
