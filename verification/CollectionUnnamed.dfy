/**
  When a name is found again (src/server/collection_match.rs): unless a file
  has as many unnamed items as there are entries of the name, since these may
  take them all.
*/
module CollectionUnnamed {
  import opened Wrappers
  import opened LineGrid
  import opened Pairing
  import opened Importing
  import opened CollectionMatch
  import opened CollectionOutcome
  import opened CollectionNames
  import opened CollectionUploads

  // --------------------------------------------------------------- counting

  /** Each of some numbers has one of others to itself, so there are no more of them. */
  lemma {:induction false} NoMoreThan(some: set<nat>, others: set<nat>, has: (nat, nat) -> bool)
    requires forall j: nat :: j in some ==> exists o: nat :: o in others && has(j, o)
    requires forall i: nat, j: nat, o: nat :: i in some && j in some && has(i, o) && has(j, o) ==> i == j
    ensures |some| <= |others|
  {
    if some != {} {
      var j: nat :| j in some;
      var o: nat :| o in others && has(j, o);
      forall i: nat | i in some - {j} ensures exists p: nat :: p in others - {o} && has(i, p) {
        var p: nat :| p in others && has(i, p);
        assert p != o;
      }
      NoMoreThan(some - {j}, others - {o}, has);
    }
  }

  /** The items without a name. */
  function Unnamed<C>(naming: Naming<C>, items: seq<C>): set<nat> {
    set o: nat | o < |items| && naming.name(items[o]).None?
  }

  /** The entries of a name. */
  function OfName<C>(naming: Naming<C>, entries: seq<Entry<C>>, name: Option<string>): set<nat> {
    set j: nat | j < |entries| && naming.name(entries[j].content) == name
  }

  /** No other item of the file goes by its name. */
  ghost predicate AloneByName<C>(naming: Naming<C>, items: seq<C>, k: nat)
    requires k < |items|
  {
    && naming.name(items[k]).Some?
    && forall o :: 0 <= o < |items| && o != k ==> naming.name(items[o]) != naming.name(items[k])
  }

  // ------------------------------------------------------------ fewer unnamed

  lemma {:induction false} UnnamedTook<C(!new)>(kind: Kind<C>, naming: Naming<C>, f: nat, r: Round<C>, k: nat, j: nat)
    returns (o: nat)
    requires Reviewed(kind, f, r) && k < |r.items| && NamesRelate(kind, naming) && KeepsNames(kind, naming)
    requires OriginsApart(r.entries) && AloneByName(naming, r.items, k) && r.Of(k).matched.None?
    requires j in OfName(naming, r.entries, naming.name(r.items[k]))
    ensures o in Unnamed(naming, r.items) && r.Of(o).matched == Some(r.entries[j].origin)
  {
    FoundByName(kind, naming, f, r, k);
    assert MatchedByOther(r, k, r.entries[j].origin);
    o :| o < |r.items| && o != k && r.Of(o).matched == Some(r.entries[j].origin);
    if naming.name(r.items[o]).Some? {
      OtherOfItsName(kind, naming, f, r, o, j);
    }
  }

  lemma {:induction false} AllTaken<C(!new)>(kind: Kind<C>, naming: Naming<C>, f: nat, r: Round<C>, k: nat)
    requires Reviewed(kind, f, r) && k < |r.items| && NamesRelate(kind, naming) && KeepsNames(kind, naming)
    requires OriginsApart(r.entries) && AloneByName(naming, r.items, k) && r.Of(k).matched.None?
    ensures |OfName(naming, r.entries, naming.name(r.items[k]))| <= |Unnamed(naming, r.items)|
  {
    var some, others := OfName(naming, r.entries, naming.name(r.items[k])), Unnamed(naming, r.items);
    var has := (j: nat, o: nat) =>
      j < |r.entries| && o < |r.items| && r.Of(o).matched == Some(r.entries[j].origin);
    forall j: nat | j in some ensures exists o: nat :: o in others && has(j, o) {
      var o := UnnamedTook(kind, naming, f, r, k, j);
      assert has(j, o);
    }
    NoMoreThan(some, others, has);
  }

  /** An item stands alone by its name, in a file with fewer unnamed items than there are entries of that name. */
  ghost predicate FewerUnnamed<C>(naming: Naming<C>, r: Round<C>, k: nat) {
    && k < |r.items| && AloneByName(naming, r.items, k)
    && |Unnamed(naming, r.items)| < |OfName(naming, r.entries, naming.name(r.items[k]))|
  }

  lemma {:induction false} FewerFound<C(!new)>(kind: Kind<C>, naming: Naming<C>, f: nat, r: Round<C>, k: nat)
    requires Reviewed(kind, f, r) && FewerUnnamed(naming, r, k)
    requires NamesRelate(kind, naming) && KeepsNames(kind, naming) && OriginsApart(r.entries)
    ensures r.Of(k).matched.Some? && !r.Of(k).proposed.Add?
  {
    if r.Of(k).matched.None? {
      AllTaken(kind, naming, f, r, k);
    }
    assert SaysOf(kind, f, r.items, k, PairsOf(kind, r.items, r.entries)[k], r.entries, r.Of(k));
  }

  /** Then it is matched, and never proposed as one more, in every upload. */
  lemma {:induction false} FewerAreFound(geo: Geometry, held: Collection, files: seq<ParsedFile>, d: Decisions, f: nat)
    requires f < |files| && IdsDistinct(held.tracks) && IdsDistinct(held.waypoints)
    ensures var t, w := TrackRound(geo, held, files, d, f), WaypointRound(geo, held, files, d, f);
            && t.Valid() && w.Valid()
            && (forall k: nat :: FewerUnnamed(TRACK_NAMING, t, k) ==> t.Of(k).matched.Some? && !t.Of(k).proposed.Add?)
            && (forall k: nat :: FewerUnnamed(WAYPOINT_NAMING, w, k)
                                 ==> w.Of(k).matched.Some? && !w.Of(k).proposed.Add?)
  {
    var t, w := TrackRound(geo, held, files, d, f), WaypointRound(geo, held, files, d, f);
    RoundsReviewed(geo, held, files, d, f);
    KindsRelateByName(geo);
    KindsKeepNames(geo);
    EndInOrder(geo, held, files[..f], d);
    forall k: nat | FewerUnnamed(TRACK_NAMING, t, k) ensures t.Of(k).matched.Some? && !t.Of(k).proposed.Add? {
      FewerFound(TrackKind(geo), TRACK_NAMING, f, t, k);
    }
    forall k: nat | FewerUnnamed(WAYPOINT_NAMING, w, k) ensures w.Of(k).matched.Some? && !w.Of(k).proposed.Add? {
      FewerFound(WaypointKind(geo), WAYPOINT_NAMING, f, w, k);
    }
  }

  // ---------------------------------------------------------- not any fewer

  const HUT := WaypointItem(Some("Hut"), None, Position(60.0, 8.0), None, None)

  const NAMELESS := HUT.(name := None)

  const MOVED := HUT.(position := Position(60.001, 8.0))

  /** One place is a hundred metres from another. */
  const APART := Geometry((a: seq<Position>, b: seq<Position>, t: real) => false,
                          (p: Position, q: Position) => if p == q then 0.0 else 100.0)

  function Huts(e: nat): (huts: seq<HeldItem<WaypointItem>>)
    ensures |huts| == e
  {
    seq(e, (k: nat) => HeldItem(k, HUT))
  }

  /** Some waypoints without a name where the huts are, and the hut somewhere else. */
  function NamelessAndMoved(u: nat): (items: seq<WaypointItem>)
    ensures |items| == u + 1
  {
    seq(u, (k: nat) => NAMELESS) + [MOVED]
  }

  lemma {:induction false} TheyRelate(u: nat, e: nat, i: nat, j: nat)
    requires i <= u && j < e
    ensures Relates(WaypointKind(APART), NamelessAndMoved(u), HeldEntries(Huts(e)))(i, j)
         == Some(if i < u then Relation(Same, Finite(0.0)) else Relation(Changed, Finite(100.0)))
  {
  }

  /** A nameless waypoint is paired if the moved one is, and with another. */
  lemma {:induction false} NamelessFirst(u: nat, e: nat, i: nat)
    requires i <= u && PairsOf(WaypointKind(APART), NamelessAndMoved(u), HeldEntries(Huts(e)))[u].Some?
    ensures PairsOf(WaypointKind(APART), NamelessAndMoved(u), HeldEntries(Huts(e)))[i].Some?
  {
    var kind, items, entries := WaypointKind(APART), NamelessAndMoved(u), HeldEntries(Huts(e));
    var pairs, relating := PairsOf(kind, items, entries), Relates(kind, items, entries);
    PairedMeans(u + 1, e, relating, u);
    var j := pairs[u].value.0;
    TheyRelate(u, e, i, j);
    TheyRelate(u, e, u, j);
    if i < u && pairs[i].None? {
      PairedIsStable(u + 1, e, relating, i, j);
    }
  }

  lemma {:induction false} MovedIsLeft(u: nat, e: nat)
    requires e <= u
    ensures PairsOf(WaypointKind(APART), NamelessAndMoved(u), HeldEntries(Huts(e)))[u].None?
  {
    var kind, items, entries := WaypointKind(APART), NamelessAndMoved(u), HeldEntries(Huts(e));
    var pairs := PairsOf(kind, items, entries);
    if pairs[u].Some? {
      var some, others := Below(u + 1), Below(e);
      var has := (i: nat, j: nat) => i <= u && pairs[i].Some? && pairs[i].value.0 == j;
      PairsOfWithin(kind, items, entries);
      PairsApart(kind, items, entries);
      forall i: nat | i in some ensures exists j: nat :: j in others && has(i, j) {
        NamelessFirst(u, e, i);
        assert has(i, pairs[i].value.0);
      }
      NoMoreThan(some, others, has);
    }
  }

  function Below(n: nat): (numbers: set<nat>)
    ensures |numbers| == n && forall k: nat :: k in numbers <==> k < n
  {
    if n == 0 then {} else Below(n - 1) + {n - 1}
  }

  /** Item `k` of file `f` stands alone by its name among `u` unnamed ones, and `e` entries go by it. */
  ghost predicate Alone(held: Collection, r: Round<WaypointItem>, k: nat, u: nat, e: nat) {
    && IdsDistinct(held.tracks) && IdsDistinct(held.waypoints) && r.Valid() && k < |r.items|
    && AloneByName(WAYPOINT_NAMING, r.items, k) && |Unnamed(WAYPOINT_NAMING, r.items)| == u
    && |OfName(WAYPOINT_NAMING, r.entries, r.items[k].name)| == e
  }

  /** With `u` unnamed ones and `e` entries, never one more, whatever the upload and wherever things lie. */
  ghost predicate NeverOneMore(u: nat, e: nat) {
    forall geo: Geometry, held: Collection, files: seq<ParsedFile>, d: Decisions, f: nat, k: nat ::
      f < |files| && Alone(held, WaypointRound(geo, held, files, d, f), k, u, e)
      ==> !WaypointRound(geo, held, files, d, f).Of(k).proposed.Add?
  }

  lemma {:induction false} HutsCounted(u: nat, e: nat)
    ensures AloneByName(WAYPOINT_NAMING, NamelessAndMoved(u), u)
    ensures |Unnamed(WAYPOINT_NAMING, NamelessAndMoved(u))| == u
    ensures |OfName(WAYPOINT_NAMING, HeldEntries(Huts(e)), Some("Hut"))| == e
  {
    assert Unnamed(WAYPOINT_NAMING, NamelessAndMoved(u)) == Below(u);
    assert OfName(WAYPOINT_NAMING, HeldEntries(Huts(e)), Some("Hut")) == Below(e);
  }

  /** Where there are as many nameless waypoints as huts, the hut somewhere else is one more. */
  lemma {:induction false} OneMoreHut(u: nat, e: nat)
    requires e <= u
    ensures var held, files := Collection([], Huts(e)), [ParsedFile([], NamelessAndMoved(u))];
            var r := WaypointRound(APART, held, files, NONE, 0);
            Alone(held, r, u, u, e) && r.Of(u).matched.None? && r.Of(u).proposed.Add?
  {
    var held, files := Collection([], Huts(e)), [ParsedFile([], NamelessAndMoved(u))];
    var r := WaypointRound(APART, held, files, NONE, 0);
    RoundsReviewed(APART, held, files, NONE, 0);
    assert files[..0] == [];
    assert r.entries == HeldEntries(Huts(e));
    MovedIsLeft(u, e);
    HutsCounted(u, e);
    assert SaysOf(WaypointKind(APART), 0, r.items, u, PairsOf(WaypointKind(APART), r.items, r.entries)[u], r.entries,
                  r.Of(u));
  }

  /**
    A waypoint that stands alone by its name in its file is never proposed as
    one more, wherever things lie, exactly where the file has fewer unnamed
    ones than there are entries of that name.
  */
  lemma {:induction false} NeverOneMoreExactly(u: nat, e: nat)
    ensures NeverOneMore(u, e) <==> u < e
  {
    if u < e {
      forall geo: Geometry, held: Collection, files: seq<ParsedFile>, d: Decisions, f: nat, k: nat
        | f < |files| && Alone(held, WaypointRound(geo, held, files, d, f), k, u, e)
        ensures !WaypointRound(geo, held, files, d, f).Of(k).proposed.Add?
      {
        FewerAreFound(geo, held, files, d, f);
        assert FewerUnnamed(WAYPOINT_NAMING, WaypointRound(geo, held, files, d, f), k);
      }
    } else {
      OneMoreHut(u, e);
      assert [ParsedFile([], NamelessAndMoved(u))][0].tracks == [];
    }
  }
}
