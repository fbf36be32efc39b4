/**
  Names that make no difference (src/server/collection_match.rs): files match
  a held track without a name just as they match it under a name that none of
  their tracks carries.
*/
module CollectionUnseen {
  import opened Wrappers
  import opened Pairing
  import opened Importing
  import opened CollectionMatch
  import opened Folds

  /** Some track of the files goes by the name. */
  ghost predicate Carries(files: seq<ParsedFile>, name: string) {
    exists f: nat, i: nat :: f < |files| && i < |files[f].tracks| && files[f].tracks[i].name == Some(name)
  }

  /** `b` is `a`, or `a` without its name under one that no track of the files carries. */
  ghost predicate NamedUnseen(files: seq<ParsedFile>, a: TrackItem, b: TrackItem) {
    || b == a
    || (a.name.None? && b.name.Some? && !Carries(files, b.name.value) && b == a.(name := b.name))
  }

  ghost predicate EntryUnseen(files: seq<ParsedFile>, a: Entry<TrackItem>, b: Entry<TrackItem>) {
    b == a.(content := b.content) && NamedUnseen(files, a.content, b.content)
  }

  ghost predicate EntriesUnseen(files: seq<ParsedFile>, a: seq<Entry<TrackItem>>, b: seq<Entry<TrackItem>>) {
    |a| == |b| && forall k :: 0 <= k < |a| ==> EntryUnseen(files, a[k], b[k])
  }

  ghost predicate WorkUnseen(files: seq<ParsedFile>, a: Work<TrackItem>, b: Work<TrackItem>) {
    && EntriesUnseen(files, a.entries, b.entries)
    && a.review == b.review && a.matchedHeld == b.matchedHeld && a.results == b.results
  }

  /** Two states alike but for such names. */
  ghost predicate StatesUnseen(files: seq<ParsedFile>, a: State, b: State) {
    EntriesUnseen(files, a.tracks, b.tracks) && b == a.(tracks := b.tracks)
  }

  lemma {:induction false} RelationUnseen(geo: Geometry, files: seq<ParsedFile>, f: nat, i: nat, a: TrackItem,
                                          b: TrackItem)
    requires f < |files| && i < |files[f].tracks| && NamedUnseen(files, a, b)
    ensures var item := files[f].tracks[i];
            && TrackRelation(geo, item, a) == TrackRelation(geo, item, b)
            && NamedUnseen(files, item.(name := NameOr(item.name, a.name)), item.(name := NameOr(item.name, b.name)))
  {
    var item := files[f].tracks[i];
    assert b != a && item.name.Some? ==> Carries(files, item.name.value);
  }

  lemma {:induction false} OneUnseen(geo: Geometry, files: seq<ParsedFile>, f: nat, intake: Intake, i: nat,
                                     pair: Option<(nat, Rank)>, a: Work<TrackItem>, b: Work<TrackItem>)
    requires f < |files| && i < |files[f].tracks| && WorkUnseen(files, a, b)
    requires pair.Some? ==> pair.value.0 < |a.entries|
    ensures var item, kind := files[f].tracks[i], TrackKind(geo);
            WorkUnseen(files, TakeOne(kind, intake, i, item, pair, a), TakeOne(kind, intake, i, item, pair, b))
  {
    if pair.Some? {
      var j := pair.value.0;
      assert EntryUnseen(files, a.entries[j], b.entries[j]);
      RelationUnseen(geo, files, f, i, a.entries[j].content, b.entries[j].content);
    }
  }

  lemma {:induction false} FromUnseen(geo: Geometry, files: seq<ParsedFile>, f: nat, intake: Intake, pairs: Pairs,
                                      i: nat, a: Work<TrackItem>, b: Work<TrackItem>)
    requires f < |files| && i <= |files[f].tracks| == |pairs| && PairsWithin(pairs, |a.entries|)
    requires WorkUnseen(files, a, b)
    ensures WorkUnseen(files, TakeFrom(TrackKind(geo), intake, files[f].tracks, pairs, i, a),
                       TakeFrom(TrackKind(geo), intake, files[f].tracks, pairs, i, b))
    decreases |pairs| - i
  {
    if i < |pairs| {
      var item, kind := files[f].tracks[i], TrackKind(geo);
      OneUnseen(geo, files, f, intake, i, pairs[i], a, b);
      FromUnseen(geo, files, f, intake, pairs, i + 1, TakeOne(kind, intake, i, item, pairs[i], a),
                 TakeOne(kind, intake, i, item, pairs[i], b));
    }
  }

  /** They pair alike. */
  lemma {:induction false} PairsUnseen(geo: Geometry, files: seq<ParsedFile>, f: nat, a: seq<Entry<TrackItem>>,
                                       b: seq<Entry<TrackItem>>)
    requires f < |files| && EntriesUnseen(files, a, b)
    ensures PairsOf(TrackKind(geo), files[f].tracks, a) == PairsOf(TrackKind(geo), files[f].tracks, b)
  {
    var items, kind := files[f].tracks, TrackKind(geo);
    forall i: nat, j: nat | i < |items| && j < |a|
      ensures Relates(kind, items, a)(i, j) == Relates(kind, items, b)(i, j)
    {
      assert EntryUnseen(files, a[j], b[j]);
      RelationUnseen(geo, files, f, i, a[j].content, b[j].content);
    }
    PairedSame(|items|, |a|, Relates(kind, items, a), Relates(kind, items, b));
  }

  lemma {:induction false} FileUnseen(geo: Geometry, d: Decisions, n: nat, files: seq<ParsedFile>, f: nat, a: State,
                                      b: State)
    requires f < |files| && StatesUnseen(files, a, b)
    ensures StatesUnseen(files, FileTaken(geo, d, n, files[f], a), FileTaken(geo, d, n, files[f], b))
  {
    var intake, items := Intake(n, Unchanged, false, d.tracks), files[f].tracks;
    PairsUnseen(geo, files, f, a.tracks, b.tracks);
    PairsOfWithin(TrackKind(geo), items, a.tracks);
    FromUnseen(geo, files, f, intake, PairsOf(TrackKind(geo), items, a.tracks), 0,
               Work(a.tracks, a.reviewTracks, a.matchedHeld, []), Work(b.tracks, b.reviewTracks, b.matchedHeld, []));
  }

  lemma {:induction false} FewerUnseen(files: seq<ParsedFile>, a: State, b: State)
    requires files != [] && StatesUnseen(files, a, b)
    ensures StatesUnseen(files[1..], a, b)
  {
    forall name | Carries(files[1..], name) ensures Carries(files, name) {
      var rest := files[1..];
      var f: nat, i: nat :| f < |rest| && i < |rest[f].tracks| && rest[f].tracks[i].name == Some(name);
      assert files[f + 1].tracks[i].name == Some(name);
    }
    forall k | 0 <= k < |a.tracks| ensures EntryUnseen(files[1..], a.tracks[k], b.tracks[k]) {
      assert EntryUnseen(files, a.tracks[k], b.tracks[k]);
    }
  }

  /** Whatever the files do, they do to both alike. */
  lemma {:induction false} FilesUnseen(geo: Geometry, d: Decisions, n: nat, files: seq<ParsedFile>, a: State, b: State)
    requires StatesUnseen(files, a, b)
    ensures StatesUnseen([], Fold(Taking(geo, d), n, files, a), Fold(Taking(geo, d), n, files, b))
    decreases |files|
  {
    if files != [] {
      var x, y := FileTaken(geo, d, n, files[0], a), FileTaken(geo, d, n, files[0], b);
      FileUnseen(geo, d, n, files, 0, a, b);
      FewerUnseen(files, x, y);
      FilesUnseen(geo, d, n + 1, files[1..], x, y);
    }
  }

  /** A collection whose tracks are those of another, some of the unnamed ones under names no file track carries. */
  ghost predicate HeldUnseen(files: seq<ParsedFile>, a: Collection, b: Collection) {
    && b.waypoints == a.waypoints && |a.tracks| == |b.tracks|
    && forall k :: 0 <= k < |a.tracks| ==>
         a.tracks[k].id == b.tracks[k].id && NamedUnseen(files, a.tracks[k].content, b.tracks[k].content)
  }

  /** Such names make no difference to what an upload matches, decides, adds and replaces. */
  lemma {:induction false} UnseenNames(geo: Geometry, files: seq<ParsedFile>, d: Decisions, a: Collection,
                                       b: Collection)
    requires HeldUnseen(files, a, b)
    ensures StatesUnseen([], EndState(geo, a, files, d), EndState(geo, b, files, d))
  {
    forall k | 0 <= k < |a.tracks| && !d.replaceAll
      ensures EntryUnseen(files, Started(a, d).tracks[k], Started(b, d).tracks[k])
    {
      assert NamedUnseen(files, a.tracks[k].content, b.tracks[k].content);
    }
    FilesUnseen(geo, d, 0, files, Started(a, d), Started(b, d));
  }
}
