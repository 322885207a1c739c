/** Batches and stored objects, deletion by filter, and whole runs of the artifact service. */
module ArtifactRuns {
  import opened Sequences
  import opened StableSort
  import opened ArtifactMetadata
  import opened Listing
  import opened ArtifactModel
  import opened ArtifactLaws
  import opened ArtifactRebuild

  // ----- what a batch does to the stored objects -----

  /** The keys of the artifacts with these ids. */
  function KeysOfAll(records: seq<Metadata>, ids: seq<string>): set<string>
  {
    if ids == [] then {}
    else
      KeysOfAll(records, ids[..|ids| - 1])
      + match Find(records, ids[|ids| - 1]) case None => {} case Some(m) => KeysOf(m)
  }

  lemma KeysOfOneMore(records: seq<Metadata>, ids: seq<string>, id: string)
    ensures KeysOfAll(records, ids + [id]) ==
            KeysOfAll(records, ids) + match Find(records, id) case None => {} case Some(m) => KeysOf(m)
  {
    assert (ids + [id])[..|ids|] == ids;
  }

  /** Objects are only ever erased: those of the deleted artifacts all are, and none that belongs to
      no requested artifact. */
  ghost predicate ErasesOnly(before: World, ids: seq<string>, after: map<string, Bytes>, deleted: seq<string>)
  {
    && (forall k :: k in after ==> k in before.objects && after[k] == before.objects[k])
    && (forall k :: k in before.objects && k !in after ==> k in KeysOfAll(before.records, ids))
    && (forall k :: k in KeysOfAll(before.records, deleted) ==> k !in after)
  }

  lemma ErasesOnlyStep(before: World, ids: seq<string>, mid: map<string, Bytes>, deleted: seq<string>, id: string,
                       m: Metadata, next: map<string, Bytes>, gone: bool)
    requires ErasesOnly(before, ids, mid, deleted) && Find(before.records, id) == Some(m)
    requires if gone then next == mid - KeysOf(m) else next == mid || next == mid - {ContentKeyOf(m)}
    ensures ErasesOnly(before, ids + [id], next, if gone then deleted + [id] else deleted)
  {
    KeysOfOneMore(before.records, ids, id);
    KeysOfOneMore(before.records, deleted, id);
  }

  lemma ErasesOnlyMore(before: World, ids: seq<string>, mid: map<string, Bytes>, deleted: seq<string>, id: string)
    requires ErasesOnly(before, ids, mid, deleted)
    ensures ErasesOnly(before, ids + [id], mid, deleted)
  {
    KeysOfOneMore(before.records, ids, id);
  }

  /** The first time the batch comes to an id, the index still says of it what it said at the start. */
  lemma FindDuringBatch(e: Env, w: World, ids: seq<string>, n: nat)
    requires n < |ids| && ids[n] !in ids[..n]
    ensures Find(DeleteMany(e, w, ids, n).0.records, ids[n]) == Find(w.records, ids[n])
  {
    DeleteManyReports(e, w, ids, n);
    FindKept(w.records, DeleteMany(e, w, ids, n).1.deleted, ids[n]);
  }

  lemma {:induction false} DeleteManyObjects(e: Env, w: World, ids: seq<string>, n: nat)
    requires n <= |ids|
    ensures var (after, d) := DeleteMany(e, w, ids, n); ErasesOnly(w, ids[..n], after.objects, d.deleted)
  {
    if n > 0 {
      var (w1, d) := DeleteMany(e, w, ids, n - 1);
      var front, id := ids[..n - 1], ids[n - 1];
      DeleteManyObjects(e, w, ids, n - 1);
      assert ids[..n] == front + [id];
      ErasesOnlyMore(w, front, w1.objects, d.deleted, id);
      if id !in front {
        FindDuringBatch(e, w, ids, n - 1);
        DeleteErasesOnly(e, w, front, w1, d.deleted, id);
      }
    }
  }

  lemma DeleteErasesOnly(e: Env, before: World, ids: seq<string>, mid: World, deleted: seq<string>, id: string)
    requires ErasesOnly(before, ids, mid.objects, deleted) && Find(mid.records, id) == Find(before.records, id)
    ensures var (after, verdict) := Delete(e, mid, id);
            ErasesOnly(before, ids + [id], after.objects, if verdict == Deleted then deleted + [id] else deleted)
  {
    DeleteObjects(e, mid, id);
    var (after, verdict) := Delete(e, mid, id);
    if Find(before.records, id).Some? {
      ErasesOnlyStep(before, ids, mid.objects, deleted, id, Find(before.records, id).value, after.objects,
                     verdict == Deleted);
    } else {
      ErasesOnlyMore(before, ids, mid.objects, deleted, id);
    }
  }

  // ----- deletion by filter -----

  lemma {:induction false} NoRepeats(ids: seq<string>)
    requires NoDuplicates(ids)
    ensures Repeats(ids) == []
  {
    if ids != [] {
      NoRepeats(ids[..|ids| - 1]);
    }
  }

  /** Deletion by filter acts on the whole match set and on nothing else, whatever fails. */
  lemma DeleteByFilterReports(e: Env, w: World, words: Words, now: int, f: ArtifactFilter)
    requires Collation(words.compare) && UniqueIds(w.records)
    ensures var (after, d) := DeleteByFilter(e, w, words, now, f);
            && d.notFound == [] && d.skipped == []
            && (forall m :: m in w.records ==> (m.id in d.deleted || m.id in d.failed <==> Matches(now, m, f)))
            && (forall m :: m in w.records ==>
                  (m.id in d.deleted || m.id in d.failed <==> m in Query(words, now, w.records, f)))
            && NoDuplicates(d.deleted) && (forall id :: id in d.deleted ==> Find(w.records, id).Some?)
            && after.records == Filter(NotIn(d.deleted), w.records)
  {
    var matches := Query(words, now, w.records, f);
    var ids := Map(IdOf(), matches);
    QueryExact(words, now, w.records, f);
    UniqueIdsAreDistinct(matches);
    NoRepeats(ids);
    DeleteManyReports(e, w, ids, |ids|);
    assert ids[..|ids|] == ids;
    forall id | id in ids
      ensures Find(w.records, id).Some?
    {
      var i :| 0 <= i < |ids| && ids[i] == id;
      assert matches[i] in w.records;
    }
    forall m | m in w.records
      ensures m.id in ids <==> Matches(now, m, f)
    {
      MatchById(w.records, matches, ids, m);
    }
    var d := DeleteByFilter(e, w, words, now, f).1;
    if d.notFound != [] {
      Inhabited(d.notFound);
    }
  }

  lemma Inhabited(ids: seq<string>)
    requires ids != []
    ensures exists id :: id in ids
  {
    assert ids[0] in ids;
  }

  lemma MatchById(records: seq<Metadata>, matches: seq<Metadata>, ids: seq<string>, m: Metadata)
    requires UniqueIds(records) && m in records && (forall x :: x in matches ==> x in records)
    requires ids == Map(IdOf(), matches)
    ensures m.id in ids <==> m in matches
  {
    if m.id in ids {
      var i :| 0 <= i < |ids| && ids[i] == m.id;
      assert matches[i] in records && matches[i].id == m.id;
    }
    if m in matches {
      var i :| 0 <= i < |matches| && matches[i] == m;
      assert ids[i] == m.id;
    }
  }

  function NotMatching(now: int, f: ArtifactFilter): Metadata -> bool { (m: Metadata) => !Matches(now, m, f) }

  /** With no failure the same query is then empty and the other records survive in order. */
  lemma DeleteByFilterClears(e: Env, w: World, words: Words, now: int, f: ArtifactFilter)
    requires Collation(words.compare) && UniqueIds(w.records)
    requires DeleteByFilter(e, w, words, now, f).1.failed == []
    ensures var after := DeleteByFilter(e, w, words, now, f).0;
            && after.records == Filter(NotMatching(now, f), w.records)
            && Query(words, now, after.records, f) == []
  {
    var (after, d) := DeleteByFilter(e, w, words, now, f);
    DeleteByFilterReports(e, w, words, now, f);
    FilterCongruent(NotIn(d.deleted), NotMatching(now, f), w.records);
    SortPermutes(InOrder(words), after.records);
    SameElements(after.records, Sort(InOrder(words), after.records));
    FilterNone(Matching(now, f), Sort(InOrder(words), after.records));
  }

  /** The page asked for does not limit what is deleted. */
  lemma DeleteByFilterIgnoresPaging(e: Env, w: World, words: Words, now: int, f: ArtifactFilter, limit: Option<int>,
                                    cursor: Option<string>)
    ensures DeleteByFilter(e, w, words, now, f.(limit := limit, cursor := cursor)) ==
            DeleteByFilter(e, w, words, now, f)
  {
    QueryIgnoresPaging(words, now, w.records, f, limit, cursor);
  }

  // ----- deleteAllArtifacts -----

  function Total(c: Codec, w: World, words: Words, now: int): nat
  {
    List(c, words, now, w.records, EVERYTHING.(limit := Some(1))).total
  }

  /** The totals that a confirmed or unconfirmed deletion of everything reports. */
  function DeleteAllArtifacts(e: Env, c: Codec, w: World, words: Words, now: int, later: int,
                              confirmed: bool): (World, nat, nat)
  {
    if !confirmed then (w, 0, Total(c, w, words, now))
    else
      var (after, d) := DeleteByFilter(e, w, words, now, EVERYTHING);
      (after, |d.deleted|, Total(c, after, words, later))
  }

  lemma TotalIsCount(c: Codec, w: World, words: Words, now: int)
    ensures Total(c, w, words, now) == |w.records|
  {
    var f := EVERYTHING.(limit := Some(1));
    FilterAll(Matching(now, f), Sort(InOrder(words), w.records));
    SortPermutes(InOrder(words), w.records);
  }

  lemma {:induction false} CountKept(records: seq<Metadata>, gone: set<string>, keep: Metadata -> bool)
    requires UniqueIds(records) && forall id :: id in gone ==> exists m :: m in records && m.id == id
    requires forall m :: m in records ==> (keep(m) <==> m.id !in gone)
    ensures |Filter(keep, records)| + |gone| == |records|
  {
    if records == [] {
      assert gone == {};
    } else {
      var rest := gone - {records[0].id};
      forall id | id in rest ensures exists m :: m in records[1..] && m.id == id
      {
        var m :| m in records && m.id == id;
        assert m in records[1..];
      }
      CountKept(records[1..], rest, keep);
    }
  }

  /** Deleted plus remaining is the number there was, whatever fails. */
  lemma DeleteAllAddsUp(e: Env, c: Codec, w: World, words: Words, now: int, later: int, confirmed: bool)
    requires Collation(words.compare) && UniqueIds(w.records)
    ensures var (after, deleted, remaining) := DeleteAllArtifacts(e, c, w, words, now, later, confirmed);
            && deleted + remaining == Total(c, w, words, now)
            && remaining == |after.records|
            && (!confirmed ==> after == w)
            && (confirmed && NoneThrows(e, w.calls, after.calls) ==> after.records == [])
  {
    TotalIsCount(c, w, words, now);
    if confirmed {
      var (after, d) := DeleteByFilter(e, w, words, now, EVERYTHING);
      DeleteByFilterReports(e, w, words, now, EVERYTHING);
      TotalIsCount(c, after, words, later);
      ElementsCount(d.deleted);
      CountKept(w.records, Elements(d.deleted), NotIn(d.deleted));
      if NoneThrows(e, w.calls, after.calls) {
        EverythingDeleted(e, w, words, now);
      }
    }
  }

  lemma EverythingDeleted(e: Env, w: World, words: Words, now: int)
    requires Collation(words.compare) && UniqueIds(w.records)
    requires NoneThrows(e, w.calls, DeleteByFilter(e, w, words, now, EVERYTHING).0.calls)
    ensures DeleteByFilter(e, w, words, now, EVERYTHING).0.records == []
  {
    var ids := Map(IdOf(), Query(words, now, w.records, EVERYTHING));
    FailedMeansThrown(e, w, ids, |ids|);
    DeleteByFilterClears(e, w, words, now, EVERYTHING);
    FilterNone(NotMatching(now, EVERYTHING), w.records);
  }

  // ----- whole runs -----

  datatype Op =
    | DoSave(id: string, now: int, draft: Draft)
    | DoDelete(target: string)
    | DoDeleteMany(ids: seq<string>)
    | DoDeleteByFilter(words: Words, clock: int, filter: ArtifactFilter)
    | DoRebuild

  ghost function Apply(e: Env, w: World, op: Op): World
    requires Lawful(e)
  {
    match op
    case DoSave(id, now, draft) => Save(e, w, id, now, draft).0
    case DoDelete(id) => Delete(e, w, id).0
    case DoDeleteMany(ids) => DeleteMany(e, w, ids, |ids|).0
    case DoDeleteByFilter(words, clock, filter) => DeleteByFilter(e, w, words, clock, filter).0
    case DoRebuild => Rebuild(e, w).0
  }

  ghost function Run(e: Env, w: World, ops: seq<Op>): World
    requires Lawful(e)
  {
    if ops == [] then w else Apply(e, Run(e, w, ops[..|ops| - 1]), ops[|ops| - 1])
  }

  /** Saves use fresh ids and safe drafts. */
  ghost predicate Orderly(e: Env, w: World, op: Op)
  {
    op.DoSave? ==> FreshId(e, w, op.id) && SafeDraft(op.now, op.draft)
  }

  ghost predicate OrderlyRun(e: Env, w: World, ops: seq<Op>)
    requires Lawful(e)
  {
    if ops == [] then true
    else
      var front, last := ops[..|ops| - 1], ops[|ops| - 1];
      OrderlyRun(e, w, front) && Orderly(e, Run(e, w, front), last)
  }

  lemma OpKeepsStep(e: Env, w: World, op: Op)
    requires Lawful(e) && SoundWorld(e, w) && Orderly(e, w, op)
    ensures SoundWorld(e, Apply(e, w, op))
    ensures (if op.DoRebuild? then Rebuild(e, w).1 == Done else CoherentWorld(e, w)) ==>
              CoherentWorld(e, Apply(e, w, op))
  {
    match op
    case DoSave(id, now, draft) => SaveKeepsStep(e, w, id, now, draft);
    case DoDelete(id) => DeleteKeepsStep(e, w, id);
    case DoDeleteMany(ids) => DeleteManyKeepsStep(e, w, ids, |ids|);
    case DoDeleteByFilter(words, clock, filter) =>
      var ids := Map(IdOf(), Query(words, clock, w.records, filter));
      DeleteManyKeepsStep(e, w, ids, |ids|);
    case DoRebuild => RebuildRestores(e, w);
  }

  /** The last rebuild of the run, if there is one, returned. */
  ghost predicate Rebuilt(e: Env, w: World, ops: seq<Op>)
    requires Lawful(e)
  {
    if ops == [] then true
    else
      var front, last := ops[..|ops| - 1], ops[|ops| - 1];
      if last.DoRebuild? then Rebuild(e, Run(e, w, front)).1 == Done else Rebuilt(e, w, front)
  }

  /** Over every run from an empty store, whichever storage calls throw: the index never holds a
      record that its sidecar does not, and it is exactly what a rebuild would read unless the last
      rebuild threw half way. */
  lemma {:induction false} EveryRunKeepsStep(e: Env, ops: seq<Op>)
    requires Lawful(e) && OrderlyRun(e, World(map[], [], 0), ops)
    ensures SoundWorld(e, Run(e, World(map[], [], 0), ops))
    ensures Rebuilt(e, World(map[], [], 0), ops) ==>
              CoherentWorld(e, Run(e, World(map[], [], 0), ops)) && Agrees(e, Run(e, World(map[], [], 0), ops))
  {
    var start := World(map[], [], 0);
    if ops != [] {
      var front, last := ops[..|ops| - 1], ops[|ops| - 1];
      EveryRunKeepsStep(e, front);
      OpKeepsStep(e, Run(e, start, front), last);
    }
    if Rebuilt(e, start, ops) {
      CoherentAgrees(e, Run(e, start, ops));
    }
  }
}
