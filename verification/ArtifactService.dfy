/** The stateful artifact store: storage, index and service, each method proved equal to the
    function of ArtifactModel that specifies it. */
module ArtifactService {
  import opened Sequences
  import opened ArtifactMetadata
  import opened ArtifactKeys
  import opened Listing
  import opened ArtifactModel
  import opened ArtifactLaws
  import opened ArtifactRebuild
  import SidecarCache

  /** IArtifactStorage. A call that throws (returns false or None) leaves its key as it was. */
  class Storage {
    const env: Env
    var objects: map<string, Bytes>
    var calls: nat

    constructor (env: Env)
      ensures this.env == env && objects == map[] && calls == 0
    {
      this.env := env;
      objects := map[];
      calls := 0;
    }

    method Save(key: string, content: Bytes) returns (ok: bool)
      modifies this
      ensures calls == old(calls) + 1 && ok == !env.fails(old(calls))
      ensures objects == if ok then old(objects)[key := content] else old(objects)
    {
      ok := !env.fails(calls);
      calls := calls + 1;
      if ok {
        objects := objects[key := content];
      }
    }

    method Delete(key: string) returns (ok: bool)
      modifies this
      ensures calls == old(calls) + 1 && ok == !env.fails(old(calls))
      ensures objects == if ok then old(objects) - {key} else old(objects)
    {
      ok := !env.fails(calls);
      calls := calls + 1;
      if ok {
        objects := objects - {key};
      }
    }

    method Read(key: string) returns (content: Option<Bytes>)
      modifies this`calls
      ensures calls == old(calls) + 1
      ensures content == if env.fails(old(calls)) || key !in objects then None else Some(objects[key])
    {
      content := if env.fails(calls) || key !in objects then None else Some(objects[key]);
      calls := calls + 1;
    }

    method List() returns (keys: Option<seq<string>>)
      modifies this`calls
      ensures calls == old(calls) + 1
      ensures keys == if env.fails(old(calls)) then None else Some(env.enumerate(old(calls), objects.Keys))
    {
      keys := if env.fails(calls) then None else Some(env.enumerate(calls, objects.Keys));
      calls := calls + 1;
    }
  }

  /** ArtifactIndex: the entries of a Map from id to record, in insertion order. */
  class ArtifactIndex {
    const storage: Storage
    var recordsById: seq<Metadata>

    constructor (storage: Storage)
      ensures this.storage == storage && recordsById == []
    {
      this.storage := storage;
      recordsById := [];
    }

    ghost function State(): World
      reads this, storage
    {
      World(storage.objects, recordsById, storage.calls)
    }

    /** Map.set: the id now answers with the record and no other id answers differently; an id that was
        present keeps its place, a new one goes last. */
    method Add(m: Metadata)
      modifies this
      ensures recordsById == AddRecord(old(recordsById), m)
      ensures forall id :: Find(recordsById, id) == if id == m.id then Some(m) else old(Find(recordsById, id))
      ensures Map(IdOf(), recordsById) ==
              old(Map(IdOf(), recordsById)) + if old(Find(recordsById, m.id)).Some? then [] else [m.id]
      ensures old(UniqueIds(recordsById)) ==> UniqueIds(recordsById)
    {
      ghost var before := recordsById;
      recordsById := AddRecord(recordsById, m);
      forall id { AddFinds(before, m, id); }
      AddKeepsPlaces(before, m);
      if UniqueIds(before) {
        AddKeepsUnique(before, m);
      }
    }

    /** Map.delete: the id no longer answers and no other id answers differently; the others keep their
        order. */
    method Remove(id: string)
      modifies this
      ensures recordsById == RemoveRecord(old(recordsById), id)
      ensures forall other :: Find(recordsById, other) == if other == id then None else old(Find(recordsById, other))
      ensures old(UniqueIds(recordsById)) ==> UniqueIds(recordsById)
    {
      ghost var before := recordsById;
      recordsById := RemoveRecord(recordsById, id);
      forall other { RemoveFinds(before, id, other); }
      if UniqueIds(before) {
        FilterUniqueIds(IdNot(id), before);
      }
    }

    /** One key of a rebuild: a sidecar is read, parsed and added. */
    method ReadKey(key: string) returns (outcome: RebuildOutcome)
      requires key in storage.objects
      modifies this, storage`calls
      ensures (State(), outcome) == ArtifactModel.ReadKey(storage.env, old(State()), key)
    {
      if !IsSidecarKey(key) {
        return Done;
      }
      var raw := storage.Read(key);
      if raw.None? {
        return Threw;
      }
      outcome := AddParsed(storage.env.parse(raw.value));
    }

    method AddParsed(parsed: Option<Js>) returns (outcome: RebuildOutcome)
      modifies this
      ensures (State(), outcome) == ArtifactModel.AddParsed(old(State()), parsed)
    {
      if parsed.None? {
        return Threw;
      }
      var m := FromObject(Revive(parsed.value));
      if m.None? {
        return IllTyped;
      }
      Add(m.value);
      outcome := Done;
    }

    /** Clears the index, then adds the record of every sidecar; a storage call or a parse that throws
        ends it half way. */
    method Rebuild() returns (outcome: RebuildOutcome)
      requires Lawful(storage.env)
      modifies this, storage`calls
      ensures (State(), outcome) == ArtifactModel.Rebuild(storage.env, old(State()))
    {
      recordsById := [];
      var listed := storage.List();
      if listed.None? {
        return Threw;
      }
      assert IsEnumeration(listed.value, storage.objects.Keys);
      outcome := ReadKeys(listed.value);
    }

    method ReadKeys(keys: seq<string>) returns (outcome: RebuildOutcome)
      requires forall k :: k in keys ==> k in storage.objects
      modifies this, storage`calls
      ensures (State(), outcome) == ReadSidecars(storage.env, old(State()), keys)
    {
      outcome := Done;
      for i := 0 to |keys|
        invariant storage.objects == old(storage.objects)
        invariant ReadSidecars(storage.env, State(), keys[i..]) == ReadSidecars(storage.env, old(State()), keys)
      {
        ReadAt(storage.env, State(), keys, i);
        outcome := ReadKey(keys[i]);
        if outcome != Done {
          return;
        }
      }
      outcome := Done;
    }
  }

  class ArtifactService {
    const storage: Storage
    const index: ArtifactIndex

    /** The index reads the storage that the service writes. */
    constructor (storage: Storage, index: ArtifactIndex)
      requires index.storage == storage
      ensures this.storage == storage && this.index == index && Valid()
    {
      this.storage := storage;
      this.index := index;
    }

    ghost predicate Valid() { index.storage == storage }

    ghost function State(): World
      reads storage, index
    {
      World(storage.objects, index.recordsById, storage.calls)
    }

    /** Size and hash of the content, taken piece by piece as it streams into storage. */
    method WriteContent(key: string, content: seq<Bytes>) returns (ok: bool, size: nat, contentHash: string)
      modifies storage
      ensures size == |Flatten(content)| && contentHash == storage.env.sha256(Flatten(content))
      ensures var (w, put) := Put(storage.env, old(State()), key, Flatten(content)); State() == w && ok == put
    {
      size := 0;
      var hashed: Bytes := [];
      for i := 0 to |content|
        invariant hashed == Flatten(content[..i]) && size == |hashed| && State() == old(State())
      {
        assert content[..i + 1] == content[..i] + [content[i]];
        FlattenAppend(content[..i], [content[i]]);
        assert Flatten([content[i]]) == content[i];
        hashed := hashed + content[i];
        size := size + |content[i]|;
      }
      assert content[..|content|] == content;
      assert hashed == Flatten(content);
      ok := storage.Save(key, hashed);
      contentHash := storage.env.sha256(hashed);
    }

    /** The second half of a save: the sidecar, then the index. */
    method WriteMetadata(key: string, m: Metadata) returns (ok: bool)
      requires Valid()
      modifies storage, index
      ensures var (w, put) := Put(storage.env, old(State()), key, Sidecar(storage.env, m));
              ok == put && State() == if ok then w.(records := AddRecord(w.records, m)) else w
    {
      ok := storage.Save(key, Sidecar(storage.env, m));
      if ok {
        index.Add(m);
      }
    }

    /** None when a storage call threw. The id is randomUUID's, the time the clock's. */
    method Save(id: string, now: int, draft: Draft) returns (saved: Option<Metadata>)
      requires Valid()
      modifies storage, index
      ensures (State(), saved) == ArtifactModel.Save(storage.env, old(State()), id, now, draft)
      ensures old(CoherentSave(storage.env, State(), id, now, draft)) ==> CoherentWorld(storage.env, State())
    {
      ghost var before, content := State(), Flatten(draft.content);
      CoherentSaveKeepsStep(storage.env, before, id, now, draft);
      var ok, size, contentHash := WriteContent(ContentKey(id, now, draft.texts[Extension]), draft.content);
      var m := MakeRecord(id, now, draft, size, contentHash);
      SaveByPuts(storage.env, before, id, now, draft, m, content);
      if ok {
        ok := WriteMetadata(MetadataKey(id, now), m);
      }
      saved := if ok then Some(m) else None;
    }

    method DeleteBoth(contentKey: string, metadataKey: string) returns (ok: bool)
      modifies storage
      ensures (State(), ok) == EraseBoth(storage.env, old(State()), contentKey, metadataKey)
    {
      ok := storage.Delete(contentKey);
      if ok {
        ok := storage.Delete(metadataKey);
      }
    }

    /** The content first. */
    method RemoveFromStorage(m: Metadata) returns (ok: bool)
      modifies storage
      ensures (State(), ok) == ArtifactModel.RemoveFromStorage(storage.env, old(State()), m)
    {
      var contentKey, metadataKey := ContentKeyOf(m), MetadataKeyOf(m);
      ok := DeleteBoth(contentKey, metadataKey);
    }

    method Delete(id: string) returns (verdict: Verdict)
      requires Valid()
      modifies storage, index
      ensures (State(), verdict) == ArtifactModel.Delete(storage.env, old(State()), id)
      ensures old(SoundWorld(storage.env, State())) ==> SoundWorld(storage.env, State())
      ensures old(CoherentWorld(storage.env, State())) ==> CoherentWorld(storage.env, State())
    {
      if SoundWorld(storage.env, State()) {
        DeleteKeepsStep(storage.env, State(), id);
      }
      var found := Find(index.recordsById, id);
      if found.None? {
        return NotFound;
      }
      var removed := RemoveFromStorage(found.value);
      if !removed {
        return Failed;
      }
      index.Remove(id);
      verdict := Deleted;
    }

    method DeleteMany(ids: seq<string>) returns (result: Deletion)
      requires Valid()
      modifies storage, index
      ensures (State(), result) == ArtifactModel.DeleteMany(storage.env, old(State()), ids, |ids|)
      ensures Partition(ids, result) && IndexReport(old(index.recordsById), ids, index.recordsById, result)
      ensures old(SoundWorld(storage.env, State())) ==> SoundWorld(storage.env, State())
      ensures old(CoherentWorld(storage.env, State())) ==> CoherentWorld(storage.env, State())
    {
      ghost var before := State();
      var deletedIds: seq<string>, notFoundIds: seq<string> := [], [];
      var skippedIds: seq<string>, failedIds: seq<string> := [], [];
      var seen: set<string> := {};
      for i := 0 to |ids|
        invariant seen == Elements(ids[..i])
        invariant (State(), Deletion(deletedIds, notFoundIds, skippedIds, failedIds)) ==
                  ArtifactModel.DeleteMany(storage.env, before, ids, i)
      {
        var id := ids[i];
        assert ids[..i + 1] == ids[..i] + [id];
        if id in seen {
          skippedIds := skippedIds + [id];
          continue;
        }
        seen := seen + {id};
        var found := Find(index.recordsById, id);
        if found.None? {
          notFoundIds := notFoundIds + [id];
          continue;
        }
        var removed := RemoveFromStorage(found.value);
        if removed {
          index.Remove(id);
          deletedIds := deletedIds + [id];
        } else {
          failedIds := failedIds + [id];
        }
      }
      result := Deletion(deletedIds, notFoundIds, skippedIds, failedIds);
      DeleteManyReports(storage.env, before, ids, |ids|);
      assert ids[..|ids|] == ids;
      if SoundWorld(storage.env, before) {
        DeleteManyKeepsStep(storage.env, before, ids, |ids|);
      }
    }

    method DeleteByFilter(words: Words, now: int, filter: ArtifactFilter) returns (result: Deletion)
      requires Valid()
      modifies storage, index
      ensures (State(), result) == ArtifactModel.DeleteByFilter(storage.env, old(State()), words, now, filter)
    {
      result := DeleteMany(Map(IdOf(), Query(words, now, index.recordsById, filter)));
    }

    /** Whatever the index held before, a rebuild over tidy sidecars leaves only records that a sidecar
        holds, and all of them if it returns. */
    method RebuildIndex() returns (outcome: RebuildOutcome)
      requires Valid() && Lawful(storage.env)
      modifies storage, index
      ensures (State(), outcome) == ArtifactModel.Rebuild(storage.env, old(State()))
      ensures old(SidecarCache.Tidy(ViewOf(storage.env), storage.objects)) ==>
                SoundWorld(storage.env, State()) && (outcome == Done ==> CoherentWorld(storage.env, State()))
    {
      ghost var before := State();
      outcome := index.Rebuild();
      if SidecarCache.Tidy(ViewOf(storage.env), before.objects) {
        RebuildRestores(storage.env, before);
      }
    }
  }
}
