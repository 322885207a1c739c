/** The index is a cache over the sidecars: what every operation keeps, whichever storage calls
    throw, and what the batch operations promise. */
module ArtifactLaws {
  import opened Sequences
  import opened ArtifactMetadata
  import opened ArtifactKeys
  import opened Listing
  import opened ArtifactModel
  import opened SidecarCache
  import Calendar

  // ----- the index operations -----

  lemma {:induction false} FindUnique(records: seq<Metadata>, m: Metadata)
    requires UniqueIds(records) && m in records
    ensures Find(records, m.id) == Some(m)
  {
    if records[0] != m {
      FindUnique(records[1..], m);
    }
  }

  lemma {:induction false} AddFresh(records: seq<Metadata>, m: Metadata)
    requires Find(records, m.id) == None
    ensures AddRecord(records, m) == records + [m]
  {
    if records != [] {
      assert records[0] in records;
      AddFresh(records[1..], m);
    }
  }

  lemma AddFreshUnique(records: seq<Metadata>, m: Metadata)
    requires UniqueIds(records) && Find(records, m.id) == None
    ensures UniqueIds(AddRecord(records, m)) && forall x :: x in AddRecord(records, m) <==> x in records || x == m
  {
    AddFresh(records, m);
  }

  lemma RemoveKeepsOthers(records: seq<Metadata>, m: Metadata)
    requires UniqueIds(records) && m in records
    ensures UniqueIds(RemoveRecord(records, m.id))
    ensures forall x :: x in RemoveRecord(records, m.id) <==> x in records && x != m
  {
    FilterUniqueIds(IdNot(m.id), records);
  }

  /** What Map.set and Map.delete mean to a look-up: this id answers anew, the others as before. */
  lemma {:induction false} AddFinds(records: seq<Metadata>, m: Metadata, id: string)
    ensures Find(AddRecord(records, m), id) == if id == m.id then Some(m) else Find(records, id)
  {
    if records != [] {
      AddFinds(records[1..], m, id);
      assert records[0].id != m.id ==> AddRecord(records, m)[1..] == AddRecord(records[1..], m);
    }
  }

  lemma {:induction false} RemoveFinds(records: seq<Metadata>, removed: string, id: string)
    ensures Find(RemoveRecord(records, removed), id) == if id == removed then None else Find(records, id)
  {
    if records != [] {
      RemoveFinds(records[1..], removed, id);
      var kept := RemoveRecord(records, removed);
      if records[0].id != removed {
        assert kept[0] == records[0] && kept[1..] == RemoveRecord(records[1..], removed);
      }
    }
  }

  /** The ids of the index keep their places; a new one goes last. */
  lemma {:induction false} AddKeepsPlaces(records: seq<Metadata>, m: Metadata)
    ensures Map(IdOf(), AddRecord(records, m)) ==
            Map(IdOf(), records) + if Find(records, m.id).Some? then [] else [m.id]
  {
    if records == [] {
      assert Map(IdOf(), [m]) == [m.id];
    } else if records[0].id == m.id {
      MapHead(IdOf(), records);
      MapCons(IdOf(), m, records[1..]);
    } else {
      AddKeepsPlaces(records[1..], m);
      MapHead(IdOf(), records);
      MapCons(IdOf(), records[0], AddRecord(records[1..], m));
    }
  }

  lemma UniqueIdsAreDistinct(records: seq<Metadata>)
    ensures UniqueIds(records) <==> NoDuplicates(Map(IdOf(), records))
  {
    var ids := Map(IdOf(), records);
    assert forall i :: 0 <= i < |records| ==> ids[i] == records[i].id;
  }

  lemma AddKeepsUnique(records: seq<Metadata>, m: Metadata)
    requires UniqueIds(records)
    ensures UniqueIds(AddRecord(records, m))
  {
    AddKeepsPlaces(records, m);
    UniqueIdsAreDistinct(records);
    UniqueIdsAreDistinct(AddRecord(records, m));
    assert forall i :: 0 <= i < |records| ==> records[i] in records;
  }

  // ----- the invariants -----

  /** The id is a UUID and rebuild cannot take the content for a sidecar. */
  predicate Proper(m: Metadata) { IsId(m.id) && !SidecarExtension(m.TextOf(Extension)) }

  function ViewOver(parse: Bytes -> Option<Js>): View
  {
    View(k => IsSidecarKey(k), b => Load(parse, b), m => MetadataKeyOf(m), m => Proper(m))
  }

  function ViewOf(e: Env): View { ViewOver(e.parse) }

  lemma ArtifactsAreWellKeyed(e: Env)
    ensures WellKeyed(ViewOf(e))
  {
    var v := ViewOf(e);
    forall m ensures v.isSidecar(v.keyOf(m))
    {
      MetadataKeyForm(m.id, m.createdAt);
    }
    forall m, x | v.proper(m) && v.proper(x) && v.keyOf(m) == v.keyOf(x)
      ensures m.id == x.id
    {
      if m.id != x.id {
        DifferentArtifactsDifferentKeys(m.id, m.createdAt, "", x.id, x.createdAt, "");
      }
    }
  }

  /** Whatever the index holds, its sidecar holds. */
  ghost predicate SoundWorld(e: Env, w: World) { Sound(ViewOf(e), w.objects, w.records) }

  /** The index holds exactly what the sidecars hold, and every sidecar is the one of its record. */
  ghost predicate CoherentWorld(e: Env, w: World) { Coherent(ViewOf(e), w.objects, w.records) }

  /** The id of a save is a UUID that no artifact has had. */
  ghost predicate FreshId(e: Env, w: World, id: string)
  {
    IsId(id) && Find(w.records, id) == None && Fresh(ViewOf(e), w.objects, id)
  }

  lemma UnknownIdIsFresh(e: Env, w: World, id: string)
    requires CoherentWorld(e, w) && IsId(id) && Find(w.records, id) == None
    ensures FreshId(e, w, id)
  {
    UnknownIsFresh(ViewOf(e), w.objects, w.records, id);
  }

  /** What a caller can check of a draft: its record survives a restart unchanged. */
  predicate PlainDraft(now: int, d: Draft)
  {
    && 0 <= Calendar.FromTime(now).year <= 9999
    && (d.tags.Some? ==> PlainTexts(d.tags.value))
    && (d.relatedArtifactIds.Some? ==> PlainTexts(d.relatedArtifactIds.value))
    && !InheritedName(d.texts[Kind])
    && (forall f :: f in d.texts ==> PlainText(d.texts[f]))
  }

  /** And its content can never be taken for a sidecar. */
  predicate SafeDraft(now: int, d: Draft)
  {
    !SidecarExtension(d.texts[Extension]) && PlainDraft(now, d)
  }

  /** A record made of a draft is plain exactly for the plain drafts. */
  lemma PlainDraftIff(e: Env, id: string, now: int, d: Draft)
    requires Lawful(e) && IsId(id)
    ensures PlainMetadata(DraftRecord(e, id, now, d)) <==> PlainDraft(now, d)
  {
    var m := DraftRecord(e, id, now, d);
    PlainTextsIff(d, m.texts, m.texts[ContentHash]);
    MimeTypePlainIff(d.texts[Kind]);
  }

  /** Hash and storage tier are plain in any case. */
  lemma PlainTextsIff(d: Draft, texts: map<TextField, string>, contentHash: string)
    requires |contentHash| == 64 && texts == d.texts + map[ContentHash := contentHash, StorageTier := "hot"]
    ensures (forall f :: f in texts ==> PlainText(texts[f])) <==> (forall f :: f in d.texts ==> PlainText(d.texts[f]))
  {
    assert PlainText(contentHash) && PlainText("hot");
    assert forall f :: f in d.texts ==> f in texts && texts[f] == d.texts[f];
  }

  lemma MimeTypePlainIff(kind: string)
    ensures Plain(ResolveMimeType(kind)) <==> !InheritedName(kind)
  {
    assert forall k :: k in MIME_TYPES_BY_ARTIFACT_TYPE ==> !InheritedName(k);
  }

  lemma SidecarLoads(e: Env, m: Metadata)
    requires Lawful(e) && Complete(m)
    ensures Load(e.parse, Sidecar(e, m)) == Some(m) <==> PlainMetadata(m)
  {
    ToJsonIsJson(AsObject(m));
    RecordReadBackIffPlain(m);
  }

  // ----- save -----

  /** Writing content and sidecar, whichever of the two calls throws. */
  lemma StoreBothKeepsStep(e: Env, v: View, w: World, m: Metadata, contentKey: string, content: Bytes, sidecar: Bytes,
                           after: seq<Metadata>)
    requires WellKeyed(v) && Fresh(v, w.objects, m.id) && v.proper(m) && v.load(sidecar) == Some(m)
    requires !v.isSidecar(contentKey)
    requires UniqueIds(w.records) ==> UniqueIds(after) && forall x :: x in after <==> x in w.records || x == m
    ensures var (w1, ok) := StoreBoth(e, w, contentKey, content, v.keyOf(m), sidecar);
            var records := if ok then after else w.records;
            && w1.records == w.records
            && (Sound(v, w.objects, w.records) ==> Sound(v, w1.objects, records))
            && (Coherent(v, w.objects, w.records) ==> Coherent(v, w1.objects, records))
  {
    var (w1, ok1) := Put(e, w, contentKey, content);
    if Tidy(v, w.objects) && UniqueIds(w.records) {
      OtherKeys(v, w.objects, w1.objects);
      AddBoth(v, w1.objects, w.records, m, sidecar, after);
    }
  }

  /** Whatever fails, a save of a safe draft keeps the index and the sidecars in step. */
  lemma SaveKeepsStep(e: Env, w: World, id: string, now: int, d: Draft)
    requires Lawful(e) && FreshId(e, w, id) && SafeDraft(now, d)
    ensures SoundWorld(e, w) ==> SoundWorld(e, Save(e, w, id, now, d).0)
    ensures CoherentWorld(e, w) ==> CoherentWorld(e, Save(e, w, id, now, d).0)
  {
    var m := DraftRecord(e, id, now, d);
    ContentMistakenForSidecarIff(id, now, d.texts[Extension]);
    ArtifactsAreWellKeyed(e);
    PlainDraftIff(e, id, now, d);
    SidecarLoads(e, m);
    if UniqueIds(w.records) {
      AddFreshUnique(w.records, m);
    }
    StoreBothKeepsStep(e, ViewOf(e), w, m, ContentKeyOf(m), Flatten(d.content), Sidecar(e, m), AddRecord(w.records, m));
  }

  /** The assumptions under which a save keeps a store coherent. */
  ghost predicate CoherentSave(e: Env, w: World, id: string, now: int, d: Draft)
  {
    Lawful(e) && FreshId(e, w, id) && SafeDraft(now, d) && CoherentWorld(e, w)
  }

  lemma CoherentSaveKeepsStep(e: Env, w: World, id: string, now: int, d: Draft)
    ensures CoherentSave(e, w, id, now, d) ==> CoherentWorld(e, Save(e, w, id, now, d).0)
  {
    if CoherentSave(e, w, id, now, d) {
      SaveKeepsStep(e, w, id, now, d);
    }
  }

  /** One step of a pass over the keys. */
  lemma ReadAt(e: Env, w: World, keys: seq<string>, i: nat)
    requires i < |keys| && forall k :: k in keys ==> k in w.objects
    ensures var (w1, outcome) := ReadKey(e, w, keys[i]);
            && w1.objects == w.objects
            && ReadSidecars(e, w, keys[i..]) ==
               if outcome != Done then (w1, outcome) else ReadSidecars(e, w1, keys[i + 1..])
  {
    assert keys[i..][0] == keys[i] && keys[i..][1..] == keys[i + 1..];
  }

  /** A save step by step. */
  lemma SaveByPuts(e: Env, w: World, id: string, now: int, d: Draft, m: Metadata, content: Bytes)
    requires content == Flatten(d.content) && m == MakeRecord(id, now, d, |content|, e.sha256(content))
    ensures var (w1, ok1) := Put(e, w, ContentKey(id, now, d.texts[Extension]), content);
            var (w2, ok2) := Put(e, w1, MetadataKey(id, now), Sidecar(e, m));
            Save(e, w, id, now, d) ==
              if !ok1 then (w1, None)
              else if !ok2 then (w2, None)
              else (w2.(records := AddRecord(w2.records, m)), Some(m))
  {}

  lemma StoreBothObjects(e: Env, w: World, contentKey: string, content: Bytes, metadataKey: string, sidecar: Bytes)
    ensures var (after, ok) := StoreBoth(e, w, contentKey, content, metadataKey, sidecar);
            && after.records == w.records
            && (ok ==> after.objects == w.objects[contentKey := content][metadataKey := sidecar])
            && (!ok ==> after.objects == w.objects || after.objects == w.objects[contentKey := content])
            && (!e.fails(w.calls) && e.fails(w.calls + 1) ==> !ok && after.objects == w.objects[contentKey := content])
            && (!e.fails(w.calls) && !e.fails(w.calls + 1) ==> ok && after.calls == w.calls + 2)
  {}

  /** What a save leaves behind: on success content and sidecar under their keys and the record,
      with its size and hash, last in the index; on failure the index as it was. */
  lemma SaveStores(e: Env, w: World, id: string, now: int, d: Draft)
    requires Find(w.records, id) == None
    ensures var (after, saved) := Save(e, w, id, now, d);
            var m, content := DraftRecord(e, id, now, d), Flatten(d.content);
            && m.size == |content| && m.Has(ContentHash, e.sha256(content)) && m.id == id && m.createdAt == now
            && match saved
               case Some(r) =>
                 && r == m && after.records == w.records + [m] && Find(after.records, id) == Some(m)
                 && after.objects == w.objects[ContentKeyOf(m) := content][MetadataKeyOf(m) := Sidecar(e, m)]
               case None =>
                 && after.records == w.records
                 && (after.objects == w.objects || after.objects == w.objects[ContentKeyOf(m) := content])
  {
    var m := DraftRecord(e, id, now, d);
    StoreBothObjects(e, w, ContentKeyOf(m), Flatten(d.content), MetadataKeyOf(m), Sidecar(e, m));
    AddFresh(w.records, m);
    FindAppended(w.records, m);
  }

  /** The record that a save returns has every text of the draft in the same field, its lists, what was measured
      of the content, and the mime type of its kind. */
  lemma SavedRecord(e: Env, w: World, id: string, now: int, d: Draft)
    requires Save(e, w, id, now, d).1.Some?
    ensures var m := Save(e, w, id, now, d).1.value;
            && m.id == id && m.createdAt == now && m.size == |Flatten(d.content)|
            && m.texts.Keys == d.texts.Keys + {ContentHash, StorageTier}
            && (forall f :: f in d.texts ==> m.texts[f] == d.texts[f])
            && m.texts[ContentHash] == e.sha256(Flatten(d.content)) && m.texts[StorageTier] == "hot"
            && m.tags == (match d.tags case None => [] case Some(tags) => tags)
            && m.relatedArtifactIds == d.relatedArtifactIds
            && m.mimeType == Some(MimeTypeOf(d.texts[Kind]))
  {
    MimeTypesAre(d.texts[Kind]);
  }

  /** The mime types spelled out. */
  function MimeTypeOf(kind: string): Js
  {
    if kind == "markdown" then Str("text/markdown")
    else if kind == "json" then Str("application/json")
    else if kind == "sql" then Str("application/sql")
    else if kind == "patch" then Str("text/x-patch")
    else if kind == "diff" then Str("text/x-diff")
    else if kind == "log" then Str("text/plain")
    else if kind == "zip" then Str("application/zip")
    else if kind == "pdf" then Str("application/pdf")
    else if kind in INHERITED_METHODS then Method(kind)
    else if kind == "__proto__" then Prototype
    else Str("application/octet-stream")
  }

  lemma MimeTypesAre(kind: string)
    ensures ResolveMimeType(kind) == MimeTypeOf(kind)
  {}

  lemma {:induction false} FindAppended(records: seq<Metadata>, m: Metadata)
    requires Find(records, m.id) == None
    ensures Find(records + [m], m.id) == Some(m)
  {
    if records != [] {
      assert records[0] in records;
      assert (records + [m])[1..] == records[1..] + [m];
      FindAppended(records[1..], m);
    }
  }

  // ----- delete -----

  /** Erasing content and sidecar, whichever of the two calls throws. */
  lemma EraseBothKeepsStep(e: Env, v: View, w: World, m: Metadata, contentKey: string, after: seq<Metadata>)
    requires !v.isSidecar(contentKey) && m in w.records && Sound(v, w.objects, w.records)
    requires UniqueIds(after) && forall x :: x in after <==> x in w.records && x != m
    ensures var (w1, ok) := EraseBoth(e, w, contentKey, v.keyOf(m));
            var records := if ok then after else w.records;
            && w1.records == w.records
            && Sound(v, w1.objects, records)
            && (Coherent(v, w.objects, w.records) ==> Coherent(v, w1.objects, records))
  {
    var (w1, ok1) := Erase(e, w, contentKey);
    OtherKeys(v, w.objects, w1.objects);
    RemoveBoth(v, w1.objects, w.records, m, after);
  }

  lemma DeleteKeepsStep(e: Env, w: World, id: string)
    requires SoundWorld(e, w)
    ensures SoundWorld(e, Delete(e, w, id).0)
    ensures CoherentWorld(e, w) ==> CoherentWorld(e, Delete(e, w, id).0)
  {
    match Find(w.records, id)
    case None =>
    case Some(m) =>
      var v := ViewOf(e);
      assert Holds(v, w.objects, v.keyOf(m), m);
      assert v.proper(m);
      ContentMistakenForSidecarIff(m.id, m.createdAt, m.TextOf(Extension));
      RemoveKeepsOthers(w.records, m);
      EraseBothKeepsStep(e, v, w, m, ContentKeyOf(m), RemoveRecord(w.records, id));
  }

  lemma {:induction false} DeleteManyKeepsStep(e: Env, w: World, ids: seq<string>, n: nat)
    requires n <= |ids| && SoundWorld(e, w)
    ensures SoundWorld(e, DeleteMany(e, w, ids, n).0)
    ensures CoherentWorld(e, w) ==> CoherentWorld(e, DeleteMany(e, w, ids, n).0)
  {
    if n > 0 {
      DeleteManyKeepsStep(e, w, ids, n - 1);
      DeleteKeepsStep(e, DeleteMany(e, w, ids, n - 1).0, ids[n - 1]);
    }
  }

  /** The two keys of an artifact. */
  function KeysOf(m: Metadata): set<string> { {ContentKeyOf(m), MetadataKeyOf(m)} }

  lemma DeleteObjects(e: Env, w: World, id: string)
    ensures var (after, verdict) := Delete(e, w, id);
            match Find(w.records, id)
            case None => after.objects == w.objects
            case Some(m) =>
              && (verdict == Deleted ==> after.objects == w.objects - KeysOf(m))
              && (verdict != Deleted ==> after.objects == w.objects || after.objects == w.objects - {ContentKeyOf(m)})
  {
    match Find(w.records, id)
    case None =>
    case Some(m) =>
      EraseObjects(e, w, ContentKeyOf(m), MetadataKeyOf(m));
  }

  lemma EraseObjects(e: Env, w: World, contentKey: string, metadataKey: string)
    ensures var (after, ok) := EraseBoth(e, w, contentKey, metadataKey);
            && (ok ==> after.objects == w.objects - {contentKey, metadataKey})
            && (!ok ==> after.objects == w.objects || after.objects == w.objects - {contentKey})
  {
    assert w.objects - {contentKey} - {metadataKey} == w.objects - {contentKey, metadataKey};
  }

  // ----- batches -----

  function NotIn(ids: seq<string>): Metadata -> bool { (m: Metadata) => m.id !in ids }

  lemma {:induction false} FindKept(records: seq<Metadata>, gone: seq<string>, id: string)
    requires id !in gone
    ensures Find(Filter(NotIn(gone), records), id) == Find(records, id)
  {
    if records != [] {
      FindKept(records[1..], gone, id);
      var kept := Filter(NotIn(gone), records);
      if NotIn(gone)(records[0]) {
        assert kept[0] == records[0] && kept[1..] == Filter(NotIn(gone), records[1..]);
      }
    }
  }

  lemma RemoveOneMore(records: seq<Metadata>, gone: seq<string>, id: string)
    ensures RemoveRecord(Filter(NotIn(gone), records), id) == Filter(NotIn(gone + [id]), records)
  {
    FilterFilter(IdNot(id), NotIn(gone), NotIn(gone + [id]), records);
  }

  /** Each list but the repeats has an id once, and every position of the request is in exactly one list. */
  ghost predicate Partition(ids: seq<string>, d: Deletion)
  {
    && NoDuplicates(d.deleted) && NoDuplicates(d.notFound) && NoDuplicates(d.failed)
    && (forall id :: id in ids <==> id in d.deleted || id in d.notFound || id in d.failed)
    && (forall id :: id in d.failed ==> id !in d.deleted && id !in d.notFound)
    && (forall id :: id in d.deleted ==> id !in d.notFound)
    && multiset(d.deleted) + multiset(d.notFound) + multiset(d.skipped) + multiset(d.failed) == multiset(ids)
  }

  lemma PartitionRepeat(ids: seq<string>, d: Deletion, id: string)
    requires Partition(ids, d) && id in ids
    ensures Partition(ids + [id], d.(skipped := d.skipped + [id]))
  {}

  lemma PartitionFirst(ids: seq<string>, d: Deletion, id: string)
    requires Partition(ids, d) && id !in ids
    ensures Partition(ids + [id], d.(deleted := d.deleted + [id]))
    ensures Partition(ids + [id], d.(notFound := d.notFound + [id]))
    ensures Partition(ids + [id], d.(failed := d.failed + [id]))
  {}

  /** The requested ids that occur at an earlier position too, and those that do not. */
  function Repeats(ids: seq<string>): seq<string>
  {
    if ids == [] then []
    else
      var front, last := ids[..|ids| - 1], ids[|ids| - 1];
      if last in front then Repeats(front) + [last] else Repeats(front)
  }

  /** What the batch did to the index: not found are the ids it never had, skipped are the repeats in
      request order, and just the deleted ids are gone. */
  ghost predicate IndexReport(before: seq<Metadata>, ids: seq<string>, after: seq<Metadata>, d: Deletion)
  {
    && (forall id :: id in d.notFound <==> id in ids && Find(before, id) == None)
    && d.skipped == Repeats(ids)
    && after == Filter(NotIn(d.deleted), before)
  }

  lemma {:induction false} BatchPartitions(delete: Deleter, w: World, ids: seq<string>, n: nat)
    requires n <= |ids|
    ensures Partition(ids[..n], Batch(delete, w, ids, n).1)
  {
    if n > 0 {
      var d := Batch(delete, w, ids, n - 1).1;
      BatchPartitions(delete, w, ids, n - 1);
      assert ids[..n] == ids[..n - 1] + [ids[n - 1]];
      if ids[n - 1] in ids[..n - 1] {
        PartitionRepeat(ids[..n - 1], d, ids[n - 1]);
      } else {
        PartitionFirst(ids[..n - 1], d, ids[n - 1]);
      }
    }
  }

  /** The verdict on an id agrees with the index before and after. */
  ghost predicate Obeys(delete: Deleter)
  {
    forall w, id :: Effect(w, id, delete(w, id).0, delete(w, id).1)
  }

  ghost predicate Effect(w: World, id: string, after: World, verdict: Verdict)
  {
    && (verdict == NotFound <==> Find(w.records, id) == None)
    && after.records == if verdict == Deleted then RemoveRecord(w.records, id) else w.records
  }

  lemma DeleteObeys(e: Env)
    ensures Obeys(DeleterOf(e))
  {
    var delete := DeleterOf(e);
    forall w, id ensures Effect(w, id, delete(w, id).0, delete(w, id).1)
    {
      DeleteEffect(e, w, id);
    }
  }

  lemma DeleteEffect(e: Env, w: World, id: string)
    ensures Effect(w, id, Delete(e, w, id).0, Delete(e, w, id).1)
  {}

  lemma IndexStep(before: seq<Metadata>, ids: seq<string>, mid: seq<Metadata>, d: Deletion, id: string,
                  verdict: Verdict)
    requires IndexReport(before, ids, mid, d) && id !in ids && id !in d.deleted
    requires verdict == NotFound <==> Find(mid, id) == None
    ensures IndexReport(before, ids + [id], if verdict == Deleted then RemoveRecord(mid, id) else mid,
                        Report(d, id, verdict))
  {
    FindKept(before, d.deleted, id);
    RemoveOneMore(before, d.deleted, id);
    RepeatsStep(ids, id);
  }

  lemma RepeatsStep(ids: seq<string>, id: string)
    ensures Repeats(ids + [id]) == if id in ids then Repeats(ids) + [id] else Repeats(ids)
  {
    assert (ids + [id])[..|ids|] == ids;
  }

  lemma IndexRepeat(before: seq<Metadata>, ids: seq<string>, after: seq<Metadata>, d: Deletion, id: string)
    requires IndexReport(before, ids, after, d) && id in ids
    ensures IndexReport(before, ids + [id], after, d.(skipped := d.skipped + [id]))
  {
    RepeatsStep(ids, id);
  }

  lemma IndexFirst(delete: Deleter, before: seq<Metadata>, ids: seq<string>, w: World, d: Deletion, id: string)
    requires Obeys(delete) && IndexReport(before, ids, w.records, d) && Partition(ids, d) && id !in ids
    ensures IndexReport(before, ids + [id], delete(w, id).0.records, Report(d, id, delete(w, id).1))
  {
    assert Effect(w, id, delete(w, id).0, delete(w, id).1);
    IndexStep(before, ids, w.records, d, id, delete(w, id).1);
  }

  /** One more id of a batch. */
  function Next(delete: Deleter, ids: seq<string>, w: World, d: Deletion, id: string): (World, Deletion)
  {
    if id in ids then (w, d.(skipped := d.skipped + [id]))
    else (delete(w, id).0, Report(d, id, delete(w, id).1))
  }

  lemma BatchNext(delete: Deleter, w: World, ids: seq<string>, n: nat)
    requires 0 < n <= |ids|
    ensures var (w1, d) := Batch(delete, w, ids, n - 1);
            Batch(delete, w, ids, n) == Next(delete, ids[..n - 1], w1, d, ids[n - 1])
    ensures ids[..n] == ids[..n - 1] + [ids[n - 1]]
  {}

  lemma IndexNext(delete: Deleter, before: seq<Metadata>, ids: seq<string>, w: World, d: Deletion, id: string)
    requires Obeys(delete) && IndexReport(before, ids, w.records, d) && Partition(ids, d)
    ensures var (after, more) := Next(delete, ids, w, d, id); IndexReport(before, ids + [id], after.records, more)
  {
    if id in ids {
      IndexRepeat(before, ids, w.records, d, id);
    } else {
      IndexFirst(delete, before, ids, w, d, id);
    }
  }

  lemma {:induction false} BatchIndex(delete: Deleter, w: World, ids: seq<string>, n: nat)
    requires n <= |ids| && Obeys(delete)
    ensures var (after, d) := Batch(delete, w, ids, n); IndexReport(w.records, ids[..n], after.records, d)
  {
    if n == 0 {
      FilterAll(NotIn([]), w.records);
    } else {
      var (w1, d) := Batch(delete, w, ids, n - 1);
      BatchIndex(delete, w, ids, n - 1);
      BatchPartitions(delete, w, ids, n - 1);
      BatchNext(delete, w, ids, n);
      IndexNext(delete, w.records, ids[..n - 1], w1, d, ids[n - 1]);
    }
  }

  /** The report of a batch after any number of its ids, whichever storage calls throw. */
  lemma DeleteManyReports(e: Env, w: World, ids: seq<string>, n: nat)
    requires n <= |ids|
    ensures var (after, d) := DeleteMany(e, w, ids, n);
            Partition(ids[..n], d) && IndexReport(w.records, ids[..n], after.records, d)
  {
    DeleteObeys(e);
    BatchPartitions(DeleterOf(e), w, ids, n);
    BatchIndex(DeleterOf(e), w, ids, n);
  }

  /** No storage call from the one number up to the other throws. */
  ghost predicate NoneThrows(e: Env, from: nat, upTo: nat) { forall c :: from <= c < upTo ==> !e.fails(c) }

  /** An id is reported as failed only when a storage call of the batch threw. */
  lemma {:induction false} FailedMeansThrown(e: Env, w: World, ids: seq<string>, n: nat)
    requires n <= |ids|
    ensures var (after, d) := DeleteMany(e, w, ids, n);
            w.calls <= after.calls && (d.failed == [] <==> NoneThrows(e, w.calls, after.calls))
  {
    if n > 0 {
      var (w1, d) := DeleteMany(e, w, ids, n - 1);
      FailedMeansThrown(e, w, ids, n - 1);
      FailedOrNot(e, w.calls, w1, d, ids[n - 1]);
    }
  }

  lemma FailedOrNot(e: Env, start: nat, w: World, d: Deletion, id: string)
    requires start <= w.calls && (d.failed == [] <==> NoneThrows(e, start, w.calls))
    ensures var (after, verdict) := Delete(e, w, id);
            start <= after.calls && (Report(d, id, verdict).failed == [] <==> NoneThrows(e, start, after.calls))
  {
    DeleteCalls(e, w, id);
    Joined(e, start, w.calls, Delete(e, w, id).0.calls);
  }

  lemma Joined(e: Env, a: nat, b: nat, c: nat)
    requires a <= b <= c
    ensures NoneThrows(e, a, c) <==> NoneThrows(e, a, b) && NoneThrows(e, b, c)
  {}

  lemma DeleteCalls(e: Env, w: World, id: string)
    ensures var (after, verdict) := Delete(e, w, id);
            w.calls <= after.calls && (verdict != Failed <==> NoneThrows(e, w.calls, after.calls))
  {
    match Find(w.records, id)
    case None =>
    case Some(m) =>
      EraseCalls(e, w, ContentKeyOf(m), MetadataKeyOf(m));
  }

  lemma EraseCalls(e: Env, w: World, contentKey: string, metadataKey: string)
    ensures var (after, ok) := EraseBoth(e, w, contentKey, metadataKey);
            w.calls <= after.calls && (ok <==> NoneThrows(e, w.calls, after.calls))
  {
    var after := EraseBoth(e, w, contentKey, metadataKey).0;
    if e.fails(w.calls) {
      assert w.calls < after.calls;
    } else {
      assert after.calls == w.calls + 2;
      assert e.fails(w.calls + 1) || forall c :: w.calls <= c < w.calls + 2 ==> !e.fails(c);
    }
  }
}
