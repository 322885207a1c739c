/** Drafts that are not safe, and what becomes of them: why each part of the conditions is there. */
module ArtifactLosses {
  import opened Sequences
  import opened ArtifactMetadata
  import opened ArtifactKeys
  import opened Listing
  import opened ArtifactModel
  import opened SidecarCache
  import opened ArtifactLaws
  import opened ArtifactRebuild
  import Calendar

  const EMPTY := World(map[], [], 0)

  ghost predicate NothingFails(e: Env) { forall n :: !e.fails(n) }

  /** What the first save of a store leaves behind, if neither of its calls throws. */
  lemma FirstSave(e: Env, id: string, now: int, d: Draft)
    requires !e.fails(0) && !e.fails(1)
    ensures var m, saved := DraftRecord(e, id, now, d), Save(e, EMPTY, id, now, d).0;
            && saved.records == [m] && saved.calls == 2 && Save(e, EMPTY, id, now, d).1 == Some(m)
            && saved.objects == (map[])[ContentKeyOf(m) := Flatten(d.content)][MetadataKeyOf(m) := Sidecar(e, m)]
  {
    var m := DraftRecord(e, id, now, d);
    StoreBothObjects(e, EMPTY, ContentKeyOf(m), Flatten(d.content), MetadataKeyOf(m), Sidecar(e, m));
    assert AddRecord([], m) == [m];
  }

  /** Why the extension matters: content saved under "meta.json" shares its key with the sidecar, so
      a delete whose second call throws leaves the index with a record that no sidecar holds. */
  lemma MetaJsonExtensionLosesSidecar(e: Env, id: string, now: int, d: Draft)
    requires IsId(id) && d.texts[Extension] == "meta.json"
    requires !e.fails(0) && !e.fails(1) && !e.fails(2) && e.fails(3)
    ensures var saved := Save(e, EMPTY, id, now, d).0;
            var (after, verdict) := Delete(e, saved, id);
            verdict == Failed && after.records == [DraftRecord(e, id, now, d)] && after.objects == map[]
  {
    var m := DraftRecord(e, id, now, d);
    OwnKeysCollideIff(id, now, "meta.json");
    FirstSave(e, id, now, d);
    LosesSidecar(e, Save(e, EMPTY, id, now, d).0, m, ContentKeyOf(m), Flatten(d.content), Sidecar(e, m));
  }

  lemma LosesSidecar(e: Env, saved: World, m: Metadata, key: string, content: Bytes, sidecar: Bytes)
    requires !e.fails(2) && e.fails(3) && saved.calls == 2
    requires saved.objects == (map[])[key := content][key := sidecar]
    ensures EraseBoth(e, saved, key, key) == (World(map[], saved.records, 4), false)
  {
    assert saved.objects - {key} == map[];
  }

  // ----- what a rebuild finds where nothing fails -----

  lemma RebuildFinds(e: Env, w: World, records: seq<Metadata>)
    requires Lawful(e) && NothingFails(e) && Mirrors(ViewOf(e), w.objects, records)
    ensures Rebuild(e, w).1 == Done && forall m :: m in Rebuild(e, w).0.records <==> m in records
  {
    MirroredIsLegible(ViewOf(e), w.objects, records);
    RebuildReads(e, w);
  }

  // ----- types that an object literal inherits -----

  function WithType(d: Draft, kind: string): Draft { d.(texts := d.texts[Kind := kind]) }

  /** Whatever the draft, saved under the name of an inherited function it comes back without a
      mimeType: the index holds a record that no rebuild finds. */
  lemma MethodTypeForgotten(e: Env, id: string, now: int, d: Draft, kind: string)
    requires Lawful(e) && NothingFails(e) && IsId(id) && PlainDraft(now, d)
    requires kind in INHERITED_METHODS && !SidecarExtension(d.texts[Extension])
    ensures var m, saved := DraftRecord(e, id, now, WithType(d, kind)), Save(e, EMPTY, id, now, WithType(d, kind)).0;
            && saved.records == [m] && m.mimeType == Some(Method(kind))
            && Rebuild(e, saved).1 == Done
            && forall x :: x in Rebuild(e, saved).0.records <==> x == m.(mimeType := None)
  {
    var m := DraftRecord(e, id, now, WithType(d, kind));
    FirstSave(e, id, now, WithType(d, kind));
    TypeResolves(kind);
    BareRecordLoads(e, id, now, d, kind);
    MetadataKeyForm(id, now);
    ContentMistakenForSidecarIff(id, now, d.texts[Extension]);
    OneSidecarFound(e, Save(e, EMPTY, id, now, WithType(d, kind)).0, ContentKeyOf(m), Flatten(d.content),
                    MetadataKeyOf(m), Sidecar(e, m), m.(mimeType := None));
  }

  /** Two objects of which the one is the sidecar of a record. */
  lemma OneSidecarFound(e: Env, w: World, contentKey: string, content: Bytes, key: string, sidecar: Bytes, m: Metadata)
    requires Lawful(e) && NothingFails(e) && w.objects == (map[])[contentKey := content][key := sidecar]
    requires !IsSidecarKey(contentKey) && IsSidecarKey(key) && Load(e.parse, sidecar) == Some(m)
    ensures Rebuild(e, w).1 == Done && forall x :: x in Rebuild(e, w).0.records <==> x == m
  {
    OneSidecar(ViewOf(e), contentKey, content, key, sidecar, m);
    RebuildFinds(e, w, [m]);
  }

  lemma OneSidecar(v: View, contentKey: string, content: Bytes, key: string, sidecar: Bytes, m: Metadata)
    requires !v.isSidecar(contentKey) && v.isSidecar(key) && v.load(sidecar) == Some(m)
    ensures Mirrors(v, (map[])[contentKey := content][key := sidecar], [m])
  {
    HeldMore(v, map[], contentKey, content, key, sidecar);
  }

  lemma TypeResolves(kind: string)
    requires kind in INHERITED_METHODS
    ensures ResolveMimeType(kind) == Method(kind)
  {
    assert forall k :: k in MIME_TYPES_BY_ARTIFACT_TYPE ==> k !in INHERITED_METHODS;
  }

  /** The sidecar is that of the record without its mimeType. */
  lemma BareRecordLoads(e: Env, id: string, now: int, d: Draft, kind: string)
    requires Lawful(e) && IsId(id) && PlainDraft(now, d) && kind in INHERITED_METHODS
    ensures var m := DraftRecord(e, id, now, WithType(d, kind));
            Load(e.parse, Sidecar(e, m)) == Some(m.(mimeType := None))
  {
    var m, other := DraftRecord(e, id, now, WithType(d, kind)), DraftRecord(e, id, now, d);
    TypeResolves(kind);
    PlainDraftIff(e, id, now, d);
    KindAlone(d.texts, map[ContentHash := m.texts[ContentHash], StorageTier := "hot"], kind);
    PlainWithKind(other, kind);
    SidecarWithoutMethod(e, m);
  }

  lemma KindAlone(texts: map<TextField, string>, more: map<TextField, string>, kind: string)
    requires Kind !in more
    ensures texts[Kind := kind] + more == (texts + more)[Kind := kind]
  {}

  lemma SidecarWithoutMethod(e: Env, m: Metadata)
    requires Lawful(e) && Complete(m) && m.mimeType.Some? && m.mimeType.value.Method?
    requires PlainMetadata(m.(mimeType := None))
    ensures Load(e.parse, Sidecar(e, m)) == Some(m.(mimeType := None))
  {
    MethodNotWritten(m);
    SidecarLoads(e, m.(mimeType := None));
  }

  lemma PlainWithKind(m: Metadata, kind: string)
    requires PlainMetadata(m) && kind in INHERITED_METHODS
    ensures PlainMetadata(m.(mimeType := None, texts := m.texts[Kind := kind]))
  {
    assert forall k :: k in INHERITED_METHODS ==> |k| < 24;
  }

  /** What the artifact recorder makes of the updated text of a changed file in the repository's root
      directory: the type is the extension. */
  function UpdatedFile(file: string, extension: string, content: seq<Bytes>, repositoryId: string,
                       correlationId: string, relatedArtifactIds: seq<string>): Draft
  {
    Draft(map[Title := "Updated: " + file, Filename := "updated-" + file, Kind := extension, Extension := extension,
              CreatedBy := "fix-bug-workflow", RepositoryId := repositoryId, WorkflowId := "fix-bug",
              CorrelationId := correlationId],
          Some(["fix", "updated"]), Some(relatedArtifactIds), content)
  }

  lemma UpdatedFilePlain(d: Draft, content: seq<Bytes>, repositoryId: string, correlationId: string,
                         relatedArtifactIds: seq<string>)
    requires PlainText(repositoryId) && PlainText(correlationId) && PlainTexts(relatedArtifactIds)
    requires d == WithType(UpdatedFile("x.constructor", "constructor", content, repositoryId, correlationId,
                                       relatedArtifactIds), "txt")
    ensures PlainDraft(0, d)
  {
    YearOfEpoch();
    assert PlainText("fix") && PlainText("updated");
    assert !InheritedName("txt") by { assert forall k :: k in INHERITED_METHODS ==> k != "txt"; }
    forall f | f in d.texts ensures PlainText(d.texts[f])
    {
      if f != RepositoryId && f != CorrelationId {
        assert |d.texts[f]| < 24;
      }
    }
  }

  lemma YearOfEpoch()
    ensures Calendar.FromTime(0).year == 1970
  {
    Calendar.FieldsUnique(Calendar.FromTime(0), Calendar.Fields(1970, 1, 1, 0, 0, 0, 0));
  }

  lemma UpdatedFileType(d: Draft)
    requires d.texts[Kind] == d.texts[Extension] == "constructor"
    ensures WithType(WithType(d, "txt"), "constructor") == d
    ensures "constructor" in INHERITED_METHODS && !SidecarExtension("constructor")
  {
    assert WithType(WithType(d, "txt"), "constructor").texts == d.texts;
    assert INHERITED_METHODS[0] == "constructor";
    assert "constructor"[10] != METADATA_SUFFIX[9];
  }

  lemma UpdatedFileRetyped(d: Draft, plain: Draft, content: seq<Bytes>, repositoryId: string, correlationId: string,
                           relatedArtifactIds: seq<string>)
    requires PlainText(repositoryId) && PlainText(correlationId) && PlainTexts(relatedArtifactIds)
    requires plain == WithType(d, "txt")
    requires d == UpdatedFile("x.constructor", "constructor", content, repositoryId, correlationId, relatedArtifactIds)
    ensures PlainDraft(0, plain) && d == WithType(plain, "constructor")
    ensures "constructor" in INHERITED_METHODS && !SidecarExtension(plain.texts[Extension])
  {
    UpdatedFilePlain(plain, content, repositoryId, correlationId, relatedArtifactIds);
    UpdatedFileType(d);
  }

  /** A changed file named x.constructor, recorded at the start of 1970: after a rebuild no record is as it
      was. */
  lemma ConstructorFileChanges(e: Env, id: string, content: seq<Bytes>, repositoryId: string, correlationId: string,
                               relatedArtifactIds: seq<string>)
    requires Lawful(e) && NothingFails(e) && IsId(id)
    requires PlainText(repositoryId) && PlainText(correlationId) && PlainTexts(relatedArtifactIds)
    ensures var d := UpdatedFile("x.constructor", "constructor", content, repositoryId, correlationId,
                                 relatedArtifactIds);
            var saved := Save(e, EMPTY, id, 0, d).0;
            && Rebuild(e, saved).1 == Done && |saved.records| == 1
            && forall x :: x in Rebuild(e, saved).0.records ==> x !in saved.records
  {
    var d := UpdatedFile("x.constructor", "constructor", content, repositoryId, correlationId, relatedArtifactIds);
    UpdatedFileRetyped(d, WithType(d, "txt"), content, repositoryId, correlationId, relatedArtifactIds);
    ConstructorTypeForgotten(e, id, 0, d, WithType(d, "txt"));
  }

  lemma ConstructorTypeForgotten(e: Env, id: string, now: int, d: Draft, plain: Draft)
    requires Lawful(e) && NothingFails(e) && IsId(id) && PlainDraft(now, plain)
    requires d == WithType(plain, "constructor") && "constructor" in INHERITED_METHODS
    requires !SidecarExtension(plain.texts[Extension])
    ensures var saved := Save(e, EMPTY, id, now, d).0;
            && Rebuild(e, saved).1 == Done && |saved.records| == 1
            && forall x :: x in Rebuild(e, saved).0.records ==> x !in saved.records
  {
    MethodTypeForgotten(e, id, now, plain, "constructor");
  }

  // ----- texts that look like timestamps -----

  /** A title that is a timestamp as toISOString prints it comes back as a date, so that index and storage
      disagree. */
  lemma TimestampTitleLost(e: Env, id: string, now: int, d: Draft, t: int)
    requires Lawful(e) && NothingFails(e) && IsId(id)
    requires 0 <= Calendar.FromTime(t).year <= 9999 && d.texts[Title] == Calendar.IsoText(t)
    ensures !Agrees(e, Save(e, EMPTY, id, now, d).0)
  {
    Calendar.PatternIffFourDigitYear(t);
    TitleNotPlain(now, d);
    EmptyAgrees(e);
    FirstSave(e, id, now, d);
    SaveAgreesIff(e, EMPTY, id, now, d);
  }

  lemma TitleNotPlain(now: int, d: Draft)
    requires Calendar.LooksLikeIso(d.texts[Title])
    ensures !PlainDraft(now, d)
  {
    assert !PlainText(d.texts[Title]);
  }

  lemma EmptyAgrees(e: Env)
    requires Lawful(e)
    ensures Agrees(e, EMPTY)
  {
    AgreesIff(e, EMPTY);
  }

  // ----- extensions that end in ".meta.json" -----

  /** Content that is the JSON of another record: the rebuild takes it in. */
  lemma ForeignRecordFound(e: Env, id: string, now: int, d: Draft, r: Metadata)
    requires Lawful(e) && NothingFails(e) && IsId(id) && PlainDraft(now, d)
    requires d.texts[Extension] == "x.meta.json" && d.content == [Sidecar(e, r)]
    requires Complete(r) && PlainMetadata(r) && r.id != id
    ensures var saved := Save(e, EMPTY, id, now, d).0;
            Rebuild(e, saved).1 == Done && r in Rebuild(e, saved).0.records && r !in saved.records
  {
    var m, saved := DraftRecord(e, id, now, d), Save(e, EMPTY, id, now, d).0;
    FirstSave(e, id, now, d);
    PlainSidecarLoads(e, id, now, d);
    SidecarLoads(e, r);
    RecordExtension(e, id, now, d);
    KeysOfMistaken(m);
    OnePiece(Sidecar(e, r));
    TwoSidecarsFound(e, saved, ContentKeyOf(m), Sidecar(e, r), r, MetadataKeyOf(m), Sidecar(e, m), m);
  }

  lemma OnePiece(bytes: Bytes)
    ensures Flatten([bytes]) == bytes
  {
    assert bytes + [] == bytes;
  }

  lemma TwoSidecarsFound(e: Env, w: World, contentKey: string, content: Bytes, r: Metadata, key: string,
                         sidecar: Bytes, m: Metadata)
    requires Lawful(e) && NothingFails(e) && w.objects == (map[])[contentKey := content][key := sidecar]
    requires IsSidecarKey(contentKey) && IsSidecarKey(key) && contentKey != key && r.id != m.id
    requires Load(e.parse, content) == Some(r) && Load(e.parse, sidecar) == Some(m)
    ensures Rebuild(e, w).1 == Done && r in Rebuild(e, w).0.records
  {
    TwoSidecars(ViewOf(e), contentKey, content, r, key, sidecar, m);
    RebuildFinds(e, w, [m, r]);
  }

  lemma TwoSidecars(v: View, contentKey: string, content: Bytes, r: Metadata, key: string, sidecar: Bytes, m: Metadata)
    requires v.isSidecar(contentKey) && v.isSidecar(key) && contentKey != key && r.id != m.id
    requires v.load(content) == Some(r) && v.load(sidecar) == Some(m)
    ensures Mirrors(v, (map[])[contentKey := content][key := sidecar], [m, r])
  {
    HeldMore(v, map[], contentKey, content, key, sidecar);
  }

  lemma PlainSidecarLoads(e: Env, id: string, now: int, d: Draft)
    requires Lawful(e) && IsId(id) && PlainDraft(now, d)
    ensures Load(e.parse, Sidecar(e, DraftRecord(e, id, now, d))) == Some(DraftRecord(e, id, now, d))
  {
    PlainDraftIff(e, id, now, d);
    SidecarLoads(e, DraftRecord(e, id, now, d));
  }

  lemma RecordExtension(e: Env, id: string, now: int, d: Draft)
    ensures DraftRecord(e, id, now, d).TextOf(Extension) == d.texts[Extension]
  {}

  lemma KeysOfMistaken(m: Metadata)
    requires IsId(m.id) && m.TextOf(Extension) == "x.meta.json"
    ensures IsSidecarKey(MetadataKeyOf(m)) && IsSidecarKey(ContentKeyOf(m)) && ContentKeyOf(m) != MetadataKeyOf(m)
  {
    MetadataKeyForm(m.id, m.createdAt);
    assert EndsWith("x.meta.json", METADATA_SUFFIX) by { assert "x.meta.json"[1..] == METADATA_SUFFIX; }
    ContentMistakenForSidecarIff(m.id, m.createdAt, "x.meta.json");
    OwnKeysCollideIff(m.id, m.createdAt, "x.meta.json");
  }

  /** Content that is no JSON: the rebuild throws, with the index cleared or half filled. */
  lemma UnreadableContentStopsRebuild(e: Env, id: string, now: int, d: Draft)
    requires Lawful(e) && NothingFails(e) && IsId(id) && PlainDraft(now, d)
    requires d.texts[Extension] == "x.meta.json" && e.parse(Flatten(d.content)) == None
    ensures Rebuild(e, Save(e, EMPTY, id, now, d).0).1 == Threw
  {
    var m, saved := DraftRecord(e, id, now, d), Save(e, EMPTY, id, now, d).0;
    FirstSave(e, id, now, d);
    PlainSidecarLoads(e, id, now, d);
    RecordExtension(e, id, now, d);
    KeysOfMistaken(m);
    UnreadableBesideSidecar(e, saved, ContentKeyOf(m), Flatten(d.content), MetadataKeyOf(m), Sidecar(e, m));
  }

  lemma UnreadableBesideSidecar(e: Env, w: World, contentKey: string, content: Bytes, key: string, sidecar: Bytes)
    requires Lawful(e) && NothingFails(e) && w.objects == (map[])[contentKey := content][key := sidecar]
    requires IsSidecarKey(contentKey) && contentKey != key
    requires e.parse(content) == None && Load(e.parse, sidecar).Some?
    ensures Rebuild(e, w).1 == Threw
  {
    assert w.objects[contentKey] == content && w.objects[key] == sidecar;
    UnreadableStopsRebuild(e, w, contentKey);
  }

  lemma UnreadableStopsRebuild(e: Env, w: World, key: string)
    requires Lawful(e) && NothingFails(e) && key in w.objects && IsSidecarKey(key) && e.parse(w.objects[key]) == None
    requires forall k :: k in w.objects && k != key ==> Load(e.parse, w.objects[k]).Some?
    ensures Rebuild(e, w).1 == Threw
  {
    var keys := e.enumerate(w.calls, w.objects.Keys);
    var start := w.(records := [], calls := w.calls + 1);
    RebuildPasses(e, w, keys);
    if ReadSidecars(e, start, keys).1 == Done {
      PassReturned(e, ViewOf(e), start, keys);
      assert false;
    }
    ReadsOrThrows(e, start, keys);
  }

  lemma {:induction false} ReadsOrThrows(e: Env, w: World, keys: seq<string>)
    requires forall k :: k in keys ==> k in w.objects
    requires forall k :: k in keys && IsSidecarKey(k) ==>
               e.parse(w.objects[k]) == None || Load(e.parse, w.objects[k]).Some?
    ensures ReadSidecars(e, w, keys).1 != IllTyped
    decreases keys
  {
    if keys != [] {
      var w1 := w.(calls := w.calls + 1);
      ReadsOrThrows(e, w, keys[1..]);
      if IsSidecarKey(keys[0]) && Load(e.parse, w.objects[keys[0]]).Some? {
        ReadsOrThrows(e, w1.(records := AddRecord(w.records, Load(e.parse, w.objects[keys[0]]).value)), keys[1..]);
      }
    }
  }

  /** Content that is the JSON of a record the index holds leaves index and storage in agreement, but once
      that record is deleted they no longer agree: the next rebuild brings it back. */
  lemma DeletedRecordComesBack(e: Env, w: World, id: string, now: int, d: Draft, r: Metadata)
    requires Lawful(e) && NothingFails(e) && Agrees(e, w) && Unused(e, w, id, now, d) && PlainDraft(now, d)
    requires EndsWith(d.texts[Extension], METADATA_SUFFIX) && Load(e.parse, Flatten(d.content)) == Some(r)
    requires r in w.records && IsId(r.id)
    ensures var saved := Save(e, w, id, now, d).0;
            var after := Delete(e, saved, r.id).0;
            && Agrees(e, saved) && r !in after.records
            && Rebuild(e, after).1 == Done && r in Rebuild(e, after).0.records
  {
    assert r.id != id;
    MistakenApart(id, now, d.texts[Extension], r);
    SavedContent(e, w, id, now, d);
    MistakenSaveAgrees(e, w, id, now, d, r);
    RebuildBringsBack(e, Save(e, w, id, now, d).0, r, KeysOf(r), ContentKey(id, now, d.texts[Extension]));
  }

  lemma MistakenSaveAgrees(e: Env, w: World, id: string, now: int, d: Draft, r: Metadata)
    requires Lawful(e) && NothingFails(e) && Agrees(e, w) && Unused(e, w, id, now, d) && PlainDraft(now, d)
    requires EndsWith(d.texts[Extension], METADATA_SUFFIX) && Load(e.parse, Flatten(d.content)) == Some(r)
    requires r in Save(e, w, id, now, d).0.records
    ensures Agrees(e, Save(e, w, id, now, d).0)
  {
    SaveReturns(e, w, id, now, d);
    SaveAgreesIff(e, w, id, now, d);
  }

  lemma SaveReturns(e: Env, w: World, id: string, now: int, d: Draft)
    requires NothingFails(e)
    ensures Save(e, w, id, now, d).1.Some?
  {}

  lemma RebuildBringsBack(e: Env, w: World, r: Metadata, gone: set<string>, key: string)
    requires Lawful(e) && NothingFails(e) && Agrees(e, w) && r in w.records
    requires key in w.objects && IsSidecarKey(key) && Load(e.parse, w.objects[key]) == Some(r)
    requires gone == KeysOf(r) && key !in gone
    ensures var after := Delete(e, w, r.id).0;
            r !in after.records && Rebuild(e, after).1 == Done && r in Rebuild(e, after).0.records
  {
    AgreesIff(e, w);
    DeletedWorld(e, w, r);
    MirroredIsLegible(ViewOf(e), w.objects, w.records);
    SidecarStillRead(e, w.objects, Delete(e, w, r.id).0, gone, key, r);
  }

  /** What some legible sidecar holds is read after other objects are gone. */
  lemma SidecarStillRead(e: Env, objects: map<string, Bytes>, after: World, gone: set<string>, key: string, r: Metadata)
    requires Lawful(e) && NothingFails(e) && Legible(ViewOf(e), objects) && after.objects == objects - gone
    requires key in objects && key !in gone && IsSidecarKey(key) && Load(e.parse, objects[key]) == Some(r)
    ensures Rebuild(e, after).1 == Done && r in Rebuild(e, after).0.records
  {
    LegibleLess(ViewOf(e), objects, gone);
    RebuildReads(e, after);
    assert Holds(ViewOf(e), after.objects, key, r);
  }

  lemma DeletedWorld(e: Env, w: World, r: Metadata)
    requires NothingFails(e) && UniqueIds(w.records) && r in w.records
    ensures var after := Delete(e, w, r.id).0; after.objects == w.objects - KeysOf(r) && r !in after.records
  {
    FindUnique(w.records, r);
    RemoveKeepsOthers(w.records, r);
    EraseObjects(e, w, ContentKeyOf(r), MetadataKeyOf(r));
    EraseCalls(e, w, ContentKeyOf(r), MetadataKeyOf(r));
  }

  lemma LegibleLess(v: View, objects: map<string, Bytes>, keys: set<string>)
    requires Legible(v, objects)
    ensures Legible(v, objects - keys)
  {
    forall m | Held(v, objects - keys, m) ensures Held(v, objects, m)
    {
      var k :| Holds(v, objects - keys, k, m);
      assert Holds(v, objects, k, m);
    }
  }

  lemma SavedContent(e: Env, w: World, id: string, now: int, d: Draft)
    requires NothingFails(e) && IsId(id) && Find(w.records, id) == None && UniqueIds(w.records)
    requires d.texts[Extension] != "meta.json"
    ensures var saved, key := Save(e, w, id, now, d).0, ContentKey(id, now, d.texts[Extension]);
            && UniqueIds(saved.records) && (forall x :: x in w.records ==> x in saved.records)
            && key in saved.objects && saved.objects[key] == Flatten(d.content)
  {
    SaveStores(e, w, id, now, d);
    AddFresh(w.records, DraftRecord(e, id, now, d));
    AddFreshUnique(w.records, DraftRecord(e, id, now, d));
    OwnKeysCollideIff(id, now, d.texts[Extension]);
  }

  lemma MistakenApart(id: string, now: int, extension: string, r: Metadata)
    requires IsId(id) && IsId(r.id) && r.id != id && EndsWith(extension, METADATA_SUFFIX)
    ensures var key := ContentKey(id, now, extension);
            IsSidecarKey(key) && extension != "meta.json" && key !in KeysOf(r)
  {
    ContentMistakenForSidecarIff(id, now, extension);
    assert |"meta.json"| < |METADATA_SUFFIX|;
    DifferentArtifactsDifferentKeys(id, now, extension, r.id, r.createdAt, r.TextOf(Extension));
  }
}
