/** Rebuilding the index from the sidecars, what it means for index and storage to agree, and which
    saves and deletes keep them so. */
module ArtifactRebuild {
  import opened Sequences
  import opened StableSort
  import opened ArtifactMetadata
  import opened ArtifactKeys
  import opened Listing
  import opened ArtifactModel
  import opened SidecarCache
  import opened ArtifactLaws

  // ----- one pass over the keys -----

  lemma {:induction false} AddedRecords(records: seq<Metadata>, m: Metadata)
    ensures m in AddRecord(records, m)
    ensures forall x :: x in AddRecord(records, m) ==> x in records || x == m
  {
    if records != [] && records[0].id != m.id {
      AddedRecords(records[1..], m);
      assert AddRecord(records, m)[1..] == AddRecord(records[1..], m);
    }
  }

  lemma {:induction false} AddAgain(records: seq<Metadata>, m: Metadata)
    requires UniqueIds(records) && m in records
    ensures AddRecord(records, m) == records
  {
    assert records == [records[0]] + records[1..];
    if records[0] != m {
      assert m in records[1..] && records[0].id != m.id;
      AddAgain(records[1..], m);
    }
  }

  /** What a pass over the keys has read so far. */
  ghost predicate ReadSoFar(v: View, objects: map<string, Bytes>, records: seq<Metadata>)
  {
    UniqueIds(records) && forall m :: m in records ==> Held(v, objects, m)
  }

  lemma ReadOne(v: View, objects: map<string, Bytes>, records: seq<Metadata>, key: string, m: Metadata)
    requires Legible(v, objects) && ReadSoFar(v, objects, records) && Holds(v, objects, key, m)
    ensures ReadSoFar(v, objects, AddRecord(records, m))
    ensures forall x :: x in AddRecord(records, m) <==> x in records || x == m
  {
    if m in records {
      AddAgain(records, m);
    } else {
      assert forall x :: x in records ==> x.id != m.id;
      AddFreshUnique(records, m);
    }
  }

  /** One of the keys is a sidecar that holds the record. */
  ghost predicate HeldUnder(v: View, objects: map<string, Bytes>, keys: seq<string>, m: Metadata)
  {
    exists k :: k in keys && Holds(v, objects, k, m)
  }

  /** What a pass over the keys leaves behind. */
  ghost predicate PassResult(e: Env, v: View, w: World, keys: seq<string>, after: World, outcome: RebuildOutcome)
  {
    && after.objects == w.objects && w.calls <= after.calls && outcome != IllTyped
    && (outcome == Threw ==> !NoneThrows(e, w.calls, after.calls))
    && ReadSoFar(v, w.objects, after.records)
    && (outcome == Done ==>
          forall m :: m in after.records <==> m in w.records || HeldUnder(v, w.objects, keys, m))
  }

  /** Legible sidecars are read into the index one by one; only a throwing read stops the pass. */
  lemma {:induction false} SidecarsRead(e: Env, v: View, w: World, keys: seq<string>)
    requires v == ViewOf(e) && Legible(v, w.objects) && ReadSoFar(v, w.objects, w.records)
    requires forall k :: k in keys ==> k in w.objects
    ensures var (after, outcome) := ReadSidecars(e, w, keys); PassResult(e, v, w, keys, after, outcome)
    decreases keys
  {
    if keys != [] {
      var key, rest := keys[0], keys[1..];
      if !IsSidecarKey(key) {
        assert !v.isSidecar(key);
        SidecarsRead(e, v, w, rest);
        var (after, outcome) := ReadSidecars(e, w, rest);
        PassOver(e, v, w, keys, after, outcome);
      } else if e.fails(w.calls) {
        ThrowingRead(e, w, keys);
      } else {
        SidecarReads(e, v, w, keys);
        var m := Load(e.parse, w.objects[key]).value;
        var w1 := w.(calls := w.calls + 1, records := AddRecord(w.records, m));
        ReadOne(v, w.objects, w.records, key, m);
        SidecarsRead(e, v, w1, rest);
        var (after, outcome) := ReadSidecars(e, w1, rest);
        PassStep(e, v, w, keys, m, w1, after, outcome);
      }
    }
  }

  lemma PassOver(e: Env, v: View, w: World, keys: seq<string>, after: World, outcome: RebuildOutcome)
    requires keys != [] && !v.isSidecar(keys[0]) && PassResult(e, v, w, keys[1..], after, outcome)
    ensures PassResult(e, v, w, keys, after, outcome)
  {
    forall m ensures HeldUnder(v, w.objects, keys, m) <==> HeldUnder(v, w.objects, keys[1..], m) {}
  }

  lemma PassStep(e: Env, v: View, w: World, keys: seq<string>, m: Metadata, w1: World, after: World,
                 outcome: RebuildOutcome)
    requires keys != [] && Holds(v, w.objects, keys[0], m)
    requires w1.objects == w.objects && w1.calls == w.calls + 1
    requires forall x :: x in w1.records <==> x in w.records || x == m
    requires PassResult(e, v, w1, keys[1..], after, outcome)
    ensures PassResult(e, v, w, keys, after, outcome)
  {
    forall x ensures HeldUnder(v, w.objects, keys, x) <==> x == m || HeldUnder(v, w.objects, keys[1..], x)
    {
      assert keys[0] in keys;
      assert forall k :: k in keys <==> k == keys[0] || k in keys[1..];
    }
  }

  lemma ThrowingRead(e: Env, w: World, keys: seq<string>)
    requires (forall k :: k in keys ==> k in w.objects) && keys != [] && IsSidecarKey(keys[0]) && e.fails(w.calls)
    ensures ReadSidecars(e, w, keys) == (w.(calls := w.calls + 1), Threw)
  {}

  lemma SidecarReads(e: Env, v: View, w: World, keys: seq<string>)
    requires (forall k :: k in keys ==> k in w.objects) && keys != [] && IsSidecarKey(keys[0]) && !e.fails(w.calls)
    requires v == ViewOf(e) && AllLoad(v, w.objects)
    ensures Load(e.parse, w.objects[keys[0]]).Some?
    ensures var m := Load(e.parse, w.objects[keys[0]]).value;
            && Holds(v, w.objects, keys[0], m)
            && ReadSidecars(e, w, keys) ==
               ReadSidecars(e, w.(calls := w.calls + 1, records := AddRecord(w.records, m)), keys[1..])
  {
    assert v.isSidecar(keys[0]);
  }

  /** A pass that returns has read every sidecar, and the last one is in the index. */
  lemma {:induction false} PassReturned(e: Env, v: View, w: World, keys: seq<string>)
    requires v == ViewOf(e) && forall k :: k in keys ==> k in w.objects
    requires ReadSidecars(e, w, keys).1 == Done
    ensures forall k :: k in keys && v.isSidecar(k) ==> v.load(w.objects[k]).Some?
    ensures forall m :: m in ReadSidecars(e, w, keys).0.records ==> m in w.records || HeldUnder(v, w.objects, keys, m)
    ensures keys != [] && v.isSidecar(keys[|keys| - 1]) ==>
              v.load(w.objects[keys[|keys| - 1]]).value in ReadSidecars(e, w, keys).0.records
    decreases keys
  {
    if keys != [] {
      var key, rest := keys[0], keys[1..];
      var w1 := ReadFirst(e, v, w, keys);
      PassReturned(e, v, w1, rest);
      forall m | HeldUnder(v, w.objects, rest, m) ensures HeldUnder(v, w.objects, keys, m) {}
      if rest != [] {
        assert keys[|keys| - 1] == rest[|rest| - 1];
      }
    }
  }

  /** The first step of a pass that returns. */
  lemma ReadFirst(e: Env, v: View, w: World, keys: seq<string>) returns (w1: World)
    requires v == ViewOf(e) && keys != [] && forall k :: k in keys ==> k in w.objects
    requires ReadSidecars(e, w, keys).1 == Done
    ensures w1.objects == w.objects && ReadSidecars(e, w, keys) == ReadSidecars(e, w1, keys[1..])
    ensures !v.isSidecar(keys[0]) ==> w1 == w
    ensures v.isSidecar(keys[0]) ==>
              && v.load(w.objects[keys[0]]).Some? && v.load(w.objects[keys[0]]).value in w1.records
              && HeldUnder(v, w.objects, keys, v.load(w.objects[keys[0]]).value)
              && forall m :: m in w1.records ==> m in w.records || m == v.load(w.objects[keys[0]]).value
  {
    if !IsSidecarKey(keys[0]) {
      w1 := w;
    } else {
      var m := Load(e.parse, w.objects[keys[0]]).value;
      AddedRecords(w.records, m);
      assert Holds(v, w.objects, keys[0], m);
      w1 := w.(calls := w.calls + 1, records := AddRecord(w.records, m));
    }
  }

  // ----- rebuild -----

  /** Once its keys are listed, a rebuild is a pass over them. */
  lemma RebuildPasses(e: Env, w: World, keys: seq<string>)
    requires Lawful(e) && !e.fails(w.calls) && keys == e.enumerate(w.calls, w.objects.Keys)
    ensures IsEnumeration(keys, w.objects.Keys)
    ensures Rebuild(e, w) == ReadSidecars(e, w.(records := [], calls := w.calls + 1), keys)
  {
    assert IsEnumeration(keys, w.objects.Keys);
  }

  /** A rebuild over legible sidecars returns unless a storage call throws, and then the index holds
      exactly the records of the sidecars. */
  lemma RebuildReads(e: Env, w: World)
    requires Lawful(e) && Legible(ViewOf(e), w.objects)
    ensures var (after, outcome) := Rebuild(e, w);
            && after.objects == w.objects && outcome != IllTyped && ReadSoFar(ViewOf(e), w.objects, after.records)
            && (outcome == Done ==> Mirrors(ViewOf(e), w.objects, after.records))
            && (outcome == Threw ==> !NoneThrows(e, w.calls, after.calls))
  {
    var v, w1 := ViewOf(e), w.(records := [], calls := w.calls + 1);
    var keys := e.enumerate(w.calls, w.objects.Keys);
    assert IsEnumeration(keys, w.objects.Keys);
    if e.fails(w.calls) {
      assert w.calls <= w.calls < w1.calls;
    } else {
      SidecarsRead(e, v, w1, keys);
      forall m ensures HeldUnder(v, w.objects, keys, m) <==> Held(v, w.objects, m) {}
    }
  }

  /** A rebuild leaves an index that the sidecars back up, and one that is complete if it returns. It
      returns unless a storage call throws, because tidy sidecars always read. */
  lemma RebuildRestores(e: Env, w: World)
    requires Lawful(e) && Tidy(ViewOf(e), w.objects)
    ensures var (after, outcome) := Rebuild(e, w);
            && after.objects == w.objects && SoundWorld(e, after) && outcome != IllTyped
            && (outcome == Done ==> CoherentWorld(e, after))
            && (outcome == Threw ==> !NoneThrows(e, w.calls, after.calls))
  {
    TidyIsLegible(ViewOf(e), w.objects);
    RebuildReads(e, w);
    TidyMirrorIsCoherent(ViewOf(e), w.objects, Rebuild(e, w).0.records);
  }

  // ----- agreement -----

  type Lister = (nat, set<string>) -> seq<string>

  ghost predicate Lists(list: Lister) { forall n, keys :: IsEnumeration(list(n, keys), keys) }

  /** The same environment when no storage call throws, listing keys in another order. */
  function Calm(e: Env, list: Lister): Env { e.(fails := _ => false, enumerate := list) }

  ghost predicate AgreesUnder(e: Env, w: World, list: Lister)
    requires Lawful(e) && Lists(list)
  {
    var (after, outcome) := Rebuild(Calm(e, list), w);
    outcome == Done && forall m :: m in after.records <==> m in w.records
  }

  /** With nothing failing, a rebuild returns and finds the records the index holds, in whatever order
      storage lists its keys. */
  ghost predicate Agrees(e: Env, w: World)
    requires Lawful(e)
  {
    UniqueIds(w.records) && forall list | Lists(list) :: AgreesUnder(e, w, list)
  }

  function Except(key: string): string -> bool { (k: string) => k != key }

  /** A listing in which `key` comes last. */
  function KeyLast(list: Lister, key: string): Lister
  {
    (n: nat, keys: set<string>) =>
      if key in keys then Filter(Except(key), list(n, keys)) + [key] else list(n, keys)
  }

  lemma KeyLastLists(list: Lister, key: string)
    requires Lists(list)
    ensures Lists(KeyLast(list, key))
  {
    forall n, keys ensures IsEnumeration(KeyLast(list, key)(n, keys), keys)
    {
      assert IsEnumeration(list(n, keys), keys);
      FilterNoDuplicates(Except(key), list(n, keys));
    }
  }

  /** Agreement said of the stored objects: every sidecar reads as a record of the index, and every
      record of the index is read from some sidecar. */
  lemma AgreesIff(e: Env, w: World)
    requires Lawful(e)
    ensures Agrees(e, w) <==> Mirrors(ViewOf(e), w.objects, w.records)
  {
    if Mirrors(ViewOf(e), w.objects, w.records) {
      forall list | Lists(list) ensures AgreesUnder(e, w, list)
      {
        MirroredIsLegible(ViewOf(e), w.objects, w.records);
        RebuildReads(Calm(e, list), w);
      }
    }
    if Agrees(e, w) {
      AgreementMirrors(e, w);
    }
  }

  lemma AgreementMirrors(e: Env, w: World)
    requires Lawful(e) && Agrees(e, w)
    ensures Mirrors(ViewOf(e), w.objects, w.records)
  {
    var v, list := ViewOf(e), e.enumerate;
    var keys := list(w.calls, w.objects.Keys);
    assert AgreesUnder(e, w, list);
    RebuildPasses(Calm(e, list), w, keys);
    PassReturned(Calm(e, list), v, w.(records := [], calls := w.calls + 1), keys);
    forall m | m in w.records ensures Held(v, w.objects, m)
    {
      assert HeldUnder(v, w.objects, keys, m);
    }
    forall m | Held(v, w.objects, m) ensures m in w.records
    {
      var k :| Holds(v, w.objects, k, m);
      LastSidecarFound(e, w, k, m);
    }
  }

  lemma LastSidecarFound(e: Env, w: World, key: string, m: Metadata)
    requires Lawful(e) && Agrees(e, w) && Holds(ViewOf(e), w.objects, key, m)
    ensures m in w.records
  {
    var list := KeyLast(e.enumerate, key);
    KeyLastLists(e.enumerate, key);
    assert AgreesUnder(e, w, list);
    LastKeyRead(e, w, list, list(w.calls, w.objects.Keys), key);
  }

  lemma LastKeyRead(e: Env, w: World, list: Lister, keys: seq<string>, key: string)
    requires Lawful(e) && Lists(list) && AgreesUnder(e, w, list) && keys == list(w.calls, w.objects.Keys)
    requires keys != [] && keys[|keys| - 1] == key && key in w.objects && IsSidecarKey(key)
    ensures Load(e.parse, w.objects[key]).Some? && Load(e.parse, w.objects[key]).value in w.records
  {
    RebuildPasses(Calm(e, list), w, keys);
    PassReturned(Calm(e, list), ViewOf(e), w.(records := [], calls := w.calls + 1), keys);
  }


  /** In a coherent state index and storage agree. */
  lemma CoherentAgrees(e: Env, w: World)
    requires Lawful(e) && CoherentWorld(e, w)
    ensures Agrees(e, w)
  {
    CoherentMirrors(ViewOf(e), w.objects, w.records);
    AgreesIff(e, w);
  }

  /** Where they agree, a rebuild that returns, whatever may throw, finds the records the index held. */
  lemma RebuildAgrees(e: Env, w: World)
    requires Lawful(e) && Agrees(e, w) && Rebuild(e, w).1 == Done
    ensures Mirrors(ViewOf(e), w.objects, Rebuild(e, w).0.records)
    ensures forall m :: m in Rebuild(e, w).0.records <==> m in w.records
  {
    AgreesIff(e, w);
    MirroredIsLegible(ViewOf(e), w.objects, w.records);
    RebuildReads(e, w);
  }

  /** Every list and search answers after a restart as it did before. */
  lemma SameAnswersAfterRestart(e: Env, w: World, c: Codec, words: Words, now: int, text: string, f: ArtifactFilter)
    requires Lawful(e) && Agrees(e, w) && Collation(words.compare)
    requires Rebuild(e, w.(records := [])).1 == Done
    ensures var restarted := Rebuild(e, w.(records := [])).0.records;
            && Query(words, now, restarted, f) == Query(words, now, w.records, f)
            && List(c, words, now, restarted, f) == List(c, words, now, w.records, f)
            && Search(words, now, restarted, text, f) == Search(words, now, w.records, text, f)
  {
    assert Rebuild(e, w.(records := [])) == Rebuild(e, w);
    RebuildAgrees(e, w);
    QueryIgnoresMapOrder(words, now, Rebuild(e, w).0.records, w.records, f);
  }

  // ----- which saves keep the agreement -----

  /** The same environment with other storage calls failing. */
  function Failing(e: Env, fails: nat -> bool): Env { e.(fails := fails) }

  /** The id is a UUID that neither the index nor storage has seen. */
  ghost predicate Unused(e: Env, w: World, id: string, now: int, d: Draft)
  {
    && IsId(id) && Find(w.records, id) == None
    && ContentKey(id, now, d.texts[Extension]) !in w.objects && MetadataKey(id, now) !in w.objects
  }

  /** A save that returns leaves index and storage in agreement exactly when the draft is plain and, if
      its extension ends in ".meta.json", its content reads as a record that the index holds. */
  lemma SaveAgreesIff(e: Env, w: World, id: string, now: int, d: Draft)
    requires Lawful(e) && Agrees(e, w) && Unused(e, w, id, now, d) && Save(e, w, id, now, d).1.Some?
    ensures var after, content := Save(e, w, id, now, d).0, Load(e.parse, Flatten(d.content));
            Agrees(e, after) <==>
              && PlainDraft(now, d)
              && (EndsWith(d.texts[Extension], METADATA_SUFFIX) ==> content.Some? && content.value in after.records)
  {
    var m, after, extension := DraftRecord(e, id, now, d), Save(e, w, id, now, d).0, d.texts[Extension];
    AgreesIff(e, w);
    AgreesIff(e, after);
    SaveStores(e, w, id, now, d);
    PlainDraftIff(e, id, now, d);
    SidecarLoads(e, m);
    SidecarId(e, m);
    MetadataKeyForm(id, now);
    OwnKeysCollideIff(id, now, extension);
    ContentMistakenForSidecarIff(id, now, extension);
    assert |"meta.json"| < |METADATA_SUFFIX|;
    MirrorsMoreIff(ViewOf(e), w.objects, w.records, m, ContentKeyOf(m), Flatten(d.content), MetadataKeyOf(m),
                   Sidecar(e, m));
  }

  /** Under these failures the save, if it throws, leaves index and storage in agreement. */
  ghost predicate AgreesIfSaveThrows(e: Env, w: World, id: string, now: int, d: Draft, fails: nat -> bool)
    requires Lawful(e)
  {
    var (after, saved) := Save(Failing(e, fails), w, id, now, d);
    saved.None? ==> Agrees(e, after)
  }

  /** However a save throws, it leaves them so exactly when content that rebuild would take for a sidecar
      reads as a record that the index held already. */
  lemma SaveThrowsAgreesIff(e: Env, w: World, id: string, now: int, d: Draft)
    requires Lawful(e) && Agrees(e, w) && Unused(e, w, id, now, d)
    ensures var content := Load(e.parse, Flatten(d.content));
            (forall fails :: AgreesIfSaveThrows(e, w, id, now, d, fails)) <==>
            (SidecarExtension(d.texts[Extension]) ==> content.Some? && content.value in w.records)
  {
    var key, content := ContentKey(id, now, d.texts[Extension]), Flatten(d.content);
    ContentMistakenForSidecarIff(id, now, d.texts[Extension]);
    AgreesIff(e, w);
    MirrorsContentIff(ViewOf(e), w.objects, w.records, key, content);
    var left := w.(objects := w.objects[key := content]);
    AgreesIff(e, left);
    var second := (n: nat) => n == w.calls + 1;
    SaveThrowing(e, w, id, now, d, second);
    AgreesIff(e, Save(Failing(e, second), w, id, now, d).0);
    if SidecarExtension(d.texts[Extension]) && !Agrees(e, left) {
      assert !AgreesIfSaveThrows(e, w, id, now, d, second);
    } else {
      forall fails
        ensures AgreesIfSaveThrows(e, w, id, now, d, fails)
      {
        SaveThrowing(e, w, id, now, d, fails);
        AgreesIff(e, Save(Failing(e, fails), w, id, now, d).0);
      }
    }
  }

  /** A save that throws leaves the index alone and at most the content behind: it does, if just the
      second call throws. */
  lemma SaveThrowing(e: Env, w: World, id: string, now: int, d: Draft, fails: nat -> bool)
    requires Find(w.records, id) == None
    ensures var (after, saved) := Save(Failing(e, fails), w, id, now, d);
            var left := w.objects[ContentKey(id, now, d.texts[Extension]) := Flatten(d.content)];
            && (saved.None? ==> after.records == w.records && (after.objects == w.objects || after.objects == left))
            && (!fails(w.calls) && fails(w.calls + 1) ==> saved.None? && after.objects == left)
  {
    var m := DraftRecord(e, id, now, d);
    StoreBothObjects(Failing(e, fails), w, ContentKeyOf(m), Flatten(d.content), MetadataKeyOf(m), Sidecar(e, m));
  }

  ghost predicate AgreesAfterSave(e: Env, w: World, id: string, now: int, d: Draft, fails: nat -> bool)
    requires Lawful(e)
  {
    Agrees(e, Save(Failing(e, fails), w, id, now, d).0)
  }

  /** Whatever fails, a save leaves index and storage in agreement exactly when the draft is plain and
      content that rebuild would take for a sidecar reads as a record that the index held already. */
  lemma SaveAlwaysAgreesIff(e: Env, w: World, id: string, now: int, d: Draft)
    requires Lawful(e) && Agrees(e, w) && Unused(e, w, id, now, d)
    ensures var content := Load(e.parse, Flatten(d.content));
            (forall fails :: AgreesAfterSave(e, w, id, now, d, fails)) <==>
              && PlainDraft(now, d)
              && (SidecarExtension(d.texts[Extension]) ==> content.Some? && content.value in w.records)
  {
    SaveThrowsAgreesIff(e, w, id, now, d);
    var none := (n: nat) => false;
    ReturningSaveAgreesIff(e, w, id, now, d, none);
    if forall fails :: AgreesAfterSave(e, w, id, now, d, fails) {
      assert AgreesAfterSave(e, w, id, now, d, none);
      forall fails ensures AgreesIfSaveThrows(e, w, id, now, d, fails)
      {
        assert AgreesAfterSave(e, w, id, now, d, fails);
      }
    }
    if PlainDraft(now, d) && (forall fails :: AgreesIfSaveThrows(e, w, id, now, d, fails)) {
      forall fails ensures AgreesAfterSave(e, w, id, now, d, fails)
      {
        assert AgreesIfSaveThrows(e, w, id, now, d, fails);
        ReturningSaveAgreesIff(e, w, id, now, d, fails);
      }
    }
  }

  lemma ReturningSaveAgreesIff(e: Env, w: World, id: string, now: int, d: Draft, fails: nat -> bool)
    requires Lawful(e) && Agrees(e, w) && Unused(e, w, id, now, d)
    ensures (forall n :: !fails(n)) ==> Save(Failing(e, fails), w, id, now, d).1.Some?
    ensures var content := Load(e.parse, Flatten(d.content));
            Save(Failing(e, fails), w, id, now, d).1.Some? ==>
              && (AgreesAfterSave(e, w, id, now, d, fails) ==> PlainDraft(now, d))
              && (PlainDraft(now, d)
                  && (SidecarExtension(d.texts[Extension]) ==> content.Some? && content.value in w.records)
                  ==> AgreesAfterSave(e, w, id, now, d, fails))
  {
    var f := Failing(e, fails);
    AgreesIff(e, w);
    AgreesIff(f, w);
    if Save(f, w, id, now, d).1.Some? {
      SaveAgreesIff(f, w, id, now, d);
      AddedRecords(w.records, DraftRecord(e, id, now, d));
      AgreesIff(f, Save(f, w, id, now, d).0);
      AgreesIff(e, Save(f, w, id, now, d).0);
      SaveStores(f, w, id, now, d);
    }
  }

  lemma SidecarId(e: Env, m: Metadata)
    requires Lawful(e) && IsId(m.id)
    ensures Load(e.parse, Sidecar(e, m)).Some? ==> Load(e.parse, Sidecar(e, m)).value.id == m.id
  {
    ToJsonIsJson(AsObject(m));
    if Load(e.parse, Sidecar(e, m)).Some? {
      IdReadBack(m);
    }
  }

  // ----- which deletes can lose a sidecar -----

  /** Every record of the index has its own sidecar. */
  ghost predicate Backed(v: View, w: World)
  {
    forall m :: m in w.records ==> Holds(v, w.objects, v.keyOf(m), m)
  }

  ghost predicate BackedAfterDelete(e: Env, w: World, id: string, fails: nat -> bool)
  {
    Backed(ViewOf(e), Delete(Failing(e, fails), w, id).0)
  }

  /** However storage fails, a delete leaves every record of the index with its sidecar exactly when the
      record's extension is not "meta.json". */
  lemma DeleteBackedIff(e: Env, w: World, m: Metadata)
    requires UniqueIds(w.records) && m in w.records && forall x :: x in w.records ==> IsId(x.id)
    requires Backed(ViewOf(e), w)
    ensures (forall fails :: BackedAfterDelete(e, w, m.id, fails)) <==> m.TextOf(Extension) != "meta.json"
  {
    OwnKeysCollideIff(m.id, m.createdAt, m.TextOf(Extension));
    FindUnique(w.records, m);
    if m.TextOf(Extension) == "meta.json" {
      var second := (n: nat) => n == w.calls + 1;
      HalfEraseLoses(Failing(e, second), ViewOf(e), w, m, ContentKeyOf(m));
      assert !BackedAfterDelete(e, w, m.id, second);
    } else {
      KeysApart(e, w.records, m);
      RemoveKeepsOthers(w.records, m);
      forall fails
        ensures BackedAfterDelete(e, w, m.id, fails)
      {
        EraseBothBacked(Failing(e, fails), ViewOf(e), w, m, ContentKeyOf(m), RemoveRecord(w.records, m.id));
      }
    }
  }

  /** The keys of a record are no other record's sidecar. */
  lemma KeysApart(e: Env, records: seq<Metadata>, m: Metadata)
    requires UniqueIds(records) && m in records && forall x :: x in records ==> IsId(x.id)
    ensures forall x :: x in records && x != m ==>
              ViewOf(e).keyOf(x) != ContentKeyOf(m) && ViewOf(e).keyOf(x) != MetadataKeyOf(m)
  {
    forall x | x in records && x != m
      ensures MetadataKeyOf(x) != ContentKeyOf(m) && MetadataKeyOf(x) != MetadataKeyOf(m)
    {
      assert x.id != m.id;
      DifferentArtifactsDifferentKeys(m.id, m.createdAt, m.TextOf(Extension), x.id, x.createdAt, "");
    }
  }

  /** Where content and sidecar share a key and the second call throws, the record stays without one. */
  lemma HalfEraseLoses(e: Env, v: View, w: World, m: Metadata, key: string)
    requires m in w.records && key == v.keyOf(m) && !e.fails(w.calls) && e.fails(w.calls + 1)
    ensures var (after, ok) := EraseBoth(e, w, key, v.keyOf(m));
            !ok && after.records == w.records && !Backed(v, after)
  {}

  lemma EraseBothBacked(e: Env, v: View, w: World, m: Metadata, contentKey: string, rest: seq<Metadata>)
    requires Backed(v, w) && contentKey != v.keyOf(m)
    requires forall x :: x in w.records && x != m ==> v.keyOf(x) != contentKey && v.keyOf(x) != v.keyOf(m)
    requires forall x :: x in rest <==> x in w.records && x != m
    ensures var (after, ok) := EraseBoth(e, w, contentKey, v.keyOf(m));
            after.records == w.records && Backed(v, if ok then after.(records := rest) else after)
  {
    forall x | x in w.records ensures Holds(v, w.objects, v.keyOf(x), x) {}
  }
}
