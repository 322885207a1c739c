/** The artifact service as functions on its whole state: the stored objects, the records of the
    index and the number of storage calls so far. Any storage call may throw; a call that throws
    leaves its key as it was. The classes in ArtifactService are proved equal to these functions. */
module ArtifactModel {
  import opened Sequences
  import opened ArtifactMetadata
  import opened ArtifactKeys
  import opened Listing
  import Cursor

  type Bytes = seq<Cursor.byte>

  /** What the service cannot see: which storage calls throw, the order in which keys are listed,
      JSON text and SHA-256. */
  datatype Env = Env(
    fails: nat -> bool,
    enumerate: (nat, set<string>) -> seq<string>,
    stringify: Js -> Bytes,
    parse: Bytes -> Option<Js>,
    sha256: Bytes -> string)

  ghost predicate IsEnumeration(keys: seq<string>, of: set<string>)
  {
    NoDuplicates(keys) && forall k :: k in keys <==> k in of
  }

  /** A listing has every key once, JSON text read back is the value written, and a SHA-256 digest has
      64 hexadecimal digits. */
  ghost predicate Lawful(e: Env)
  {
    && (forall n, keys :: IsEnumeration(e.enumerate(n, keys), keys))
    && (forall v :: IsJson(v) ==> e.parse(e.stringify(v)) == Some(v))
    && (forall bytes :: |e.sha256(bytes)| == 64)
  }

  datatype World = World(objects: map<string, Bytes>, records: seq<Metadata>, calls: nat)

  // ----- storage -----

  function Put(e: Env, w: World, key: string, bytes: Bytes): (World, bool)
  {
    if e.fails(w.calls) then (w.(calls := w.calls + 1), false)
    else (w.(objects := w.objects[key := bytes], calls := w.calls + 1), true)
  }

  function Erase(e: Env, w: World, key: string): (World, bool)
  {
    if e.fails(w.calls) then (w.(calls := w.calls + 1), false)
    else (w.(objects := w.objects - {key}, calls := w.calls + 1), true)
  }

  // ----- index -----

  function Find(records: seq<Metadata>, id: string): (r: Option<Metadata>)
    ensures r.None? <==> forall m :: m in records ==> m.id != id
    ensures r.Some? ==> r.value in records && r.value.id == id
  {
    if records == [] then None
    else if records[0].id == id then Some(records[0])
    else Find(records[1..], id)
  }

  /** Map.set: an id that is present keeps its place. */
  function AddRecord(records: seq<Metadata>, m: Metadata): seq<Metadata>
  {
    if records == [] then [m]
    else if records[0].id == m.id then [m] + records[1..]
    else [records[0]] + AddRecord(records[1..], m)
  }

  function IdNot(id: string): Metadata -> bool { (m: Metadata) => m.id != id }

  function RemoveRecord(records: seq<Metadata>, id: string): seq<Metadata>
  {
    Filter(IdNot(id), records)
  }

  // ----- save -----

  datatype DraftData = Draft(texts: map<TextField, string>, tags: Option<seq<string>>,
                             relatedArtifactIds: Option<seq<string>>, content: seq<Bytes>)

  /** ArtifactDraft; `content` is the pieces in which the content stream arrives. Hash and storage tier
      are not the draft's to give. */
  type Draft = d: DraftData | REQUIRED <= d.texts.Keys && ContentHash !in d.texts && StorageTier !in d.texts
    witness Draft(map[Title := "", Filename := "", Kind := "", Extension := "", CreatedBy := ""], None, None, [])

  const MIME_TYPES_BY_ARTIFACT_TYPE: map<string, string> :=
    map["markdown" := "text/markdown", "json" := "application/json", "sql" := "application/sql",
        "patch" := "text/x-patch", "diff" := "text/x-diff", "log" := "text/plain", "zip" := "application/zip",
        "pdf" := "application/pdf"]

  const DEFAULT_MIME_TYPE := "application/octet-stream"

  /** The functions that every object literal inherits from Object.prototype. */
  const INHERITED_METHODS: seq<string> :=
    ["constructor", "hasOwnProperty", "isPrototypeOf", "propertyIsEnumerable", "toLocaleString", "toString", "valueOf",
     "__defineGetter__", "__defineSetter__", "__lookupGetter__", "__lookupSetter__"]

  predicate InheritedName(kind: string) { kind in INHERITED_METHODS || kind == "__proto__" }

  /** A look-up in an object literal: its own entries, then what it inherits. */
  function ResolveMimeType(kind: string): Js
  {
    if kind in MIME_TYPES_BY_ARTIFACT_TYPE then Str(MIME_TYPES_BY_ARTIFACT_TYPE[kind])
    else if kind in INHERITED_METHODS then Method(kind)
    else if kind == "__proto__" then Prototype
    else Str(DEFAULT_MIME_TYPE)
  }

  function MakeRecord(id: string, now: int, d: Draft, size: nat, contentHash: string): (m: Metadata)
    ensures Complete(m)
  {
    Metadata(id, now, size, if d.tags.Some? then d.tags.value else [], d.relatedArtifactIds,
             Some(ResolveMimeType(d.texts[Kind])), d.texts + map[ContentHash := contentHash, StorageTier := "hot"])
  }

  /** The record that saving a draft makes. */
  function DraftRecord(e: Env, id: string, now: int, d: Draft): (m: Metadata)
    ensures Complete(m)
  {
    var bytes := Flatten(d.content);
    MakeRecord(id, now, d, |bytes|, e.sha256(bytes))
  }

  function ContentKeyOf(m: Metadata): string { ContentKey(m.id, m.createdAt, m.TextOf(Extension)) }

  function MetadataKeyOf(m: Metadata): string { MetadataKey(m.id, m.createdAt) }

  /** The bytes of a sidecar, and what rebuild makes of bytes. */
  function Sidecar(e: Env, m: Metadata): Bytes { e.stringify(ToJson(AsObject(m))) }

  function Load(parse: Bytes -> Option<Js>, bytes: Bytes): Option<Metadata>
  {
    match parse(bytes)
    case None => None
    case Some(v) => FromObject(Revive(v))
  }

  /** The content goes first, then the sidecar, then the index. */
  function StoreBoth(e: Env, w: World, contentKey: string, content: Bytes, metadataKey: string,
                     sidecar: Bytes): (World, bool)
  {
    var (w1, ok1) := Put(e, w, contentKey, content);
    if !ok1 then (w1, false) else Put(e, w1, metadataKey, sidecar)
  }

  /** The record, or None when a storage call threw. */
  function Save(e: Env, w: World, id: string, now: int, d: Draft): (World, Option<Metadata>)
  {
    var m := DraftRecord(e, id, now, d);
    var (w1, ok) := StoreBoth(e, w, ContentKeyOf(m), Flatten(d.content), MetadataKeyOf(m), Sidecar(e, m));
    if ok then (w1.(records := AddRecord(w1.records, m)), Some(m)) else (w1, None)
  }

  // ----- delete -----

  function EraseBoth(e: Env, w: World, contentKey: string, metadataKey: string): (World, bool)
  {
    var (w1, ok1) := Erase(e, w, contentKey);
    if !ok1 then (w1, false) else Erase(e, w1, metadataKey)
  }

  function RemoveFromStorage(e: Env, w: World, m: Metadata): (World, bool)
  {
    EraseBoth(e, w, ContentKeyOf(m), MetadataKeyOf(m))
  }

  datatype Verdict = Deleted | NotFound | Failed

  function Delete(e: Env, w: World, id: string): (World, Verdict)
  {
    match Find(w.records, id)
    case None => (w, NotFound)
    case Some(m) =>
      var (w1, ok) := RemoveFromStorage(e, w, m);
      if ok then (w1.(records := RemoveRecord(w1.records, id)), Deleted) else (w1, Failed)
  }

  datatype Deletion = Deletion(deleted: seq<string>, notFound: seq<string>, skipped: seq<string>, failed: seq<string>)

  function Report(d: Deletion, id: string, verdict: Verdict): Deletion
  {
    match verdict
    case Deleted => d.(deleted := d.deleted + [id])
    case NotFound => d.(notFound := d.notFound + [id])
    case Failed => d.(failed := d.failed + [id])
  }

  /** How one id is deleted. */
  type Deleter = (World, string) -> (World, Verdict)

  function DeleterOf(e: Env): Deleter { (w: World, id: string) => Delete(e, w, id) }

  /** A batch after its first `n` ids. */
  function Batch(delete: Deleter, w: World, ids: seq<string>, n: nat): (World, Deletion)
    requires n <= |ids|
  {
    if n == 0 then (w, Deletion([], [], [], []))
    else
      var (w1, d) := Batch(delete, w, ids, n - 1);
      var id := ids[n - 1];
      if id in ids[..n - 1] then (w1, d.(skipped := d.skipped + [id]))
      else
        var (w2, verdict) := delete(w1, id);
        (w2, Report(d, id, verdict))
  }

  function DeleteMany(e: Env, w: World, ids: seq<string>, n: nat): (World, Deletion)
    requires n <= |ids|
  {
    Batch(DeleterOf(e), w, ids, n)
  }

  function IdOf(): Metadata -> string { (m: Metadata) => m.id }

  function DeleteByFilter(e: Env, w: World, words: Words, now: int, f: ArtifactFilter): (World, Deletion)
  {
    var ids := Map(IdOf(), Query(words, now, w.records, f));
    DeleteMany(e, w, ids, |ids|)
  }

  // ----- rebuild -----

  /** IllTyped: a sidecar whose fields have types no record has; the model stops there. */
  datatype RebuildOutcome = Done | Threw | IllTyped

  /** What becomes of a sidecar that has been read; a parse that throws gives None. */
  function AddParsed(w: World, parsed: Option<Js>): (World, RebuildOutcome)
  {
    match parsed
    case None => (w, Threw)
    case Some(v) =>
      match FromObject(Revive(v))
      case None => (w, IllTyped)
      case Some(m) => (w.(records := AddRecord(w.records, m)), Done)
  }

  /** One key of the listing. */
  function ReadKey(e: Env, w: World, key: string): (World, RebuildOutcome)
    requires key in w.objects
  {
    if !IsSidecarKey(key) then (w, Done)
    else
      var w1 := w.(calls := w.calls + 1);
      if e.fails(w.calls) then (w1, Threw)
      else
        AddParsed(w1, e.parse(w.objects[key]))
  }

  function ReadSidecars(e: Env, w: World, keys: seq<string>): (World, RebuildOutcome)
    requires forall k :: k in keys ==> k in w.objects
    decreases keys
  {
    if keys == [] then (w, Done)
    else
      var (w1, outcome) := ReadKey(e, w, keys[0]);
      if outcome != Done then (w1, outcome) else ReadSidecars(e, w1, keys[1..])
  }

  ghost function Rebuild(e: Env, w: World): (World, RebuildOutcome)
    requires Lawful(e)
  {
    var w1 := w.(records := [], calls := w.calls + 1);
    if e.fails(w.calls) then (w1, Threw)
    else
      assert IsEnumeration(e.enumerate(w.calls, w.objects.Keys), w.objects.Keys);
      ReadSidecars(e, w1, e.enumerate(w.calls, w.objects.Keys))
  }
}
