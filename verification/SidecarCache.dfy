/** A list of records kept as a cache over key-value storage in which some keys hold one record
    each. What it takes to keep the two in step, for any way of reading records and naming keys. */
module SidecarCache {
  import opened Sequences
  import opened ArtifactMetadata
  import opened Listing
  import Cursor

  type Bytes = seq<Cursor.byte>

  /** Which keys are sidecars, how a sidecar reads, where a record belongs, which records may be saved. */
  datatype View = View(isSidecar: string -> bool, load: Bytes -> Option<Metadata>,
                       keyOf: Metadata -> string, proper: Metadata -> bool)

  ghost predicate WellKeyed(v: View)
  {
    && (forall m :: v.isSidecar(v.keyOf(m)))
    && (forall m, x :: v.proper(m) && v.proper(x) && v.keyOf(m) == v.keyOf(x) ==> m.id == x.id)
  }

  /** The object under `k` is a sidecar that reads as `m`. */
  ghost predicate Holds(v: View, objects: map<string, Bytes>, k: string, m: Metadata)
  {
    k in objects && v.isSidecar(k) && v.load(objects[k]) == Some(m)
  }

  /** Every sidecar reads as a record that belongs under its key, one per id. */
  ghost predicate Tidy(v: View, objects: map<string, Bytes>)
  {
    && (forall k :: k in objects && v.isSidecar(k) ==> v.load(objects[k]).Some?)
    && (forall k, m :: Holds(v, objects, k, m) ==> v.proper(m) && v.keyOf(m) == k)
    && (forall k, m, k', m' :: Holds(v, objects, k, m) && Holds(v, objects, k', m') && m.id == m'.id ==> k == k')
  }

  /** Whatever the cache holds, its sidecar holds. */
  ghost predicate Sound(v: View, objects: map<string, Bytes>, records: seq<Metadata>)
  {
    && UniqueIds(records) && Tidy(v, objects)
    && forall m :: m in records ==> Holds(v, objects, v.keyOf(m), m)
  }

  /** The cache holds exactly what the sidecars hold. */
  ghost predicate Coherent(v: View, objects: map<string, Bytes>, records: seq<Metadata>)
  {
    && UniqueIds(records) && Tidy(v, objects)
    && forall m :: m in records <==> Holds(v, objects, v.keyOf(m), m)
  }

  /** No sidecar holds a record with the id. */
  ghost predicate Fresh(v: View, objects: map<string, Bytes>, id: string)
  {
    forall k, m :: Holds(v, objects, k, m) ==> m.id != id
  }

  /** Some sidecar holds the record. */
  ghost predicate Held(v: View, objects: map<string, Bytes>, m: Metadata)
  {
    exists k :: Holds(v, objects, k, m)
  }

  ghost predicate AllLoad(v: View, objects: map<string, Bytes>)
  {
    forall k :: k in objects && v.isSidecar(k) ==> v.load(objects[k]).Some?
  }

  /** Every sidecar reads as a record, and no two sidecars disagree about an id. */
  ghost predicate Legible(v: View, objects: map<string, Bytes>)
  {
    && AllLoad(v, objects)
    && forall m, m' :: Held(v, objects, m) && Held(v, objects, m') && m.id == m'.id ==> m == m'
  }

  /** The records are those of the sidecars, under whatever keys. */
  ghost predicate Mirrors(v: View, objects: map<string, Bytes>, records: seq<Metadata>)
  {
    && UniqueIds(records) && AllLoad(v, objects)
    && forall m :: m in records <==> Held(v, objects, m)
  }

  lemma TidyIsLegible(v: View, objects: map<string, Bytes>)
    requires Tidy(v, objects)
    ensures Legible(v, objects)
    ensures forall m :: Held(v, objects, m) <==> Holds(v, objects, v.keyOf(m), m)
  {}

  lemma MirroredIsLegible(v: View, objects: map<string, Bytes>, records: seq<Metadata>)
    requires Mirrors(v, objects, records)
    ensures Legible(v, objects)
  {}

  lemma CoherentMirrors(v: View, objects: map<string, Bytes>, records: seq<Metadata>)
    requires Coherent(v, objects, records)
    ensures Mirrors(v, objects, records)
  {
    TidyIsLegible(v, objects);
  }

  /** Over tidy sidecars, what is backed by some sidecar is backed by its own. */
  lemma TidyMirrorIsCoherent(v: View, objects: map<string, Bytes>, records: seq<Metadata>)
    requires Tidy(v, objects) && UniqueIds(records) && forall m :: m in records ==> Held(v, objects, m)
    ensures Sound(v, objects, records)
    ensures Mirrors(v, objects, records) ==> Coherent(v, objects, records)
  {
    TidyIsLegible(v, objects);
  }

  /** One new object, under a key that was free. */
  lemma HeldOne(v: View, objects: map<string, Bytes>, key: string, bytes: Bytes)
    requires key !in objects
    ensures forall x :: Held(v, objects[key := bytes], x) <==>
                        Held(v, objects, x) || (v.isSidecar(key) && v.load(bytes) == Some(x))
    ensures AllLoad(v, objects[key := bytes]) <==>
            AllLoad(v, objects) && (v.isSidecar(key) ==> v.load(bytes).Some?)
  {
    var more := objects[key := bytes];
    forall k, x ensures k != key ==> (Holds(v, more, k, x) <==> Holds(v, objects, k, x)) {}
    forall x ensures Holds(v, more, key, x) <==> v.isSidecar(key) && v.load(bytes) == Some(x) {}
    forall x | Held(v, objects, x) ensures Held(v, more, x)
    {
      var k :| Holds(v, objects, k, x);
      assert Holds(v, more, k, x);
    }
    forall k | k in objects ensures k in more && more[k] == objects[k] {}
  }

  /** New content and a new sidecar, under keys that were free. */
  lemma HeldMore(v: View, objects: map<string, Bytes>, contentKey: string, content: Bytes, key: string, sidecar: Bytes)
    requires contentKey !in objects && key !in objects && v.isSidecar(key)
    ensures var more := objects[contentKey := content][key := sidecar];
            var mistaken := contentKey != key && v.isSidecar(contentKey);
            && (forall x :: Held(v, more, x) <==>
                  || Held(v, objects, x) || v.load(sidecar) == Some(x)
                  || (mistaken && v.load(content) == Some(x)))
            && (AllLoad(v, more) <==>
                  AllLoad(v, objects) && v.load(sidecar).Some? && (mistaken ==> v.load(content).Some?))
  {
    if contentKey == key {
      assert objects[contentKey := content][key := sidecar] == objects[key := sidecar];
      HeldOne(v, objects, key, sidecar);
    } else {
      HeldOne(v, objects, contentKey, content);
      HeldOne(v, objects[contentKey := content], key, sidecar);
    }
  }

  /** New content without a sidecar. */
  lemma MirrorsContentIff(v: View, objects: map<string, Bytes>, records: seq<Metadata>, key: string, content: Bytes)
    requires Mirrors(v, objects, records) && key !in objects
    ensures Mirrors(v, objects[key := content], records) <==>
            (v.isSidecar(key) ==> v.load(content).Some? && v.load(content).value in records)
  {
    HeldOne(v, objects, key, content);
    if v.isSidecar(key) && v.load(content).Some? {
      assert Held(v, objects[key := content], v.load(content).value);
    }
  }

  lemma MirrorsMoreIff(v: View, objects: map<string, Bytes>, records: seq<Metadata>, m: Metadata,
                       contentKey: string, content: Bytes, key: string, sidecar: Bytes)
    requires Mirrors(v, objects, records) && contentKey !in objects && key !in objects && v.isSidecar(key)
    requires forall x :: x in records ==> x.id != m.id
    requires v.load(sidecar).Some? ==> v.load(sidecar).value.id == m.id
    ensures Mirrors(v, objects[contentKey := content][key := sidecar], records + [m]) <==>
            && v.load(sidecar) == Some(m)
            && (contentKey != key && v.isSidecar(contentKey) ==>
                  v.load(content).Some? && v.load(content).value in records + [m])
  {
    HeldMore(v, objects, contentKey, content, key, sidecar);
    var more := objects[contentKey := content][key := sidecar];
    if Mirrors(v, more, records + [m]) {
      var r := v.load(sidecar).value;
      assert Held(v, more, r);
      assert r in records + [m];
    }
  }

  /** Objects under other keys do not matter. */
  lemma OtherKeys(v: View, a: map<string, Bytes>, b: map<string, Bytes>)
    requires forall k :: v.isSidecar(k) ==> (k in a <==> k in b) && (k in a ==> a[k] == b[k])
    requires Tidy(v, a)
    ensures Tidy(v, b) && forall k, m :: Holds(v, a, k, m) <==> Holds(v, b, k, m)
  {
    forall k, m ensures Holds(v, a, k, m) <==> Holds(v, b, k, m) {}
  }

  lemma EraseSidecar(v: View, objects: map<string, Bytes>, key: string)
    requires Tidy(v, objects)
    ensures Tidy(v, objects - {key})
    ensures forall k, m :: Holds(v, objects - {key}, k, m) <==> Holds(v, objects, k, m) && k != key
  {
    forall k, m ensures Holds(v, objects - {key}, k, m) <==> Holds(v, objects, k, m) && k != key {}
  }

  lemma WriteSidecar(v: View, objects: map<string, Bytes>, m: Metadata, bytes: Bytes)
    requires WellKeyed(v) && Tidy(v, objects) && Fresh(v, objects, m.id)
    requires v.proper(m) && v.load(bytes) == Some(m)
    ensures Tidy(v, objects[v.keyOf(m) := bytes])
    ensures forall k, x :: Holds(v, objects[v.keyOf(m) := bytes], k, x) <==>
                           Holds(v, objects, k, x) || (k == v.keyOf(m) && x == m)
  {
    var key := v.keyOf(m);
    var more := objects[key := bytes];
    if key in objects {
      var x := v.load(objects[key]).value;
      assert Holds(v, objects, key, x);
      assert false;
    }
    forall k, x ensures Holds(v, more, k, x) <==> Holds(v, objects, k, x) || (k == key && x == m) {}
  }

  /** In a coherent state an id is fresh as soon as the cache does not know it. */
  lemma UnknownIsFresh(v: View, objects: map<string, Bytes>, records: seq<Metadata>, id: string)
    requires Coherent(v, objects, records) && forall m :: m in records ==> m.id != id
    ensures Fresh(v, objects, id)
  {
    forall k, m | Holds(v, objects, k, m) ensures m.id != id
    {
      assert m in records;
    }
  }

  // ----- the steps of the service -----

  /** Adding a record to the cache together with its sidecar keeps both invariants. */
  lemma AddBoth(v: View, objects: map<string, Bytes>, records: seq<Metadata>, m: Metadata, bytes: Bytes,
                after: seq<Metadata>)
    requires WellKeyed(v) && Fresh(v, objects, m.id) && v.proper(m) && v.load(bytes) == Some(m)
    requires UniqueIds(after) && forall x :: x in after <==> x in records || x == m
    ensures Sound(v, objects, records) ==> Sound(v, objects[v.keyOf(m) := bytes], after)
    ensures Coherent(v, objects, records) ==> Coherent(v, objects[v.keyOf(m) := bytes], after)
  {
    if Tidy(v, objects) {
      WriteSidecar(v, objects, m, bytes);
    }
  }

  /** Removing a record from the cache together with its sidecar keeps both invariants. */
  lemma RemoveBoth(v: View, objects: map<string, Bytes>, records: seq<Metadata>, m: Metadata, after: seq<Metadata>)
    requires m in records && Sound(v, objects, records)
    requires UniqueIds(after) && forall x :: x in after <==> x in records && x != m
    ensures Sound(v, objects - {v.keyOf(m)}, after)
    ensures Coherent(v, objects, records) ==> Coherent(v, objects - {v.keyOf(m)}, after)
  {
    EraseSidecar(v, objects, v.keyOf(m));
    forall x | x in after ensures v.keyOf(x) != v.keyOf(m)
    {
      assert Holds(v, objects, v.keyOf(x), x) && Holds(v, objects, v.keyOf(m), m);
    }
  }
}
