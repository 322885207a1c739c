/** The metadata record, the JSON value that a sidecar holds, and the date-reviving read. */
module ArtifactMetadata {
  import opened Sequences
  import Calendar

  /** A Date: a time value, or whatever new Date makes of a text with fields out of range. */
  datatype Stamp = At(time: int) | OutOfRange(text: string)

  /** The text fields of ArtifactMetadata but mimeType; `Kind` is the source's `type`. */
  datatype TextField =
    | Title | Filename | Kind | Extension | CreatedBy
    | RepositoryId | WorkflowId | CorrelationId | Scope | SupersedesArtifactId | DerivedFromArtifactId
    | ContentHash | RetentionPolicy | StorageTier

  /** Property names of an object. */
  datatype Property =
    | PId | PCreatedAt | PSize | PTags | PRelatedArtifactIds | PMimeType
    | PText(field: TextField) | POther(name: string)

  /** A JavaScript value as JSON.stringify takes it and JSON.parse with a reviver returns it. `Method`
      is a function and `Prototype` is Object.prototype. */
  datatype Js =
    | Null
    | Str(text: string)
    | Num(number: int)
    | Date(stamp: Stamp)
    | Arr(items: seq<Js>)
    | Obj(fields: map<Property, Js>)
    | Method(name: string)
    | Prototype

  /** JSON.stringify up to the text: dates become timestamps and invalid dates null; a function is left
      out as a field and null in an array; Object.prototype has no fields to write. */
  function ToJson(v: Js): Js
  {
    match v
    case Date(At(t)) => Str(Calendar.IsoText(t))
    case Date(OutOfRange(_)) => Null
    case Arr(items) => Arr(seq(|items|, i requires 0 <= i < |items| => ToJson(items[i])))
    case Obj(fields) => Obj(map k | k in fields && !fields[k].Method? :: ToJson(fields[k]))
    case Method(_) => Null
    case Prototype => Obj(map[])
    case _ => v
  }

  /** JSON.parse with reviveDates: every text of the timestamp pattern becomes a date. */
  function Revive(v: Js): Js
  {
    match v
    case Str(s) =>
      if Calendar.LooksLikeIso(s) then
        Date(match Calendar.ParseIso(s) case Some(t) => At(t) case None => OutOfRange(s))
      else v
    case Arr(items) => Arr(seq(|items|, i requires 0 <= i < |items| => Revive(items[i])))
    case Obj(fields) => Obj(map k | k in fields :: Revive(fields[k]))
    case _ => v
  }

  /** What JSON text can hold. */
  predicate IsJson(v: Js)
  {
    match v
    case Date(_) => false
    case Method(_) => false
    case Prototype => false
    case Arr(items) => forall i :: 0 <= i < |items| ==> IsJson(items[i])
    case Obj(fields) => forall k :: k in fields ==> IsJson(fields[k])
    case _ => true
  }

  /** No text inside looks like a timestamp, every date has a four-digit year, and all is data. */
  predicate Plain(v: Js)
  {
    match v
    case Str(s) => !Calendar.LooksLikeIso(s)
    case Date(At(t)) => 0 <= Calendar.FromTime(t).year <= 9999
    case Date(OutOfRange(_)) => false
    case Method(_) => false
    case Prototype => false
    case Arr(items) => forall i :: 0 <= i < |items| ==> Plain(items[i])
    case Obj(fields) => forall k :: k in fields ==> Plain(fields[k])
    case _ => true
  }

  lemma {:induction false} ToJsonIsJson(v: Js)
    ensures IsJson(ToJson(v))
  {
    match v
    case Arr(items) =>
      forall i | 0 <= i < |items| { ToJsonIsJson(items[i]); }
    case Obj(fields) =>
      forall k | k in fields && !fields[k].Method? { ToJsonIsJson(fields[k]); }
    case _ =>
  }

  /** Writing and reading back gives the same value exactly for the plain values. */
  lemma {:induction false} ReadBackIffPlain(v: Js)
    ensures Revive(ToJson(v)) == v <==> Plain(v)
  {
    match v
    case Date(At(t)) => DateReadBack(t);
    case Arr(items) =>
      forall i | 0 <= i < |items|
        ensures Revive(ToJson(items[i])) == items[i] <==> Plain(items[i])
      {
        ReadBackIffPlain(items[i]);
      }
      ItemsReadBack(items);
    case Obj(fields) =>
      forall k | k in fields
        ensures Revive(ToJson(fields[k])) == fields[k] <==> Plain(fields[k])
      {
        ReadBackIffPlain(fields[k]);
      }
      FieldsReadBack(fields);
    case _ =>
  }

  lemma DateReadBack(t: int)
    ensures Revive(ToJson(Date(At(t)))) == Date(At(t)) <==> 0 <= Calendar.FromTime(t).year <= 9999
  {
    Calendar.PatternIffFourDigitYear(t);
    if 0 <= Calendar.FromTime(t).year <= 9999 {
      Calendar.ParseOfPrint(t);
    }
  }

  lemma ItemsReadBack(items: seq<Js>)
    ensures Revive(ToJson(Arr(items))) == Arr(items) <==>
            forall i :: 0 <= i < |items| ==> Revive(ToJson(items[i])) == items[i]
  {
    var back := Revive(ToJson(Arr(items))).items;
    assert |back| == |items|;
    assert forall i :: 0 <= i < |items| ==> back[i] == Revive(ToJson(items[i]));
  }

  lemma FieldsReadBack(fields: map<Property, Js>)
    ensures Revive(ToJson(Obj(fields))) == Obj(fields) <==>
            forall k :: k in fields ==> Revive(ToJson(fields[k])) == fields[k]
  {
    var back := Revive(ToJson(Obj(fields))).fields;
    FieldsBack(fields);
    forall v: Js | v.Method? { MethodNotReadBack(v); }
    SameMapIff(fields, back, (v: Js) => Revive(ToJson(v)), (v: Js) => v.Method?);
  }

  lemma FieldsBack(fields: map<Property, Js>)
    ensures var back := Revive(ToJson(Obj(fields))).fields;
            && (forall k :: k in back <==> k in fields && !fields[k].Method?)
            && (forall k :: k in back ==> back[k] == Revive(ToJson(fields[k])))
  {}

  lemma MethodNotReadBack(v: Js)
    requires v.Method?
    ensures Revive(ToJson(v)) != v
  {}

  /** A map that drops some fields and changes others is the map it came from just if it changes none. */
  lemma SameMapIff(fields: map<Property, Js>, back: map<Property, Js>, read: Js -> Js, dropped: Js -> bool)
    requires forall k :: k in back <==> k in fields && !dropped(fields[k])
    requires forall k :: k in back ==> back[k] == read(fields[k])
    requires forall v :: dropped(v) ==> read(v) != v
    ensures back == fields <==> forall k :: k in fields ==> read(fields[k]) == fields[k]
  {
    if forall k :: k in fields ==> read(fields[k]) == fields[k] {
      forall k ensures k in back <==> k in fields {}
      assert back == fields;
    }
  }

  /** ArtifactMetadata. An optional field that is undefined is absent from `texts`. The type of mimeType
      is string in the source but what it holds need not be one. */
  datatype Metadata = Metadata(
    id: string, createdAt: int, size: nat, tags: seq<string>,
    relatedArtifactIds: Option<seq<string>>, mimeType: Option<Js>, texts: map<TextField, string>)
  {
    predicate Has(field: TextField, text: string) { field in texts && texts[field] == text }

    function TextOf(field: TextField): string { if field in texts then texts[field] else "" }
  }

  const REQUIRED: set<TextField> := {Title, Filename, Kind, Extension, CreatedBy}

  function Strings(ss: seq<string>): Js
  {
    Arr(seq(|ss|, i requires 0 <= i < |ss| => Str(ss[i])))
  }

  predicate IsStrings(v: Js)
  {
    v.Arr? && forall i :: 0 <= i < |v.items| ==> v.items[i].Str?
  }

  function StringsOf(v: Js): seq<string>
    requires IsStrings(v)
  {
    seq(|v.items|, i requires 0 <= i < |v.items| => v.items[i].text)
  }

  /** What the record holds under a property; an absent field is not written. */
  function Field(m: Metadata, p: Property): Option<Js>
  {
    match p
    case PId => Some(Str(m.id))
    case PCreatedAt => Some(Date(At(m.createdAt)))
    case PSize => Some(Num(m.size))
    case PTags => Some(Strings(m.tags))
    case PRelatedArtifactIds =>
      if m.relatedArtifactIds.Some? then Some(Strings(m.relatedArtifactIds.value)) else None
    case PMimeType => m.mimeType
    case PText(f) => if f in m.texts then Some(Str(m.texts[f])) else None
    case POther(_) => None
  }

  /** The properties that are written. */
  function Properties(m: Metadata): (ps: set<Property>)
    ensures forall p :: p in ps <==> Field(m, p).Some?
  {
    var texts := set f | f in m.texts :: PText(f);
    assert forall p :: p in texts <==> p.PText? && p.field in m.texts;
    {PId, PCreatedAt, PSize, PTags} + (if m.relatedArtifactIds.Some? then {PRelatedArtifactIds} else {})
    + (if m.mimeType.Some? then {PMimeType} else {}) + texts
  }

  /** The record as the object that is stringified. */
  function AsObject(m: Metadata): (v: Js)
    ensures v.Obj? && Represents(v.fields, m)
  {
    Obj(map p | p in Properties(m) :: Field(m, p).value)
  }

  /** The object has just the record's fields. */
  ghost predicate Represents(fields: map<Property, Js>, m: Metadata)
  {
    forall p :: (p in fields <==> Field(m, p).Some?) && (p in fields ==> fields[p] == Field(m, p).value)
  }

  /** Every field but mimeType has the type ArtifactMetadata declares for it. */
  predicate WellTyped(fields: map<Property, Js>)
  {
    && PId in fields && fields[PId].Str?
    && PCreatedAt in fields && fields[PCreatedAt].Date? && fields[PCreatedAt].stamp.At?
    && PSize in fields && fields[PSize].Num? && fields[PSize].number >= 0
    && PTags in fields && IsStrings(fields[PTags])
    && (PRelatedArtifactIds in fields ==> IsStrings(fields[PRelatedArtifactIds]))
    && (forall p :: p in fields && p.PText? ==> fields[p].Str?)
    && (forall f :: f in REQUIRED ==> PText(f) in fields)
  }

  /** The object read as a metadata record; None when a field has the wrong type. */
  function FromObject(v: Js): Option<Metadata>
  {
    if v.Obj? && WellTyped(v.fields) then
      var fields := v.fields;
      Some(Metadata(
        fields[PId].text, fields[PCreatedAt].stamp.time, fields[PSize].number, StringsOf(fields[PTags]),
        if PRelatedArtifactIds in fields then Some(StringsOf(fields[PRelatedArtifactIds])) else None,
        if PMimeType in fields then Some(fields[PMimeType]) else None,
        map f: TextField | f in (set p | p in fields && p.PText? :: p.field) :: fields[PText(f)].text))
    else None
  }

  predicate Complete(m: Metadata) { REQUIRED <= m.texts.Keys }

  lemma ReadRepresented(fields: map<Property, Js>, m: Metadata)
    requires Represents(fields, m) && Complete(m)
    ensures FromObject(Obj(fields)) == Some(m)
  {
    StringsReadBack(m.tags);
    if m.relatedArtifactIds.Some? {
      StringsReadBack(m.relatedArtifactIds.value);
    }
    RepresentedIsTyped(fields, m);
    assert forall f :: f in m.texts <==> PText(f) in fields;
    assert FromObject(Obj(fields)).value.texts == m.texts;
  }

  lemma StringsReadBack(ss: seq<string>)
    ensures StringsOf(Strings(ss)) == ss
  {}

  lemma RepresentedIsTyped(fields: map<Property, Js>, m: Metadata)
    requires Represents(fields, m) && Complete(m)
    ensures WellTyped(fields)
  {
    assert PId in fields && PCreatedAt in fields && PSize in fields && PTags in fields;
    assert PRelatedArtifactIds in fields ==> m.relatedArtifactIds.Some?;
    assert forall f :: f in m.texts <==> PText(f) in fields;
  }

  /** An object of the declared type has just the fields of the record read from it. */
  lemma RepresentsRead(fields: map<Property, Js>)
    requires WellTyped(fields) && forall p :: p in fields ==> !p.POther?
    ensures Represents(fields, FromObject(Obj(fields)).value)
  {
    var m := FromObject(Obj(fields)).value;
    assert Strings(StringsOf(fields[PTags])) == fields[PTags];
    if PRelatedArtifactIds in fields {
      assert Strings(StringsOf(fields[PRelatedArtifactIds])) == fields[PRelatedArtifactIds];
    }
    assert forall f :: f in m.texts <==> PText(f) in fields;
  }

  predicate PlainText(s: string) { !Calendar.LooksLikeIso(s) }

  predicate PlainTexts(ss: seq<string>) { forall i :: 0 <= i < |ss| ==> PlainText(ss[i]) }

  /** No text field, tag or related id looks like a timestamp; the year has four digits; mimeType is
      plain as well. */
  predicate PlainMetadata(m: Metadata)
  {
    && PlainText(m.id) && 0 <= Calendar.FromTime(m.createdAt).year <= 9999
    && PlainTexts(m.tags) && (m.relatedArtifactIds.Some? ==> PlainTexts(m.relatedArtifactIds.value))
    && (m.mimeType.Some? ==> Plain(m.mimeType.value))
    && (forall f :: f in m.texts ==> PlainText(m.texts[f]))
  }

  lemma PlainStrings(ss: seq<string>)
    ensures Plain(Strings(ss)) <==> PlainTexts(ss)
  {
    var items := Strings(ss).items;
    assert forall i :: 0 <= i < |ss| ==> items[i] == Str(ss[i]);
    assert forall i :: 0 <= i < |ss| ==> (Plain(items[i]) <==> PlainText(ss[i]));
  }

  /** Plainness of the written object, said of the record's own fields. */
  lemma PlainObjectIff(m: Metadata)
    ensures Plain(AsObject(m)) <==> PlainMetadata(m)
  {
    var fields := AsObject(m).fields;
    if PlainMetadata(m) {
      forall p | p in fields ensures Plain(fields[p]) { PlainField(m, p); }
    }
    if Plain(AsObject(m)) {
      forall p | p in fields ensures Plain(Field(m, p).value) {}
      PlainRecord(m);
    }
  }

  lemma PlainField(m: Metadata, p: Property)
    requires PlainMetadata(m) && Field(m, p).Some?
    ensures Plain(Field(m, p).value)
  {
    match p
    case PTags => PlainStrings(m.tags);
    case PRelatedArtifactIds => PlainStrings(m.relatedArtifactIds.value);
    case _ =>
  }

  lemma PlainRecord(m: Metadata)
    requires forall p :: Field(m, p).Some? ==> Plain(Field(m, p).value)
    ensures PlainMetadata(m)
  {
    assert Plain(Field(m, PId).value) && Plain(Field(m, PCreatedAt).value) && Plain(Field(m, PTags).value);
    PlainStrings(m.tags);
    if m.relatedArtifactIds.Some? {
      assert Plain(Field(m, PRelatedArtifactIds).value);
      PlainStrings(m.relatedArtifactIds.value);
    }
    if m.mimeType.Some? {
      assert Plain(Field(m, PMimeType).value);
    }
    forall f | f in m.texts ensures PlainText(m.texts[f])
    {
      assert Plain(Field(m, PText(f)).value);
    }
  }

  /** A record written by save reads back unchanged exactly when it is plain. */
  lemma RecordReadBackIffPlain(m: Metadata)
    requires Complete(m)
    ensures FromObject(Revive(ToJson(AsObject(m)))) == Some(m) <==> PlainMetadata(m)
  {
    var v := AsObject(m);
    ReadBackIffPlain(v);
    PlainObjectIff(m);
    NoNewKeys(v);
    OneReading(Revive(ToJson(v)), v, m);
  }

  /** An object with no more than the record's keys reads as the record only if it is the written object. */
  lemma OneReading(back: Js, v: Js, m: Metadata)
    requires Complete(m) && back.Obj? && v.Obj? && back.fields.Keys <= v.fields.Keys && Represents(v.fields, m)
    ensures FromObject(back) == Some(m) <==> back == v
  {
    ReadRepresented(v.fields, m);
    if FromObject(back) == Some(m) {
      forall p | p in back.fields ensures !p.POther? { assert p in v.fields; }
      RepresentsRead(back.fields);
      SameFields(back.fields, v.fields, m);
    }
  }

  lemma NoNewKeys(v: Js)
    requires v.Obj?
    ensures Revive(ToJson(v)).Obj? && Revive(ToJson(v)).fields.Keys <= v.fields.Keys
  {}

  /** A mimeType that is a function is not written. */
  lemma MethodNotWritten(m: Metadata)
    requires m.mimeType.Some? && m.mimeType.value.Method?
    ensures ToJson(AsObject(m)) == ToJson(AsObject(m.(mimeType := None)))
  {
    var fields := AsObject(m).fields;
    assert PMimeType in fields && fields[PMimeType] == m.mimeType.value;
    MethodFieldNotWritten(fields, PMimeType);
    FieldsWithoutMime(fields, m, AsObject(m.(mimeType := None)).fields);
  }

  lemma FieldsWithoutMime(fields: map<Property, Js>, m: Metadata, rest: map<Property, Js>)
    requires Represents(fields, m) && Represents(rest, m.(mimeType := None))
    ensures rest == fields - {PMimeType}
  {
    forall p | p != PMimeType ensures Field(m, p) == Field(m.(mimeType := None), p) {}
  }

  lemma MethodFieldNotWritten(fields: map<Property, Js>, p: Property)
    requires p in fields && fields[p].Method?
    ensures ToJson(Obj(fields)) == ToJson(Obj(fields - {p}))
  {
    assert ToJson(Obj(fields)).fields == ToJson(Obj(fields - {p})).fields;
  }

  /** Every field of the record stands under its own name, dates as toISOString prints them, and no other. */
  ghost predicate Written(v: map<Property, Js>, m: Metadata)
  {
    && PId in v && v[PId] == Str(m.id)
    && PCreatedAt in v && v[PCreatedAt] == Str(Calendar.IsoText(m.createdAt))
    && PSize in v && v[PSize] == Num(m.size)
    && PTags in v && Lists(v[PTags], m.tags)
    && (PRelatedArtifactIds in v <==> m.relatedArtifactIds.Some?)
    && (m.relatedArtifactIds.Some? ==> Lists(v[PRelatedArtifactIds], m.relatedArtifactIds.value))
    && (forall f :: PText(f) in v <==> f in m.texts)
    && (forall f :: f in m.texts ==> v[PText(f)] == Str(m.texts[f]))
    && (m.mimeType.Some? && m.mimeType.value.Str? ==> PMimeType in v && v[PMimeType] == m.mimeType.value)
    && forall p :: p in v ==> !p.POther?
  }

  /** The object that a sidecar holds. */
  lemma WrittenFields(m: Metadata)
    ensures ToJson(AsObject(m)).Obj? && Written(ToJson(AsObject(m)).fields, m)
  {
    var fields := AsObject(m).fields;
    FieldsBackAs(fields);
    WrittenFrom(m, fields, ToJson(AsObject(m)).fields);
  }

  lemma WrittenFrom(m: Metadata, fields: map<Property, Js>, v: map<Property, Js>)
    requires Represents(fields, m)
    requires forall k :: k in v <==> k in fields && !fields[k].Method?
    requires forall k :: k in v ==> v[k] == ToJson(fields[k])
    ensures Written(v, m)
  {
    PropertiesOf(m, fields);
    StringsWritten(m.tags);
    if m.relatedArtifactIds.Some? {
      StringsWritten(m.relatedArtifactIds.value);
    }
    TextsWritten(fields, v, m.texts);
  }

  lemma TextsWritten(fields: map<Property, Js>, v: map<Property, Js>, texts: map<TextField, string>)
    requires forall k :: k in v <==> k in fields && !fields[k].Method?
    requires forall k :: k in v ==> v[k] == ToJson(fields[k])
    requires forall f :: PText(f) in fields <==> f in texts
    requires forall f :: f in texts ==> fields[PText(f)] == Str(texts[f])
    ensures forall f :: PText(f) in v <==> f in texts
    ensures forall f :: f in texts ==> v[PText(f)] == Str(texts[f])
  {
    forall f | f in texts ensures PText(f) in v && v[PText(f)] == Str(texts[f])
    {
      assert fields[PText(f)] == Str(texts[f]);
    }
  }

  predicate Lists(v: Js, ss: seq<string>)
  {
    v.Arr? && |v.items| == |ss| && forall i :: 0 <= i < |ss| ==> v.items[i] == Str(ss[i])
  }

  lemma StringsWritten(ss: seq<string>)
    ensures Lists(ToJson(Strings(ss)), ss)
  {}

  lemma FieldsBackAs(fields: map<Property, Js>)
    ensures var v := ToJson(Obj(fields)).fields;
            && (forall k :: k in v <==> k in fields && !fields[k].Method?)
            && (forall k :: k in v ==> v[k] == ToJson(fields[k]))
  {}

  lemma PropertiesOf(m: Metadata, fields: map<Property, Js>)
    requires Represents(fields, m)
    ensures PId in fields && fields[PId] == Str(m.id)
    ensures PCreatedAt in fields && fields[PCreatedAt] == Date(At(m.createdAt))
    ensures PSize in fields && fields[PSize] == Num(m.size)
    ensures PTags in fields && fields[PTags] == Strings(m.tags)
    ensures PRelatedArtifactIds in fields <==> m.relatedArtifactIds.Some?
    ensures m.relatedArtifactIds.Some? ==> fields[PRelatedArtifactIds] == Strings(m.relatedArtifactIds.value)
    ensures PMimeType in fields <==> m.mimeType.Some?
    ensures m.mimeType.Some? ==> fields[PMimeType] == m.mimeType.value
    ensures forall f :: PText(f) in fields <==> f in m.texts
    ensures forall f :: f in m.texts ==> fields[PText(f)] == Str(m.texts[f])
    ensures forall p :: p in fields ==> !p.POther?
  {}

  /** Whatever else becomes of a record, its id is read back if it does not look like a timestamp. */
  lemma IdReadBack(m: Metadata)
    requires PlainText(m.id) && FromObject(Revive(ToJson(AsObject(m)))).Some?
    ensures FromObject(Revive(ToJson(AsObject(m)))).value.id == m.id
  {
    var fields := AsObject(m).fields;
    assert PId in fields && fields[PId] == Str(m.id);
  }

  lemma SameFields(a: map<Property, Js>, b: map<Property, Js>, m: Metadata)
    requires Represents(a, m) && Represents(b, m)
    ensures a == b
  {
    forall p ensures p in a <==> p in b {}
    forall p | p in a ensures a[p] == b[p] {}
  }
}
