/** The pure half of the artifact index and service: filters, order, search and paging over the
    records of the index. */
module Listing {
  import opened Sequences
  import opened StableSort
  import opened ArtifactMetadata
  import opened Cursor

  /** An absent criterion is None. `kind` is the source's `type`. */
  datatype ArtifactFilter = ArtifactFilter(
    repositoryId: Option<string>, workflowId: Option<string>, correlationId: Option<string>, kind: Option<string>,
    contentHash: Option<string>, derivedFromArtifactId: Option<string>, supersedesArtifactId: Option<string>,
    tags: seq<string>, createdAfter: Option<int>, createdBefore: Option<int>, olderThanDays: Option<int>,
    limit: Option<int>, cursor: Option<string>)

  const EVERYTHING := ArtifactFilter(None, None, None, None, None, None, None, [], None, None, None, None, None)

  const DEFAULT_LIST_LIMIT := 50

  /** String methods of the platform that the index calls. */
  datatype Words = Words(trim: string -> string, lower: string -> string, compare: (string, string) -> int)

  /** `filter.x && record.x !== filter.x` rejects; an empty text counts as no criterion. */
  predicate Meets(m: Metadata, field: TextField, wanted: Option<string>)
  {
    wanted.Some? && wanted.value != "" ==> m.Has(field, wanted.value)
  }

  predicate Matches(now: int, m: Metadata, f: ArtifactFilter)
  {
    && Meets(m, RepositoryId, f.repositoryId) && Meets(m, WorkflowId, f.workflowId)
    && Meets(m, CorrelationId, f.correlationId) && Meets(m, Kind, f.kind) && Meets(m, ContentHash, f.contentHash)
    && Meets(m, DerivedFromArtifactId, f.derivedFromArtifactId)
    && Meets(m, SupersedesArtifactId, f.supersedesArtifactId)
    && (forall tag :: tag in f.tags ==> tag in m.tags)
    && (f.createdAfter.Some? ==> m.createdAt >= f.createdAfter.value)
    && (f.createdBefore.Some? ==> m.createdAt <= f.createdBefore.value)
    && (f.olderThanDays.Some? ==> now - m.createdAt >= f.olderThanDays.value * 24 * 60 * 60 * 1000)
  }

  function Matching(now: int, f: ArtifactFilter): Metadata -> bool { m => Matches(now, m, f) }

  /** An age limit is a latest creation time, and an empty text is no criterion. */
  lemma OlderThanIsCreatedBefore(now: int, m: Metadata, f: ArtifactFilter, days: int)
    requires f.createdBefore == None && f.olderThanDays == None
    ensures Matches(now, m, f.(olderThanDays := Some(days))) <==>
            Matches(now, m, f.(createdBefore := Some(now - days * 86_400_000)))
    ensures f.repositoryId == None ==> Matches(now, m, f.(repositoryId := Some(""))) == Matches(now, m, f)
  {}

  /** Newest first, then by id. */
  function Compare(w: Words, a: Metadata, b: Metadata): int
  {
    if b.createdAt - a.createdAt != 0 then b.createdAt - a.createdAt else w.compare(a.id, b.id)
  }

  function InOrder(w: Words): (Metadata, Metadata) -> bool { (a, b) => Compare(w, a, b) <= 0 }

  lemma RecordOrder(w: Words)
    requires Collation(w.compare)
    ensures TotalPreorder(InOrder(w))
    ensures forall a, b :: InOrder(w)(a, b) && InOrder(w)(b, a) ==> a.id == b.id
  {
    forall a, b
      ensures InOrder(w)(a, b) || InOrder(w)(b, a)
      ensures InOrder(w)(a, b) && InOrder(w)(b, a) ==> a.id == b.id
    {
      assert w.compare(a.id, b.id) <= 0 <==> w.compare(b.id, a.id) >= 0;
      assert w.compare(b.id, a.id) <= 0 <==> w.compare(a.id, b.id) >= 0;
      assert w.compare(a.id, b.id) == 0 <==> a.id == b.id;
    }
    forall a, b, c | InOrder(w)(a, b) && InOrder(w)(b, c)
      ensures InOrder(w)(a, c)
    {
      assert w.compare(a.id, b.id) <= 0 && w.compare(b.id, c.id) <= 0 ==> w.compare(a.id, c.id) <= 0;
    }
  }

  function Query(w: Words, now: int, records: seq<Metadata>, f: ArtifactFilter): seq<Metadata>
  {
    Filter(Matching(now, f), Sort(InOrder(w), records))
  }

  predicate Includes(text: string, needle: string)
  {
    exists i :: 0 <= i <= |text| && IsAt(text, needle, i)
  }

  predicate IsAt(text: string, needle: string, i: nat)
  {
    i + |needle| <= |text| && text[i..i + |needle|] == needle
  }

  predicate Hit(w: Words, m: Metadata, needle: string)
  {
    || Includes(w.lower(m.TextOf(Title)), needle)
    || exists tag :: tag in m.tags && Includes(w.lower(tag), needle)
  }

  function Hits(w: Words, needle: string): Metadata -> bool { m => Hit(w, m, needle) }

  function Search(w: Words, now: int, records: seq<Metadata>, text: string, f: ArtifactFilter): seq<Metadata>
  {
    var needle := w.lower(w.trim(text));
    var candidates := Query(w, now, records, f);
    if |needle| == 0 then candidates else Filter(Hits(w, needle), candidates)
  }

  // ----- order and paging do not touch the match set -----

  ghost predicate UniqueIds(records: seq<Metadata>)
  {
    forall i, j :: 0 <= i < j < |records| ==> records[i].id != records[j].id
  }

  lemma {:induction false} SortedUniqueIds(w: Words, records: seq<Metadata>)
    requires UniqueIds(records)
    ensures UniqueIds(Sort(InOrder(w), records))
  {
    var sorted := Sort(InOrder(w), records);
    if records != [] {
      var rest := Sort(InOrder(w), records[1..]);
      SortedUniqueIds(w, records[1..]);
      SortPermutes(InOrder(w), records[1..]);
      SameElements(records[1..], rest);
      forall m | m in rest ensures m.id != records[0].id {
        assert m in records[1..];
      }
      InsertUniqueIds(InOrder(w), records[0], rest);
    }
  }

  lemma {:induction false} InsertUniqueIds(leq: (Metadata, Metadata) -> bool, x: Metadata, s: seq<Metadata>)
    requires UniqueIds(s) && forall m :: m in s ==> m.id != x.id
    ensures UniqueIds(Insert(leq, x, s))
  {
    if !(s == [] || leq(x, s[0])) {
      InsertUniqueIds(leq, x, s[1..]);
      InsertPermutes(leq, x, s[1..]);
      forall m | m in Insert(leq, x, s[1..]) ensures m.id != s[0].id {
        assert m in multiset(Insert(leq, x, s[1..]));
        assert m == x || m in s[1..];
      }
    }
  }

  /** Two indexes that hold the same records answer alike, however their maps are ordered. */
  lemma QueryIgnoresMapOrder(w: Words, now: int, a: seq<Metadata>, b: seq<Metadata>, f: ArtifactFilter)
    requires Collation(w.compare) && UniqueIds(a) && UniqueIds(b)
    requires forall m :: m in a <==> m in b
    ensures Query(w, now, a, f) == Query(w, now, b, f)
  {
    RecordOrder(w);
    assert NoDuplicates(a) && NoDuplicates(b);
    assert Elements(a) == Elements(b);
    NoDuplicatesMultiset(a, b);
    forall x, y | x in a && y in a && InOrder(w)(x, y) && InOrder(w)(y, x)
      ensures x == y
    {
      assert x.id == y.id;
    }
    SortIgnoresOrder(InOrder(w), a, b);
  }

  /** A query returns the whole match set, whatever the page asked for. */
  lemma QueryIgnoresPaging(w: Words, now: int, records: seq<Metadata>, f: ArtifactFilter, limit: Option<int>,
                           cursor: Option<string>)
    ensures Query(w, now, records, f.(limit := limit, cursor := cursor)) == Query(w, now, records, f)
  {
    FilterCongruent(Matching(now, f.(limit := limit, cursor := cursor)), Matching(now, f), Sort(InOrder(w), records));
  }

  /** The result holds just the records that match, newest first and then by id. */
  lemma QueryExact(w: Words, now: int, records: seq<Metadata>, f: ArtifactFilter)
    requires Collation(w.compare) && UniqueIds(records)
    ensures forall m :: m in Query(w, now, records, f) <==> m in records && Matches(now, m, f)
    ensures UniqueIds(Query(w, now, records, f)) && Sorted(InOrder(w), Query(w, now, records, f))
    ensures var found := Query(w, now, records, f);
            forall i, j :: 0 <= i < j < |found| ==>
              || found[i].createdAt > found[j].createdAt
              || (found[i].createdAt == found[j].createdAt && w.compare(found[i].id, found[j].id) <= 0)
  {
    RecordOrder(w);
    var sorted := Sort(InOrder(w), records);
    SortPermutes(InOrder(w), records);
    SameElements(records, sorted);
    SortedUniqueIds(w, records);
    SortSorted(InOrder(w), records);
    FilterSorted(InOrder(w), Matching(now, f), sorted);
    FilterUniqueIds(Matching(now, f), sorted);
    InOrderMeans(w, Query(w, now, records, f));
  }

  lemma InOrderMeans(w: Words, found: seq<Metadata>)
    requires Sorted(InOrder(w), found)
    ensures forall i, j :: 0 <= i < j < |found| ==>
              || found[i].createdAt > found[j].createdAt
              || (found[i].createdAt == found[j].createdAt && w.compare(found[i].id, found[j].id) <= 0)
  {
    forall i, j | 0 <= i < j < |found|
      ensures || found[i].createdAt > found[j].createdAt
              || (found[i].createdAt == found[j].createdAt && w.compare(found[i].id, found[j].id) <= 0)
    {
      assert InOrder(w)(found[i], found[j]);
    }
  }

  // ----- what each criterion asks -----

  lemma InQuery(w: Words, now: int, records: seq<Metadata>, f: ArtifactFilter, m: Metadata)
    ensures m in Query(w, now, records, f) <==> m in records && Matches(now, m, f)
  {
    SortPermutes(InOrder(w), records);
    SameElements(records, Sort(InOrder(w), records));
  }

  /** A criterion on a text finds the records with just that text in the field it names; an empty text
      finds all. */
  lemma QueryByOwner(w: Words, now: int, records: seq<Metadata>, m: Metadata, v: string)
    ensures m in Query(w, now, records, EVERYTHING.(repositoryId := Some(v))) <==>
            m in records && (v == "" || (RepositoryId in m.texts && m.texts[RepositoryId] == v))
    ensures m in Query(w, now, records, EVERYTHING.(workflowId := Some(v))) <==>
            m in records && (v == "" || (WorkflowId in m.texts && m.texts[WorkflowId] == v))
    ensures m in Query(w, now, records, EVERYTHING.(correlationId := Some(v))) <==>
            m in records && (v == "" || (CorrelationId in m.texts && m.texts[CorrelationId] == v))
  {
    InQuery(w, now, records, EVERYTHING.(repositoryId := Some(v)), m);
    InQuery(w, now, records, EVERYTHING.(workflowId := Some(v)), m);
    InQuery(w, now, records, EVERYTHING.(correlationId := Some(v)), m);
  }

  lemma QueryByKindAndHash(w: Words, now: int, records: seq<Metadata>, m: Metadata, v: string)
    ensures m in Query(w, now, records, EVERYTHING.(kind := Some(v))) <==>
            m in records && (v == "" || (Kind in m.texts && m.texts[Kind] == v))
    ensures m in Query(w, now, records, EVERYTHING.(contentHash := Some(v))) <==>
            m in records && (v == "" || (ContentHash in m.texts && m.texts[ContentHash] == v))
  {
    InQuery(w, now, records, EVERYTHING.(kind := Some(v)), m);
    InQuery(w, now, records, EVERYTHING.(contentHash := Some(v)), m);
  }

  lemma QueryByOrigin(w: Words, now: int, records: seq<Metadata>, m: Metadata, v: string)
    ensures m in Query(w, now, records, EVERYTHING.(derivedFromArtifactId := Some(v))) <==>
            m in records && (v == "" || (DerivedFromArtifactId in m.texts && m.texts[DerivedFromArtifactId] == v))
    ensures m in Query(w, now, records, EVERYTHING.(supersedesArtifactId := Some(v))) <==>
            m in records && (v == "" || (SupersedesArtifactId in m.texts && m.texts[SupersedesArtifactId] == v))
  {
    InQuery(w, now, records, EVERYTHING.(derivedFromArtifactId := Some(v)), m);
    InQuery(w, now, records, EVERYTHING.(supersedesArtifactId := Some(v)), m);
  }

  /** Tags are all asked for, time limits are inclusive, and an age is counted in days. */
  lemma QueryByTagsAndTime(w: Words, now: int, records: seq<Metadata>, m: Metadata, tags: seq<string>, time: int,
                           days: int)
    ensures m in Query(w, now, records, EVERYTHING.(tags := tags)) <==>
            m in records && forall tag :: tag in tags ==> tag in m.tags
    ensures m in Query(w, now, records, EVERYTHING.(createdAfter := Some(time))) <==>
            m in records && time <= m.createdAt
    ensures m in Query(w, now, records, EVERYTHING.(createdBefore := Some(time))) <==>
            m in records && m.createdAt <= time
    ensures m in Query(w, now, records, EVERYTHING.(olderThanDays := Some(days))) <==>
            m in records && m.createdAt + days * 86_400_000 <= now
  {
    InQuery(w, now, records, EVERYTHING.(tags := tags), m);
    InQuery(w, now, records, EVERYTHING.(createdAfter := Some(time)), m);
    InQuery(w, now, records, EVERYTHING.(createdBefore := Some(time)), m);
    InQuery(w, now, records, EVERYTHING.(olderThanDays := Some(days)), m);
  }

  /** The criteria of a filter, one at a time. */
  function Criteria(f: ArtifactFilter): seq<ArtifactFilter>
  {
    [EVERYTHING.(repositoryId := f.repositoryId), EVERYTHING.(workflowId := f.workflowId),
     EVERYTHING.(correlationId := f.correlationId), EVERYTHING.(kind := f.kind),
     EVERYTHING.(contentHash := f.contentHash), EVERYTHING.(derivedFromArtifactId := f.derivedFromArtifactId),
     EVERYTHING.(supersedesArtifactId := f.supersedesArtifactId), EVERYTHING.(tags := f.tags),
     EVERYTHING.(createdAfter := f.createdAfter), EVERYTHING.(createdBefore := f.createdBefore),
     EVERYTHING.(olderThanDays := f.olderThanDays)]
  }

  /** A filter finds what all of its criteria find, and the empty filter finds everything. */
  lemma QueryIsIntersection(w: Words, now: int, records: seq<Metadata>, f: ArtifactFilter, m: Metadata)
    ensures m in Query(w, now, records, f) <==>
            m in records && forall i :: 0 <= i < |Criteria(f)| ==> m in Query(w, now, records, Criteria(f)[i])
    ensures m in Query(w, now, records, EVERYTHING) <==> m in records
  {
    InQuery(w, now, records, EVERYTHING, m);
    InQuery(w, now, records, f, m);
    MatchesAll(now, m, f);
    forall i | 0 <= i < |Criteria(f)|
      ensures m in Query(w, now, records, Criteria(f)[i]) <==> m in records && Matches(now, m, Criteria(f)[i])
    {
      InQuery(w, now, records, Criteria(f)[i], m);
    }
  }

  lemma MatchesAll(now: int, m: Metadata, f: ArtifactFilter)
    ensures Matches(now, m, f) <==> forall i :: 0 <= i < |Criteria(f)| ==> Matches(now, m, Criteria(f)[i])
  {
    var all := Criteria(f);
    if forall i :: 0 <= i < |all| ==> Matches(now, m, all[i]) {
      EachMatched(now, m, f, all);
    }
    if Matches(now, m, f) {
      TextsMatched(now, m, f, all);
      RestMatched(now, m, f, all);
      forall i | 0 <= i < |all| ensures Matches(now, m, all[i]) {}
    }
  }

  lemma TextsMatched(now: int, m: Metadata, f: ArtifactFilter, all: seq<ArtifactFilter>)
    requires all == Criteria(f) && Matches(now, m, f)
    ensures Matches(now, m, all[0]) && Matches(now, m, all[1]) && Matches(now, m, all[2]) && Matches(now, m, all[3])
    ensures Matches(now, m, all[4]) && Matches(now, m, all[5]) && Matches(now, m, all[6])
  {}

  lemma RestMatched(now: int, m: Metadata, f: ArtifactFilter, all: seq<ArtifactFilter>)
    requires all == Criteria(f) && Matches(now, m, f)
    ensures Matches(now, m, all[7]) && Matches(now, m, all[8]) && Matches(now, m, all[9]) && Matches(now, m, all[10])
  {}

  lemma EachMatched(now: int, m: Metadata, f: ArtifactFilter, all: seq<ArtifactFilter>)
    requires all == Criteria(f) && forall i :: 0 <= i < |all| ==> Matches(now, m, all[i])
    ensures Matches(now, m, f)
  {
    assert Matches(now, m, all[0]) && Matches(now, m, all[1]) && Matches(now, m, all[2]) && Matches(now, m, all[3]);
    assert Matches(now, m, all[4]) && Matches(now, m, all[5]) && Matches(now, m, all[6]) && Matches(now, m, all[7]);
    assert Matches(now, m, all[8]) && Matches(now, m, all[9]) && Matches(now, m, all[10]);
  }

  /** A search keeps of the matching records those that have the needle, trimmed and in lower case, somewhere
      in the title or in a tag in lower case; a blank one keeps all. */
  lemma SearchExact(w: Words, now: int, records: seq<Metadata>, text: string, f: ArtifactFilter, m: Metadata)
    ensures var needle := w.lower(w.trim(text));
            m in Search(w, now, records, text, f) <==>
              && m in Query(w, now, records, f)
              && (|| needle == ""
                  || (exists a, b :: w.lower(m.TextOf(Title)) == a + needle + b)
                  || (exists tag, a, b :: tag in m.tags && w.lower(tag) == a + needle + b))
  {
    var needle := w.lower(w.trim(text));
    IncludesMeans(w.lower(m.TextOf(Title)), needle);
    forall tag | tag in m.tags
      ensures Includes(w.lower(tag), needle) <==> exists a, b :: w.lower(tag) == a + needle + b
    {
      IncludesMeans(w.lower(tag), needle);
    }
  }

  /** String.prototype.includes: the needle has a text before it and a text behind it. */
  lemma IncludesMeans(text: string, needle: string)
    ensures Includes(text, needle) <==> exists a, b :: text == a + needle + b
  {
    if Includes(text, needle) {
      var i :| 0 <= i <= |text| && IsAt(text, needle, i);
      assert text == text[..i] + needle + text[i + |needle|..];
    }
    if a, b :| text == a + needle + b {
      assert text[|a|..|a| + |needle|] == needle;
      assert IsAt(text, needle, |a|);
    }
  }

  lemma {:induction false} FilterSorted(leq: (Metadata, Metadata) -> bool, keep: Metadata -> bool, s: seq<Metadata>)
    requires Sorted(leq, s)
    ensures Sorted(leq, Filter(keep, s))
  {
    if s != [] {
      FilterSorted(leq, keep, s[1..]);
      forall m | m in Filter(keep, s[1..]) ensures leq(s[0], m) {
        assert m in s[1..];
      }
    }
  }

  lemma {:induction false} FilterUniqueIds(keep: Metadata -> bool, s: seq<Metadata>)
    requires UniqueIds(s)
    ensures UniqueIds(Filter(keep, s))
  {
    if s != [] {
      FilterUniqueIds(keep, s[1..]);
      forall m | m in Filter(keep, s[1..]) ensures s[0].id != m.id {
        assert m in s[1..];
      }
    }
  }

  // ----- paging -----

  datatype Summary = Summary(id: string, title: string, kind: string, size: nat, createdAt: int, tags: seq<string>)

  function ToSummary(m: Metadata): Summary
  {
    Summary(m.id, m.TextOf(Title), m.TextOf(Kind), m.size, m.createdAt, m.tags)
  }

  datatype Page = Page(items: seq<Summary>, total: nat, cursor: Option<string>)

  /** Array.prototype.slice on whole numbers. */
  function Slice<T>(s: seq<T>, start: int, end: int): seq<T>
  {
    var from := Clamp(start, |s|);
    var to := Clamp(end, |s|);
    if from < to then s[from..to] else []
  }

  function Clamp(i: int, n: nat): (r: nat)
    ensures r <= n
  {
    if i < 0 then (if n + i < 0 then 0 else n + i) else if i < n then i else n
  }

  function Limit(f: ArtifactFilter): int { if f.limit.Some? then f.limit.value else DEFAULT_LIST_LIMIT }

  /** How offsets travel as cursors. */
  datatype Codec = Codec(encode: nat -> string, decode: Option<string> -> nat)

  ghost predicate RoundTrips(c: Codec)
  {
    c.decode(None) == 0 && forall n: nat :: c.decode(Some(c.encode(n))) == n
  }

  function CursorCodec(p: Platform): Codec { Codec((n: nat) => EncodeCursor(n), text => DecodeCursor(p, text)) }

  lemma CursorsRoundTrip(p: Platform)
    requires Conforming(p)
    ensures RoundTrips(CursorCodec(p))
  {
    forall n: nat ensures DecodeCursor(p, Some(EncodeCursor(n))) == n { CursorRoundTrip(p, n); }
  }

  function Paginate(c: Codec, records: seq<Metadata>, f: ArtifactFilter): Page
  {
    var offset := c.decode(f.cursor);
    var page := Slice(records, offset, offset + Limit(f));
    var next := offset + |page|;
    Page(Map(ToSummary, page), |records|, if next < |records| then Some(c.encode(next)) else None)
  }

  function List(c: Codec, w: Words, now: int, records: seq<Metadata>, f: ArtifactFilter): Page
  {
    Paginate(c, Query(w, now, records, f), f)
  }

  function SearchList(c: Codec, w: Words, now: int, records: seq<Metadata>, text: string, f: ArtifactFilter): Page
  {
    Paginate(c, Search(w, now, records, text, f), f)
  }

  /** The entries of a page from an offset on, each with the fields of its record, as many as the limit
      allows. */
  ghost predicate ShowsPart(page: Page, found: seq<Metadata>, offset: nat, limit: int)
  {
    var left := if offset < |found| then |found| - offset else 0;
    && page.total == |found|
    && (limit >= 0 ==>
          && |page.items| == (if limit < left then limit else left)
          && forall i :: 0 <= i < |page.items| ==>
               var item, m := page.items[i], found[offset + i];
               && item.id == m.id && item.size == m.size && item.createdAt == m.createdAt && item.tags == m.tags
               && (Title in m.texts ==> item.title == m.texts[Title])
               && (Kind in m.texts ==> item.kind == m.texts[Kind]))
  }

  /** Without a limit a page holds fifty entries, without a cursor it begins with the first. */
  lemma PageShows(c: Codec, w: Words, now: int, records: seq<Metadata>, text: string, f: ArtifactFilter)
    ensures var limit := if f.limit == None then 50 else f.limit.value;
            && ShowsPart(List(c, w, now, records, f), Query(w, now, records, f), c.decode(f.cursor), limit)
            && ShowsPart(SearchList(c, w, now, records, text, f), Search(w, now, records, text, f),
                         c.decode(f.cursor), limit)
  {
    PaginateShows(c, Query(w, now, records, f), f);
    PaginateShows(c, Search(w, now, records, text, f), f);
  }

  lemma PaginateShows(c: Codec, found: seq<Metadata>, f: ArtifactFilter)
    ensures ShowsPart(Paginate(c, found, f), found, c.decode(f.cursor), if f.limit == None then 50 else f.limit.value)
  {
    var offset := c.decode(f.cursor);
    var part := Slice(found, offset, offset + Limit(f));
    forall i | 0 <= i < |part| && Limit(f) >= 0 ensures part[i] == found[offset + i] {}
  }
}
