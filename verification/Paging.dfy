/** Walking through the pages of a list or a search by their cursors, while time passes between the calls. */
module Paging {
  import opened Sequences
  import opened StableSort
  import opened ArtifactMetadata
  import opened Listing
  import opened Turns

  // ----- what a call finds at its time -----

  predicate IsOld(now: int, days: Option<int>, m: Metadata)
  {
    days.Some? ==> now - m.createdAt >= days.value * 24 * 60 * 60 * 1000
  }

  function OldEnough(now: int, days: Option<int>): Metadata -> bool { m => IsOld(now, days, m) }

  /** Those of the records that meet the age limit by now. */
  function Aged(now: int, days: Option<int>, all: seq<Metadata>): seq<Metadata>
  {
    Filter(OldEnough(now, days), all)
  }

  ghost predicate NewestFirst(all: seq<Metadata>)
  {
    forall i, j :: 0 <= i < j < |all| ==> all[i].createdAt >= all[j].createdAt
  }

  function Ageless(f: ArtifactFilter): ArtifactFilter { f.(olderThanDays := None) }

  lemma MatchesByAge(now: int, m: Metadata, f: ArtifactFilter)
    ensures Matches(now, m, f) <==> IsOld(now, f.olderThanDays, m) && Matches(0, m, Ageless(f))
  {}

  /** A query finds those that are old enough of what it finds without its age limit. */
  lemma QueryByAge(w: Words, now: int, records: seq<Metadata>, f: ArtifactFilter)
    ensures Query(w, now, records, f) == Aged(now, f.olderThanDays, Query(w, 0, records, Ageless(f)))
  {
    forall m { MatchesByAge(now, m, f); }
    FilterFilter(OldEnough(now, f.olderThanDays), Matching(0, Ageless(f)), Matching(now, f), Sort(InOrder(w), records));
  }

  lemma QueryNewestFirst(w: Words, now: int, records: seq<Metadata>, f: ArtifactFilter)
    requires Collation(w.compare)
    ensures NewestFirst(Query(w, now, records, f))
  {
    RecordOrder(w);
    SortSorted(InOrder(w), records);
    FilterSorted(InOrder(w), Matching(now, f), Sort(InOrder(w), records));
    SortedIsNewestFirst(w, Query(w, now, records, f));
  }

  lemma SortedIsNewestFirst(w: Words, s: seq<Metadata>)
    requires Sorted(InOrder(w), s)
    ensures NewestFirst(s)
  {
    forall i, j | 0 <= i < j < |s| ensures s[i].createdAt >= s[j].createdAt
    {
      assert InOrder(w)(s[i], s[j]);
    }
  }

  /** And so does a search. */
  lemma SearchByAge(w: Words, now: int, records: seq<Metadata>, text: string, f: ArtifactFilter)
    ensures Search(w, now, records, text, f) == Aged(now, f.olderThanDays, Search(w, 0, records, text, Ageless(f)))
  {
    QueryByAge(w, now, records, f);
    FiltersCommute(Hits(w, w.lower(w.trim(text))), OldEnough(now, f.olderThanDays), Query(w, 0, records, Ageless(f)));
  }

  lemma SearchNewestFirst(w: Words, now: int, records: seq<Metadata>, text: string, f: ArtifactFilter)
    requires Collation(w.compare)
    ensures NewestFirst(Search(w, now, records, text, f))
  {
    QueryNewestFirst(w, now, records, f);
    FilterNewestFirst(Hits(w, w.lower(w.trim(text))), Query(w, now, records, f));
  }

  lemma FiltersCommute(p: Metadata -> bool, q: Metadata -> bool, s: seq<Metadata>)
    ensures Filter(p, Filter(q, s)) == Filter(q, Filter(p, s))
  {
    var both := (m: Metadata) => p(m) && q(m);
    FilterFilter(p, q, both, s);
    FilterFilter(q, p, both, s);
  }

  lemma {:induction false} FilterNewestFirst(keep: Metadata -> bool, s: seq<Metadata>)
    requires NewestFirst(s)
    ensures NewestFirst(Filter(keep, s))
  {
    if s != [] {
      FilterNewestFirst(keep, s[1..]);
      forall m | m in Filter(keep, s[1..]) ensures s[0].createdAt >= m.createdAt {
        assert m in s[1..];
      }
    }
  }

  // ----- calls -----

  /** A call of list or search for some filter: its time and cursor give a page. */
  type Service = (int, Option<string>) -> Page

  function ListCalls(c: Codec, w: Words, records: seq<Metadata>, f: ArtifactFilter): Service
  {
    (now, cursor) => List(c, w, now, records, f.(cursor := cursor))
  }

  function SearchCalls(c: Codec, w: Words, records: seq<Metadata>, text: string, f: ArtifactFilter): Service
  {
    (now, cursor) => SearchList(c, w, now, records, text, f.(cursor := cursor))
  }

  function Summaries(list: seq<Metadata>): seq<Summary> { Map(ToSummary, list) }

  /** The page is a turn at the list: it holds the next `limit` entries and points past them while any are
      left. */
  ghost predicate IsPage(c: Codec, page: Page, list: seq<Summary>, limit: nat, cursor: Option<string>)
  {
    var offset := c.decode(cursor);
    && page.total == |list| && page.items == Turn(list, limit, offset)
    && (page.cursor.Some? <==> offset + limit < |list|)
    && (page.cursor.Some? ==> c.decode(page.cursor) == offset + limit)
  }

  /** The calls give the pages of those of `all`, newest first, that are old enough at the time. */
  ghost predicate Serves(c: Codec, call: Service, limit: nat, days: Option<int>, all: seq<Metadata>)
  {
    && limit >= 1 && c.decode(None) == 0 && NewestFirst(all)
    && forall now, cursor :: IsPage(c, call(now, cursor), Summaries(Aged(now, days, all)), limit, cursor)
  }

  lemma PageOf(c: Codec, list: seq<Metadata>, f: ArtifactFilter, cursor: Option<string>)
    requires RoundTrips(c) && Limit(f) >= 1
    ensures IsPage(c, Paginate(c, list, f.(cursor := cursor)), Summaries(list), Limit(f), cursor)
  {
    SliceTurn(list, Limit(f), c.decode(cursor));
  }

  lemma SliceTurn(list: seq<Metadata>, limit: nat, offset: nat)
    requires limit >= 1
    ensures Map(ToSummary, Slice(list, offset, offset + limit)) == Turn(Summaries(list), limit, offset)
    ensures offset + limit < |list| ==> |Slice(list, offset, offset + limit)| == limit
    ensures offset + |Slice(list, offset, offset + limit)| < |list| <==> offset + limit < |list|
  {
    if offset + limit >= |list| && offset < |list| {
      assert Slice(list, offset, offset + limit) == list[offset..];
    }
  }

  /** Calls of list are such calls, and `all` is what its query finds but for the age limit. */
  lemma ListServes(c: Codec, w: Words, records: seq<Metadata>, f: ArtifactFilter)
    requires RoundTrips(c) && Limit(f) >= 1 && Collation(w.compare)
    ensures Serves(c, ListCalls(c, w, records, f), Limit(f), f.olderThanDays, Query(w, 0, records, Ageless(f)))
  {
    var all := Query(w, 0, records, Ageless(f));
    QueryNewestFirst(w, 0, records, Ageless(f));
    forall now, cursor
      ensures IsPage(c, ListCalls(c, w, records, f)(now, cursor), Summaries(Aged(now, f.olderThanDays, all)),
                     Limit(f), cursor)
    {
      QueryIgnoresPaging(w, now, records, f, f.limit, cursor);
      QueryByAge(w, now, records, f);
      PageOf(c, Query(w, now, records, f), f, cursor);
    }
  }

  /** And so are calls of search. */
  lemma SearchServes(c: Codec, w: Words, records: seq<Metadata>, text: string, f: ArtifactFilter)
    requires RoundTrips(c) && Limit(f) >= 1 && Collation(w.compare)
    ensures Serves(c, SearchCalls(c, w, records, text, f), Limit(f), f.olderThanDays,
                   Search(w, 0, records, text, Ageless(f)))
  {
    var all := Search(w, 0, records, text, Ageless(f));
    SearchNewestFirst(w, 0, records, text, Ageless(f));
    forall now, cursor
      ensures IsPage(c, SearchCalls(c, w, records, text, f)(now, cursor), Summaries(Aged(now, f.olderThanDays, all)),
                     Limit(f), cursor)
    {
      QueryIgnoresPaging(w, now, records, f, f.limit, cursor);
      SearchByAge(w, now, records, text, f);
      PageOf(c, Search(w, now, records, text, f), f, cursor);
    }
  }

  // ----- the walk -----

  /** The pages a caller sees who follows the cursors, from some cursor on, until there is none. Every call
      reads the clock anew: `clock(i)` is the time of the i-th. */
  ghost function Walk(c: Codec, call: Service, limit: nat, days: Option<int>, all: seq<Metadata>, clock: nat -> int,
                      cursor: Option<string>, i: nat): seq<Page>
    requires Serves(c, call, limit, days, all)
    decreases |all| - c.decode(cursor)
  {
    var page := call(clock(i), cursor);
    assert IsPage(c, page, Summaries(Aged(clock(i), days, all)), limit, cursor);
    if page.cursor.None? then [page]
    else [page] + Walk(c, call, limit, days, all, clock, page.cursor, i + 1)
  }

  function Items(pages: seq<Page>): seq<Summary>
  {
    if pages == [] then [] else pages[0].items + Items(pages[1..])
  }

  /** What is found at the time of each call, as the pages show it. */
  function Found(clock: nat -> int, days: Option<int>, all: seq<Metadata>): nat -> seq<Summary>
  {
    (i: nat) => Summaries(Aged(clock(i), days, all))
  }

  lemma FoundBounded(clock: nat -> int, days: Option<int>, all: seq<Metadata>)
    ensures Bounded(Found(clock, days, all), |all|)
  {
    forall i: nat ensures |Found(clock, days, all)(i)| <= |all|
    {
      assert |Aged(clock(i), days, all)| <= |all|;
    }
  }

  /** The pages are turns at the lists, from the i-th on. */
  ghost predicate AreTurns(pages: seq<Page>, lists: nat -> seq<Summary>, turns: seq<seq<Summary>>, i: nat)
  {
    if pages == [] || turns == [] then pages == [] && turns == []
    else
      && pages[0].items == turns[0] && pages[0].total == |lists(i)|
      && AreTurns(pages[1..], lists, turns[1..], i + 1)
  }

  lemma {:induction false} TurnsAddUp(pages: seq<Page>, lists: nat -> seq<Summary>, turns: seq<seq<Summary>>, i: nat)
    requires AreTurns(pages, lists, turns, i)
    ensures |pages| == |turns| && Items(pages) == Flatten(turns)
  {
    if pages != [] {
      TurnsAddUp(pages[1..], lists, turns[1..], i + 1);
    }
  }

  lemma {:induction false} TurnTotal(pages: seq<Page>, lists: nat -> seq<Summary>, turns: seq<seq<Summary>>, i: nat,
                                     k: nat)
    requires AreTurns(pages, lists, turns, i) && k < |pages|
    ensures pages[k].total == |lists(i + k)|
  {
    if k > 0 {
      TurnTotal(pages[1..], lists, turns[1..], i + 1, k - 1);
    }
  }

  /** The pages are the turns from an offset on, as long as there is more. */
  ghost predicate PagesFrom(pages: seq<Page>, lists: nat -> seq<Summary>, limit: nat, offset: nat, i: nat)
  {
    && pages != [] && pages[0].items == Turn(lists(i), limit, offset) && pages[0].total == |lists(i)|
    && if offset + limit >= |lists(i)| then pages[1..] == []
       else PagesFrom(pages[1..], lists, limit, offset + limit, i + 1)
  }

  lemma OnlyPage(c: Codec, page: Page, pages: seq<Page>, lists: nat -> seq<Summary>, limit: nat,
                 cursor: Option<string>, i: nat)
    requires IsPage(c, page, lists(i), limit, cursor) && page.cursor == None && pages == [page]
    ensures PagesFrom(pages, lists, limit, c.decode(cursor), i)
  {
    assert [page][1..] == [];
  }

  lemma MorePages(c: Codec, page: Page, rest: seq<Page>, pages: seq<Page>, lists: nat -> seq<Summary>, limit: nat,
                  cursor: Option<string>, i: nat)
    requires IsPage(c, page, lists(i), limit, cursor) && page.cursor.Some? && pages == [page] + rest
    requires PagesFrom(rest, lists, limit, c.decode(page.cursor), i + 1)
    ensures PagesFrom(pages, lists, limit, c.decode(cursor), i)
  {
    assert ([page] + rest)[1..] == rest;
  }

  lemma ServedAt(c: Codec, call: Service, limit: nat, days: Option<int>, all: seq<Metadata>, clock: nat -> int,
                 cursor: Option<string>, i: nat)
    requires Serves(c, call, limit, days, all)
    ensures IsPage(c, call(clock(i), cursor), Found(clock, days, all)(i), limit, cursor)
  {}

  lemma {:induction false} WalkIsPages(c: Codec, call: Service, limit: nat, days: Option<int>, all: seq<Metadata>,
                                       clock: nat -> int, cursor: Option<string>, i: nat)
    requires Serves(c, call, limit, days, all)
    ensures PagesFrom(Walk(c, call, limit, days, all, clock, cursor, i), Found(clock, days, all), limit,
                      c.decode(cursor), i)
    decreases |all| - c.decode(cursor)
  {
    var page := call(clock(i), cursor);
    ServedAt(c, call, limit, days, all, clock, cursor, i);
    if page.cursor.Some? {
      WalkIsPages(c, call, limit, days, all, clock, page.cursor, i + 1);
    }
    WalkStep(c, call, limit, days, all, clock, cursor, i, page, Found(clock, days, all));
  }

  lemma WalkStep(c: Codec, call: Service, limit: nat, days: Option<int>, all: seq<Metadata>, clock: nat -> int,
                 cursor: Option<string>, i: nat, page: Page, lists: nat -> seq<Summary>)
    requires Serves(c, call, limit, days, all) && page == call(clock(i), cursor)
    requires IsPage(c, page, lists(i), limit, cursor)
    requires page.cursor.Some? ==> PagesFrom(Walk(c, call, limit, days, all, clock, page.cursor, i + 1), lists, limit,
                                             c.decode(page.cursor), i + 1)
    ensures PagesFrom(Walk(c, call, limit, days, all, clock, cursor, i), lists, limit, c.decode(cursor), i)
  {
    var pages := Walk(c, call, limit, days, all, clock, cursor, i);
    if page.cursor.None? {
      OnlyPage(c, page, pages, lists, limit, cursor, i);
    } else {
      MorePages(c, page, pages[1..], pages, lists, limit, cursor, i);
    }
  }

  lemma {:induction false} PagesAreTurns(pages: seq<Page>, lists: nat -> seq<Summary>, limit: nat, bound: nat,
                                         offset: nat, i: nat)
    requires limit >= 1 && Bounded(lists, bound) && PagesFrom(pages, lists, limit, offset, i)
    ensures AreTurns(pages, lists, TakeTurns(lists, limit, bound, offset, i), i)
    decreases |pages|
  {
    var turns := TakeTurns(lists, limit, bound, offset, i);
    assert pages == [pages[0]] + pages[1..];
    if offset + limit >= |lists(i)| {
      OneTurn(pages[0], lists, i, pages, turns);
    } else {
      PagesAreTurns(pages[1..], lists, limit, bound, offset + limit, i + 1);
      MoreTurns(pages[0], pages[1..], lists, TakeTurns(lists, limit, bound, offset + limit, i + 1), i, pages, turns);
    }
  }

  lemma OneTurn(page: Page, lists: nat -> seq<Summary>, i: nat, pages: seq<Page>, turns: seq<seq<Summary>>)
    requires page.total == |lists(i)| && pages == [page] && turns == [page.items]
    ensures AreTurns(pages, lists, turns, i)
  {
    assert pages[1..] == [] && turns[1..] == [];
  }

  lemma MoreTurns(page: Page, rest: seq<Page>, lists: nat -> seq<Summary>, later: seq<seq<Summary>>, i: nat,
                  pages: seq<Page>, turns: seq<seq<Summary>>)
    requires page.total == |lists(i)| && AreTurns(rest, lists, later, i + 1)
    requires pages == [page] + rest && turns == [page.items] + later
    ensures AreTurns(pages, lists, turns, i)
  {
    assert pages[1..] == rest && turns[1..] == later;
  }

  /** A walk from the first page. */
  lemma WalkOfFound(c: Codec, call: Service, limit: nat, days: Option<int>, all: seq<Metadata>, clock: nat -> int)
    requires Serves(c, call, limit, days, all)
    ensures var lists := Found(clock, days, all);
            && Bounded(lists, |all|) && lists(0) == Summaries(Aged(clock(0), days, all))
            && AreTurns(Walk(c, call, limit, days, all, clock, None, 0), lists, TakeTurns(lists, limit, |all|, 0, 0), 0)
            && Items(Walk(c, call, limit, days, all, clock, None, 0)) == Flatten(TakeTurns(lists, limit, |all|, 0, 0))
            && |Walk(c, call, limit, days, all, clock, None, 0)| == |TakeTurns(lists, limit, |all|, 0, 0)|
  {
    var lists := Found(clock, days, all);
    FoundBounded(clock, days, all);
    WalkIsPages(c, call, limit, days, all, clock, None, 0);
    PagesAreTurns(Walk(c, call, limit, days, all, clock, None, 0), lists, limit, |all|, 0, 0);
    TurnsAddUp(Walk(c, call, limit, days, all, clock, None, 0), lists, TakeTurns(lists, limit, |all|, 0, 0), 0);
    assert Aged(clock(0), days, all) == Aged(clock(0), days, all);
  }

  // ----- time passes -----

  /** What is found is the same at each of the first `n` calls. */
  ghost predicate SameFound(clock: nat -> int, days: Option<int>, all: seq<Metadata>, n: nat)
  {
    var lists := Found(clock, days, all);
    forall i :: 0 <= i < n ==> lists(i) == lists(0)
  }

  /** Without an age limit it is, whatever the clock does. */
  lemma SameWithoutAgeLimit(clock: nat -> int, days: Option<int>, all: seq<Metadata>, n: nat)
    requires days == None
    ensures SameFound(clock, days, all, n)
  {
    var lists := Found(clock, days, all);
    forall i | 0 <= i < n
      ensures lists(i) == lists(0)
    {
      FilterCongruent(OldEnough(clock(i), None), OldEnough(clock(0), None), all);
    }
  }

  /** With time more records come of age, and they are newer than all that were: they go in front. */
  lemma {:induction false} LaterFinds(early: int, late: int, days: Option<int>, all: seq<Metadata>)
    requires early <= late && NewestFirst(all)
    ensures Suffix(Aged(early, days, all), Aged(late, days, all))
  {
    if all != [] {
      LaterFinds(early, late, days, all[1..]);
      if IsOld(early, days, all[0]) {
        forall m | m in all[1..] ensures OldEnough(early, days)(m) == OldEnough(late, days)(m) {}
        FilterCongruent(OldEnough(early, days), OldEnough(late, days), all[1..]);
      } else {
        SuffixBehind(Aged(early, days, all), Aged(late, days, all[1..]), all[0]);
      }
    }
  }

  lemma SuffixBehind<T>(a: seq<T>, b: seq<T>, x: T)
    requires Suffix(a, b)
    ensures Suffix(a, [x] + b)
  {}

  lemma SummariesSuffix(a: seq<Metadata>, b: seq<Metadata>)
    requires Suffix(a, b)
    ensures Suffix(Summaries(a), Summaries(b))
  {
    assert Summaries(b)[|b| - |a|..] == Summaries(b[|b| - |a|..]);
  }

  lemma FoundNested(now: int, other: int, days: Option<int>, all: seq<Metadata>)
    requires NewestFirst(all)
    ensures Nested(Summaries(Aged(now, days, all)), Summaries(Aged(other, days, all)))
  {
    if now <= other {
      LaterFinds(now, other, days, all);
      SummariesSuffix(Aged(now, days, all), Aged(other, days, all));
    } else {
      LaterFinds(other, now, days, all);
      SummariesSuffix(Aged(other, days, all), Aged(now, days, all));
    }
  }

  lemma AsManyMeansTheSame<T>(a: seq<T>, b: seq<T>)
    requires Nested(a, b) && |a| == |b|
    ensures a == b
  {}

  /** Following cursors from the first page, while what is found stays the same, shows all of it once, in
      order, in as few pages as the limit allows. It stays the same exactly if every page reports the
      same total. */
  lemma WalkShowsEverything(c: Codec, call: Service, limit: nat, days: Option<int>, all: seq<Metadata>,
                            clock: nat -> int)
    requires Serves(c, call, limit, days, all)
    ensures var first, pages := Aged(clock(0), days, all), Walk(c, call, limit, days, all, clock, None, 0);
            && ((forall i :: 0 <= i < |pages| ==> pages[i].total == |first|) <==> SameFound(clock, days, all, |pages|))
            && (SameFound(clock, days, all, |pages|) ==>
                  Items(pages) == Summaries(first) && |pages| == PagesFor(|first|, limit))
  {
    var lists := Found(clock, days, all);
    WalkOfFound(c, call, limit, days, all, clock);
    forall i: nat | |lists(i)| == |lists(0)|
      ensures lists(i) == lists(0)
    {
      FoundNested(clock(i), clock(0), days, all);
      AsManyMeansTheSame(lists(i), lists(0));
    }
    TurnsShow(Walk(c, call, limit, days, all, clock, None, 0), lists, limit, |all|);
  }

  lemma TurnsShow(pages: seq<Page>, lists: nat -> seq<Summary>, limit: nat, bound: nat)
    requires limit >= 1 && Bounded(lists, bound) && AreTurns(pages, lists, TakeTurns(lists, limit, bound, 0, 0), 0)
    requires forall i: nat :: |lists(i)| == |lists(0)| ==> lists(i) == lists(0)
    ensures var same := forall i :: 0 <= i < |pages| ==> lists(i) == lists(0);
            && ((forall i :: 0 <= i < |pages| ==> pages[i].total == |lists(0)|) <==> same)
            && (same ==> Items(pages) == lists(0) && |pages| == PagesFor(|lists(0)|, limit))
  {
    TurnsAddUp(pages, lists, TakeTurns(lists, limit, bound, 0, 0), 0);
    TurnTotals(pages, lists, TakeTurns(lists, limit, bound, 0, 0));
    if forall i :: 0 <= i < |pages| ==> lists(i) == lists(0) {
      TurnsOfOneList(lists, limit, bound, lists(0), 0, 0);
      assert lists(0)[0..] == lists(0);
    }
  }

  // ----- nothing is missed -----

  ghost predicate NeverBack(clock: nat -> int) { forall i: nat, j: nat :: i <= j ==> clock(i) <= clock(j) }

  /** Whatever time passes between the calls, as long as the clock does not go back: every record that was
      found when the walk began is shown. */
  lemma WalkMissesNothing(c: Codec, call: Service, limit: nat, days: Option<int>, all: seq<Metadata>, clock: nat -> int)
    requires Serves(c, call, limit, days, all) && NeverBack(clock)
    ensures forall m :: m in Aged(clock(0), days, all) ==>
                          ToSummary(m) in Items(Walk(c, call, limit, days, all, clock, None, 0))
  {
    var lists, first := Found(clock, days, all), Aged(clock(0), days, all);
    WalkOfFound(c, call, limit, days, all, clock);
    forall j: nat ensures GrowsAt(lists, j)
    {
      LaterFinds(clock(j), clock(j + 1), days, all);
      SummariesSuffix(Aged(clock(j), days, all), Aged(clock(j + 1), days, all));
    }
    forall m | m in first
      ensures ToSummary(m) in Flatten(TakeTurns(lists, limit, |all|, 0, 0))
    {
      var k :| 0 <= k < |first| && first[k] == m;
      NothingSkipped(lists, limit, |all|, 0, 0, k);
    }
  }

  // ----- walks that show what was found -----

  /** The items of the walk are what was found at its beginning. */
  ghost predicate ShowsBeginning(c: Codec, call: Service, limit: nat, days: Option<int>, all: seq<Metadata>,
                                 clock: nat -> int)
    requires Serves(c, call, limit, days, all)
  {
    Items(Walk(c, call, limit, days, all, clock, None, 0)) == Summaries(Aged(clock(0), days, all))
  }

  lemma SummariesDistinct(list: seq<Metadata>)
    requires UniqueIds(list)
    ensures NoDuplicates(Summaries(list))
  {
    forall i, j | 0 <= i < j < |list| ensures Summaries(list)[i] != Summaries(list)[j]
    {
      assert list[i].id != list[j].id;
    }
  }

  lemma FoundComparable(clock: nat -> int, days: Option<int>, all: seq<Metadata>, i: nat, j: nat)
    requires NewestFirst(all) && UniqueIds(all)
    ensures Comparable(Found(clock, days, all)(i), Found(clock, days, all)(j))
  {
    FilterUniqueIds(OldEnough(clock(i), days), all);
    FilterUniqueIds(OldEnough(clock(j), days), all);
    SummariesDistinct(Aged(clock(i), days, all));
    SummariesDistinct(Aged(clock(j), days, all));
    FoundNested(clock(i), clock(j), days, all);
  }

  /** They are, in order without gap or repeat, if and only if what is found stays the same. */
  lemma WalkExactIff(c: Codec, call: Service, limit: nat, days: Option<int>, all: seq<Metadata>, clock: nat -> int)
    requires Serves(c, call, limit, days, all) && UniqueIds(all)
    ensures ShowsBeginning(c, call, limit, days, all, clock) <==>
            SameFound(clock, days, all, |Walk(c, call, limit, days, all, clock, None, 0)|)
  {
    var lists := Found(clock, days, all);
    WalkOfFound(c, call, limit, days, all, clock);
    WalkShowsEverything(c, call, limit, days, all, clock);
    if ShowsBeginning(c, call, limit, days, all, clock) {
      forall k: nat ensures Comparable(lists(k), lists(0)) { FoundComparable(clock, days, all, k, 0); }
      ExactTurnsTell(lists, limit, |all|);
    }
  }

  lemma ExactTurnsTell(lists: nat -> seq<Summary>, limit: nat, bound: nat)
    requires limit >= 1 && Bounded(lists, bound) && AllComparable(lists, lists(0))
    requires Flatten(TakeTurns(lists, limit, bound, 0, 0)) == lists(0)
    ensures forall j :: 0 <= j < |TakeTurns(lists, limit, bound, 0, 0)| ==> lists(j) == lists(0)
  {
    assert lists(0)[0..] == lists(0);
    forall j | 0 <= j < |TakeTurns(lists, limit, bound, 0, 0)|
      ensures lists(j) == lists(0)
    {
      TurnsTell(lists, limit, bound, lists(0), 0, 0, TakeTurns(lists, limit, bound, 0, 0), j);
      assert 0 + j == j;
    }
  }

  /** What a caller can check before the walk: there is no age limit, or all that the filter finds but for
      it fits on one page, or all but one page of it came at the same time as the newest. */
  predicate Settled(all: seq<Metadata>, limit: nat, days: Option<int>)
    requires limit >= 1
  {
    || days == None || |all| <= limit
    || all[|all| - 1 - limit].createdAt == all[0].createdAt
  }

  /** Those that are old enough come last. */
  lemma {:induction false} AgedIsTail(now: int, days: Option<int>, all: seq<Metadata>) returns (k: nat)
    requires NewestFirst(all)
    ensures k <= |all| && Aged(now, days, all) == all[k..]
    ensures forall j :: 0 <= j < |all| ==> (IsOld(now, days, all[j]) <==> k <= j)
  {
    if all == [] {
      k := 0;
    } else {
      var rest := AgedIsTail(now, days, all[1..]);
      if IsOld(now, days, all[0]) {
        k := 0;
        FilterAll(OldEnough(now, days), all);
      } else {
        k := rest + 1;
        assert all[1..][rest..] == all[k..];
      }
      forall j | 0 <= j < |all| ensures IsOld(now, days, all[j]) <==> k <= j
      {
        assert j > 0 ==> all[j] == all[1..][j - 1];
      }
    }
  }

  /** The walk is over after the first page exactly if that has room for what is found. */
  lemma OnePage(c: Codec, call: Service, limit: nat, days: Option<int>, all: seq<Metadata>, clock: nat -> int)
    requires Serves(c, call, limit, days, all)
    ensures |Walk(c, call, limit, days, all, clock, None, 0)| == 1 <==> |Aged(clock(0), days, all)| <= limit
  {
    WalkOfFound(c, call, limit, days, all, clock);
  }

  lemma SettledStays(c: Codec, call: Service, limit: nat, days: Option<int>, all: seq<Metadata>, clock: nat -> int)
    requires Serves(c, call, limit, days, all)
    requires Settled(all, limit, days) && NeverBack(clock)
    ensures SameFound(clock, days, all, |Walk(c, call, limit, days, all, clock, None, 0)|)
  {
    var lists := Found(clock, days, all);
    OnePage(c, call, limit, days, all, clock);
    if days == None {
      SameWithoutAgeLimit(clock, days, all, |Walk(c, call, limit, days, all, clock, None, 0)|);
    } else if |lists(0)| > limit {
      forall i: nat ensures lists(i) == Summaries(all) { AllOfAge(all, limit, days, clock(0), clock(i)); }
    }
  }

  /** When more than a page of settled records is of age, all are and stay so. */
  lemma AllOfAge(all: seq<Metadata>, limit: nat, days: Option<int>, now: int, later: int)
    requires limit >= 1 && NewestFirst(all) && days.Some? && Settled(all, limit, days) && now <= later
    requires |Aged(now, days, all)| > limit
    ensures Aged(later, days, all) == all
  {
    var k := AgedIsTail(now, days, all);
    assert IsOld(now, days, all[|all| - 1 - limit]);
    forall j | 0 <= j < |all| ensures IsOld(later, days, all[j])
    {
      assert all[0].createdAt >= all[j].createdAt;
    }
    FilterAll(OldEnough(later, days), all);
  }

  /** A clock under which an unsettled list changes after the first page: first just enough records for a
      second page are of age, then all are. */
  function Unsettling(all: seq<Metadata>, limit: nat, days: Option<int>): nat -> int
    requires limit >= 1 && !Settled(all, limit, days)
  {
    (i: nat) =>
      (if i == 0 then all[|all| - 1 - limit].createdAt else all[0].createdAt)
      + days.value * 24 * 60 * 60 * 1000
  }

  lemma UnsettledMoves(c: Codec, call: Service, limit: nat, days: Option<int>, all: seq<Metadata>)
    requires Serves(c, call, limit, days, all) && !Settled(all, limit, days)
    ensures NeverBack(Unsettling(all, limit, days))
    ensures var clock := Unsettling(all, limit, days);
            !SameFound(clock, days, all, |Walk(c, call, limit, days, all, clock, None, 0)|)
  {
    var clock := Unsettling(all, limit, days);
    UnsettlingNeverBack(all, limit, days);
    UnsettlingCounts(all, limit, days);
    OnePage(c, call, limit, days, all, clock);
    WalkOfFound(c, call, limit, days, all, clock);
    var lists := Found(clock, days, all);
    assert |lists(0)| < |lists(1)|;
  }

  lemma UnsettlingNeverBack(all: seq<Metadata>, limit: nat, days: Option<int>)
    requires limit >= 1 && NewestFirst(all) && !Settled(all, limit, days)
    ensures NeverBack(Unsettling(all, limit, days))
  {
    assert all[0].createdAt >= all[|all| - 1 - limit].createdAt;
  }

  /** More than a page at first, and more at the next call. */
  lemma UnsettlingCounts(all: seq<Metadata>, limit: nat, days: Option<int>)
    requires limit >= 1 && NewestFirst(all) && !Settled(all, limit, days)
    ensures var clock := Unsettling(all, limit, days);
            limit < |Aged(clock(0), days, all)| < |Aged(clock(1), days, all)|
  {
    var clock, last := Unsettling(all, limit, days), |all| - 1 - limit;
    assert all[0].createdAt >= all[last].createdAt;
    var k := AgedIsTail(clock(0), days, all);
    assert IsOld(clock(0), days, all[last]) && !IsOld(clock(0), days, all[0]);
    var l := AgedIsTail(clock(1), days, all);
    assert IsOld(clock(1), days, all[0]);
  }

  /** Under every clock that does not go back, the walk shows exactly what was found at its beginning, if
      and only if that is so. */
  lemma WalkAlwaysExactIff(c: Codec, call: Service, limit: nat, days: Option<int>, all: seq<Metadata>)
    requires Serves(c, call, limit, days, all) && UniqueIds(all)
    ensures (forall clock | NeverBack(clock) :: ShowsBeginning(c, call, limit, days, all, clock)) <==>
            Settled(all, limit, days)
  {
    if Settled(all, limit, days) {
      forall clock | NeverBack(clock)
        ensures ShowsBeginning(c, call, limit, days, all, clock)
      {
        SettledStays(c, call, limit, days, all, clock);
        WalkExactIff(c, call, limit, days, all, clock);
      }
    } else {
      var clock := Unsettling(all, limit, days);
      UnsettledMoves(c, call, limit, days, all);
      assert NeverBack(clock);
      WalkExactIff(c, call, limit, days, all, clock);
    }
  }

  // ----- where it repeats -----

  function Young(id: string, createdAt: int): Metadata
  {
    Metadata(id, createdAt, 0, [], None, None, map[])
  }

  const AGES := [Young("b", 10), Young("a2", 1), Young("a1", 0)]

  /** Records of ages 0, 9 and 10 at the end of the walk, asked for one by one with an age limit of zero
      days: the newest comes of age after the first page, so that the second repeats the first. */
  lemma WalkWithAgeLimitRepeats(c: Codec, w: Words)
    requires RoundTrips(c) && Collation(w.compare)
    ensures var f := EVERYTHING.(olderThanDays := Some(0), limit := Some(1));
            var call, clock := ListCalls(c, w, AGES, f), (i: nat) => if i == 0 then 5 else 10;
            && Serves(c, call, 1, Some(0), AGES)
            && var pages := Walk(c, call, 1, Some(0), AGES, clock, None, 0);
               && |pages| == 3 && pages[0].total == 2 && pages[1].total == pages[2].total == 3
               && Items(pages) == [ToSummary(AGES[1]), ToSummary(AGES[1]), ToSummary(AGES[2])]
  {
    AgesListed(c, w);
    var f := EVERYTHING.(olderThanDays := Some(0), limit := Some(1));
    AgesRepeat(c, ListCalls(c, w, AGES, f));
  }

  lemma AgesRepeat(c: Codec, call: Service)
    requires Serves(c, call, 1, Some(0), AGES)
    ensures var pages := Walk(c, call, 1, Some(0), AGES, (i: nat) => if i == 0 then 5 else 10, None, 0);
            && |pages| == 3 && pages[0].total == 2 && pages[1].total == pages[2].total == 3
            && Items(pages) == [ToSummary(AGES[1]), ToSummary(AGES[1]), ToSummary(AGES[2])]
  {
    var clock := (i: nat) => if i == 0 then 5 else 10;
    var lists := Found(clock, Some(0), AGES);
    AgedMatches();
    SummariesOfAges();
    WalkOfFound(c, call, 1, Some(0), AGES, clock);
    ThreeTurns(lists, ToSummary(AGES[0]), ToSummary(AGES[1]), ToSummary(AGES[2]));
    TurnTotals(Walk(c, call, 1, Some(0), AGES, clock, None, 0), lists, TakeTurns(lists, 1, 3, 0, 0));
  }

  lemma SummariesOfAges()
    ensures Summaries([AGES[1], AGES[2]]) == [ToSummary(AGES[1]), ToSummary(AGES[2])]
    ensures Summaries(AGES) == [ToSummary(AGES[0]), ToSummary(AGES[1]), ToSummary(AGES[2])]
  {}

  /** One entry at a time, of which the list gets one in front after the first turn. */
  lemma ThreeTurns(lists: nat -> seq<Summary>, x: Summary, y: Summary, z: Summary)
    requires Bounded(lists, 3) && lists(0) == [y, z] && lists(1) == lists(2) == [x, y, z]
    ensures TakeTurns(lists, 1, 3, 0, 0) == [[y], [y], [z]]
    ensures Flatten(TakeTurns(lists, 1, 3, 0, 0)) == [y, y, z]
  {
    assert TakeTurns(lists, 1, 3, 2, 2) == [Turn([x, y, z], 1, 2)] == [[z]];
    assert TakeTurns(lists, 1, 3, 1, 1) == [Turn([x, y, z], 1, 1)] + [[z]] && Turn([x, y, z], 1, 1) == [y];
    assert TakeTurns(lists, 1, 3, 0, 0) == [Turn([y, z], 1, 0)] + [[y], [z]] && Turn([y, z], 1, 0) == [y];
    FlattenOne([z]);
    FlattenCons([y], [[z]]);
    FlattenCons([y], [[y], [z]]);
  }

  lemma TurnTotals(pages: seq<Page>, lists: nat -> seq<Summary>, turns: seq<seq<Summary>>)
    requires AreTurns(pages, lists, turns, 0)
    ensures forall k :: 0 <= k < |pages| ==> pages[k].total == |lists(k)|
  {
    forall k | 0 <= k < |pages| ensures pages[k].total == |lists(k)|
    {
      TurnTotal(pages, lists, turns, 0, k);
      assert 0 + k == k;
    }
  }

  lemma AgesListed(c: Codec, w: Words)
    requires RoundTrips(c) && Collation(w.compare)
    ensures Serves(c, ListCalls(c, w, AGES, EVERYTHING.(olderThanDays := Some(0), limit := Some(1))), 1, Some(0), AGES)
  {
    var f := EVERYTHING.(olderThanDays := Some(0), limit := Some(1));
    ListServes(c, w, AGES, f);
    AgesInOrder(w);
    SortFixesSorted(InOrder(w), AGES);
    AgesMatch(Ageless(f));
    FilterAll(Matching(0, Ageless(f)), AGES);
  }

  lemma AgesInOrder(w: Words)
    ensures Sorted(InOrder(w), AGES)
  {
    forall i, j | 0 <= i < j < |AGES| ensures InOrder(w)(AGES[i], AGES[j])
    {
      assert AGES[i].createdAt > AGES[j].createdAt;
    }
  }

  lemma AgesMatch(f: ArtifactFilter)
    requires f == EVERYTHING.(limit := Some(1))
    ensures forall m :: m in AGES ==> Matching(0, f)(m)
  {}

  lemma AgedMatches()
    ensures Aged(5, Some(0), AGES) == [AGES[1], AGES[2]] && Aged(10, Some(0), AGES) == AGES
  {
    FilterAll(OldEnough(10, Some(0)), AGES);
    assert AGES[1..] == [AGES[1], AGES[2]];
    FilterAll(OldEnough(5, Some(0)), AGES[1..]);
  }
}
