/** AutonomousPlanningEngine.buildPlan and ApplicationService.getAutonomousPlan: the recommendations
    of every repository that reported, most urgent first. */
module Planner {
  import opened Sequences
  import opened StableSort

  datatype Priority = Critical | High | Medium | Low
  datatype Category = Blocking | Advisory | Informational
  datatype Confidence = HighConfidence | MediumConfidence | LowConfidence

  /** `kind` and `evidence` are carried forward unread. */
  datatype Recommendation = Recommendation(kind: string, category: Category, priority: Priority, reason: string,
                                           evidence: seq<string>)

  datatype Report = Report(repositoryId: string, recommendations: seq<Recommendation>)

  datatype PlanItem = PlanItem(repositoryId: string, kind: string, category: Category, priority: Priority,
                               reason: string, evidence: seq<string>, confidence: Confidence)

  datatype Plan = Plan(repositoriesConsidered: seq<string>, items: seq<PlanItem>)

  function PriorityOrder(p: Priority): nat
  {
    match p case Critical => 0 case High => 1 case Medium => 2 case Low => 3
  }

  function CategoryOrder(c: Category): nat
  {
    match c case Blocking => 0 case Advisory => 1 case Informational => 2
  }

  function ConfidenceFor(c: Category): Confidence
  {
    match c case Blocking => HighConfidence case Advisory => MediumConfidence case Informational => LowConfidence
  }

  function ToItem(repositoryId: string): Recommendation -> PlanItem
  {
    (r: Recommendation) =>
      PlanItem(repositoryId, r.kind, r.category, r.priority, r.reason, r.evidence, ConfidenceFor(r.category))
  }

  /** The comparator; localeCompare is a parameter. */
  function Compare(locale: (string, string) -> int, a: PlanItem, b: PlanItem): int
  {
    var priorityDelta := PriorityOrder(a.priority) - PriorityOrder(b.priority);
    if priorityDelta != 0 then priorityDelta
    else
      var categoryDelta := CategoryOrder(a.category) - CategoryOrder(b.category);
      if categoryDelta != 0 then categoryDelta else locale(a.repositoryId, b.repositoryId)
  }

  function InOrder(locale: (string, string) -> int): (PlanItem, PlanItem) -> bool
  {
    (a, b) => Compare(locale, a, b) <= 0
  }

  function ItemsOf(report: Report): seq<PlanItem>
  {
    Map(ToItem(report.repositoryId), report.recommendations)
  }

  /** flatMap over the reports. */
  function AllItems(reports: seq<Report>): seq<PlanItem>
  {
    if reports == [] then [] else ItemsOf(reports[0]) + AllItems(reports[1..])
  }

  function RepositoryOf(): Report -> string { (r: Report) => r.repositoryId }

  function BuildPlan(locale: (string, string) -> int, reports: seq<Report>): Plan
  {
    Plan(Map(RepositoryOf(), reports), Sort(InOrder(locale), AllItems(reports)))
  }

  /** What Promise.allSettled says of one repository's report. */
  datatype Outcome = Fulfilled(value: Report) | Rejected

  function Reported(): Outcome -> bool { (o: Outcome) => o.Fulfilled? }

  function Values(outcomes: seq<Outcome>): seq<Report>
    requires forall o :: o in outcomes ==> o.Fulfilled?
  {
    seq(|outcomes|, i requires 0 <= i < |outcomes| => outcomes[i].value)
  }

  function GetAutonomousPlan(locale: (string, string) -> int, settled: seq<Outcome>): Plan
  {
    BuildPlan(locale, Values(Filter(Reported(), settled)))
  }

  // ----- the comparator -----

  lemma ItemOrder(locale: (string, string) -> int)
    requires Collation(locale)
    ensures TotalPreorder(InOrder(locale))
  {
    forall a, b
      ensures InOrder(locale)(a, b) || InOrder(locale)(b, a)
    {
      assert locale(a.repositoryId, b.repositoryId) <= 0 <==> locale(b.repositoryId, a.repositoryId) >= 0;
    }
    forall a, b, c | InOrder(locale)(a, b) && InOrder(locale)(b, c)
      ensures InOrder(locale)(a, c)
    {
      assert locale(a.repositoryId, b.repositoryId) <= 0 && locale(b.repositoryId, c.repositoryId) <= 0
             ==> locale(a.repositoryId, c.repositoryId) <= 0;
    }
  }

  /** Items tie exactly when they agree on priority, category and repository. */
  lemma TiesAreLocal(locale: (string, string) -> int, a: PlanItem, b: PlanItem)
    requires Collation(locale)
    ensures TiedWith(InOrder(locale), a)(b) <==>
            a.priority == b.priority && a.category == b.category && a.repositoryId == b.repositoryId
  {
    assert locale(a.repositoryId, b.repositoryId) <= 0 <==> locale(b.repositoryId, a.repositoryId) >= 0;
    assert locale(b.repositoryId, a.repositoryId) <= 0 <==> locale(a.repositoryId, b.repositoryId) >= 0;
    assert locale(a.repositoryId, b.repositoryId) == 0 <==> a.repositoryId == b.repositoryId;
  }

  // ----- losing a repository -----

  function FromKept(kept: string -> bool): PlanItem -> bool { (i: PlanItem) => kept(i.repositoryId) }

  function ReportKept(kept: string -> bool): Report -> bool { (r: Report) => kept(r.repositoryId) }

  lemma {:induction false} KeptItems(kept: string -> bool, reports: seq<Report>)
    ensures AllItems(Filter(ReportKept(kept), reports)) == Filter(FromKept(kept), AllItems(reports))
  {
    if reports != [] {
      var items := ItemsOf(reports[0]);
      KeptItems(kept, reports[1..]);
      FilterAppend(FromKept(kept), items, AllItems(reports[1..]));
      if kept(reports[0].repositoryId) {
        FilterAll(FromKept(kept), items);
        var f := Filter(ReportKept(kept), reports);
        assert f[0] == reports[0] && f[1..] == Filter(ReportKept(kept), reports[1..]);
      } else {
        FilterNone(FromKept(kept), items);
      }
    }
  }

  /** Planning without some repositories is the full plan without their items, in the same order. */
  lemma PlanWithoutRepositories(locale: (string, string) -> int, kept: string -> bool, reports: seq<Report>)
    requires Collation(locale)
    ensures BuildPlan(locale, Filter(ReportKept(kept), reports)).items ==
            Filter(FromKept(kept), BuildPlan(locale, reports).items)
  {
    ItemOrder(locale);
    KeptItems(kept, reports);
    SortCommutesWithFilter(InOrder(locale), FromKept(kept), AllItems(reports));
  }

  /** The outcome of every repository when those not `kept` fail to report. */
  function Settle(reports: seq<Report>, kept: string -> bool): seq<Outcome>
  {
    seq(|reports|, i requires 0 <= i < |reports| =>
      if kept(reports[i].repositoryId) then Fulfilled(reports[i]) else Rejected)
  }

  lemma {:induction false} ValuesOfSettled(reports: seq<Report>, kept: string -> bool)
    ensures Values(Filter(Reported(), Settle(reports, kept))) == Filter(ReportKept(kept), reports)
  {
    if reports != [] {
      var settled := Settle(reports, kept);
      var rest := Filter(Reported(), Settle(reports[1..], kept));
      ValuesOfSettled(reports[1..], kept);
      assert settled[1..] == Settle(reports[1..], kept);
      if kept(reports[0].repositoryId) {
        assert Filter(Reported(), settled) == [Fulfilled(reports[0])] + rest;
        assert Values([Fulfilled(reports[0])] + rest) == [reports[0]] + Values(rest);
      }
    }
  }

  function Everyone(): string -> bool { _ => true }

  /** A failed report costs the plan that repository's items and nothing else. */
  lemma FailedReportsOnlyDropItems(locale: (string, string) -> int, reports: seq<Report>, kept: string -> bool)
    requires Collation(locale)
    ensures var full := GetAutonomousPlan(locale, Settle(reports, Everyone()));
            var degraded := GetAutonomousPlan(locale, Settle(reports, kept));
            && degraded.items == Filter(FromKept(kept), full.items)
            && degraded.repositoriesConsidered == Filter(kept, full.repositoriesConsidered)
  {
    ValuesOfSettled(reports, kept);
    ValuesOfSettled(reports, Everyone());
    FilterAll(ReportKept(Everyone()), reports);
    PlanWithoutRepositories(locale, kept, reports);
    ConsideredKept(reports, kept);
  }

  lemma {:induction false} ConsideredKept(reports: seq<Report>, kept: string -> bool)
    ensures Map(RepositoryOf(), Filter(ReportKept(kept), reports)) == Filter(kept, Map(RepositoryOf(), reports))
  {
    if reports != [] {
      ConsideredKept(reports[1..], kept);
      MapHead(RepositoryOf(), reports);
      FilterAppend(kept, [reports[0].repositoryId], Map(RepositoryOf(), reports[1..]));
      MapCons(RepositoryOf(), reports[0], Filter(ReportKept(kept), reports[1..]));
    }
  }

  // ----- the order of the reports -----

  function SameRepository(id: string): Report -> bool { (r: Report) => r.repositoryId == id }

  ghost predicate DistinctRepositories(reports: seq<Report>)
  {
    forall i, j :: 0 <= i < j < |reports| ==> reports[i].repositoryId != reports[j].repositoryId
  }

  /** The items that tie with `k` come from the reports of its repository, in order. */
  lemma {:induction false} TiedItems(locale: (string, string) -> int, k: PlanItem, reports: seq<Report>)
    requires Collation(locale)
    ensures Filter(TiedWith(InOrder(locale), k), AllItems(reports)) ==
            Filter(TiedWith(InOrder(locale), k), AllItems(Filter(SameRepository(k.repositoryId), reports)))
  {
    if reports != [] {
      var tied, items := TiedWith(InOrder(locale), k), ItemsOf(reports[0]);
      TiedItems(locale, k, reports[1..]);
      FilterAppend(tied, items, AllItems(reports[1..]));
      var rest := Filter(SameRepository(k.repositoryId), reports[1..]);
      if reports[0].repositoryId == k.repositoryId {
        var f := Filter(SameRepository(k.repositoryId), reports);
        assert f[0] == reports[0] && f[1..] == rest;
        FilterAppend(tied, items, AllItems(rest));
      } else {
        forall i | i in items ensures !tied(i) { TiesAreLocal(locale, k, i); }
        FilterNone(tied, items);
      }
    }
  }

  /** With distinct ids, at most one report has a given repository, wherever it stands. */
  lemma {:induction false} OneReport(id: string, reports: seq<Report>)
    requires DistinctRepositories(reports)
    ensures |Filter(SameRepository(id), reports)| <= 1
    ensures forall r :: r in reports && r.repositoryId == id ==> Filter(SameRepository(id), reports) == [r]
  {
    if reports != [] {
      OneReport(id, reports[1..]);
      if reports[0].repositoryId == id {
        FilterNone(SameRepository(id), reports[1..]);
      }
    }
  }

  lemma SameReportEitherWay(id: string, a: seq<Report>, b: seq<Report>)
    requires DistinctRepositories(a) && DistinctRepositories(b) && multiset(a) == multiset(b)
    ensures Filter(SameRepository(id), a) == Filter(SameRepository(id), b)
  {
    SameElements(a, b);
    OneReport(id, a);
    OneReport(id, b);
    if r :| r in a && r.repositoryId == id {
      assert r in b;
    } else {
      FilterNone(SameRepository(id), a);
      FilterNone(SameRepository(id), b);
    }
  }

  /** The plan does not depend on the order in which the reports arrive. */
  lemma PlanIgnoresReportOrder(locale: (string, string) -> int, a: seq<Report>, b: seq<Report>)
    requires Collation(locale) && DistinctRepositories(a) && DistinctRepositories(b) && multiset(a) == multiset(b)
    ensures BuildPlan(locale, a).items == BuildPlan(locale, b).items
  {
    var leq := InOrder(locale);
    ItemOrder(locale);
    SortSorted(leq, AllItems(a));
    SortSorted(leq, AllItems(b));
    forall k
      ensures Filter(TiedWith(leq, k), Sort(leq, AllItems(a))) == Filter(TiedWith(leq, k), Sort(leq, AllItems(b)))
    {
      SortKeepsTies(leq, AllItems(a), k);
      SortKeepsTies(leq, AllItems(b), k);
      TiedItems(locale, k, a);
      TiedItems(locale, k, b);
      SameReportEitherWay(k.repositoryId, a, b);
    }
    StableSortUnique(leq, Sort(leq, AllItems(a)), Sort(leq, AllItems(b)));
  }

  /** Within a tie the plan keeps the order of that repository's own report. */
  lemma TiesKeepReportOrder(locale: (string, string) -> int, reports: seq<Report>, r: Report, k: PlanItem)
    requires Collation(locale) && DistinctRepositories(reports) && r in reports && k.repositoryId == r.repositoryId
    ensures Filter(TiedWith(InOrder(locale), k), BuildPlan(locale, reports).items) ==
            Filter(TiedWith(InOrder(locale), k), ItemsOf(r))
  {
    ItemOrder(locale);
    SortKeepsTies(InOrder(locale), AllItems(reports), k);
    TiedItems(locale, k, reports);
    OneReport(k.repositoryId, reports);
    assert [r][1..] == [];
    assert AllItems([r]) == ItemsOf(r);
  }

  /** The plan holds every recommendation once, by priority, then category, then repository. */
  lemma PlanIsOrdered(locale: (string, string) -> int, reports: seq<Report>)
    requires Collation(locale)
    ensures multiset(BuildPlan(locale, reports).items) == multiset(AllItems(reports))
    ensures var items := BuildPlan(locale, reports).items;
            forall i, j :: 0 <= i < j < |items| ==> Precedes(locale, items[i], items[j])
  {
    ItemOrder(locale);
    SortPermutes(InOrder(locale), AllItems(reports));
    SortSorted(InOrder(locale), AllItems(reports));
    var items := BuildPlan(locale, reports).items;
    forall i, j | 0 <= i < j < |items| ensures Precedes(locale, items[i], items[j])
    {
      assert InOrder(locale)(items[i], items[j]);
    }
  }

  /** More urgent, or as urgent and in a stronger category, or alike and of an earlier repository. */
  predicate Precedes(locale: (string, string) -> int, a: PlanItem, b: PlanItem)
  {
    || PriorityOrder(a.priority) < PriorityOrder(b.priority)
    || (a.priority == b.priority && CategoryOrder(a.category) < CategoryOrder(b.category))
    || (a.priority == b.priority && a.category == b.category && locale(a.repositoryId, b.repositoryId) <= 0)
  }

  // ----- the plan section by section -----

  type Section = (Priority, Category)

  /** The sections of a plan, in the order in which they are read. */
  const SECTIONS: seq<Section> :=
    [(Critical, Blocking), (Critical, Advisory), (Critical, Informational),
     (High, Blocking), (High, Advisory), (High, Informational),
     (Medium, Blocking), (Medium, Advisory), (Medium, Informational),
     (Low, Blocking), (Low, Advisory), (Low, Informational)]

  function InSection(section: Section): PlanItem -> bool
  {
    (i: PlanItem) => (i.priority, i.category) == section
  }

  function ByRepository(locale: (string, string) -> int): (PlanItem, PlanItem) -> bool
  {
    (a: PlanItem, b: PlanItem) => locale(a.repositoryId, b.repositoryId) <= 0
  }

  /** The sections one after the other, each by repository. */
  function InSections(locale: (string, string) -> int, items: seq<PlanItem>, sections: seq<Section>): seq<PlanItem>
  {
    if sections == [] then []
    else Sort(ByRepository(locale), Filter(InSection(sections[0]), items)) + InSections(locale, items, sections[1..])
  }

  function Rank(section: Section): nat { 3 * PriorityOrder(section.0) + CategoryOrder(section.1) }

  ghost predicate Ascending(sections: seq<Section>)
  {
    forall i, j :: 0 <= i < j < |sections| ==> Rank(sections[i]) < Rank(sections[j])
  }

  lemma RepositoryOrder(locale: (string, string) -> int)
    requires Collation(locale)
    ensures TotalPreorder(ByRepository(locale))
  {
    forall a, b
      ensures ByRepository(locale)(a, b) || ByRepository(locale)(b, a)
    {
      assert locale(a.repositoryId, b.repositoryId) <= 0 <==> locale(b.repositoryId, a.repositoryId) >= 0;
    }
    forall a, b, c | ByRepository(locale)(a, b) && ByRepository(locale)(b, c)
      ensures ByRepository(locale)(a, c)
    {
      assert locale(a.repositoryId, b.repositoryId) <= 0 && locale(b.repositoryId, c.repositoryId) <= 0
             ==> locale(a.repositoryId, c.repositoryId) <= 0;
    }
  }

  lemma OneSection(locale: (string, string) -> int, items: seq<PlanItem>, section: Section)
    requires Collation(locale)
    ensures var head := Sort(ByRepository(locale), Filter(InSection(section), items));
            Sorted(InOrder(locale), head) && forall x :: x in head ==> (x.priority, x.category) == section
  {
    var mine := Filter(InSection(section), items);
    RepositoryOrder(locale);
    SortSorted(ByRepository(locale), mine);
    SortPermutes(ByRepository(locale), mine);
    var head := Sort(ByRepository(locale), mine);
    SameElements(head, mine);
    forall i, j | 0 <= i < j < |head|
      ensures InOrder(locale)(head[i], head[j])
    {
      assert ByRepository(locale)(head[i], head[j]);
      assert head[i] in mine && head[j] in mine;
    }
  }

  lemma LowerRankFirst(locale: (string, string) -> int, a: PlanItem, b: PlanItem)
    requires Rank((a.priority, a.category)) < Rank((b.priority, b.category))
    ensures InOrder(locale)(a, b)
  {}

  lemma {:induction false} SectionsSorted(locale: (string, string) -> int, items: seq<PlanItem>,
                                          sections: seq<Section>)
    requires Collation(locale) && Ascending(sections)
    ensures forall x :: x in InSections(locale, items, sections) ==> (x.priority, x.category) in sections
    ensures Sorted(InOrder(locale), InSections(locale, items, sections))
  {
    if sections != [] {
      SectionsSorted(locale, items, sections[1..]);
      OneSection(locale, items, sections[0]);
      SortedFront(locale, Sort(ByRepository(locale), Filter(InSection(sections[0]), items)),
                  InSections(locale, items, sections[1..]), sections);
    }
  }

  lemma SortedFront(locale: (string, string) -> int, head: seq<PlanItem>, rest: seq<PlanItem>,
                    sections: seq<Section>)
    requires sections != [] && Ascending(sections)
    requires Sorted(InOrder(locale), head) && Sorted(InOrder(locale), rest)
    requires forall x :: x in head ==> (x.priority, x.category) == sections[0]
    requires forall x :: x in rest ==> (x.priority, x.category) in sections[1..]
    ensures Sorted(InOrder(locale), head + rest)
  {
    forall a, b | a in head && b in rest
      ensures InOrder(locale)(a, b)
    {
      var j :| 0 <= j < |sections[1..]| && sections[1..][j] == (b.priority, b.category);
      assert Rank(sections[0]) < Rank(sections[j + 1]);
      LowerRankFirst(locale, a, b);
    }
  }

  lemma {:induction false} SectionsKeepTies(locale: (string, string) -> int, items: seq<PlanItem>,
                                            sections: seq<Section>, k: PlanItem)
    requires Collation(locale) && Ascending(sections)
    ensures Filter(TiedWith(InOrder(locale), k), InSections(locale, items, sections)) ==
            if (k.priority, k.category) in sections then Filter(TiedWith(InOrder(locale), k), items) else []
  {
    if sections != [] {
      SectionsKeepTies(locale, items, sections[1..], k);
      TiesOfSection(locale, items, sections[0], k);
      FilterAppend(TiedWith(InOrder(locale), k), Sort(ByRepository(locale), Filter(InSection(sections[0]), items)),
                   InSections(locale, items, sections[1..]));
      if (k.priority, k.category) == sections[0] {
        assert (k.priority, k.category) !in sections[1..];
      }
    }
  }

  lemma TiesOfSection(locale: (string, string) -> int, items: seq<PlanItem>, section: Section, k: PlanItem)
    requires Collation(locale)
    ensures Filter(TiedWith(InOrder(locale), k), Sort(ByRepository(locale), Filter(InSection(section), items))) ==
            if (k.priority, k.category) == section then Filter(TiedWith(InOrder(locale), k), items) else []
  {
    var mine := Filter(InSection(section), items);
    var head := Sort(ByRepository(locale), mine);
    if (k.priority, k.category) == section {
      SectionKeepsTies(locale, items, k);
    } else {
      SortPermutes(ByRepository(locale), mine);
      SameElements(head, mine);
      forall x | x in head ensures !TiedWith(InOrder(locale), k)(x) { TiesAreLocal(locale, k, x); }
      FilterNone(TiedWith(InOrder(locale), k), head);
    }
  }

  lemma SectionKeepsTies(locale: (string, string) -> int, items: seq<PlanItem>, k: PlanItem)
    requires Collation(locale)
    ensures var mine := Filter(InSection((k.priority, k.category)), items);
            Filter(TiedWith(InOrder(locale), k), Sort(ByRepository(locale), mine)) ==
            Filter(TiedWith(InOrder(locale), k), items)
  {
    var tied, near := TiedWith(InOrder(locale), k), TiedWith(ByRepository(locale), k);
    var mine := Filter(InSection((k.priority, k.category)), items);
    var head := Sort(ByRepository(locale), mine);
    SortPermutes(ByRepository(locale), mine);
    SameElements(head, mine);
    forall x | x in mine ensures tied(x) == near(x) { assert (x.priority, x.category) == (k.priority, k.category); }
    FilterCongruent(tied, near, head);
    FilterCongruent(tied, near, mine);
    RepositoryOrder(locale);
    SortKeepsTies(ByRepository(locale), mine, k);
    forall x | x in items
      ensures tied(x) == (tied(x) && InSection((k.priority, k.category))(x))
    {
      TiesAreLocal(locale, k, x);
    }
    FilterFilter(tied, InSection((k.priority, k.category)), tied, items);
  }

  /** The plan is its twelve sections, from critical and blocking to low and informational, each by
      repository and, within one, as that repository reported. */
  lemma PlanIsItsSections(locale: (string, string) -> int, reports: seq<Report>)
    requires Collation(locale)
    ensures BuildPlan(locale, reports).items == InSections(locale, AllItems(reports), SECTIONS)
  {
    SectionsComplete();
    SectionsAreSort(locale, AllItems(reports), SECTIONS);
  }

  lemma SectionsAreSort(locale: (string, string) -> int, items: seq<PlanItem>, sections: seq<Section>)
    requires Collation(locale) && Ascending(sections) && forall p, c :: (p, c) in sections
    ensures Sort(InOrder(locale), items) == InSections(locale, items, sections)
  {
    ItemOrder(locale);
    SectionsSorted(locale, items, sections);
    forall k
      ensures Filter(TiedWith(InOrder(locale), k), InSections(locale, items, sections)) ==
              Filter(TiedWith(InOrder(locale), k), items)
    {
      SectionsKeepTies(locale, items, sections, k);
    }
    AnyStableSortIsSort(InOrder(locale), items, InSections(locale, items, sections));
  }

  lemma SectionsComplete()
    ensures Ascending(SECTIONS) && forall p, c :: (p, c) in SECTIONS
  {
    forall i | 0 <= i < |SECTIONS| ensures Rank(SECTIONS[i]) == i {}
    forall p, c ensures (p, c) in SECTIONS
    {
      assert SECTIONS[Rank((p, c))] == (p, c);
    }
  }

  // ----- reading the reports off the plan -----

  /** The recommendation that a plan item came from. */
  function Source(): PlanItem -> Recommendation
  {
    (i: PlanItem) => Recommendation(i.kind, i.category, i.priority, i.reason, i.evidence)
  }

  lemma {:induction false} MapInsert<A, B>(f: A -> B, leq: (A, A) -> bool, x: A, s: seq<A>)
    ensures multiset(Map(f, Insert(leq, x, s))) == multiset{f(x)} + multiset(Map(f, s))
  {
    if s == [] || leq(x, s[0]) {
      assert Map(f, [x] + s) == [f(x)] + Map(f, s);
    } else {
      MapInsert(f, leq, x, s[1..]);
      assert Map(f, Insert(leq, x, s)) == [f(s[0])] + Map(f, Insert(leq, x, s[1..]));
      assert Map(f, s) == [f(s[0])] + Map(f, s[1..]);
    }
  }

  lemma {:induction false} MapSort<A, B>(f: A -> B, leq: (A, A) -> bool, s: seq<A>)
    ensures multiset(Map(f, Sort(leq, s))) == multiset(Map(f, s))
  {
    if s != [] {
      MapSort(f, leq, s[1..]);
      MapInsert(f, leq, s[0], Sort(leq, s[1..]));
      assert Map(f, s) == [f(s[0])] + Map(f, s[1..]);
    }
  }

  /** The items of one repository are its recommendations, every one once and unaltered. */
  lemma ReportReadBack(locale: (string, string) -> int, reports: seq<Report>, r: Report)
    requires Collation(locale) && DistinctRepositories(reports) && r in reports
    ensures multiset(Map(Source(), Filter(FromKept(id => id == r.repositoryId), BuildPlan(locale, reports).items))) ==
            multiset(r.recommendations)
  {
    var mine := (id: string) => id == r.repositoryId;
    PlanWithoutRepositories(locale, mine, reports);
    OneReport(r.repositoryId, reports);
    FilterCongruent(ReportKept(mine), SameRepository(r.repositoryId), reports);
    assert [r][1..] == [];
    assert AllItems([r]) == ItemsOf(r);
    MapSort(Source(), InOrder(locale), ItemsOf(r));
    assert Map(Source(), ItemsOf(r)) == r.recommendations;
  }

  /** How sure the plan is of an item follows from its category alone. */
  lemma {:induction false} ConfidenceFollowsCategory(locale: (string, string) -> int, reports: seq<Report>, i: PlanItem)
    requires i in BuildPlan(locale, reports).items
    ensures i.confidence == HighConfidence <==> i.category == Blocking
    ensures i.confidence == LowConfidence <==> i.category == Informational
  {
    SortPermutes(InOrder(locale), AllItems(reports));
    SameElements(Sort(InOrder(locale), AllItems(reports)), AllItems(reports));
    ConfidenceOfItems(reports, i);
  }

  lemma {:induction false} ConfidenceOfItems(reports: seq<Report>, i: PlanItem)
    requires i in AllItems(reports)
    ensures i.confidence == ConfidenceFor(i.category)
  {
    if i !in ItemsOf(reports[0]) {
      ConfidenceOfItems(reports[1..], i);
    }
  }

  // ----- the whole operation -----

  /** The repositories that reported, in order. */
  function Reporters(settled: seq<Outcome>): seq<string>
  {
    if settled == [] then []
    else (match settled[0] case Fulfilled(r) => [r.repositoryId] case Rejected => []) + Reporters(settled[1..])
  }

  /** No two repositories that reported have the same id. */
  ghost predicate DistinctReporters(settled: seq<Outcome>) { NoDuplicates(Reporters(settled)) }

  lemma {:induction false} ValuesTell(settled: seq<Outcome>)
    ensures var reports := Values(Filter(Reported(), settled));
            && Map(RepositoryOf(), reports) == Reporters(settled)
            && forall r :: r in reports <==> Fulfilled(r) in settled
  {
    if settled != [] {
      var rest := Filter(Reported(), settled[1..]);
      ValuesTell(settled[1..]);
      if settled[0].Fulfilled? {
        ValuesCons(settled[0], rest);
        MapCons(RepositoryOf(), settled[0].value, Values(rest));
      }
    }
  }

  lemma ValuesCons(first: Outcome, rest: seq<Outcome>)
    requires first.Fulfilled? && forall o :: o in rest ==> o.Fulfilled?
    ensures Values([first] + rest) == [first.value] + Values(rest)
  {}

  /** The repositories of the plan are those that reported; every item comes from one of them. */
  lemma {:induction false} ItemsHaveReports(reports: seq<Report>, i: PlanItem)
    requires i in AllItems(reports)
    ensures exists r :: r in reports && r.repositoryId == i.repositoryId
  {
    if i in ItemsOf(reports[0]) {
      assert reports[0] in reports;
    } else {
      ItemsHaveReports(reports[1..], i);
    }
  }

  /** getAutonomousPlan over whatever the repositories answered: it considers those that reported, gives back
      every recommendation of each of them once and unaltered and nothing else, most urgent first. */
  lemma PlanOfReports(locale: (string, string) -> int, settled: seq<Outcome>)
    requires Collation(locale) && DistinctReporters(settled)
    ensures var plan := GetAutonomousPlan(locale, settled);
            && plan.repositoriesConsidered == Reporters(settled)
            && (forall r :: Fulfilled(r) in settled ==>
                  multiset(Map(Source(), Filter(FromRepository(r.repositoryId), plan.items))) ==
                  multiset(r.recommendations))
            && (forall i :: i in plan.items ==> i.repositoryId in Reporters(settled))
            && forall i, j :: 0 <= i < j < |plan.items| ==> Precedes(locale, plan.items[i], plan.items[j])
  {
    var reports, plan := Values(Filter(Reported(), settled)), GetAutonomousPlan(locale, settled);
    ValuesTell(settled);
    ConsideredDistinct(reports);
    PlanIsOrdered(locale, reports);
    forall r | Fulfilled(r) in settled
      ensures multiset(Map(Source(), Filter(FromRepository(r.repositoryId), plan.items))) ==
              multiset(r.recommendations)
    {
      ReportReadBack(locale, reports, r);
      FilterCongruent(FromRepository(r.repositoryId), FromKept(id => id == r.repositoryId), plan.items);
    }
    forall i | i in plan.items
      ensures i.repositoryId in Reporters(settled)
    {
      ItemReported(locale, reports, i);
    }
  }

  function FromRepository(id: string): PlanItem -> bool { (i: PlanItem) => i.repositoryId == id }

  lemma ConsideredDistinct(reports: seq<Report>)
    requires NoDuplicates(Map(RepositoryOf(), reports))
    ensures DistinctRepositories(reports)
  {
    var ids := Map(RepositoryOf(), reports);
    assert forall i :: 0 <= i < |reports| ==> ids[i] == reports[i].repositoryId;
  }

  lemma ItemReported(locale: (string, string) -> int, reports: seq<Report>, i: PlanItem)
    requires i in BuildPlan(locale, reports).items
    ensures i.repositoryId in Map(RepositoryOf(), reports)
  {
    SortPermutes(InOrder(locale), AllItems(reports));
    SameElements(Sort(InOrder(locale), AllItems(reports)), AllItems(reports));
    ItemsHaveReports(reports, i);
    var r :| r in reports && r.repositoryId == i.repositoryId;
    var k :| 0 <= k < |reports| && reports[k] == r;
    assert Map(RepositoryOf(), reports)[k] == r.repositoryId;
  }
}
