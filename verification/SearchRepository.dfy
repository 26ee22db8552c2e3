/** Full-text search with filters. */
module SearchRepository {
  import opened Basics
  import opened Sql
  import opened Pagination
  import opened QueryBuilding
  import Sublists

  datatype DurationFilter = Short | Medium | Long | OtherDuration

  datatype DateFilter = Today | Week | Month | Year | OtherDate

  datatype SearchFilters = SearchFilters(
    duration: Option<DurationFilter>,
    uploadDate: Option<DateFilter>,
    quality: seq<string>,
    categories: seq<string>,
    tags: seq<string>,
    minDuration: Option<int>,
    maxDuration: Option<int>,
    minViews: Option<int>,
    maxViews: Option<int>,
    onlyVerified: bool,
    language: Option<string>)

  datatype SearchQuery = SearchQuery(query: string, filters: SearchFilters, page: int, limit: int)

  /** Bounds of a duration preset in seconds, both inclusive. */
  function ToSeconds(d: DurationFilter): (int, int) {
    match d
    case Short => (0, 240)
    case Medium => (240, 1200)
    case Long => (1200, 999999)
    case OtherDuration => (0, 999999)
  }

  predicate InPreset(d: DurationFilter, seconds: int) {
    ToSeconds(d).0 <= seconds <= ToSeconds(d).1
  }

  /** Two of the three named presets select one and the same video exactly when it ends at a bound between them. */
  lemma PresetsShareOnlyTheirBounds(seconds: int)
    ensures (exists d, d' :: d != d' && d != OtherDuration && d' != OtherDuration && InPreset(d, seconds) && InPreset(d', seconds))
       <==> seconds == 240 || seconds == 1200
  {
    if seconds == 240 {
      assert InPreset(Short, seconds) && InPreset(Medium, seconds);
    }
    if seconds == 1200 {
      assert InPreset(Medium, seconds) && InPreset(Long, seconds);
    }
  }

  function Bound(test: Test, n: Option<int>): seq<Clause> {
    if n.Some? then [Clause(test, Some(Int(n.value)))] else []
  }

  function Listed(test: Test, ss: seq<string>): seq<Clause> {
    if |ss| > 0 then [Clause(test, Some(Strs(ss)))] else []
  }

  function ListClauses(f: SearchFilters): seq<Clause> {
    Listed(CategoryIn, f.categories)
    + Listed(TagsOverlap, f.tags)
    + (if f.language.Some? then [Clause(LanguageIs, Some(Str(f.language.value)))] else [])
    + Listed(QualitiesOverlap, f.quality)
  }

  function DurationClauses(f: SearchFilters): seq<Clause> {
    Bound(DurationAtLeast, if f.duration.Some? then Some(ToSeconds(f.duration.value).0) else None)
    + Bound(DurationAtMost, if f.duration.Some? then Some(ToSeconds(f.duration.value).1) else None)
    + Bound(DurationAtLeast, f.minDuration)
    + Bound(DurationAtMost, f.maxDuration)
  }

  /** `since` is the instant a date preset reaches back to. */
  function OtherClauses(f: SearchFilters, since: DateFilter -> int): seq<Clause> {
    Bound(CreatedAtLeast, if f.uploadDate.Some? then Some(since(f.uploadDate.value)) else None)
    + Bound(ViewsAtLeast, f.minViews)
    + Bound(ViewsAtMost, f.maxViews)
    + (if f.onlyVerified then [Clause(OwnerVerified, None)] else [])
  }

  /** The query text is bound first, so $1 is the text whatever filters follow. */
  function SearchClauses(q: SearchQuery, since: DateFilter -> int): seq<Clause> {
    [Clause(PublicAndReady, None), Clause(TextMatches(WebSearch), Some(Str(q.query)))]
    + ListClauses(q.filters) + DurationClauses(q.filters) + OtherClauses(q.filters, since)
  }

  /** The rank expression of the query relies on $1 being the text. */
  lemma TextIsTheFirstArgument(q: SearchQuery, since: DateFilter -> int)
    ensures var clauses := SearchClauses(q, since);
            && 0 < |Args(clauses)| && Args(clauses)[0] == Str(q.query)
            && 1 < |Conditions(clauses)| && Conditions(clauses)[1] == Condition(TextMatches(WebSearch), 1)
  {
    var ready, text := Clause(PublicAndReady, None), Clause(TextMatches(WebSearch), Some(Str(q.query)));
    var rest := ListClauses(q.filters) + DurationClauses(q.filters) + OtherClauses(q.filters, since);
    FirstValueIsFirstArgument(ready, text);
    LaterClausesAppend([ready, text], rest);
    assert SearchClauses(q, since) == [ready, text] + rest;
  }

  method AddNonEmpty(b: Builder, test: Test, ss: seq<string>)
    requires b.Valid()
    modifies b
    ensures b.Valid() && b.clauses == old(b.clauses) + Listed(test, ss)
  {
    if |ss| > 0 {
      b.Add(test, Strs(ss));
    }
  }

  method AddBound(b: Builder, test: Test, n: Option<int>)
    requires b.Valid()
    modifies b
    ensures b.Valid() && b.clauses == old(b.clauses) + Bound(test, n)
  {
    if n.Some? {
      b.Add(test, Int(n.value));
    }
  }

  method AddLists(b: Builder, f: SearchFilters)
    requires b.Valid()
    modifies b
    ensures b.Valid() && b.clauses == old(b.clauses) + ListClauses(f)
  {
    ghost var start := b.clauses;
    AddNonEmpty(b, CategoryIn, f.categories);
    AddNonEmpty(b, TagsOverlap, f.tags);
    if f.language.Some? {
      b.Add(LanguageIs, Str(f.language.value));
    }
    AddNonEmpty(b, QualitiesOverlap, f.quality);
    FourAppends(start, Listed(CategoryIn, f.categories), Listed(TagsOverlap, f.tags),
                if f.language.Some? then [Clause(LanguageIs, Some(Str(f.language.value)))] else [], Listed(QualitiesOverlap, f.quality));
  }

  lemma FourAppends(s: seq<Clause>, a: seq<Clause>, b: seq<Clause>, c: seq<Clause>, d: seq<Clause>)
    ensures s + a + b + c + d == s + (a + b + c + d)
    ensures s + a + b + [] + d == s + a + b + d
    ensures s + a + b + c + [] == s + a + b + c
  {
  }

  method AddDurations(b: Builder, f: SearchFilters)
    requires b.Valid()
    modifies b
    ensures b.Valid() && b.clauses == old(b.clauses) + DurationClauses(f)
  {
    ghost var start := b.clauses;
    if f.duration.Some? {
      var (min, max) := ToSeconds(f.duration.value);
      b.Add(DurationAtLeast, Int(min));
      b.Add(DurationAtMost, Int(max));
    }
    AddBound(b, DurationAtLeast, f.minDuration);
    AddBound(b, DurationAtMost, f.maxDuration);
    FourAppends(start, Bound(DurationAtLeast, if f.duration.Some? then Some(ToSeconds(f.duration.value).0) else None),
                Bound(DurationAtMost, if f.duration.Some? then Some(ToSeconds(f.duration.value).1) else None),
                Bound(DurationAtLeast, f.minDuration), Bound(DurationAtMost, f.maxDuration));
  }

  method AddOthers(b: Builder, f: SearchFilters, since: DateFilter -> int)
    requires b.Valid()
    modifies b
    ensures b.Valid() && b.clauses == old(b.clauses) + OtherClauses(f, since)
  {
    ghost var start := b.clauses;
    AddBound(b, CreatedAtLeast, if f.uploadDate.Some? then Some(since(f.uploadDate.value)) else None);
    AddBound(b, ViewsAtLeast, f.minViews);
    AddBound(b, ViewsAtMost, f.maxViews);
    if f.onlyVerified {
      b.AddBare(OwnerVerified);
    }
    FourAppends(start, Bound(CreatedAtLeast, if f.uploadDate.Some? then Some(since(f.uploadDate.value)) else None),
                Bound(ViewsAtLeast, f.minViews), Bound(ViewsAtMost, f.maxViews),
                if f.onlyVerified then [Clause(OwnerVerified, None)] else []);
  }

  method BuildSearchWhere(q: SearchQuery, since: DateFilter -> int) returns (conditions: seq<Condition>, args: seq<Arg>)
    ensures conditions == Conditions(SearchClauses(q, since)) && args == Args(SearchClauses(q, since))
  {
    var b := new Builder();
    b.AddBare(PublicAndReady);
    b.Add(TextMatches(WebSearch), Str(q.query));
    AddLists(b, q.filters);
    AddDurations(b, q.filters);
    AddOthers(b, q.filters, since);
    assert b.clauses == SearchClauses(q, since);
    conditions, args := b.conditions, b.args;
  }

  predicate Between(low: Option<int>, column: Option<int>, high: Option<int>) {
    && (low.Some? ==> column.Some? && low.value <= column.value)
    && (high.Some? ==> column.Some? && column.value <= high.value)
  }

  /** What a search asks of a row: always public and ready, whatever else is set. */
  predicate Found(q: SearchQuery, row: Row, since: DateFilter -> int, matches: Matcher) {
    var f := q.filters;
    && row.status == "ready" && row.visibility == "public"
    && matches(WebSearch, row.text, q.query)
    && (|f.categories| > 0 ==> row.category.Some? && row.category.value in f.categories)
    && (|f.tags| > 0 ==> row.tags.Some? && Overlap(row.tags.value, f.tags))
    && (f.language.Some? ==> row.language == f.language)
    && (|f.quality| > 0 ==> row.qualities.Some? && Overlap(row.qualities.value, f.quality))
    && (f.duration.Some? ==> Between(Some(ToSeconds(f.duration.value).0), row.duration, Some(ToSeconds(f.duration.value).1)))
    && Between(f.minDuration, row.duration, f.maxDuration)
    && (f.uploadDate.Some? ==> since(f.uploadDate.value) <= row.createdAt)
    && Between(f.minViews, row.viewCount, f.maxViews)
    && (f.onlyVerified ==> row.ownerVerified == Some(true))
  }

  lemma ListClausesMean(f: SearchFilters, row: Row, matches: Matcher)
    ensures AllHold(ListClauses(f), row, matches) <==>
      && (|f.categories| > 0 ==> row.category.Some? && row.category.value in f.categories)
      && (|f.tags| > 0 ==> row.tags.Some? && Overlap(row.tags.value, f.tags))
      && (f.language.Some? ==> row.language == f.language)
      && (|f.quality| > 0 ==> row.qualities.Some? && Overlap(row.qualities.value, f.quality))
  {
    var language := Clause(LanguageIs, Some(Str(if f.language.Some? then f.language.value else "")));
    FourHold(Listed(CategoryIn, f.categories), Listed(TagsOverlap, f.tags),
             if f.language.Some? then [language] else [], Listed(QualitiesOverlap, f.quality), row, matches);
    OneHolds(Clause(CategoryIn, Some(Strs(f.categories))), row, matches);
    OneHolds(Clause(TagsOverlap, Some(Strs(f.tags))), row, matches);
    OneHolds(language, row, matches);
    OneHolds(Clause(QualitiesOverlap, Some(Strs(f.quality))), row, matches);
  }

  lemma BoundMeans(test: Test, n: Option<int>, row: Row, matches: Matcher)
    ensures AllHold(Bound(test, n), row, matches) <==> (n.Some? ==> ClauseHolds(Clause(test, Some(Int(n.value))), row, matches))
  {
    OneHolds(Clause(test, Some(Int(if n.Some? then n.value else 0))), row, matches);
  }

  lemma DurationClausesMean(f: SearchFilters, row: Row, matches: Matcher)
    ensures AllHold(DurationClauses(f), row, matches) <==>
      && (f.duration.Some? ==> Between(Some(ToSeconds(f.duration.value).0), row.duration, Some(ToSeconds(f.duration.value).1)))
      && Between(f.minDuration, row.duration, f.maxDuration)
  {
    var low := if f.duration.Some? then Some(ToSeconds(f.duration.value).0) else None;
    var high := if f.duration.Some? then Some(ToSeconds(f.duration.value).1) else None;
    FourHold(Bound(DurationAtLeast, low), Bound(DurationAtMost, high),
             Bound(DurationAtLeast, f.minDuration), Bound(DurationAtMost, f.maxDuration), row, matches);
    BoundMeans(DurationAtLeast, low, row, matches);
    BoundMeans(DurationAtMost, high, row, matches);
    BoundMeans(DurationAtLeast, f.minDuration, row, matches);
    BoundMeans(DurationAtMost, f.maxDuration, row, matches);
  }

  lemma OtherClausesMean(f: SearchFilters, since: DateFilter -> int, row: Row, matches: Matcher)
    ensures AllHold(OtherClauses(f, since), row, matches) <==>
      && (f.uploadDate.Some? ==> since(f.uploadDate.value) <= row.createdAt)
      && Between(f.minViews, row.viewCount, f.maxViews)
      && (f.onlyVerified ==> row.ownerVerified == Some(true))
  {
    var from := if f.uploadDate.Some? then Some(since(f.uploadDate.value)) else None;
    FourHold(Bound(CreatedAtLeast, from), Bound(ViewsAtLeast, f.minViews), Bound(ViewsAtMost, f.maxViews),
             if f.onlyVerified then [Clause(OwnerVerified, None)] else [], row, matches);
    BoundMeans(CreatedAtLeast, from, row, matches);
    BoundMeans(ViewsAtLeast, f.minViews, row, matches);
    BoundMeans(ViewsAtMost, f.maxViews, row, matches);
    OneHolds(Clause(OwnerVerified, None), row, matches);
  }

  lemma FixedClausesMean(q: SearchQuery, row: Row, matches: Matcher)
    ensures AllHold([Clause(PublicAndReady, None), Clause(TextMatches(WebSearch), Some(Str(q.query)))], row, matches)
        <==> row.status == "ready" && row.visibility == "public" && matches(WebSearch, row.text, q.query)
  {
    var ready, text := Clause(PublicAndReady, None), Clause(TextMatches(WebSearch), Some(Str(q.query)));
    assert [ready, text] == [ready] + [text];
    AllHoldAppends([ready], [text], row, matches);
    OneHolds(ready, row, matches);
    OneHolds(text, row, matches);
  }

  lemma SearchClausesMean(q: SearchQuery, since: DateFilter -> int, row: Row, matches: Matcher)
    ensures AllHold(SearchClauses(q, since), row, matches) <==> Found(q, row, since, matches)
  {
    var f := q.filters;
    var fixed, lists, durations, others :=
      [Clause(PublicAndReady, None), Clause(TextMatches(WebSearch), Some(Str(q.query)))],
      ListClauses(f), DurationClauses(f), OtherClauses(f, since);
    FourHold(fixed, lists, durations, others, row, matches);
    FixedClausesMean(q, row, matches);
    ListClausesMean(f, row, matches);
    DurationClausesMean(f, row, matches);
    OtherClausesMean(f, since, row, matches);
  }

  lemma FiltersBind(f: SearchFilters, since: DateFilter -> int, c: Clause)
    requires c.arg.None?
    ensures c !in ListClauses(f) && c !in DurationClauses(f)
    ensures c in OtherClauses(f, since) ==> c.test == OwnerVerified
  {
  }

  lemma SearchClausesBind(q: SearchQuery, since: DateFilter -> int)
    ensures forall c :: c in SearchClauses(q, since) && c.arg.None? ==> NeedsNoArg(c.test)
  {
    forall c | c in SearchClauses(q, since) && c.arg.None? ensures NeedsNoArg(c.test) {
      FiltersBind(q.filters, since, c);
    }
  }

  /** The compiled WHERE clause finds a row exactly when the search wants it. */
  lemma SearchKeepsItsMeaning(q: SearchQuery, since: DateFilter -> int, row: Row, matches: Matcher)
    ensures Selected(Conditions(SearchClauses(q, since)), row, Args(SearchClauses(q, since)), matches)
        <==> Found(q, row, since, matches)
  {
    SearchClausesBind(q, since);
    CompiledMeansAll(SearchClauses(q, since), row, matches);
    SearchClausesMean(q, since, row, matches);
  }

  /** Everything a search finds, in the order it was asked for. */
  function Results(table: seq<Row>, q: SearchQuery, since: DateFilter -> int, matches: Matcher): seq<Row> {
    if table == [] then []
    else
      var rest := Results(table[1..], q, since, matches);
      if Found(q, table[0], since, matches) then [table[0]] + rest else rest
  }

  predicate Within(low: Option<int>, value: Option<int>, high: Option<int>) {
    low == high == None || (value.Some? && (low.Some? ==> low.value <= value.value) && (high.Some? ==> value.value <= high.value))
  }

  function Preset(d: Option<DurationFilter>): (Option<int>, Option<int>) {
    match d
    case None => (None, None)
    case Some(Short) => (Some(0), Some(4 * 60))
    case Some(Medium) => (Some(4 * 60), Some(20 * 60))
    case Some(Long) => (Some(20 * 60), Some(999999))
    case Some(OtherDuration) => (Some(0), Some(999999))
  }

  predicate Meets(q: SearchQuery, row: Row, since: DateFilter -> int, matches: Matcher) {
    && row.status == "ready" && row.visibility == "public" && matches(WebSearch, row.text, q.query)
    && (q.filters.categories == [] || exists c :: c in q.filters.categories && row.category == Some(c))
    && (q.filters.tags == [] || (row.tags.Some? && exists t :: t in row.tags.value && t in q.filters.tags))
    && (q.filters.quality == [] || (row.qualities.Some? && exists t :: t in row.qualities.value && t in q.filters.quality))
    && (q.filters.language.None? || row.language == q.filters.language)
    && Within(Preset(q.filters.duration).0, row.duration, Preset(q.filters.duration).1)
    && Within(q.filters.minDuration, row.duration, q.filters.maxDuration)
    && Within(q.filters.minViews, row.viewCount, q.filters.maxViews)
    && (q.filters.uploadDate.None? || since(q.filters.uploadDate.value) <= row.createdAt)
    && (!q.filters.onlyVerified || row.ownerVerified == Some(true))
  }

  /**
   Whatever is searched for, what is found is public and ready, and every filter that is set narrows
   it; each such row is found as often as the table has it, in the table's order.
   */
  lemma {:induction false} FoundExactlyWhen(
    table: seq<Row>, q: SearchQuery, since: DateFilter -> int, matches: Matcher, row: Row)
    ensures Sublists.IsSublist(Results(table, q, since, matches), table)
    ensures multiset(Results(table, q, since, matches))[row] == if Meets(q, row, since, matches) then multiset(table)[row] else 0
  {
    MeetsIsFound(q, row, since, matches);
    if table != [] {
      FoundExactlyWhen(table[1..], q, since, matches, row);
      Sublists.SublistPrepends(table[0], Results(table[1..], q, since, matches), table[1..]);
      assert table == [table[0]] + table[1..];
    }
  }

  lemma MeetsIsFound(q: SearchQuery, row: Row, since: DateFilter -> int, matches: Matcher)
    ensures Meets(q, row, since, matches) <==> Found(q, row, since, matches)
  {
  }

  lemma {:induction false} MatchingIsResults(table: seq<Row>, q: SearchQuery, since: DateFilter -> int, matches: Matcher)
    ensures Matching(table, SearchClauses(q, since), matches) == Results(table, q, since, matches)
  {
    if table != [] {
      MatchingIsResults(table[1..], q, since, matches);
      SearchClausesMean(q, since, table[0], matches);
      assert AllHold(SearchClauses(q, since), table[0], matches)
        <==> forall c :: c in SearchClauses(q, since) ==> ClauseHolds(c, table[0], matches);
    }
  }

  lemma CountingFindsResults(table: seq<Row>, q: SearchQuery, since: DateFilter -> int, matches: Matcher)
    ensures Filtered(table, Conditions(SearchClauses(q, since)), Args(SearchClauses(q, since)), matches)
         == Results(table, q, since, matches)
  {
    SearchClausesBind(q, since);
    FilteredIsMatching(table, SearchClauses(q, since), [], matches);
    assert Args(SearchClauses(q, since)) + [] == Args(SearchClauses(q, since));
    MatchingIsResults(table, q, since, matches);
  }

  lemma EmptyPage(rows: seq<Row>, limit: int, number: int)
    requires rows == [] && 1 <= limit && 1 <= number
    ensures PageOf(rows, limit, number) == []
  {
  }

  method FetchPage(table: seq<Row>, conditions: seq<Condition>, args: seq<Arg>, page: int, limit: int, matches: Matcher,
                   ghost clauses: seq<Clause>) returns (rows: Option<seq<Row>>)
    requires 1 <= page < TWO_63 && 1 <= limit <= MAX_PAGE_LIMIT
    requires conditions == Conditions(clauses) && args == Args(clauses)
    requires forall c :: c in clauses && c.arg.None? ==> NeedsNoArg(c.test)
    ensures (page - 1) * limit < TWO_63 ==> rows == Some(PageOf(Matching(table, clauses, matches), limit, page))
  {
    var skipped := (page - 1) * limit;
    var offset := Wrapped(skipped);
    rows := Executed(PageQuery(conditions, |args| + 1, |args| + 2, args + [Int(limit), Int(offset)]), table, matches);
    NothingIsSkippedBackwards(page, limit);
    if skipped < TWO_63 {
      SmallNumbersFit(skipped);
      PagedQueryIsASlice(table, clauses, limit, skipped, matches);
    }
  }

  /** One page of results and the total; `table` is in ORDER BY order. */
  method Search(table: seq<Row>, q: SearchQuery, since: DateFilter -> int, matches: Matcher)
    returns (rows: Option<seq<Row>>, total: nat)
    requires 1 <= q.page < TWO_63 && 1 <= q.limit <= MAX_PAGE_LIMIT
    ensures total == |Results(table, q, since, matches)|
    ensures (q.page - 1) * q.limit < TWO_63 ==> rows == Some(PageOf(Results(table, q, since, matches), q.limit, q.page))
  {
    var conditions, args := BuildSearchWhere(q, since);
    total := |Filtered(table, conditions, args, matches)|;
    CountingFindsResults(table, q, since, matches);
    if total == 0 {
      EmptyPage(Results(table, q, since, matches), q.limit, q.page);
      return Some([]), 0;
    }
    SearchClausesBind(q, since);
    rows := FetchPage(table, conditions, args, q.page, q.limit, matches, SearchClauses(q, since));
    MatchingIsResults(table, q, since, matches);
  }
}
