/** Listing and counting videos by filter. */
module VideoRepository {
  import opened Basics
  import opened Sql
  import opened Pagination
  import opened QueryBuilding
  import Sublists

  datatype VideoFilter = VideoFilter(
    status: Option<string>, ownerId: Option<string>, visibility: Option<string>, search: string)

  /** The characters unicode.IsSpace accepts. */
  predicate IsSpace(c: char) {
    || '\t' <= c <= '\r' || c == ' ' || c == '\U{85}' || c == '\U{A0}' || c == '\U{1680}'
    || '\U{2000}' <= c <= '\U{200a}' || c == '\U{2028}' || c == '\U{2029}' || c == '\U{202f}'
    || c == '\U{205f}' || c == '\U{3000}'
  }

  function TrimSpace(s: string): string {
    if s != [] && IsSpace(s[0]) then TrimSpace(s[1..])
    else if s != [] && IsSpace(s[|s| - 1]) then TrimSpace(s[..|s| - 1])
    else s
  }

  predicate OnlySpaces(s: string) {
    forall k :: 0 <= k < |s| ==> IsSpace(s[k])
  }

  /** No space is left at either end. */
  lemma {:induction false} TrimmedEnds(s: string)
    ensures TrimSpace(s) != "" ==> !IsSpace(TrimSpace(s)[0]) && !IsSpace(TrimSpace(s)[|TrimSpace(s)| - 1])
    decreases |s|
  {
    if s != [] && IsSpace(s[0]) {
      TrimmedEnds(s[1..]);
    } else if s != [] && IsSpace(s[|s| - 1]) {
      TrimmedEnds(s[..|s| - 1]);
    }
  }

  lemma SpacesGrow(c: char, spaces: string)
    requires IsSpace(c) && OnlySpaces(spaces)
    ensures OnlySpaces([c] + spaces) && OnlySpaces(spaces + [c])
  {
  }

  /** Nothing but spaces is cut off, and no space is left at either end. */
  lemma {:induction false} TrimmingCutsSpaces(s: string) returns (left: string, right: string)
    ensures s == left + TrimSpace(s) + right && OnlySpaces(left) && OnlySpaces(right)
    ensures TrimSpace(s) != "" ==> !IsSpace(TrimSpace(s)[0]) && !IsSpace(TrimSpace(s)[|TrimSpace(s)| - 1])
    decreases |s|
  {
    TrimmedEnds(s);
    left, right := "", "";
    if s != [] && IsSpace(s[0]) {
      var inner := s[1..];
      left, right := TrimmingCutsSpaces(inner);
      CutInFront(s[0], left, TrimSpace(inner), right);
      SpacesGrow(s[0], left);
      assert s == [s[0]] + inner && TrimSpace(s) == TrimSpace(inner);
      left := [s[0]] + left;
    } else if s != [] && IsSpace(s[|s| - 1]) {
      var inner := s[..|s| - 1];
      left, right := TrimmingCutsSpaces(inner);
      CutBehind(left, TrimSpace(inner), right, s[|s| - 1]);
      SpacesGrow(s[|s| - 1], right);
      assert s == inner + [s[|s| - 1]] && TrimSpace(s) == TrimSpace(inner);
      right := right + [s[|s| - 1]];
    }
  }

  lemma CutInFront(c: char, left: string, kept: string, right: string)
    ensures [c] + (left + kept + right) == ([c] + left) + kept + right
  {
  }

  lemma CutBehind(left: string, kept: string, right: string, c: char)
    ensures (left + kept + right) + [c] == left + kept + (right + [c])
  {
  }

  /** So a search is empty exactly when it is all spaces, and one without spaces around it is left alone. */
  lemma TrimmedExactlyWhen(s: string)
    ensures TrimSpace(s) == "" <==> OnlySpaces(s)
    ensures TrimSpace(s) == s <==> s == "" || (!IsSpace(s[0]) && !IsSpace(s[|s| - 1]))
    ensures IsSpace(' ') && IsSpace('\t') && IsSpace('\n') && !IsSpace('a') && !IsSpace('%')
  {
    var left, right := TrimmingCutsSpaces(s);
    if TrimSpace(s) != "" {
      assert s[|left|] == TrimSpace(s)[0];
    }
  }

  function IfSet(test: Test, value: Option<string>): seq<Clause> {
    if value.Some? then [Clause(test, Some(Str(value.value)))] else []
  }

  function FilterClauses(f: VideoFilter): seq<Clause> {
    var search := TrimSpace(f.search);
    IfSet(StatusIs, f.status) + IfSet(OwnerIs, f.ownerId) + IfSet(VisibilityIs, f.visibility)
    + IfSet(TextMatches(Plain), if search != "" then Some(search) else None)
  }

  method AddIfSet(b: Builder, test: Test, value: Option<string>)
    requires b.Valid()
    modifies b
    ensures b.Valid() && b.clauses == old(b.clauses) + IfSet(test, value)
  {
    if value.Some? {
      b.Add(test, Str(value.value));
    }
  }

  /** What a filter asks of a row. A video without an owner belongs to no owner asked for. */
  predicate Wanted(f: VideoFilter, row: Row, matches: Matcher) {
    && (f.status.Some? ==> row.status == f.status.value)
    && (f.ownerId.Some? ==> row.ownerId == f.ownerId)
    && (f.visibility.Some? ==> row.visibility == f.visibility.value)
    && (TrimSpace(f.search) != "" ==> matches(Plain, row.text, TrimSpace(f.search)))
  }

  method BuildFilter(f: VideoFilter) returns (conditions: seq<Condition>, args: seq<Arg>)
    ensures conditions == Conditions(FilterClauses(f)) && args == Args(FilterClauses(f))
  {
    var b := new Builder();
    AddIfSet(b, StatusIs, f.status);
    AddIfSet(b, OwnerIs, f.ownerId);
    AddIfSet(b, VisibilityIs, f.visibility);
    var search := TrimSpace(f.search);
    AddIfSet(b, TextMatches(Plain), if search != "" then Some(search) else None);
    assert b.clauses == FilterClauses(f);
    conditions, args := b.conditions, b.args;
  }

  /** The compiled WHERE clause selects a row exactly when the filter wants it. */
  lemma FilterKeepsItsMeaning(f: VideoFilter, row: Row, matches: Matcher)
    ensures Selected(Conditions(FilterClauses(f)), row, Args(FilterClauses(f)), matches) <==> Wanted(f, row, matches)
  {
    CompiledMeansAll(FilterClauses(f), row, matches);
    AllFilterClausesHold(f, row, matches);
  }

  lemma AllFilterClausesHold(f: VideoFilter, row: Row, matches: Matcher)
    ensures AllHold(FilterClauses(f), row, matches) <==> Wanted(f, row, matches)
  {
    var search := TrimSpace(f.search);
    var text := if search != "" then Some(search) else None;
    FourHold(IfSet(StatusIs, f.status), IfSet(OwnerIs, f.ownerId), IfSet(VisibilityIs, f.visibility),
             IfSet(TextMatches(Plain), text), row, matches);
    IfSetMeans(StatusIs, f.status, row, matches);
    IfSetMeans(OwnerIs, f.ownerId, row, matches);
    IfSetMeans(VisibilityIs, f.visibility, row, matches);
    IfSetMeans(TextMatches(Plain), text, row, matches);
  }

  lemma IfSetMeans(test: Test, value: Option<string>, row: Row, matches: Matcher)
    ensures AllHold(IfSet(test, value), row, matches)
       <==> (value.Some? ==> ClauseHolds(Clause(test, Some(Str(value.value))), row, matches))
  {
    OneHolds(Clause(test, Some(Str(if value.Some? then value.value else ""))), row, matches);
  }

  /** The rows a filter wants, in listing order. */
  function Listing(table: seq<Row>, f: VideoFilter, matches: Matcher): seq<Row> {
    if table == [] then []
    else
      var rest := Listing(table[1..], f, matches);
      if Wanted(f, table[0], matches) then [table[0]] + rest else rest
  }

  predicate Meets(f: VideoFilter, row: Row, matches: Matcher) {
    && (f.status.None? || f.status == Some(row.status))
    && (f.ownerId.None? || f.ownerId == row.ownerId)
    && (f.visibility.None? || f.visibility == Some(row.visibility))
    && (OnlySpaces(f.search) || matches(Plain, row.text, TrimSpace(f.search)))
  }

  /**
   A listing has just the rows of the table that meet every field set, a search of nothing
   but spaces being none, each as often as the table has it and in the table's order.
   */
  lemma {:induction false} ListedExactlyWhen(table: seq<Row>, f: VideoFilter, matches: Matcher, row: Row)
    ensures Sublists.IsSublist(Listing(table, f, matches), table)
    ensures multiset(Listing(table, f, matches))[row] == if Meets(f, row, matches) then multiset(table)[row] else 0
  {
    TrimmedExactlyWhen(f.search);
    if table != [] {
      ListedExactlyWhen(table[1..], f, matches, row);
      Sublists.SublistPrepends(table[0], Listing(table[1..], f, matches), table[1..]);
      assert table == [table[0]] + table[1..];
    }
  }

  lemma {:induction false} MatchingIsListing(table: seq<Row>, f: VideoFilter, matches: Matcher)
    ensures Matching(table, FilterClauses(f), matches) == Listing(table, f, matches)
  {
    if table != [] {
      MatchingIsListing(table[1..], f, matches);
      AllFilterClausesHold(f, table[0], matches);
    }
  }

  lemma AllFilterClausesBind(f: VideoFilter)
    ensures forall c :: c in FilterClauses(f) && c.arg.None? ==> NeedsNoArg(c.test)
  {
  }

  /** One page; `table` is in ORDER BY order, and None stands for PostgreSQL rejecting the offset. */
  method List(table: seq<Row>, f: VideoFilter, page: Page, matches: Matcher) returns (rows: Option<seq<Row>>)
    requires 1 <= page.limit
    ensures rows == if 0 <= page.offset then Some(Slice(Listing(table, f, matches), page.limit, page.offset)) else None
  {
    var conditions, args := BuildFilter(f);
    var query := PageQuery(conditions, |args| + 1, |args| + 2, args + [Int(page.limit), Int(page.offset)]);
    rows := Executed(query, table, matches);
    AllFilterClausesBind(f);
    PagedQueryIsASlice(table, FilterClauses(f), page.limit, page.offset, matches);
    MatchingIsListing(table, f, matches);
  }

  method Count(table: seq<Row>, f: VideoFilter, matches: Matcher) returns (n: nat)
    ensures n == |Listing(table, f, matches)|
  {
    var conditions, args := BuildFilter(f);
    n := |Filtered(table, conditions, args, matches)|;
    AllFilterClausesBind(f);
    FilteredIsMatching(table, FilterClauses(f), [], matches);
    assert args + [] == args;
    MatchingIsListing(table, f, matches);
  }
}
