/**
 The fragment of SQL the repositories build: a WHERE clause that is a
 conjunction of tests with numbered placeholders, evaluated in SQL's
 three-valued logic, and LIMIT/OFFSET placeholders after it.
 */
module Sql {
  import opened Basics

  datatype Arg = Str(s: string) | Int(n: int) | Strs(ss: seq<string>)

  /** One video joined with its uploader; None is NULL. `text` stands for the search vector. */
  datatype Row = Row(
    id: string,
    status: string,
    visibility: string,
    ownerId: Option<string>,
    category: Option<string>,
    tags: Option<seq<string>>,
    language: Option<string>,
    qualities: Option<seq<string>>,
    duration: Option<int>,
    viewCount: Option<int>,
    createdAt: int,
    ownerVerified: Option<bool>,
    text: string)

  datatype Parser = Plain | WebSearch

  /** Full-text matching is PostgreSQL's business: any predicate will do. */
  type Matcher = (Parser, string, string) -> bool

  datatype Test =
    | StatusIs | OwnerIs | VisibilityIs
    | TextMatches(parser: Parser)
    | CategoryIn | TagsOverlap | LanguageIs | QualitiesOverlap
    | DurationAtLeast | DurationAtMost
    | CreatedAtLeast
    | ViewsAtLeast | ViewsAtMost
    | OwnerVerified
    | PublicAndReady

  /** A test and the number of its placeholder; 0 for a test that has none. */
  datatype Condition = Condition(test: Test, placeholder: nat)

  predicate Overlap(a: seq<string>, b: seq<string>) {
    exists x :: x in a && x in b
  }

  function StrTest(column: Option<string>, arg: Arg, f: (string, string) -> bool): Option<bool> {
    if column.Some? && arg.Str? then Some(f(column.value, arg.s)) else None
  }

  function IntTest(column: Option<int>, arg: Arg, f: (int, int) -> bool): Option<bool> {
    if column.Some? && arg.Int? then Some(f(column.value, arg.n)) else None
  }

  /** One test on one row: None is SQL's UNKNOWN. */
  function Eval(test: Test, row: Row, arg: Arg, matches: Matcher): Option<bool> {
    match test
    case StatusIs => StrTest(Some(row.status), arg, (x, y) => x == y)
    case OwnerIs => StrTest(row.ownerId, arg, (x, y) => x == y)
    case VisibilityIs => StrTest(Some(row.visibility), arg, (x, y) => x == y)
    case TextMatches(parser) => StrTest(Some(row.text), arg, (x, y) => matches(parser, x, y))
    case CategoryIn => if row.category.Some? && arg.Strs? then Some(row.category.value in arg.ss) else None
    case TagsOverlap => if row.tags.Some? && arg.Strs? then Some(Overlap(row.tags.value, arg.ss)) else None
    case LanguageIs => StrTest(row.language, arg, (x, y) => x == y)
    case QualitiesOverlap => if row.qualities.Some? && arg.Strs? then Some(Overlap(row.qualities.value, arg.ss)) else None
    case DurationAtLeast => IntTest(row.duration, arg, (x, y) => x >= y)
    case DurationAtMost => IntTest(row.duration, arg, (x, y) => x <= y)
    case CreatedAtLeast => IntTest(Some(row.createdAt), arg, (x, y) => x >= y)
    case ViewsAtLeast => IntTest(row.viewCount, arg, (x, y) => x >= y)
    case ViewsAtMost => IntTest(row.viewCount, arg, (x, y) => x <= y)
    case OwnerVerified => row.ownerVerified
    case PublicAndReady => Some(row.status == "ready" && row.visibility == "public")
  }

  function ArgAt(args: seq<Arg>, placeholder: nat): Arg {
    if 1 <= placeholder <= |args| then args[placeholder - 1] else Int(0)
  }

  /** AND in three-valued logic: false beats unknown, unknown beats true. */
  function And(a: Option<bool>, b: Option<bool>): Option<bool> {
    if (a.Some? && !a.value) || (b.Some? && !b.value) then Some(false)
    else if a.None? || b.None? then None
    else Some(true)
  }

  function Where(conditions: seq<Condition>, row: Row, args: seq<Arg>, matches: Matcher): Option<bool> {
    if conditions == [] then Some(true)
    else
      var last := conditions[|conditions| - 1];
      And(Where(conditions[..|conditions| - 1], row, args, matches), Eval(last.test, row, ArgAt(args, last.placeholder), matches))
  }

  /** A SELECT keeps the rows whose WHERE clause is true, not merely unknown. */
  predicate Selected(conditions: seq<Condition>, row: Row, args: seq<Arg>, matches: Matcher) {
    Where(conditions, row, args, matches) == Some(true)
  }

  function Filtered(table: seq<Row>, conditions: seq<Condition>, args: seq<Arg>, matches: Matcher): seq<Row> {
    if table == [] then []
    else
      var rest := Filtered(table[1..], conditions, args, matches);
      if Selected(conditions, table[0], args, matches) then [table[0]] + rest else rest
  }

  function Slice<T>(rows: seq<T>, limit: int, offset: int): seq<T>
    requires 0 <= limit && 0 <= offset
  {
    rows[Min(offset, |rows|)..Min(offset + limit, |rows|)]
  }

  // ---- Compiling a list of clauses ----

  /** What a set filter field contributes: a test, and the value to bind if it takes one. */
  datatype Clause = Clause(test: Test, arg: Option<Arg>)

  predicate ClauseHolds(c: Clause, row: Row, matches: Matcher) {
    Eval(c.test, row, if c.arg.Some? then c.arg.value else Int(0), matches) == Some(true)
  }

  predicate AllHold(clauses: seq<Clause>, row: Row, matches: Matcher) {
    forall c :: c in clauses ==> ClauseHolds(c, row, matches)
  }

  lemma AllHoldAppends(a: seq<Clause>, b: seq<Clause>, row: Row, matches: Matcher)
    ensures AllHold(a + b, row, matches) <==> AllHold(a, row, matches) && AllHold(b, row, matches)
  {
    if AllHold(a + b, row, matches) {
      assert forall c :: c in a ==> c in a + b;
      assert forall c :: c in b ==> c in a + b;
    }
  }

  lemma FourHold(a: seq<Clause>, b: seq<Clause>, c: seq<Clause>, d: seq<Clause>, row: Row, matches: Matcher)
    ensures AllHold(a + b + c + d, row, matches)
        <==> AllHold(a, row, matches) && AllHold(b, row, matches) && AllHold(c, row, matches) && AllHold(d, row, matches)
  {
    AllHoldAppends(a, b, row, matches);
    AllHoldAppends(a + b, c, row, matches);
    AllHoldAppends(a + b + c, d, row, matches);
  }

  lemma OneHolds(c: Clause, row: Row, matches: Matcher)
    ensures AllHold([c], row, matches) <==> ClauseHolds(c, row, matches)
    ensures AllHold([], row, matches)
  {
    assert c in [c];
  }

  function Args(clauses: seq<Clause>): seq<Arg> {
    if clauses == [] then []
    else
      var last := clauses[|clauses| - 1];
      Args(clauses[..|clauses| - 1]) + if last.arg.Some? then [last.arg.value] else []
  }

  /** Placeholders are numbered in the order their values were bound. */
  function Conditions(clauses: seq<Clause>): seq<Condition> {
    if clauses == [] then []
    else
      var last := clauses[|clauses| - 1];
      Conditions(clauses[..|clauses| - 1])
      + [Condition(last.test, if last.arg.Some? then |Args(clauses)| else 0)]
  }

  lemma {:induction false} PlaceholdersAreBound(clauses: seq<Clause>)
    ensures forall i :: 0 <= i < |Conditions(clauses)| ==> Conditions(clauses)[i].placeholder <= |Args(clauses)|
  {
    if clauses != [] {
      PlaceholdersAreBound(clauses[..|clauses| - 1]);
    }
  }

  /** A bare clause before a bound one: the first value bound is $1. */
  lemma FirstValueIsFirstArgument(bare: Clause, bound: Clause)
    requires bare.arg.None? && bound.arg.Some?
    ensures Args([bare, bound]) == [bound.arg.value]
    ensures Conditions([bare, bound]) == [Condition(bare.test, 0), Condition(bound.test, 1)]
  {
    assert [bare, bound][..1] == [bare] && [bare][..0] == [];
    assert Args([bare]) == [] && Conditions([bare]) == [Condition(bare.test, 0)];
  }

  /** Later clauses change neither the conditions nor the arguments of earlier ones. */
  lemma {:induction false} LaterClausesAppend(clauses: seq<Clause>, more: seq<Clause>)
    ensures Args(clauses) <= Args(clauses + more) && Conditions(clauses) <= Conditions(clauses + more)
  {
    if more == [] {
      assert clauses + more == clauses;
    } else {
      assert (clauses + more)[..|clauses + more| - 1] == clauses + more[..|more| - 1];
      LaterClausesAppend(clauses, more[..|more| - 1]);
    }
  }

  /** Values bound later leave earlier placeholders alone. */
  lemma {:induction false} LaterArgsDoNotMatter(conditions: seq<Condition>, row: Row, args: seq<Arg>, more: seq<Arg>, matches: Matcher)
    requires forall i :: 0 <= i < |conditions| ==> conditions[i].placeholder <= |args|
    ensures Where(conditions, row, args + more, matches) == Where(conditions, row, args, matches)
  {
    if conditions != [] {
      LaterArgsDoNotMatter(conditions[..|conditions| - 1], row, args, more, matches);
    }
  }

  predicate NeedsNoArg(test: Test) {
    test.OwnerVerified? || test.PublicAndReady?
  }

  /** The compiled clause selects exactly the rows on which every clause holds. */
  lemma {:induction false} CompiledMeansAll(clauses: seq<Clause>, row: Row, matches: Matcher)
    requires forall c :: c in clauses && c.arg.None? ==> NeedsNoArg(c.test)
    ensures Selected(Conditions(clauses), row, Args(clauses), matches)
        <==> forall c :: c in clauses ==> ClauseHolds(c, row, matches)
  {
    if clauses != [] {
      var before, last := clauses[..|clauses| - 1], clauses[|clauses| - 1];
      assert clauses == before + [last];
      assert forall c :: c in clauses <==> c in before || c == last;
      CompiledMeansAll(before, row, matches);
      PlaceholdersAreBound(before);
      var more := if last.arg.Some? then [last.arg.value] else [];
      LaterArgsDoNotMatter(Conditions(before), row, Args(before), more, matches);
      assert Args(clauses) == Args(before) + more;
      var condition := Condition(last.test, if last.arg.Some? then |Args(clauses)| else 0);
      assert Conditions(clauses) == Conditions(before) + [condition];
      var all := Conditions(clauses);
      assert all[..|all| - 1] == Conditions(before) && all[|all| - 1] == condition;
      assert Where(all, row, Args(clauses), matches)
          == And(Where(Conditions(before), row, Args(before), matches),
                 Eval(last.test, row, ArgAt(Args(clauses), condition.placeholder), matches));
      assert ArgAt(Args(clauses), condition.placeholder) == if last.arg.Some? then last.arg.value else Int(0);
      assert Selected(all, row, Args(clauses), matches)
        <==> Selected(Conditions(before), row, Args(before), matches) && ClauseHolds(last, row, matches);
      assert last in clauses && forall c :: c in before ==> c in clauses;
    }
  }

  // ---- A page of a listing ----

  /** SELECT ... WHERE conditions ORDER BY ... LIMIT $l OFFSET $o, with its bound arguments. */
  datatype PageQuery = PageQuery(conditions: seq<Condition>, limitAt: nat, offsetAt: nat, args: seq<Arg>)

  /** `table` is in the query's order. None is the error PostgreSQL raises for a bad LIMIT or OFFSET. */
  function Executed(q: PageQuery, table: seq<Row>, matches: Matcher): Option<seq<Row>> {
    var limit, offset := ArgAt(q.args, q.limitAt), ArgAt(q.args, q.offsetAt);
    if limit.Int? && offset.Int? && 0 <= limit.n && 0 <= offset.n then
      Some(Slice(Filtered(table, q.conditions, q.args, matches), limit.n, offset.n))
    else None
  }

  function Paged(clauses: seq<Clause>, limit: int, offset: int): PageQuery {
    var args := Args(clauses);
    PageQuery(Conditions(clauses), |args| + 1, |args| + 2, args + [Int(limit), Int(offset)])
  }

  /** The rows a list of clauses is about. */
  function Matching(table: seq<Row>, clauses: seq<Clause>, matches: Matcher): seq<Row> {
    if table == [] then []
    else
      var rest := Matching(table[1..], clauses, matches);
      if forall c :: c in clauses ==> ClauseHolds(c, table[0], matches) then [table[0]] + rest else rest
  }

  lemma {:induction false} FilteredIsMatching(table: seq<Row>, clauses: seq<Clause>, more: seq<Arg>, matches: Matcher)
    requires forall c :: c in clauses && c.arg.None? ==> NeedsNoArg(c.test)
    ensures Filtered(table, Conditions(clauses), Args(clauses) + more, matches) == Matching(table, clauses, matches)
  {
    if table != [] {
      FilteredIsMatching(table[1..], clauses, more, matches);
      PlaceholdersAreBound(clauses);
      LaterArgsDoNotMatter(Conditions(clauses), table[0], Args(clauses), more, matches);
      CompiledMeansAll(clauses, table[0], matches);
    }
  }

  /** LIMIT and OFFSET bind to the two arguments appended last, and disturb nothing before them. */
  lemma PagedQueryIsASlice(table: seq<Row>, clauses: seq<Clause>, limit: int, offset: int, matches: Matcher)
    requires forall c :: c in clauses && c.arg.None? ==> NeedsNoArg(c.test)
    ensures Executed(Paged(clauses, limit, offset), table, matches)
         == if 0 <= limit && 0 <= offset then Some(Slice(Matching(table, clauses, matches), limit, offset)) else None
  {
    FilteredIsMatching(table, clauses, [Int(limit), Int(offset)], matches);
  }
}
