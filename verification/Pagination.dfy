/** Page numbers in, limit and offset to the database, page metadata out. */
module Pagination {
  import opened Basics
  import opened Sql

  const DEFAULT_PAGE_LIMIT := 20
  const MAX_PAGE_LIMIT := 100
  const TWO_63 := 0x8000_0000_0000_0000

  datatype Page = Page(limit: int, offset: int)

  datatype Meta = Meta(total: int, page: int, limit: int, totalPages: int, hasNext: bool, hasPrevious: bool)

  /** What a product becomes in Go's 64-bit int. */
  function Wrapped(n: int): int {
    (n + TWO_63) % (2 * TWO_63) - TWO_63
  }

  lemma SmallNumbersFit(n: int)
    requires 0 <= n < TWO_63
    ensures Wrapped(n) == n
  {
  }

  lemma NothingIsSkippedBackwards(number: int, limit: int)
    requires 1 <= number && 0 <= limit
    ensures 0 <= (number - 1) * limit
  {
  }

  /** Go's integer division truncates toward zero. */
  function Quotient(a: int, b: int): int
    requires 0 < b
  {
    if 0 <= a then a / b else -(-a / b)
  }

  /** `page` and `limit` are None when the parameter is not a 64-bit integer. */
  function ParsePage(page: Option<int>, limit: Option<int>): (p: Page)
    ensures 1 <= p.limit <= MAX_PAGE_LIMIT
  {
    var number := if page.None? || page.value < 1 then 1 else page.value;
    var size := if limit.None? || limit.value < 1 then DEFAULT_PAGE_LIMIT else Min(limit.value, MAX_PAGE_LIMIT);
    Page(size, Wrapped((number - 1) * size))
  }

  function PaginationMeta(total: int, page: Page): Meta
    requires 0 < page.limit
  {
    var current := Quotient(page.offset, page.limit) + 1;
    var pages := Quotient(total + page.limit - 1, page.limit);
    Meta(total, current, page.limit, pages, current < pages, 1 < current)
  }

  /** Anything but a number from 1 up asks for page 1, and for 20 rows a page; more than 100 rows a page are cut to 100. */
  lemma PagesAskedFor(page: Option<int>, limit: Option<int>)
    ensures page.None? || page.value <= 1 ==> ParsePage(page, limit).offset == 0
    ensures limit.None? || limit.value < 1 ==> ParsePage(page, limit).limit == 20
    ensures limit.Some? && 1 <= limit.value <= 100 ==> ParsePage(page, limit).limit == limit.value
    ensures limit.Some? && 100 < limit.value ==> ParsePage(page, limit).limit == 100
  {
  }

  /** The offset is the intended one exactly when it still fits in 63 bits. */
  lemma OffsetIsRightUnlessItOverflows(number: int, limit: Option<int>)
    requires 1 <= number < 0x8000_0000_0000_0000
    ensures var p := ParsePage(Some(number), limit);
            p.offset == (number - 1) * p.limit <==> (number - 1) * p.limit < 0x8000_0000_0000_0000
  {
    var p := ParsePage(Some(number), limit);
    var skipped := (number - 1) * p.limit;
    NothingIsSkippedBackwards(number, p.limit);
    if skipped < TWO_63 {
      SmallNumbersFit(skipped);
    } else {
      WrappedFallsShort(skipped);
    }
  }

  /** What remains of an offset that does not fit belongs to an earlier page. */
  lemma WrappedFallsShort(n: int)
    requires TWO_63 <= n
    ensures Wrapped(n) < n
  {
  }

  lemma QuotientFallsShort(offset: int, number: int, limit: int)
    requires 1 <= limit && 0 < number && offset < number * limit
    ensures Quotient(offset, limit) < number
  {
    if 0 <= offset {
      DivisionBounds(offset, limit);
      if number <= offset / limit {
        Monotone(number, offset / limit, limit);
      }
    }
  }

  /** A page is answered under its own number exactly when its offset fits in 63 bits. */
  lemma PageNumberIsRightExactlyWhen(total: nat, number: int, limit: Option<int>)
    requires 1 <= number < TWO_63
    ensures var p := ParsePage(Some(number), limit);
            PaginationMeta(total, p).page == number <==> (number - 1) * p.limit < TWO_63
  {
    var p := ParsePage(Some(number), limit);
    NothingIsSkippedBackwards(number, p.limit);
    if (number - 1) * p.limit < TWO_63 {
      SmallNumbersFit((number - 1) * p.limit);
      ExactDivision(p.limit, number - 1);
    } else {
      WrappedFallsShort((number - 1) * p.limit);
      QuotientFallsShort(p.offset, number - 1, p.limit);
    }
  }

  /** Asking for page 2^62 + 1, four rows a page, is answered with page 1. */
  lemma HugePageNumberIsAnsweredWithPageOne(total: nat)
    ensures var p := ParsePage(Some(0x4000_0000_0000_0001), Some(4));
            p == Page(4, 0) && PaginationMeta(total, p).page == 1
  {
  }

  lemma DivisionBounds(a: int, b: int)
    requires 0 < b
    ensures a / b * b <= a < (a / b + 1) * b
  {
    assert a == b * (a / b) + a % b;
  }

  lemma PageCount(total: nat, limit: int)
    requires 1 <= limit
    ensures var pages := (total + limit - 1) / limit;
            0 <= pages && pages * limit - limit < total <= pages * limit
  {
    DivisionBounds(total + limit - 1, limit);
    var pages := (total + limit - 1) / limit;
    assert (pages + 1) * limit == pages * limit + limit;
  }

  /** Rows on page `number`, counting from 1. */
  function PageOf<T>(rows: seq<T>, limit: int, number: int): seq<T>
    requires 1 <= limit && 1 <= number
  {
    Slice(rows, limit, (number - 1) * limit)
  }

  function Pages<T>(rows: seq<T>, limit: int, count: nat): seq<T>
    requires 1 <= limit
  {
    if count == 0 then [] else Pages(rows, limit, count - 1) + PageOf(rows, limit, count)
  }

  lemma {:induction false} PagesArePrefix<T>(rows: seq<T>, limit: int, count: nat)
    requires 1 <= limit
    ensures Pages(rows, limit, count) == rows[..Min(count * limit, |rows|)]
  {
    if count > 0 {
      PagesArePrefix(rows, limit, count - 1);
      assert (count - 1) * limit + limit == count * limit;
    }
  }

  /** Pages 1 to TotalPages, put end to end, are the whole listing: no row twice, none missed. */
  lemma {:induction false} PagesCoverTheListing<T>(rows: seq<T>, page: Page)
    requires 1 <= page.limit
    ensures Pages(rows, page.limit, PaginationMeta(|rows|, page).totalPages) == rows
  {
    var pages := PaginationMeta(|rows|, page).totalPages;
    PageCount(|rows|, page.limit);
    PagesArePrefix(rows, page.limit, pages);
    assert Min(pages * page.limit, |rows|) == |rows|;
    assert rows[..|rows|] == rows;
  }

  lemma MetaOfPage(total: nat, number: int, limit: int)
    requires 1 <= number && 1 <= limit
    ensures var m := PaginationMeta(total, Page(limit, (number - 1) * limit));
            && m.page == number
            && (m.hasNext <==> number * limit < total)
            && (m.hasPrevious <==> 1 < number)
            && (number <= m.totalPages <==> (number - 1) * limit < total)
  {
    var pages := (total + limit - 1) / limit;
    NothingIsSkippedBackwards(number, limit);
    ExactDivision(limit, number - 1);
    PageCount(total, limit);
    PagesReached(number, pages, limit, total);
    MetaFrom(total, Page(limit, (number - 1) * limit), number, pages);
  }

  lemma MetaFrom(total: nat, page: Page, number: int, pages: int)
    requires 1 <= page.limit && 0 <= page.offset
    requires page.offset / page.limit == number - 1 && (total + page.limit - 1) / page.limit == pages
    ensures PaginationMeta(total, page) == Meta(total, number, page.limit, pages, number < pages, 1 < number)
  {
  }

  /**
   On every page whose offset did not overflow, the metadata tells the truth:
   the page number is the one asked for, HasNext says whether rows follow, and
   a page up to TotalPages is never empty.
   */
  lemma MetaTellsTheTruth<T>(rows: seq<T>, number: int, limit: Option<int>)
    requires 1 <= number < TWO_63
    requires (number - 1) * ParsePage(Some(number), limit).limit < TWO_63
    ensures var p := ParsePage(Some(number), limit);
            var m := PaginationMeta(|rows|, p);
            && m.page == number
            && (m.hasNext <==> number * p.limit < |rows|)
            && (m.hasPrevious <==> 1 < number)
            && (number <= m.totalPages <==> p.offset < |rows|)
            && p.offset == (number - 1) * p.limit
  {
    var p := ParsePage(Some(number), limit);
    OffsetIsRightUnlessItOverflows(number, limit);
    MetaOfPage(|rows|, number, p.limit);
    assert p == Page(p.limit, (number - 1) * p.limit);
  }

  /** A page begins before the last row exactly when it is among the pages. */
  lemma PagesReached(number: int, pages: int, limit: int, total: int)
    requires 1 <= limit && pages * limit - limit < total <= pages * limit
    ensures number <= pages <==> (number - 1) * limit < total
    ensures number < pages <==> number * limit < total
  {
    assert number * limit == (number - 1) * limit + limit;
    assert (number + 1) * limit == number * limit + limit;
    Monotone(number, pages, limit);
    Monotone(pages, number - 1, limit);
    Monotone(number + 1, pages, limit);
    Monotone(pages, number, limit);
  }

  lemma Monotone(a: int, b: int, m: int)
    requires 1 <= m
    ensures a <= b ==> a * m <= b * m
  {
  }

  lemma ExactDivision(b: int, q: int)
    requires 0 < b
    ensures (q * b) / b == q
  {
    DivisionBounds(q * b, b);
    var r := (q * b) / b;
    assert (q - r) * b == q * b - r * b;
    if q - r >= 1 {
      Monotone(1, q - r, b);
    }
    if q - r <= -1 {
      Monotone(q - r, -1, b);
    }
  }
}
