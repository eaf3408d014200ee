/**
 * The page-count calculator of the report generator.
 *
 * The first page carries the title, logo and link block and has room for
 * 24 table rows; every later page has room for 29. The total is computed
 * from the number of selected records before any content is written, so
 * that it can be handed to the page-event object before the first page.
 */
module Pagination {

  /** Rows that fit on the first page, under the title block. */
  const FirstPageRows: nat := 24

  /** Rows that fit on each page after the first. */
  const LaterPageRows: nat := 29

  /** Least integer not below `x` (the model of Math.Ceiling on exact reals). */
  function Ceiling(x: real): (c: int)
    ensures (c as real) - 1.0 < x <= c as real
  {
    -((-x).Floor)
  }

  /** Rows that `pages` pages can hold: a first page plus `pages - 1` later pages. */
  function Capacity(pages: nat): (rows: int)
    requires pages >= 1
    ensures rows >= FirstPageRows
  {
    FirstPageRows + LaterPageRows * (pages - 1)
  }

  /**
   * The total page count for `rows` selected records: one page, plus as many
   * later pages as the rows beyond the first page need, the division done on
   * exact reals and rounded up. The result holds every row, and one page
   * fewer would not.
   */
  function TotalPages(rows: nat): (pages: nat)
    ensures pages >= 1
    ensures rows <= Capacity(pages)
    ensures pages > 1 ==> Capacity(pages - 1) < rows
  {
    if rows > FirstPageRows then
      var extra := Ceiling((rows - FirstPageRows) as real / LaterPageRows as real);
      assert extra >= 1;
      1 + extra
    else
      1
  }

  /** The page count is the least number of pages whose capacity holds every row. */
  lemma TotalPagesIsLeast(rows: nat, pages: nat)
    requires pages >= 1 && rows <= Capacity(pages)
    ensures TotalPages(rows) <= pages
  {
  }

  /** More rows never need fewer pages. */
  lemma TotalPagesMonotone(rows: nat, more: nat)
    requires rows <= more
    ensures TotalPages(rows) <= TotalPages(more)
  {
    TotalPagesIsLeast(rows, TotalPages(more));
  }

  /**
   * The real-number ceiling agrees with integer ceiling division, so the
   * count can be computed without any fractional arithmetic.
   */
  lemma TotalPagesIntegral(rows: nat)
    ensures TotalPages(rows) ==
      if rows <= FirstPageRows then 1
      else 1 + (rows - FirstPageRows + LaterPageRows - 1) / LaterPageRows
  {
    if rows > FirstPageRows {
      var q := (rows - FirstPageRows + LaterPageRows - 1) / LaterPageRows;
      assert Capacity(1 + q) >= rows;
      assert q >= 1 ==> Capacity(q) < rows;
    }
  }

  /** The worked examples of the calculator: 0, 1, 24, 25, 53 and 54 rows. */
  lemma TotalPagesExamples()
    ensures TotalPages(0) == 1 && TotalPages(1) == 1 && TotalPages(24) == 1
    ensures TotalPages(25) == 2 && TotalPages(53) == 2 && TotalPages(54) == 3
  {
    TotalPagesIntegral(0);
    TotalPagesIntegral(1);
    TotalPagesIntegral(24);
    TotalPagesIntegral(25);
    TotalPagesIntegral(53);
    TotalPagesIntegral(54);
  }

  /** At most 100 selected records, as the program selects, never need more than four pages. */
  lemma TotalPagesAtMostFour(rows: nat)
    requires rows <= 100
    ensures TotalPages(rows) <= 4
  {
    TotalPagesIsLeast(rows, 4);
  }
}
