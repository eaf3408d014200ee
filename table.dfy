/**
 * The PDF library's table as the report uses it: a fixed column count, the
 * rows completed so far, and the cells of the row being filled. Appending
 * the cell that fills the pending row turns it into a completed row; the
 * number of completed rows is what the report reads as the table's row
 * count when it picks a background.
 */
module PdfTable {
  import opened Styling

  /** The elements of `rows`, row after row. */
  function Flatten<T>(rows: seq<seq<T>>): seq<T>
  {
    if rows == [] then [] else Flatten(rows[..|rows| - 1]) + rows[|rows| - 1]
  }

  /** Every row has `width` cells. */
  predicate Uniform<T>(rows: seq<seq<T>>, width: nat)
  {
    forall k :: 0 <= k < |rows| ==> |rows[k]| == width
  }

  /** Dropping the last row keeps the other rows full. */
  lemma UniformInit<T>(rows: seq<seq<T>>, width: nat)
    requires Uniform(rows, width) && rows != []
    ensures Uniform(rows[..|rows| - 1], width) && |rows[|rows| - 1]| == width
  {
  }

  /** A grid of full rows flattens to `width` cells per row. */
  lemma {:induction false} FlattenLength<T>(rows: seq<seq<T>>, width: nat)
    requires Uniform(rows, width)
    ensures |Flatten(rows)| == width * |rows|
  {
    if rows != [] {
      UniformInit(rows, width);
      FlattenLength(rows[..|rows| - 1], width);
      MulSucc(width, |rows| - 1);
    }
  }

  /** In a flattened grid of full rows, cell `j` of row `k` sits at `width * k + j`. */
  lemma {:induction false} FlattenAt<T>(rows: seq<seq<T>>, width: nat, k: nat, j: nat)
    requires Uniform(rows, width) && k < |rows| && j < width
    ensures width * k + j < |Flatten(rows)| && Flatten(rows)[width * k + j] == rows[k][j]
  {
    var init := rows[..|rows| - 1];
    UniformInit(rows, width);
    FlattenLength(init, width);
    assert Flatten(rows) == Flatten(init) + rows[|rows| - 1];
    if k < |init| {
      MulGrows(width, k, |init|);
      FlattenAt(init, width, k, j);
    }
  }

  /** Element `j` of chunk `k` follows the elements of the chunks before it. */
  lemma {:induction false} FlattenPlacement<T>(chunks: seq<seq<T>>, k: nat, j: nat)
    requires k < |chunks| && j < |chunks[k]|
    ensures |Flatten(chunks[..k])| + j < |Flatten(chunks)|
    ensures Flatten(chunks)[|Flatten(chunks[..k])| + j] == chunks[k][j]
  {
    var n := |chunks| - 1;
    var init := chunks[..n];
    assert Flatten(chunks) == Flatten(init) + chunks[n];
    if k == n {
      assert chunks[..k] == init;
    } else {
      assert init[..k] == chunks[..k];
      FlattenPlacement(init, k, j);
    }
  }

  lemma MulSucc(width: nat, k: nat)
    ensures width * (k + 1) == width * k + width
  {
  }

  /** Row `k` ends no later than row `n` starts, when `k < n`. */
  lemma {:induction false} MulGrows(width: nat, k: nat, n: nat)
    requires k < n
    ensures width * k + width <= width * n
    decreases n - k
  {
    MulSucc(width, k);
    if k + 1 < n {
      MulGrows(width, k + 1, n);
    }
  }

  /** The quotient and remainder of `width * k + p` with `p < width` are `k` and `p`. */
  lemma DivModGrid(width: nat, k: nat, p: nat)
    requires p < width
    ensures (width * k + p) / width == k && (width * k + p) % width == p
  {
    var n := width * k + p;
    var q := n / width;
    assert n == width * q + n % width;
    if q < k {
      MulGrows(width, q, k);
    } else if q > k {
      MulGrows(width, k, q);
    }
  }

  /**
   * The shape of a table is fixed by how many cells it has been given: the
   * completed rows are the whole multiples of the column count, the pending
   * cells the rest.
   */
  lemma GridShape<T>(rows: seq<seq<T>>, pending: seq<T>, columns: nat)
    requires Uniform(rows, columns) && |pending| < columns
    ensures |rows| == |Flatten(rows) + pending| / columns
    ensures |pending| == |Flatten(rows) + pending| % columns
  {
    FlattenLength(rows, columns);
    DivModGrid(columns, |rows|, |pending|);
  }

  class Table {
    /** Number of columns, fixed when the table is created. */
    const columns: nat
    /** The completed rows, each of `columns` cells. */
    var rows: seq<seq<Cell>>
    /** The cells of the row being filled, always fewer than `columns`. */
    var pending: seq<Cell>
    /** Every cell appended so far, in order. */
    ghost var cells: seq<Cell>

    ghost predicate Valid()
      reads this
    {
      && columns > 0 && |pending| < columns && Uniform(rows, columns)
      && cells == Flatten(rows) + pending
    }

    /** The table's row count: completed rows only. */
    function RowCount(): (n: nat)
      reads this
      requires Valid()
      ensures n == |cells| / columns
    {
      GridShape(rows, pending, columns);
      |rows|
    }

    constructor (columns: nat)
      requires columns > 0
      ensures Valid() && this.columns == columns
      ensures rows == [] && pending == [] && cells == []
    {
      this.columns := columns;
      rows := [];
      pending := [];
      cells := [];
    }

    /** Appends one cell; the cell that fills the pending row completes it. */
    method AddCell(c: Cell)
      requires Valid()
      modifies this
      ensures Valid()
      ensures cells == old(cells) + [c]
      ensures |old(pending)| + 1 == columns ==> rows == old(rows) + [old(pending) + [c]] && pending == []
      ensures |old(pending)| + 1 < columns ==> rows == old(rows) && pending == old(pending) + [c]
    {
      if |pending| + 1 == columns {
        assert (rows + [pending + [c]])[..|rows|] == rows;
        rows := rows + [pending + [c]];
        pending := [];
      } else {
        pending := pending + [c];
      }
      cells := cells + [c];
    }
  }
}
