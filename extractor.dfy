// Column extraction `extraire_donnees` (fourth.py:29-34): the cells of the
// anchor's column strictly below the anchor, missing cells dropped, in order;
// nothing when the label is absent.

module Extractor {
  import opened Cells
  import opened Sequences
  import opened Wrappers
  import opened Locator

  /** `df.iloc[p.row + 1:, p.col]`: the cells of column `p.col` below row `p.row`. */
  function ColumnBelow(grid: Grid, p: Position): seq<Cell>
    requires Rectangular(grid) && p.row < |grid| && p.col < |grid[p.row]|
  {
    seq(|grid| - p.row - 1, k requires 0 <= k < |grid| - p.row - 1 => grid[p.row + 1 + k][p.col])
  }

  /** The test `dropna()` keeps a cell by. */
  predicate IsPresent(c: Cell)
  {
    !c.Empty?
  }

  /** What `extraire_donnees(df, cellule)` returns: nothing when no cell
      carries the label, otherwise what `dropna()` leaves of the column below
      the first anchor (see `PresentCellsBelow`). It never holds a missing cell. */
  function Extract(grid: Grid, target: string): (cells: seq<Cell>)
    requires Rectangular(grid)
    ensures (forall r, c :: 0 <= r < |grid| && 0 <= c < |grid[r]| ==> !HasLabel(grid[r][c], target))
              ==> cells == []
    ensures forall i :: 0 <= i < |cells| ==> IsPresent(cells[i])
  {
    match FirstMatch(grid, target)
    case None => []
    case Some(p) => Filter(IsPresent, ColumnBelow(grid, p))
  }

  /** The rows below `p` whose cell in column `p.col` is present, top to
      bottom. */
  function PresentRowsBelow(grid: Grid, p: Position): seq<nat>
    requires Rectangular(grid) && p.row < |grid| && p.col < |grid[p.row]|
  {
    var below := KeptPositions(IsPresent, ColumnBelow(grid, p));
    seq(|below|, i requires 0 <= i < |below| => p.row + 1 + below[i])
  }

  /** Below `p`, `dropna()` leaves the present cells of column `p.col` in
      top-to-bottom order: the `i`-th cell kept is the one at row
      `PresentRowsBelow[i]`, and those rows increase and lie strictly below `p`. */
  lemma PresentCellsBelow(grid: Grid, p: Position)
    requires Rectangular(grid) && p.row < |grid| && p.col < |grid[p.row]|
    ensures var cells, rows := Filter(IsPresent, ColumnBelow(grid, p)), PresentRowsBelow(grid, p);
            && |rows| == |cells|
            && (forall i :: 0 <= i < |rows| ==> p.row < rows[i] < |grid| && cells[i] == grid[rows[i]][p.col])
            && (forall i, j :: 0 <= i < j < |rows| ==> rows[i] < rows[j])
  {
    var column := ColumnBelow(grid, p);
    var below := KeptPositions(IsPresent, column);
    var rows := PresentRowsBelow(grid, p);
    var cells := Filter(IsPresent, column);
    FilterIsSelection(IsPresent, column);
    forall i | 0 <= i < |rows| ensures p.row < rows[i] < |grid| && cells[i] == grid[rows[i]][p.col] {
      assert rows[i] == p.row + 1 + below[i];
      assert cells[i] == column[below[i]];
    }
  }

  /** No present cell below `p` is dropped: its row is among `PresentRowsBelow`. */
  lemma PresentRowsComplete(grid: Grid, p: Position)
    requires Rectangular(grid) && p.row < |grid| && p.col < |grid[p.row]|
    ensures forall r :: p.row < r < |grid| && IsPresent(grid[r][p.col]) ==> r in PresentRowsBelow(grid, p)
  {
    var column := ColumnBelow(grid, p);
    var below := KeptPositions(IsPresent, column);
    var rows := PresentRowsBelow(grid, p);
    forall r | p.row < r < |grid| && IsPresent(grid[r][p.col]) ensures r in rows {
      var k := r - p.row - 1;
      assert column[k] == grid[r][p.col];
      var i :| 0 <= i < |below| && below[i] == k;
      assert rows[i] == r;
    }
  }

  /** When the label is first found at `p`, `extraire_donnees` returns the
      present cells of column `p.col` strictly below row `p.row`, top to
      bottom, and every such cell. */
  lemma ExtractBelowAnchor(grid: Grid, target: string, p: Position)
    requires Rectangular(grid) && IsFirstMatch(grid, target, p)
    ensures var cells, rows := Extract(grid, target), PresentRowsBelow(grid, p);
            && |rows| == |cells|
            && (forall i :: 0 <= i < |rows| ==> p.row < rows[i] < |grid| && cells[i] == grid[rows[i]][p.col])
            && (forall i, j :: 0 <= i < j < |rows| ==> rows[i] < rows[j])
            && (forall r :: p.row < r < |grid| && IsPresent(grid[r][p.col]) ==> r in rows)
  {
    FirstMatchUnique(grid, target, p);
    PresentCellsBelow(grid, p);
    PresentRowsComplete(grid, p);
  }

  /** The method form of `extraire_donnees`, which calls `trouver_cellule`. */
  method ExtractColumn(grid: Grid, target: string) returns (cells: seq<Cell>)
    requires Rectangular(grid)
    ensures cells == Extract(grid, target)
  {
    var found := FindCell(grid, target);
    if found.None? {
      return [];
    }
    cells := Filter(IsPresent, ColumnBelow(grid, found.value));
  }
}
