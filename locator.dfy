// The anchor search `trouver_cellule` (fourth.py:21-26): scan the grid row by
// row, and each row column by column, for the first cell whose stripped text
// is the label.

module Locator {
  import opened PyStrings
  import opened Cells
  import opened Wrappers

  /** A (row, column) position. With `header=None` the frame's row index is
      the row's position, so both coordinates count from 0. */
  datatype Position = Position(row: nat, col: nat)

  /** The first column of `row` whose cell carries the label, if any. */
  function FirstInRow(row: seq<Cell>, target: string): (found: Option<nat>)
    ensures found.Some? ==> found.value < |row| && HasLabel(row[found.value], target)
    ensures found.Some? ==> forall c :: 0 <= c < found.value ==> !HasLabel(row[c], target)
    ensures found.None? <==> forall c :: 0 <= c < |row| ==> !HasLabel(row[c], target)
    decreases |row|
  {
    if |row| == 0 then None
    else
      var init := row[..|row| - 1];
      assert forall c :: 0 <= c < |init| ==> init[c] == row[c];
      match FirstInRow(init, target)
      case Some(c) => Some(c)
      case None => if HasLabel(row[|row| - 1], target) then Some(|row| - 1) else None
  }

  /** The first position, in row-major order, whose cell carries the label;
      `None` exactly when no cell does. */
  function FirstMatch(grid: Grid, target: string): (found: Option<Position>)
    ensures found.Some? ==>
              && found.value.row < |grid| && found.value.col < |grid[found.value.row]|
              && HasLabel(grid[found.value.row][found.value.col], target)
    ensures found.Some? ==>
              forall r, c :: 0 <= r < found.value.row && 0 <= c < |grid[r]| ==> !HasLabel(grid[r][c], target)
    ensures found.Some? ==>
              forall c :: 0 <= c < found.value.col ==> !HasLabel(grid[found.value.row][c], target)
    ensures found.None? <==>
              forall r, c :: 0 <= r < |grid| && 0 <= c < |grid[r]| ==> !HasLabel(grid[r][c], target)
    decreases |grid|
  {
    if |grid| == 0 then None
    else
      var last := |grid| - 1;
      var init := grid[..last];
      assert forall r :: 0 <= r < last ==> init[r] == grid[r];
      match FirstMatch(init, target)
      case Some(p) => Some(p)
      case None =>
        match FirstInRow(grid[last], target)
        case Some(c) => Some(Position(last, c))
        case None => None
  }

  /** The position at which the label is found first in row-major order. */
  predicate IsFirstMatch(grid: Grid, target: string, p: Position)
  {
    && p.row < |grid| && p.col < |grid[p.row]| && HasLabel(grid[p.row][p.col], target)
    && (forall r, c :: 0 <= r < p.row && 0 <= c < |grid[r]| ==> !HasLabel(grid[r][c], target))
    && (forall c :: 0 <= c < p.col ==> !HasLabel(grid[p.row][c], target))
  }

  /** There is only one first match, and `FirstMatch` returns it. */
  lemma FirstMatchUnique(grid: Grid, target: string, p: Position)
    requires IsFirstMatch(grid, target, p)
    ensures FirstMatch(grid, target) == Some(p)
  {
    var found := FirstMatch(grid, target);
    assert found.Some?;
    var q := found.value;
    assert q.row == p.row;
    assert q.col == p.col;
  }

  /** `trouver_cellule(df, valeur)`: the nested loop with its early return.
      `None` stands for the pair `(None, None)`. */
  method FindCell(grid: Grid, target: string) returns (found: Option<Position>)
    ensures found == FirstMatch(grid, target)
  {
    var r := 0;
    while r < |grid|
      invariant 0 <= r <= |grid|
      invariant forall i, j :: 0 <= i < r && 0 <= j < |grid[i]| ==> !HasLabel(grid[i][j], target)
    {
      var c := 0;
      while c < |grid[r]|
        invariant 0 <= c <= |grid[r]|
        invariant forall j :: 0 <= j < c ==> !HasLabel(grid[r][j], target)
      {
        if Strip(CellToString(grid[r][c])) == target {
          FirstMatchUnique(grid, target, Position(r, c));
          return Some(Position(r, c));
        }
        c := c + 1;
      }
      r := r + 1;
    }
    return None;
  }
}
