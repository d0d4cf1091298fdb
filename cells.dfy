// The spreadsheet as the converter sees it after `pd.read_excel(..., header=None)`
// (fourth.py:15): a rectangular grid of cells indexed by row and column
// position, with no header row.

module Cells {
  import opened PyStrings

  /** One cell of the sheet. A `Number` is any non-text value (an integer,
      a float, a date) and carries only the text Python's `str()` gives for
      it, since that text is all the converter ever looks at. A missing
      cell is `Empty` (pandas NaN). */
  datatype Cell = Text(s: string) | Number(shown: string) | Empty

  /** `str(cell)`: the text itself, a number's rendering, and "nan" for a
      missing cell. */
  function CellToString(c: Cell): string
  {
    match c
    case Text(s) => s
    case Number(shown) => shown
    case Empty => "nan"
  }

  /** The value `''` the converter pads columns with. */
  const Blank: Cell := Text("")

  /** The anchor test of fourth.py:24: the cell's text, stripped, is the label. */
  predicate HasLabel(c: Cell, target: string)
  {
    Strip(CellToString(c)) == target
  }

  /** Rows of cells; row `r`, column `c` is `grid[r][c]`. */
  type Grid = seq<seq<Cell>>

  /** A data frame has the same number of columns in every row. */
  predicate Rectangular(grid: Grid)
  {
    forall r :: 0 <= r < |grid| ==> |grid[r]| == |grid[0]|
  }

  /** A missing cell reads as "nan", so it carries only that one label; no
      label made of other text, such as the four the converter looks for,
      can be found on a missing cell. */
  lemma EmptyCellLabel(target: string)
    ensures HasLabel(Empty, target) <==> target == "nan"
  {
    assert Strip(CellToString(Empty)) == "nan" by {
      StripUnchanged("nan");
    }
  }
}
