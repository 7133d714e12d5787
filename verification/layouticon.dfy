/**
 * The miniature grid drawn on each layout button: columns × rows cells, the
 * first few of them filled to show how many pools the layout would display.
 */
module LayoutIcon {
  import opened Basics

  /** The look of one cell: whether it is filled, and its fill and border colours. */
  datatype Cell = Cell(filled: bool, background: string, border: string)

  const ActiveColour := "#00bcd4"
  const FilledColour := "#4dd0e1"
  const IdleBorder := "#b0bec5"
  const Empty := "transparent"

  /** Number of cells in the icon. */
  function TotalCells(columns: nat, rows: nat): nat {
    columns * rows
  }

  /**
   * How many cells are filled: the pool count capped at the cell count, or
   * every cell when the pool count is absent or zero (both falsy).
   */
  function PoolsToShow(totalPools: Option<nat>, cells: nat): (r: nat)
    ensures r <= cells
    ensures totalPools.Some? && totalPools.value > 0 ==> r == MinInt(totalPools.value, cells)
    ensures totalPools.None? || totalPools == Some(0) ==> r == cells
  {
    match totalPools
    case Some(n) => if n != 0 then MinInt(n, cells) else cells
    case None => cells
  }

  /** The style of cell `index`, given how many cells are filled. */
  function CellAt(index: nat, shown: nat, active: bool): Cell {
    Cell(
      index < shown,
      if index < shown then (if active then ActiveColour else FilledColour) else Empty,
      if active then ActiveColour else IdleBorder)
  }

  /** The icon: one cell per grid slot, in reading order. */
  function Icon(columns: nat, rows: nat, active: bool, totalPools: Option<nat>): (r: seq<Cell>)
    ensures |r| == columns * rows
    ensures forall i :: 0 <= i < |r| ==> (r[i].filled <==> i < PoolsToShow(totalPools, columns * rows))
    ensures forall i :: 0 <= i < |r| ==> (r[i].background == Empty <==> !r[i].filled)
  {
    var cells := TotalCells(columns, rows);
    var shown := PoolsToShow(totalPools, cells);
    seq(cells, i requires 0 <= i < cells => CellAt(i, shown, active))
  }

  /** The number of filled cells in a row of cells. */
  function CountFilled(cs: seq<Cell>): nat {
    if cs == [] then 0 else CountFilled(cs[..|cs| - 1]) + (if cs[|cs| - 1].filled then 1 else 0)
  }

  /** A row of cells whose filled ones are exactly the first k. */
  lemma {:induction false} FilledPrefixCount(cs: seq<Cell>, k: nat)
    requires k <= |cs|
    requires forall i :: 0 <= i < |cs| ==> (cs[i].filled <==> i < k)
    ensures CountFilled(cs) == k
  {
    if |cs| > 0 {
      if k == |cs| {
        FilledPrefixCount(cs[..|cs| - 1], k - 1);
      } else {
        FilledPrefixCount(cs[..|cs| - 1], k);
      }
    }
  }

  /**
   * The icon fills exactly min(pools, cells) cells (every cell when the
   * pool count is absent or zero), and never more cells than it has.
   */
  lemma IconFillsPoolsToShow(columns: nat, rows: nat, active: bool, totalPools: Option<nat>)
    ensures CountFilled(Icon(columns, rows, active, totalPools)) == PoolsToShow(totalPools, columns * rows)
    ensures CountFilled(Icon(columns, rows, active, totalPools)) <= columns * rows
  {
    FilledPrefixCount(Icon(columns, rows, active, totalPools), PoolsToShow(totalPools, columns * rows));
  }

  /** Highlighting the icon of the current layout changes colours only, never which cells are filled. */
  lemma ActiveOnlyRecolours(columns: nat, rows: nat, totalPools: Option<nat>)
    ensures var on := Icon(columns, rows, true, totalPools);
      var off := Icon(columns, rows, false, totalPools);
      |on| == |off| && forall i :: 0 <= i < |on| ==> on[i].filled == off[i].filled
  {
  }
}
