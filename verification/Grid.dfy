/** Flat positions in a grid: `row * width + column`. */
module Grid {
  /** The flat position at which a row starts: the width, added once for each row before it. */
  function RowStart(row: nat, width: nat): nat {
    if row == 0 then 0 else RowStart(row - 1, width) + width
  }

  lemma {:induction false} RowsFollow(row: nat, row': nat, width: nat)
    requires row < row'
    ensures RowStart(row, width) + width <= RowStart(row', width)
  {
    if row + 1 < row' {
      RowsFollow(row, row' - 1, width);
    }
  }
}
