/**
 `Image`: the tight box around the visible pixels, the palette indexes of the cells in it, and
 their run-length encoding as hex text.
 */
module Image {
  import opened Grid
  import opened Hex
  import opened Lists
  import opened Palette
  import opened Rle

  datatype Rgba = Rgba(r: Byte, g: Byte, b: Byte, a: Byte)

  /** `right` is one past the last column; `bottom` is the last row. */
  datatype Bounds = Bounds(top: int, right: int, bottom: int, left: int) {
    function Width(): nat {
      if left < right then right - left else 0
    }

    function Height(): nat {
      if top <= bottom then bottom - top + 1 else 0
    }

    function Area(): nat {
      RowStart(Height(), Width())
    }

    predicate Contains(x: int, y: int) {
      left <= x < right && top <= y <= bottom
    }

    predicate Within(outer: Bounds) {
      outer.top <= top && right <= outer.right && bottom <= outer.bottom && outer.left <= left
    }
  }

  datatype Picture = Picture(width: nat, height: nat, rgbaAt: (int, int) -> Rgba) {
    predicate Visible(x: int, y: int) {
      0 <= x < width && 0 <= y < height && rgbaAt(x, y).a != 0
    }

    predicate RowClear(y: int) {
      forall x :: 0 <= x < width ==> rgbaAt(x, y).a == 0
    }

    predicate ColumnClear(x: int) {
      forall y :: 0 <= y < height ==> rgbaAt(x, y).a == 0
    }
  }

  function Bottom(p: Picture, y: int): int
    decreases y
  {
    if y > 0 && p.RowClear(y) then Bottom(p, y - 1) else y
  }

  function Top(p: Picture, y: int, bottom: int): int
    decreases bottom - y
  {
    if y < bottom && p.RowClear(y) then Top(p, y + 1, bottom) else y
  }

  function Right(p: Picture, x: int): int
    requires x >= -1
    decreases x
  {
    if x >= 0 && p.ColumnClear(x) then Right(p, x - 1) else x
  }

  function Left(p: Picture, x: int, right: int): int
    decreases right - x
  {
    if x < right && p.ColumnClear(x) then Left(p, x + 1, right) else x
  }

  function TightBox(p: Picture): Bounds {
    var bottom, right := Bottom(p, p.height - 1), Right(p, p.width - 1);
    Bounds(Top(p, 0, bottom), right + 1, bottom, Left(p, 0, right))
  }

  lemma {:induction false} BottomStops(p: Picture, y: int)
    requires -1 <= y
    ensures var r := Bottom(p, y);
            -1 <= r <= y && (0 <= y ==> 0 <= r) && (forall k :: r < k <= y ==> p.RowClear(k)) && (r > 0 ==> !p.RowClear(r))
    decreases y
  {
    if y > 0 && p.RowClear(y) {
      BottomStops(p, y - 1);
    }
  }

  lemma {:induction false} TopStops(p: Picture, y: int, bottom: int)
    ensures var r := Top(p, y, bottom);
            y <= r && (y <= bottom ==> r <= bottom) && (bottom <= y ==> r == y) &&
            (forall k :: y <= k < r ==> p.RowClear(k)) && (r < bottom ==> !p.RowClear(r))
    decreases bottom - y
  {
    if y < bottom && p.RowClear(y) {
      TopStops(p, y + 1, bottom);
    }
  }

  lemma {:induction false} RightStops(p: Picture, x: int)
    requires -1 <= x
    ensures var r := Right(p, x);
            -1 <= r <= x && (forall k :: r < k <= x ==> p.ColumnClear(k)) && (r >= 0 ==> !p.ColumnClear(r))
    decreases x
  {
    if x >= 0 && p.ColumnClear(x) {
      RightStops(p, x - 1);
    }
  }

  lemma {:induction false} LeftStops(p: Picture, x: int, right: int)
    ensures var r := Left(p, x, right);
            x <= r && (x <= right ==> r <= right) && (right <= x ==> r == x) &&
            (forall k :: x <= k < r ==> p.ColumnClear(k)) && (r < right ==> !p.ColumnClear(r))
    decreases right - x
  {
    if x < right && p.ColumnClear(x) {
      LeftStops(p, x + 1, right);
    }
  }

  /** The box of any picture lies in the picture, holds every visible pixel, and is empty when there is none. */
  lemma TightBoxHolds(p: Picture)
    ensures var b := TightBox(p);
            && (forall x, y :: p.Visible(x, y) ==> b.Contains(x, y))
            && 0 <= b.left <= b.right <= p.width && 0 <= b.top <= b.bottom + 1 <= p.height
            && (p.height > 0 ==> b.top <= b.bottom)
            && (b.left == b.right <==> forall x, y :: !p.Visible(x, y))
            && (b.left == b.right ==> b.left == 0)
  {
    var b := TightBox(p);
    BottomStops(p, p.height - 1);
    TopStops(p, 0, b.bottom);
    RightStops(p, p.width - 1);
    LeftStops(p, 0, b.right - 1);
    forall x, y | p.Visible(x, y)
      ensures b.Contains(x, y)
    {
      assert !p.RowClear(y) && !p.ColumnClear(x);
    }
    if b.right > 0 {
      var y :| 0 <= y < p.height && p.rgbaAt(b.right - 1, y).a != 0;
      assert p.Visible(b.right - 1, y);
    }
  }

  /** No smaller rectangle will do: the box is inside every rectangle that holds every visible pixel. */
  lemma TightBoxIsSmallest(p: Picture, other: Bounds)
    requires exists x, y :: p.Visible(x, y)
    requires forall x, y :: p.Visible(x, y) ==> other.Contains(x, y)
    ensures TightBox(p).Within(other)
  {
    var b := TightBox(p);
    TightBoxHolds(p);
    BottomStops(p, p.height - 1);
    TopStops(p, 0, b.bottom);
    RightStops(p, p.width - 1);
    LeftStops(p, 0, b.right - 1);
    var vx, vy :| p.Visible(vx, vy);
    assert b.Contains(vx, vy);
    assert !p.ColumnClear(b.left) && !p.ColumnClear(b.right - 1);
    var y0 :| 0 <= y0 < p.height && p.rgbaAt(b.left, y0).a != 0;
    var y1 :| 0 <= y1 < p.height && p.rgbaAt(b.right - 1, y1).a != 0;
    assert p.Visible(b.left, y0) && p.Visible(b.right - 1, y1);
    assert !p.RowClear(b.top) && !p.RowClear(b.bottom) by {
      if b.top == b.bottom {
        assert vy == b.top;
      }
    }
    var x0 :| 0 <= x0 < p.width && p.rgbaAt(x0, b.top).a != 0;
    var x1 :| 0 <= x1 < p.width && p.rgbaAt(x1, b.bottom).a != 0;
    assert p.Visible(x0, b.top) && p.Visible(x1, b.bottom);
  }

  /** The first `n` cells of a row of a box. */
  function Row(p: Picture, b: Bounds, y: int, n: nat): (cells: seq<Rgba>)
    ensures |cells| == n
  {
    seq(n, i requires 0 <= i < n => p.rgbaAt(b.left + i, y))
  }

  /** The cells of the first `n` rows of a box. */
  function Rows(p: Picture, b: Bounds, n: nat): seq<Rgba> {
    if n == 0 then [] else Rows(p, b, n - 1) + Row(p, b, b.top + n - 1, b.Width())
  }

  /** The cells of a box, row by row. */
  function BoxCells(p: Picture, b: Bounds): seq<Rgba> {
    Rows(p, b, b.Height())
  }

  lemma {:induction false} RowsAt(p: Picture, b: Bounds, n: nat, row: nat, column: nat)
    ensures |Rows(p, b, n)| == RowStart(n, b.Width())
    ensures row < n && column < b.Width() ==>
              RowStart(row, b.Width()) + column < |Rows(p, b, n)| &&
              Rows(p, b, n)[RowStart(row, b.Width()) + column] == p.rgbaAt(b.left + column, b.top + row)
  {
    if n > 0 {
      RowsAt(p, b, n - 1, row, column);
    }
  }

  /** A list holds the cells of a box, each at its flat position. */
  ghost predicate HoldsCells(cells: seq<Rgba>, p: Picture, b: Bounds) {
    |cells| == b.Area() &&
    forall x, y :: b.Contains(x, y) ==>
      var i := RowStart(y - b.top, b.Width()) + (x - b.left);
      i < |cells| && cells[i] == p.rgbaAt(x, y)
  }

  /** From a flat position on a list holds the cells of one row of a box. */
  ghost predicate HoldsRow(cells: seq<Rgba>, start: nat, p: Picture, b: Bounds, y: int) {
    start + b.Width() <= |cells| && cells[start..start + b.Width()] == Row(p, b, y, b.Width())
  }

  lemma RowCell(cells: seq<Rgba>, start: nat, p: Picture, b: Bounds, x: int, y: int)
    requires HoldsRow(cells, start, p, b, y) && b.left <= x < b.right
    ensures start + (x - b.left) < |cells| && cells[start + (x - b.left)] == p.rgbaAt(x, y)
  {
    var k := x - b.left;
    assert cells[start + k] == cells[start..start + b.Width()][k] == Row(p, b, y, b.Width())[k];
  }

  lemma RowHeld(cells: seq<Rgba>, p: Picture, b: Bounds, y: int)
    requires HoldsCells(cells, p, b) && b.top <= y <= b.bottom
    ensures HoldsRow(cells, RowStart(y - b.top, b.Width()), p, b, y)
  {
    var start, row := RowStart(y - b.top, b.Width()), Row(p, b, y, b.Width());
    RowsFollow(y - b.top, b.Height(), b.Width());
    forall k | 0 <= k < |row|
      ensures cells[start..start + b.Width()][k] == row[k]
    {
      assert b.Contains(b.left + k, y);
    }
  }

  lemma BoxCellsListed(p: Picture, b: Bounds)
    ensures HoldsCells(BoxCells(p, b), p, b)
  {
    RowsAt(p, b, b.Height(), 0, 0);
    forall x, y | b.Contains(x, y)
      ensures var i := RowStart(y - b.top, b.Width()) + (x - b.left);
              i < |BoxCells(p, b)| && BoxCells(p, b)[i] == p.rgbaAt(x, y)
    {
      RowsAt(p, b, b.Height(), y - b.top, x - b.left);
    }
  }

  /** The text of a pixel's colour, written so that proofs that do not read the text stay short. */
  function Color(c: Rgba): (hex: string)
    ensures |hex| == 6
  {
    seq(6, i requires 0 <= i < 6 => RgbDigit(c, i))
  }

  function RgbDigit(c: Rgba, i: nat): char
    requires i < 6
  {
    RgbToHexInjective(c.r, c.g, c.b, c.r, c.g, c.b);
    RgbToHex(c.r, c.g, c.b)[i]
  }

  lemma ColorText(c: Rgba)
    ensures Color(c) == RgbToHex(c.r, c.g, c.b)
  {
    RgbToHexInjective(c.r, c.g, c.b, c.r, c.g, c.b);
  }

  function Colors(cells: seq<Rgba>): (colors: seq<string>)
    ensures |colors| == |cells|
  {
    seq(|cells|, i requires 0 <= i < |cells| => Color(cells[i]))
  }

  /** The palette index of a cell: 0 when it is fully transparent. */
  function Index(c: Rgba, keys: seq<string>): nat {
    if c.a != 0 && Color(c) in keys then Position(keys, Color(c)) else 0
  }

  /** The indexes of the first `n` cells. */
  function CellIndexes(cells: seq<Rgba>, n: nat, keys: seq<string>): (indexes: seq<int>)
    requires n <= |cells|
    ensures |indexes| == n
  {
    seq(n, i requires 0 <= i < n => Index(cells[i], keys))
  }

  /** The number the map has for a cell's colour; 0 when the cell is fully transparent. */
  function Looked(c: Rgba, index: map<string, int>): int {
    if c.a != 0 && Color(c) in index then index[Color(c)] else 0
  }

  /** The numbers of the first `n` cells. */
  function LookedAll(cells: seq<Rgba>, n: nat, index: map<string, int>): (indexes: seq<int>)
    requires n <= |cells|
    ensures |indexes| == n
  {
    seq(n, i requires 0 <= i < n => Looked(cells[i], index))
  }

  function RunText(run: Run): string {
    ToPaddedHex(run.length) + ToPaddedHex(run.color)
  }

  function RunsText(runs: seq<Run>): string {
    if runs == [] then "" else RunText(runs[0]) + RunsText(runs[1..])
  }

  lemma {:induction false} RunsTextAppend(runs: seq<Run>, last: Run)
    ensures RunsText(runs + [last]) == RunsText(runs) + RunText(last)
  {
    if runs == [] {
      assert [] + [last] == [last] && [last][1..] == [];
      assert RunsText([last]) == RunText(last);
    } else {
      RunsTextAppend(runs[1..], last);
      assert (runs + [last])[1..] == runs[1..] + [last];
      Regroup(RunText(runs[0]), RunsText(runs[1..]), RunText(last));
    }
  }

  lemma Regroup(a: string, b: string, c: string)
    ensures a + (b + c) == a + b + c
  {
  }

  lemma PairsAppend(runs: seq<Run>, last: Run)
    ensures Pairs(runs + [last]) == Pairs(runs) + [(last.length, last.color)]
    ensures AllButLast(runs + [last]) == Pairs(runs)
  {
    assert (runs + [last])[..|runs|] == runs;
  }

  /** `join('')`. */
  function Joined(texts: seq<string>): string {
    if texts == [] then "" else texts[0] + Joined(texts[1..])
  }

  /** The palette index, which is always 0, and the bounds. */
  function Metadata(b: Bounds): (fields: seq<string>)
    ensures |fields| == 5
  {
    seq(5, i requires 0 <= i < 5 =>
      ToPaddedHex(if i == 0 then 0 else if i == 1 then b.top else if i == 2 then b.right else if i == 3 then b.bottom else b.left))
  }

  function RleText(b: Bounds, runs: seq<Run>): string {
    "0x" + Joined(Metadata(b)) + RunsText(runs)
  }

  lemma JoinFive(p: string, t: string, r: string, b: string, l: string)
    ensures Joined([p, t, r, b, l]) == p + t + r + b + l
  {
    assert [p, t, r, b, l][1..] == [t, r, b, l] && [t, r, b, l][1..] == [r, b, l] && [r, b, l][1..] == [b, l];
    assert [b, l][1..] == [l] && [l][1..] == [];
    assert Joined([l]) == l && Joined([b, l]) == b + l && Joined([r, b, l]) == r + (b + l);
    assert Joined([t, r, b, l]) == t + (r + (b + l));
  }

  /** The text, field by field. */
  lemma RleTextIs(b: Bounds, runs: seq<Run>)
    ensures RleText(b, runs) ==
            "0x" + ToPaddedHex(0) + ToPaddedHex(b.top) + ToPaddedHex(b.right) + ToPaddedHex(b.bottom) + ToPaddedHex(b.left)
            + RunsText(runs)
  {
    var p, t, r, m, l := ToPaddedHex(0), ToPaddedHex(b.top), ToPaddedHex(b.right), ToPaddedHex(b.bottom), ToPaddedHex(b.left);
    JoinFive(p, t, r, m, l);
    assert Metadata(b) == [p, t, r, m, l];
    Front(p, t, r, m, l, RunsText(runs));
  }

  lemma Front(p: string, t: string, r: string, b: string, l: string, rest: string)
    ensures "0x" + (p + t + r + b + l) + rest == "0x" + p + t + r + b + l + rest
    ensures "0x" + p + t + r + b + l + rest == "0x" + (p + t + r + b + l + rest)
  {
  }

  function Pairs(runs: seq<Run>): seq<(int, int)> {
    seq(|runs|, i requires 0 <= i < |runs| => (runs[i].length, runs[i].color))
  }

  function AllButLast(runs: seq<Run>): seq<(int, int)> {
    if runs == [] then [] else Pairs(runs[..|runs| - 1])
  }

  /** The colour map after a picture was encoded, whatever its numbers. */
  function GrownTable(p: Picture, t: Table): Table {
    var colors := Colors(BoxCells(p, TightBox(p)));
    Extend(t, colors, |colors|)
  }

  /** The runs of a picture, under a colour map that has its colours. */
  function TableRuns(p: Picture, t: Table): seq<Run> {
    var cells := BoxCells(p, TightBox(p));
    Greedy(LookedAll(cells, |cells|, t.index))
  }

  /** The palette after a picture was encoded. */
  function GrownKeys(p: Picture, keys: seq<string>): seq<string> {
    var colors := Colors(BoxCells(p, TightBox(p)));
    Grow(keys, colors, |colors|)
  }

  /** The runs of a picture, under a palette that has its colours. */
  function PictureRuns(p: Picture, keys: seq<string>): seq<Run> {
    var cells := BoxCells(p, TightBox(p));
    Greedy(CellIndexes(cells, |cells|, keys))
  }

  lemma PositionStable(keys: seq<string>, more: seq<string>, key: string)
    requires keys <= more && key in keys && Distinct(more)
    ensures Position(more, key) == Position(keys, key)
  {
    PositionUnique(more, Position(keys, key));
  }

  /** A longer palette gives the cells the indexes they had. */
  lemma CellIndexesStable(cells: seq<Rgba>, n: nat, keys: seq<string>, more: seq<string>)
    requires n <= |cells| && keys <= more && Distinct(more) && forall i :: 0 <= i < n ==> Color(cells[i]) in keys
    ensures CellIndexes(cells, n, more) == CellIndexes(cells, n, keys)
  {
    forall i | 0 <= i < n
      ensures Index(cells[i], more) == Index(cells[i], keys)
    {
      PositionStable(keys, more, Color(cells[i]));
    }
  }

  lemma ColorsGrown(cells: seq<Rgba>, n: nat, keys: seq<string>)
    requires n <= |cells|
    ensures forall i :: 0 <= i < n ==> Color(cells[i]) in Grow(keys, Colors(cells), n)
  {
    GrowAppends(keys, Colors(cells), n);
    forall i | 0 <= i < n
      ensures Color(cells[i]) in Grow(keys, Colors(cells), n)
    {
      assert Colors(cells)[..n][i] == Color(cells[i]);
    }
  }

  /** After `n` cells: the colour map they grew, and the numbers they got, which are those of the map as it is. */
  ghost predicate Scanned(cells: seq<Rgba>, n: nat, before: Table, t: Table, indexes: seq<int>) {
    && n <= |cells|
    && IsTable(t) && t == Extend(before, Colors(cells), n)
    && indexes == LookedAll(cells, n, t.index)
    && forall i :: 0 <= i < n ==> Color(cells[i]) in t.index
  }

  lemma LookedOneMore(cells: seq<Rgba>, n: nat, t: Table, more: Table)
    requires n < |cells| && Agrees(t, more) && forall i :: 0 <= i < n ==> Color(cells[i]) in t.index
    ensures LookedAll(cells, n + 1, more.index) == LookedAll(cells, n, t.index) + [Looked(cells[n], more.index)]
  {
    forall i | 0 <= i < n
      ensures Looked(cells[i], more.index) == Looked(cells[i], t.index)
    {
      assert Color(cells[i]) in t.index;
    }
  }

  /** One more cell: its colour is put in the map, its number comes last, the others stay. */
  lemma ScanOneMore(cells: seq<Rgba>, n: nat, before: Table, t: Table, indexes: seq<int>)
    requires Scanned(cells, n, before, t, indexes) && n < |cells|
    ensures var more := Put(t, Color(cells[n]));
            Color(cells[n]) in more.index &&
            Scanned(cells, n + 1, before, more, indexes + [Looked(cells[n], more.index)])
  {
    var more := Put(t, Color(cells[n]));
    PutTable(t, Color(cells[n]));
    LookedOneMore(cells, n, t, more);
    assert Extend(before, Colors(cells), n + 1) == more;
  }

  /** In key order the numbers are the positions. */
  lemma LookedInOrder(c: Rgba, keys: seq<string>)
    requires Distinct(keys)
    ensures Looked(c, Positions(keys)) == Index(c, keys)
  {
    PositionsOf(keys, Color(c));
  }

  /** With a colour map in key order a picture is encoded under the palette of its keys. */
  lemma InKeyOrder(p: Picture, before: Table)
    requires IsTable(before) && InOrder(before.keys, before.index)
    ensures var t := GrownTable(p, before);
            InOrder(t.keys, t.index) && t.keys == GrownKeys(p, before.keys) && TableRuns(p, t) == PictureRuns(p, t.keys)
  {
    var cells := BoxCells(p, TightBox(p));
    var t := GrownTable(p, before);
    ExtendTable(before, Colors(cells), |cells|);
    ExtendInOrder(before, Colors(cells), |cells|);
    forall i | 0 <= i < |cells|
      ensures Looked(cells[i], t.index) == Index(cells[i], t.keys)
    {
      LookedInOrder(cells[i], t.keys);
    }
    assert LookedAll(cells, |cells|, t.index) == CellIndexes(cells, |cells|, t.keys);
  }

  /** A real colour is never transparent, and its index leads back to it. */
  lemma IndexIsReal(c: Rgba, keys: seq<string>)
    requires IsPalette(keys) && c.a != 0 && Color(c) in keys
    ensures 0 < Index(c, keys) < |keys| && keys[Index(c, keys)] == Color(c)
  {
  }

  /** Two visible cells get the same index exactly when they have the same red, green and blue. */
  lemma SameIndexSameColor(c: Rgba, d: Rgba, keys: seq<string>)
    requires IsPalette(keys) && c.a != 0 && d.a != 0 && Color(c) in keys && Color(d) in keys
    ensures Index(c, keys) == Index(d, keys) <==> (c.r, c.g, c.b) == (d.r, d.g, d.b)
  {
    IndexIsReal(c, keys);
    IndexIsReal(d, keys);
    ColorText(c);
    ColorText(d);
    RgbToHexInjective(c.r, c.g, c.b, d.r, d.g, d.b);
  }

  class Image {
    const width: nat
    const height: nat
    const rgbaAt: (int, int) -> Rgba
    var bounds: Bounds
    var tuples: seq<(int, int)>

    constructor (width: nat, height: nat, rgbaAt: (int, int) -> Rgba)
      ensures this.width == width && this.height == height && this.rgbaAt == rgbaAt
      ensures bounds == Bounds(0, 0, 0, 0) && tuples == []
    {
      this.width, this.height, this.rgbaAt := width, height, rgbaAt;
      bounds, tuples := Bounds(0, 0, 0, 0), [];
    }

    ghost function Pixels(): Picture {
      Picture(width, height, rgbaAt)
    }

    method IsTransparentRow(row: int) returns (clear: bool)
      ensures clear == Pixels().RowClear(row)
    {
      for column := 0 to width
        invariant forall x :: 0 <= x < column ==> rgbaAt(x, row).a == 0
      {
        if rgbaAt(column, row).a != 0 {
          return false;
        }
      }
      return true;
    }

    method IsTransparentColumn(column: int) returns (clear: bool)
      ensures clear == Pixels().ColumnClear(column)
    {
      for row := 0 to height
        invariant forall y :: 0 <= y < row ==> rgbaAt(column, y).a == 0
      {
        if rgbaAt(column, row).a != 0 {
          return false;
        }
      }
      return true;
    }

    method CalcBounds() returns (b: Bounds)
      ensures b == TightBox(Pixels())
    {
      var bottom := height - 1;
      var clear := IsTransparentRow(bottom);
      while bottom > 0 && clear
        invariant clear == Pixels().RowClear(bottom)
        invariant Bottom(Pixels(), bottom) == Bottom(Pixels(), height - 1)
      {
        bottom := bottom - 1;
        clear := IsTransparentRow(bottom);
      }
      var top := 0;
      clear := IsTransparentRow(top);
      while top < bottom && clear
        invariant clear == Pixels().RowClear(top)
        invariant Top(Pixels(), top, bottom) == Top(Pixels(), 0, bottom)
      {
        top := top + 1;
        clear := IsTransparentRow(top);
      }
      var right := width - 1;
      clear := IsTransparentColumn(right);
      while right >= 0 && clear
        invariant right >= -1 && clear == Pixels().ColumnClear(right)
        invariant Right(Pixels(), right) == Right(Pixels(), width - 1)
      {
        right := right - 1;
        clear := IsTransparentColumn(right);
      }
      var left := 0;
      clear := IsTransparentColumn(left);
      while left < right && clear
        invariant clear == Pixels().ColumnClear(left)
        invariant Left(Pixels(), left, right) == Left(Pixels(), 0, right)
      {
        left := left + 1;
        clear := IsTransparentColumn(left);
      }
      b := Bounds(top, right + 1, bottom, left);
    }

    /** Two fields of hex for one run. */
    static method PushRun(encoding: string, count: int, color: int, ghost runs: seq<Run>) returns (more: string)
      requires encoding == RunsText(runs)
      ensures more == RunsText(runs + [Run(count, color)])
    {
      RunsTextAppend(runs, Run(count, color));
      more := encoding + ToPaddedHex(count) + ToPaddedHex(color);
    }

    /** Every run is printed; `tuples` misses the last one. */
    method Encode(data: seq<int>) returns (encoding: string)
      modifies this`tuples
      ensures encoding == RunsText(Greedy(data))
      ensures tuples == old(tuples) + AllButLast(Greedy(data))
    {
      encoding := "";
      ghost var runs: seq<Run> := [];
      if data != [] {
        var previous, count := data[0], 1;
        for i := 1 to |data|
          invariant Greedy(data) == runs + Pending(previous, count, data[i..])
          invariant encoding == RunsText(runs) && tuples == old(tuples) + Pairs(runs)
        {
          PendingStep(runs, previous, count, data, i);
          if data[i] != previous || count == MAX_COUNT {
            PairsAppend(runs, Run(count, previous));
            encoding := PushRun(encoding, count, previous, runs);
            tuples := tuples + [(count, previous)];
            runs := runs + [Run(count, previous)];
            count, previous := 1, data[i];
          } else {
            count := count + 1;
          }
        }
        PairsAppend(runs, Run(count, previous));
        encoding := PushRun(encoding, count, previous, runs);
      }
    }

    /**
     The body of the double loop of `toRLE`: insert the cell's colour if it does not exist yet; a cell
     with alpha 0 gets the transparent index all the same.
     */
    method IndexCell(colors: ColorMap, x: int, y: int, indexes: seq<int>, ghost cells: seq<Rgba>, ghost before: Table)
      returns (more: seq<int>)
      requires colors.Valid() && Scanned(cells, |indexes|, before, colors.View(), indexes)
      requires |indexes| < |cells| && cells[|indexes|] == rgbaAt(x, y)
      modifies colors
      ensures colors.Valid() && |more| == |indexes| + 1
      ensures Scanned(cells, |more|, before, colors.View(), more)
    {
      var c := rgbaAt(x, y);
      ScanOneMore(cells, |indexes|, before, colors.View(), indexes);
      ColorText(c);
      var hexColor := RgbToHex(c.r, c.g, c.b);
      colors.Add(hexColor);
      more := indexes + [if c.a == 0 then 0 else colors.index[hexColor]];
    }

    /** The inner loop of `toRLE`: one row of the box. */
    method ScanRow(b: Bounds, y: int, colors: ColorMap, indexes: seq<int>, ghost cells: seq<Rgba>, ghost before: Table)
      returns (more: seq<int>)
      requires colors.Valid() && Scanned(cells, |indexes|, before, colors.View(), indexes)
      requires b.left <= b.right && HoldsRow(cells, |indexes|, Pixels(), b, y)
      modifies colors
      ensures colors.Valid() && |more| == |indexes| + b.Width()
      ensures Scanned(cells, |more|, before, colors.View(), more)
    {
      more := indexes;
      for x := b.left to b.right
        invariant colors.Valid() && |more| == |indexes| + (x - b.left)
        invariant Scanned(cells, |more|, before, colors.View(), more)
      {
        RowCell(cells, |indexes|, Pixels(), b, x, y);
        more := IndexCell(colors, x, y, more, cells, before);
      }
    }

    /** The double loop of `toRLE`: the box's colours join the palette, its cells get their indexes. */
    method ScanBox(b: Bounds, colors: ColorMap, ghost cells: seq<Rgba>) returns (indexes: seq<int>)
      requires colors.Valid() && HoldsCells(cells, Pixels(), b) && b.left <= b.right && b.top <= b.bottom + 1
      modifies colors
      ensures colors.Valid() && Scanned(cells, |cells|, old(colors.View()), colors.View(), indexes)
    {
      ghost var before := colors.View();
      indexes := [];
      for y := b.top to b.bottom + 1
        invariant colors.Valid() && |indexes| == RowStart(y - b.top, b.Width())
        invariant Scanned(cells, |indexes|, before, colors.View(), indexes)
      {
        RowHeld(cells, Pixels(), b, y);
        indexes := ScanRow(b, y, colors, indexes, cells, before);
        assert RowStart(y + 1 - b.top, b.Width()) == RowStart(y - b.top, b.Width()) + b.Width();
      }
    }

    /** The caller's map need not be in key order; when it is, it stays so. */
    method ToRLE(colors: ColorMap) returns (rle: string)
      requires colors.Valid()
      modifies this, colors
      ensures colors.Valid() && colors.View() == GrownTable(Pixels(), old(colors.View()))
      ensures bounds == TightBox(Pixels())
      ensures rle == RleText(bounds, TableRuns(Pixels(), colors.View()))
      ensures old(colors.Ordered()) ==>
                colors.Ordered() && colors.keys == GrownKeys(Pixels(), old(colors.keys)) &&
                rle == RleText(bounds, PictureRuns(Pixels(), colors.keys))
    {
      bounds := CalcBounds();
      TightBoxHolds(Pixels());
      BoxCellsListed(Pixels(), bounds);
      var indexes := ScanBox(bounds, colors, BoxCells(Pixels(), bounds));
      var runs := Encode(indexes);
      rle := "0x" + ToPaddedHex(0) + ToPaddedHex(bounds.top) + ToPaddedHex(bounds.right)
      + ToPaddedHex(bounds.bottom) + ToPaddedHex(bounds.left) + runs;
      RleTextIs(bounds, TableRuns(Pixels(), colors.View()));
      if old(colors.Ordered()) {
        InKeyOrder(Pixels(), old(colors.View()));
      }
    }
  }
}
