/**
 The painter of `buildSVG`, in cells: a pen moves through a box in raster order, and each run is cut
 into strokes that end at the right bound.
 */
module Painter {
  import opened Grid
  import opened Image
  import opened Rle

  datatype Stroke = Stroke(x: int, y: int, length: int, color: int) {
    predicate Covers(cx: int, cy: int) {
      cy == y && x <= cx < x + length
    }
  }

  datatype Pen = Pen(x: int, y: int, strokes: seq<Stroke>)

  function RectLength(currentX: int, drawLength: int, rightBound: int): int {
    var remainingPixelsInLine := rightBound - currentX;
    if drawLength <= remainingPixelsInLine then drawLength else remainingPixelsInLine
  }

  /** One turn of the line-splitting loop: push unless transparent, advance, wrap at the right bound. */
  function Advance(pen: Pen, length: int, color: int, b: Bounds): Pen {
    var strokes := if color != 0 then pen.strokes + [Stroke(pen.x, pen.y, length, color)] else pen.strokes;
    if pen.x + length == b.right then Pen(b.left, pen.y + 1, strokes) else Pen(pen.x + length, pen.y, strokes)
  }

  function Drag(pen: Pen, drawLength: int, color: int, b: Bounds): Pen
    decreases if drawLength < 0 then 0 else drawLength
  {
    var length := RectLength(pen.x, drawLength, b.right);
    if length <= 0 then pen else Drag(Advance(pen, length, color, b), drawLength - length, color, b)
  }

  function Draw(pen: Pen, runs: seq<Run>, b: Bounds): Pen
    decreases |runs|
  {
    if runs == [] then pen else Draw(Drag(pen, runs[0].length, runs[0].color, b), runs[1..], b)
  }

  function Strokes(b: Bounds, runs: seq<Run>): seq<Stroke> {
    Draw(Pen(b.left, b.top, []), runs, b).strokes
  }

  /** A stroke lies in one row of the box's columns, is not empty and not transparent. */
  predicate InLine(s: Stroke, b: Bounds) {
    b.top <= s.y && b.left <= s.x && 1 <= s.length && s.x + s.length <= b.right && s.color != 0
  }

  /** The flat position of a cell. */
  function Flat(x: int, y: int, b: Bounds): int
    requires b.top <= y
  {
    RowStart(y - b.top, b.Width()) + (x - b.left)
  }

  ghost predicate Blank(cells: seq<int>) {
    forall p :: 0 <= p < |cells| ==> cells[p] == 0
  }

  /** Strokes that, one after the other and without overlap, trace the cells that are not 0. */
  ghost predicate Trace(strokes: seq<Stroke>, cells: seq<int>, b: Bounds) {
    if strokes == [] then Blank(cells)
    else
      var s := strokes[|strokes| - 1];
      InLine(s, b) &&
      var from := Flat(s.x, s.y, b);
      && 0 <= from && from + s.length <= |cells|
      && cells[from..from + s.length] == Repeat(s.color, s.length)
      && Blank(cells[from + s.length..])
      && Trace(strokes[..|strokes| - 1], cells[..from], b)
  }

  /** The pen stands at the first cell not painted yet. */
  ghost predicate OnTrack(pen: Pen, cells: seq<int>, b: Bounds) {
    && b.left <= pen.x < b.right && b.top <= pen.y
    && |cells| == Flat(pen.x, pen.y, b)
    && Trace(pen.strokes, cells, b)
  }

  lemma TraceBlank(strokes: seq<Stroke>, cells: seq<int>, b: Bounds, n: nat)
    requires Trace(strokes, cells, b)
    ensures Trace(strokes, cells + Repeat(0, n), b)
  {
    var more := cells + Repeat(0, n);
    if strokes != [] {
      var s := strokes[|strokes| - 1];
      var from := Flat(s.x, s.y, b);
      assert more[from..from + s.length] == cells[from..from + s.length];
      assert more[from + s.length..] == cells[from + s.length..] + Repeat(0, n);
      assert more[..from] == cells[..from];
    }
  }

  lemma TraceStroke(strokes: seq<Stroke>, cells: seq<int>, b: Bounds, s: Stroke)
    requires Trace(strokes, cells, b) && InLine(s, b) && |cells| == Flat(s.x, s.y, b)
    ensures Trace(strokes + [s], cells + Repeat(s.color, s.length), b)
  {
    var more := cells + Repeat(s.color, s.length);
    assert more[|cells|..|cells| + s.length] == Repeat(s.color, s.length);
    assert more[|cells| + s.length..] == [];
    assert more[..|cells|] == cells;
    assert (strokes + [s])[..|strokes|] == strokes;
  }

  lemma AdvancePosition(pen: Pen, length: int, color: int, b: Bounds)
    requires b.left <= pen.x < b.right && b.top <= pen.y && 1 <= length <= b.right - pen.x
    ensures var next := Advance(pen, length, color, b);
            b.left <= next.x < b.right && b.top <= next.y &&
            Flat(next.x, next.y, b) == Flat(pen.x, pen.y, b) + length
  {
    assert RowStart(pen.y + 1 - b.top, b.Width()) == RowStart(pen.y - b.top, b.Width()) + b.Width();
  }

  lemma AdvanceKeeps(pen: Pen, cells: seq<int>, length: int, color: int, b: Bounds)
    requires OnTrack(pen, cells, b) && 1 <= length <= b.right - pen.x
    ensures OnTrack(Advance(pen, length, color, b), cells + Repeat(color, length), b)
  {
    AdvancePosition(pen, length, color, b);
    if color == 0 {
      TraceBlank(pen.strokes, cells, b, length);
    } else {
      TraceStroke(pen.strokes, cells, b, Stroke(pen.x, pen.y, length, color));
    }
  }

  lemma RepeatSplit(cells: seq<int>, color: int, n: nat, all: nat)
    requires n <= all
    ensures cells + Repeat(color, n) + Repeat(color, all - n) == cells + Repeat(color, all)
  {
  }

  lemma {:induction false} DragKeeps(pen: Pen, cells: seq<int>, drawLength: int, color: int, b: Bounds)
    requires OnTrack(pen, cells, b)
    ensures OnTrack(Drag(pen, drawLength, color, b), cells + RunCells(Run(drawLength, color)), b)
    decreases if drawLength < 0 then 0 else drawLength
  {
    var length := RectLength(pen.x, drawLength, b.right);
    if length <= 0 {
      assert cells + RunCells(Run(drawLength, color)) == cells;
    } else {
      AdvanceKeeps(pen, cells, length, color, b);
      DragKeeps(Advance(pen, length, color, b), cells + Repeat(color, length), drawLength - length, color, b);
      RepeatSplit(cells, color, length, drawLength);
    }
  }

  lemma ExpandNext(cells: seq<int>, runs: seq<Run>)
    requires runs != []
    ensures cells + RunCells(runs[0]) + Expand(runs[1..]) == cells + Expand(runs)
  {
    JoinLast(cells, RunCells(runs[0]), Expand(runs[1..]));
  }

  lemma JoinLast(a: seq<int>, b: seq<int>, c: seq<int>)
    ensures a + b + c == a + (b + c)
  {
  }

  lemma {:induction false} DrawKeeps(pen: Pen, cells: seq<int>, runs: seq<Run>, b: Bounds)
    requires OnTrack(pen, cells, b)
    ensures OnTrack(Draw(pen, runs, b), cells + Expand(runs), b)
    decreases |runs|
  {
    if runs == [] {
      assert cells + Expand(runs) == cells;
    } else {
      var next, more := Drag(pen, runs[0].length, runs[0].color, b), cells + RunCells(runs[0]);
      DragKeeps(pen, cells, runs[0].length, runs[0].color, b);
      DrawKeeps(next, more, runs[1..], b);
      ExpandNext(cells, runs);
    }
  }

  lemma StrokesTrace(b: Bounds, runs: seq<Run>)
    requires b.left < b.right
    ensures Trace(Strokes(b, runs), Expand(runs), b)
  {
    DrawKeeps(Pen(b.left, b.top, []), [], runs, b);
    assert [] + Expand(runs) == Expand(runs);
  }

  /** A box without columns is never painted. */
  lemma {:induction false} NothingDrawn(pen: Pen, runs: seq<Run>, b: Bounds)
    requires b.right <= pen.x
    ensures Draw(pen, runs, b) == pen
    decreases |runs|
  {
    if runs != [] {
      NothingDrawn(pen, runs[1..], b);
    }
  }

  /** A stroke covers a cell of the box exactly when the cell's flat position is among the stroke's. */
  lemma CoversFlat(s: Stroke, x: int, y: int, b: Bounds)
    requires InLine(s, b) && b.left <= x < b.right && b.top <= y
    ensures s.Covers(x, y) <==> Flat(s.x, s.y, b) <= Flat(x, y, b) < Flat(s.x, s.y, b) + s.length
    ensures 0 <= Flat(s.x, s.y, b)
  {
    if y < s.y {
      RowsFollow(y - b.top, s.y - b.top, b.Width());
    } else if s.y < y {
      RowsFollow(s.y - b.top, y - b.top, b.Width());
    }
  }

  /** The colour of the last stroke over a cell; 0 when there is none. */
  function TopColor(strokes: seq<Stroke>, x: int, y: int): int {
    if strokes == [] then 0
    else if strokes[|strokes| - 1].Covers(x, y) then strokes[|strokes| - 1].color
    else TopColor(strokes[..|strokes| - 1], x, y)
  }

  /** What a run list says about a cell: the colour at its flat position; 0 outside. */
  function CellColor(cells: seq<int>, b: Bounds, x: int, y: int): int {
    if b.left <= x < b.right && b.top <= y && 0 <= Flat(x, y, b) < |cells| then cells[Flat(x, y, b)] else 0
  }

  lemma {:induction false} TraceColors(strokes: seq<Stroke>, cells: seq<int>, b: Bounds, x: int, y: int)
    requires Trace(strokes, cells, b)
    ensures TopColor(strokes, x, y) == CellColor(cells, b, x, y)
  {
    if strokes != [] {
      var s := strokes[|strokes| - 1];
      var from := Flat(s.x, s.y, b);
      TraceColors(strokes[..|strokes| - 1], cells[..from], b, x, y);
      if b.left <= x < b.right && b.top <= y {
        CoversFlat(s, x, y, b);
        var p := Flat(x, y, b);
        if from <= p < from + s.length {
          assert cells[p] == cells[from..from + s.length][p - from];
        } else if from + s.length <= p < |cells| {
          assert cells[p] == cells[from + s.length..][p - from - s.length];
        }
      }
    }
  }

  /** For any bounds and any runs, each cell gets the colour its flat position has in the runs. */
  lemma PaintedExactly(b: Bounds, runs: seq<Run>, x: int, y: int)
    ensures TopColor(Strokes(b, runs), x, y) == CellColor(Expand(runs), b, x, y)
  {
    if b.left < b.right {
      StrokesTrace(b, runs);
      TraceColors(Strokes(b, runs), Expand(runs), b, x, y);
    } else {
      NothingDrawn(Pen(b.left, b.top, []), runs, b);
    }
  }

  lemma {:induction false} TraceInOrder(strokes: seq<Stroke>, cells: seq<int>, b: Bounds, i: nat, j: nat)
    requires Trace(strokes, cells, b) && i < |strokes| && j < |strokes|
    ensures InLine(strokes[i], b) && InLine(strokes[j], b)
    ensures Flat(strokes[i].x, strokes[i].y, b) + strokes[i].length <= |cells|
    ensures i < j ==> Flat(strokes[i].x, strokes[i].y, b) + strokes[i].length <= Flat(strokes[j].x, strokes[j].y, b)
  {
    var n := |strokes| - 1;
    var from := Flat(strokes[n].x, strokes[n].y, b);
    if i < n {
      TraceInOrder(strokes[..n], cells[..from], b, i, i);
    }
    if i < n && j < n {
      TraceInOrder(strokes[..n], cells[..from], b, i, j);
    } else if j < n {
      TraceInOrder(strokes[..n], cells[..from], b, j, j);
    }
  }

  /**
   The rectangles of a part: each in one row between the bounds, in raster order and disjoint.
   */
  lemma StrokesInRasterOrder(b: Bounds, runs: seq<Run>, i: nat, j: nat)
    requires i < j < |Strokes(b, runs)|
    ensures var s, t := Strokes(b, runs)[i], Strokes(b, runs)[j];
            InLine(s, b) && InLine(t, b) &&
            (s.y < t.y || (s.y == t.y && s.x + s.length <= t.x)) &&
            forall x, y :: !(s.Covers(x, y) && t.Covers(x, y))
  {
    var strokes := Strokes(b, runs);
    if b.left < b.right {
      StrokesTrace(b, runs);
      TraceInOrder(strokes, Expand(runs), b, i, j);
      if strokes[j].y < strokes[i].y {
        RowsFollow(strokes[j].y - b.top, strokes[i].y - b.top, b.Width());
      }
    } else {
      NothingDrawn(Pen(b.left, b.top, []), runs, b);
    }
  }
}
