/**
 `decodeImage` and `buildSVG`: reading the hex text back, with NaN for what is no number, and painting
 its runs as rectangles that are cut wherever a run crosses the right bound.
 */
module SvgBuilder {
  import opened Hex
  import opened Image
  import opened Painter
  import opened Rle
  import opened Wrappers

  /** A number that was read, or NaN. */
  type Number = Option<int>

  datatype ReadBounds = ReadBounds(top: Number, right: Number, bottom: Number, left: Number)

  datatype ReadRun = ReadRun(length: Number, color: Number)

  datatype DecodedImage = DecodedImage(paletteIndex: Number, bounds: ReadBounds, rects: seq<ReadRun>)

  /** `String.prototype.substring` for `from <= to`. */
  function Substring(s: string, from: nat, to: nat): (t: string)
    requires from <= to
    ensures |t| <= to - from
  {
    s[if from < |s| then from else |s|..if to < |s| then to else |s|]
  }

  /** The length of the first match of `.{1,4}` in a text that does not start with a line terminator. */
  function ChunkLength(text: string, most: nat): (n: nat)
    ensures n <= most && n <= |text|
  {
    if most == 0 || text == "" || IsLineTerminator(text[0]) then 0 else 1 + ChunkLength(text[1..], most - 1)
  }

  /** One run per chunk of four characters. */
  function DecodeRects(text: string): seq<ReadRun>
    decreases |text|
  {
    if text == "" then []
    else if IsLineTerminator(text[0]) then DecodeRects(text[1..])
    else
      var n := ChunkLength(text, 4);
      [ReadRun(ParseInt16(Substring(text[..n], 0, 2)), ParseInt16(Substring(text[..n], 2, 4)))] + DecodeRects(text[n..])
  }

  function DecodeImage(image: string): DecodedImage {
    var data := if "0x" <= image then image[2..] else image;
    DecodedImage(ParseInt16(Substring(data, 0, 2)),
                 ReadBounds(ParseInt16(Substring(data, 2, 4)), ParseInt16(Substring(data, 4, 6)),
                            ParseInt16(Substring(data, 6, 8)), ParseInt16(Substring(data, 8, 10))),
                 DecodeRects(if |data| < 10 then "" else data[10..]))
  }

  function AsRead(runs: seq<Run>): (read: seq<ReadRun>)
    ensures |read| == |runs|
  {
    seq(|runs|, i requires 0 <= i < |runs| => ReadRun(Some(runs[i].length), Some(runs[i].color)))
  }

  /** A box and runs, as they are read when no number is lost. */
  function Exactly(b: Bounds, runs: seq<Run>): DecodedImage {
    DecodedImage(Some(0), ReadBounds(Some(b.top), Some(b.right), Some(b.bottom), Some(b.left)), AsRead(runs))
  }

  predicate BoundsFit(b: Bounds) {
    FitsField(b.top) && FitsField(b.right) && FitsField(b.bottom) && FitsField(b.left)
  }

  predicate RunsFit(runs: seq<Run>) {
    forall run <- runs :: FitsField(run.length) && FitsField(run.color)
  }

  /** Two characters, neither of which ends a line. */
  predicate IsPair(s: string) {
    |s| == 2 && !IsLineTerminator(s[0]) && !IsLineTerminator(s[1])
  }

  lemma ChunkOfFour(text: string)
    requires |text| >= 4 && IsPair(text[0..2]) && IsPair(text[2..4])
    ensures ChunkLength(text, 4) == 4
  {
    assert text[0] == text[0..2][0] && text[1] == text[0..2][1] && text[2] == text[2..4][0] && text[3] == text[2..4][1];
    assert ChunkLength(text[3..], 1) == 1;
    assert text[2..][1..] == text[3..];
    assert ChunkLength(text[2..], 2) == 2;
    assert text[1..][1..] == text[2..];
    assert ChunkLength(text[1..], 3) == 3;
  }

  lemma DecodeChunk(a: string, b: string, rest: string)
    requires IsPair(a) && IsPair(b)
    ensures DecodeRects(a + b + rest) == [ReadRun(ParseInt16(a), ParseInt16(b))] + DecodeRects(rest)
  {
    var text := a + b + rest;
    assert text[0..2] == a && text[2..4] == b && text[4..] == rest;
    ChunkOfFour(text);
    assert text[..4][0..2] == text[0..2] && text[..4][2..4] == text[2..4];
  }

  lemma AsReadFirst(runs: seq<Run>)
    requires runs != []
    ensures AsRead(runs) == [ReadRun(Some(runs[0].length), Some(runs[0].color))] + AsRead(runs[1..])
  {
  }

  lemma {:induction false} DecodeRunsText(runs: seq<Run>)
    requires RunsFit(runs)
    ensures DecodeRects(RunsText(runs)) == AsRead(runs)
  {
    if runs != [] {
      var a, b, rest := ToPaddedHex(runs[0].length), ToPaddedHex(runs[0].color), RunsText(runs[1..]);
      DecodeRunsText(runs[1..]);
      FieldRoundTrip(runs[0].length);
      FieldRoundTrip(runs[0].color);
      DecodeChunk(a, b, rest);
      assert RunsText(runs) == a + b + rest;
      AsReadFirst(runs);
    }
  }

  lemma DecodeHeader(p: string, t: string, r: string, b: string, l: string, rest: string)
    requires |p| == |t| == |r| == |b| == |l| == 2
    ensures DecodeImage("0x" + p + t + r + b + l + rest) ==
            DecodedImage(ParseInt16(p), ReadBounds(ParseInt16(t), ParseInt16(r), ParseInt16(b), ParseInt16(l)), DecodeRects(rest))
  {
    var image := "0x" + p + t + r + b + l + rest;
    var data := p + t + r + b + l + rest;
    assert image[2..] == data;
    assert data[0..2] == p && data[2..4] == t && data[4..6] == r && data[6..8] == b && data[8..10] == l;
    assert data[10..] == rest;
  }

  predicate NumberFits(n: Number) {
    n.Some? ==> FitsField(n.value)
  }

  lemma ReadFits(s: string, from: nat)
    ensures NumberFits(ParseInt16(Substring(s, from, from + 2)))
  {
    if ParseInt16(Substring(s, from, from + 2)).Some? {
      ParsedFits(Substring(s, from, from + 2));
    }
  }

  /** Whatever the text, every number that is read fits on two characters. */
  lemma {:induction false} DecodedRectsFit(text: string)
    ensures forall run <- DecodeRects(text) :: NumberFits(run.length) && NumberFits(run.color)
    decreases |text|
  {
    if text == "" {
    } else if IsLineTerminator(text[0]) {
      DecodedRectsFit(text[1..]);
    } else {
      var n := ChunkLength(text, 4);
      ReadFits(text[..n], 0);
      ReadFits(text[..n], 2);
      DecodedRectsFit(text[n..]);
    }
  }

  predicate ReadBoundsFit(b: ReadBounds) {
    NumberFits(b.top) && NumberFits(b.right) && NumberFits(b.bottom) && NumberFits(b.left)
  }

  lemma DecodedBoundsFit(image: string)
    ensures ReadBoundsFit(DecodeImage(image).bounds)
  {
    var data := if "0x" <= image then image[2..] else image;
    ReadFits(data, 2);
    ReadFits(data, 4);
    ReadFits(data, 6);
    ReadFits(data, 8);
  }

  lemma FittingTextDecodes(b: Bounds, runs: seq<Run>)
    requires BoundsFit(b) && RunsFit(runs)
    ensures DecodeImage(RleText(b, runs)) == Exactly(b, runs)
  {
    FieldRoundTrip(0);
    FieldRoundTrip(b.top);
    FieldRoundTrip(b.right);
    FieldRoundTrip(b.bottom);
    FieldRoundTrip(b.left);
    DecodeRunsText(runs);
    RleTextIs(b, runs);
    DecodeHeader(ToPaddedHex(0), ToPaddedHex(b.top), ToPaddedHex(b.right), ToPaddedHex(b.bottom),
                 ToPaddedHex(b.left), RunsText(runs));
  }

  lemma ExactlyFits(b: Bounds, runs: seq<Run>, image: string)
    requires DecodeImage(image) == Exactly(b, runs)
    ensures BoundsFit(b) && RunsFit(runs)
  {
    DecodedBoundsFit(image);
    var data := if "0x" <= image then image[2..] else image;
    DecodedRectsFit(if |data| < 10 then "" else data[10..]);
    forall run | run in runs
      ensures FitsField(run.length) && FitsField(run.color)
    {
      var i :| 0 <= i < |runs| && runs[i] == run;
      assert AsRead(runs)[i] in DecodeImage(image).rects;
    }
  }

  /** The text reads back as the box and the runs it was printed from exactly when each number fits on two characters. */
  lemma TextRoundTrip(b: Bounds, runs: seq<Run>)
    ensures DecodeImage(RleText(b, runs)) == Exactly(b, runs) <==> BoundsFit(b) && RunsFit(runs)
  {
    if BoundsFit(b) && RunsFit(runs) {
      FittingTextDecodes(b, runs);
    } else if DecodeImage(RleText(b, runs)) == Exactly(b, runs) {
      ExactlyFits(b, runs, RleText(b, runs));
    }
  }

  // ---------- painting ----------

  /** Subtraction and addition of numbers that may be NaN. */
  function Minus(a: Number, b: Number): Number {
    if a.Some? && b.Some? then Some(a.value - b.value) else None
  }

  function Plus(a: Number, b: Number): Number {
    if a.Some? && b.Some? then Some(a.value + b.value) else None
  }

  /** NaN compares as false. */
  predicate AtMost(a: Number, b: Number) {
    a.Some? && b.Some? && a.value <= b.value
  }

  predicate Positive(a: Number) {
    a.Some? && a.value > 0
  }

  predicate Same(a: Number, b: Number) {
    a.Some? && a == b
  }

  function GetRectLength(currentX: Number, drawLength: Number, rightBound: Number): Number {
    var remainingPixelsInLine := Minus(rightBound, currentX);
    if AtMost(drawLength, remainingPixelsInLine) then drawLength else remainingPixelsInLine
  }

  /** The part has columns to paint. */
  predicate HasColumns(b: ReadBounds) {
    b.left.Some? && b.right.Some? && b.left.value < b.right.value
  }

  /** The loop ends on every run of the part. */
  predicate Ends(part: DecodedImage) {
    HasColumns(part.bounds) ==> forall run <- part.rects :: run.length.Some?
  }

  /** Where the loop is between two turns. */
  datatype Position = Position(currentX: Number, drawLength: Number)

  predicate GoesOn(t: Position, b: ReadBounds) {
    Positive(GetRectLength(t.currentX, t.drawLength, b.right))
  }

  /** One turn of the loop. */
  function NextTurn(t: Position, b: ReadBounds): Position {
    var length := GetRectLength(t.currentX, t.drawLength, b.right);
    var x := Plus(t.currentX, length);
    Position(if Same(x, b.right) then b.left else x, Minus(t.drawLength, length))
  }

  function AfterTurns(t: Position, b: ReadBounds, n: nat): Position
    decreases n
  {
    if n == 0 then t else AfterTurns(NextTurn(t, b), b, n - 1)
  }

  /** The loop comes to an end after some number of turns. */
  ghost predicate LoopEnds(t: Position, b: ReadBounds) {
    exists n: nat :: !GoesOn(AfterTurns(t, b, n), b)
  }

  /** Where a run can start: between the bounds when there are columns, at the left bound otherwise. */
  predicate InPart(x: Number, b: ReadBounds) {
    if HasColumns(b) then x.Some? && b.left.value <= x.value < b.right.value else x == b.left
  }

  lemma TurnStaysInPart(t: Position, b: ReadBounds)
    requires HasColumns(b) && InPart(t.currentX, b) && GoesOn(t, b)
    ensures InPart(NextTurn(t, b).currentX, b)
    ensures NextTurn(t, b).drawLength.Some? <==> t.drawLength.Some?
    ensures t.drawLength.Some? ==> NextTurn(t, b).drawLength.value < t.drawLength.value
    ensures t.drawLength.Some? ==> t.drawLength.value > 0
  {
  }

  /** Without a length there is no last turn. */
  lemma {:induction false} NoLengthGoesOn(t: Position, b: ReadBounds, n: nat)
    requires HasColumns(b) && InPart(t.currentX, b) && t.drawLength.None?
    ensures GoesOn(AfterTurns(t, b, n), b)
    decreases n
  {
    if n > 0 {
      TurnStaysInPart(t, b);
      NoLengthGoesOn(NextTurn(t, b), b, n - 1);
    }
  }

  lemma {:induction false} LengthEnds(t: Position, b: ReadBounds) returns (n: nat)
    requires HasColumns(b) && InPart(t.currentX, b) && t.drawLength.Some?
    ensures !GoesOn(AfterTurns(t, b, n), b)
    decreases if t.drawLength.value < 0 then 0 else t.drawLength.value
  {
    n := 0;
    if GoesOn(t, b) {
      TurnStaysInPart(t, b);
      n := LengthEnds(NextTurn(t, b), b);
      n := n + 1;
    }
  }

  /** The loop for a run ends if and only if the part has no columns or the run has a length. */
  lemma LoopEndsExact(t: Position, b: ReadBounds)
    requires InPart(t.currentX, b)
    ensures LoopEnds(t, b) <==> !HasColumns(b) || t.drawLength.Some?
  {
    if !HasColumns(b) {
      assert !GoesOn(AfterTurns(t, b, 0), b);
    } else if t.drawLength.Some? {
      var n := LengthEnds(t, b);
    } else {
      forall n: nat
        ensures GoesOn(AfterTurns(t, b, n), b)
      {
        NoLengthGoesOn(t, b, n);
      }
    }
  }

  /** So the painter gets through a part, wherever its runs start, exactly when `Ends` says so. */
  lemma PartEndsExact(part: DecodedImage)
    ensures Ends(part) <==>
            forall run <- part.rects, x: Number :: InPart(x, part.bounds) ==> LoopEnds(Position(x, run.length), part.bounds)
  {
    forall run, x: Number | run in part.rects && InPart(x, part.bounds)
      ensures LoopEnds(Position(x, run.length), part.bounds) <==> !HasColumns(part.bounds) || run.length.Some?
    {
      LoopEndsExact(Position(x, run.length), part.bounds);
    }
    assert InPart(part.bounds.left, part.bounds);
  }

  // ---------- texts that were printed ----------

  predicate AllHex(s: string) {
    forall c <- s :: DigitValue(c).Some?
  }

  lemma {:induction false} DigitsAreHex(n: nat)
    ensures AllHex(Digits(n))
  {
    if n < 16 {
      DigitOf(n);
    } else {
      DigitsAreHex(n / 16);
      DigitOf(n % 16);
    }
  }

  lemma PrintsHex(n: nat)
    ensures AllHex(ToPaddedHex(n)) && |ToPaddedHex(n)| >= 2
  {
    DigitsAreHex(n);
    if |Digits(n)| < 2 {
      assert ToPaddedHex(n) == PadStart("0" + Digits(n), 2) == "0" + Digits(n);
    }
  }

  lemma HexReads(s: string)
    requires AllHex(s) && s != ""
    ensures ParseInt16(s).Some? && !IsLineTerminator(s[0])
  {
    assert s[0] in s && !IsSpace(s[0]) && s[0] != '-' && s[0] != '+';
    if |s| >= 2 {
      assert s[1] in s && s[1] != 'x' && s[1] != 'X';
    }
    assert HexPrefix(s) != "";
  }

  lemma {:induction false} HexRunsHaveLengths(text: string)
    requires AllHex(text)
    ensures forall run <- DecodeRects(text) :: run.length.Some?
    decreases |text|
  {
    if text != "" {
      var n := ChunkLength(text, 4);
      HexReads(text);
      HexReads(Substring(text[..n], 0, 2));
      HexRunsHaveLengths(text[n..]);
    }
  }

  predicate NoneNegative(b: Bounds, runs: seq<Run>) {
    b.top >= 0 && b.right >= 0 && b.bottom >= 0 && b.left >= 0 && forall run <- runs :: run.length >= 0 && run.color >= 0
  }

  lemma {:induction false} RunsTextHex(runs: seq<Run>)
    requires forall run <- runs :: run.length >= 0 && run.color >= 0
    ensures AllHex(RunsText(runs))
  {
    if runs != [] {
      PrintsHex(runs[0].length);
      PrintsHex(runs[0].color);
      RunsTextHex(runs[1..]);
    }
  }

  lemma HexDataEnds(data: string)
    requires AllHex(data)
    ensures Ends(DecodeImage("0x" + data))
  {
    assert ("0x" + data)[2..] == data;
    HexRunsHaveLengths(if |data| < 10 then "" else data[10..]);
  }

  lemma HexJoin(a: string, b: string)
    requires AllHex(a) && AllHex(b)
    ensures AllHex(a + b)
  {
  }

  lemma HexPartsEnd(p: string, t: string, r: string, b: string, l: string, rest: string)
    requires AllHex(p) && AllHex(t) && AllHex(r) && AllHex(b) && AllHex(l) && AllHex(rest)
    ensures Ends(DecodeImage("0x" + p + t + r + b + l + rest))
  {
    HexJoin(p, t);
    HexJoin(p + t, r);
    HexJoin(p + t + r, b);
    HexJoin(p + t + r + b, l);
    HexJoin(p + t + r + b + l, rest);
    Front(p, t, r, b, l, rest);
    HexDataEnds(p + t + r + b + l + rest);
  }

  /** The painter gets through every text that is printed from numbers that are not negative, however many digits they take. */
  lemma PrintedEnds(b: Bounds, runs: seq<Run>)
    requires NoneNegative(b, runs)
    ensures Ends(DecodeImage(RleText(b, runs)))
  {
    PrintsHex(0);
    PrintsHex(b.top);
    PrintsHex(b.right);
    PrintsHex(b.bottom);
    PrintsHex(b.left);
    RunsTextHex(runs);
    RleTextIs(b, runs);
    HexPartsEnd(ToPaddedHex(0), ToPaddedHex(b.top), ToPaddedHex(b.right), ToPaddedHex(b.bottom), ToPaddedHex(b.left), RunsText(runs));
  }

  // ---------- a text that was not ----------

  lemma NoNumber()
    ensures ParseInt16("zz").None?
  {
    assert TrimStart("zz") == "zz" && HexPrefix("zz") == "";
  }

  /** A part of one column, and one run. */
  lemma OneColumn(length: string)
    requires IsPair(length)
    ensures DecodeImage("0x" + ToPaddedHex(0) + ToPaddedHex(0) + ToPaddedHex(1) + ToPaddedHex(0) + ToPaddedHex(0) + (length + ToPaddedHex(1) + "")) ==
            DecodedImage(Some(0), ReadBounds(Some(0), Some(1), Some(0), Some(0)), [ReadRun(ParseInt16(length), Some(1))])
  {
    FieldRoundTrip(0);
    FieldRoundTrip(1);
    DecodeHeader(ToPaddedHex(0), ToPaddedHex(0), ToPaddedHex(1), ToPaddedHex(0), ToPaddedHex(0), length + ToPaddedHex(1) + "");
    DecodeChunk(length, ToPaddedHex(1), "");
  }

  lemma Spelled()
    ensures "0x" + ToPaddedHex(0) + ToPaddedHex(0) + ToPaddedHex(1) + ToPaddedHex(0) + ToPaddedHex(0) + ("zz" + ToPaddedHex(1) + "") ==
            "0x0000010000zz01"
  {
    PaddedByte(0);
    PaddedByte(1);
  }

  /** A text whose only run starts with two letters that are no digits: the loop never ends. */
  lemma MalformedText()
    ensures var part := DecodeImage("0x0000010000zz01");
            HasColumns(part.bounds) && |part.rects| == 1 && !Ends(part) &&
            !LoopEnds(Position(part.bounds.left, part.rects[0].length), part.bounds)
  {
    NoNumber();
    OneColumn("zz");
    Spelled();
    var part := DecodedImage(Some(0), ReadBounds(Some(0), Some(1), Some(0), Some(0)), [ReadRun(None, Some(1))]);
    assert part.rects[0] in part.rects;
    LoopEndsExact(Position(part.bounds.left, part.rects[0].length), part.bounds);
  }

  /** A `rect` element, in SVG user units; one whose `y` is not a number is in error and is not rendered. */
  datatype SvgRect = SvgRect(x: int, y: Number, width: int, height: int, fill: string) {
    predicate Covers(px: int, py: int) {
      x <= px < x + width && y.Some? && y.value <= py < y.value + height
    }
  }

  /** The rectangle over the whole picture has the background's fill; the others come after it. */
  datatype Svg = Svg(background: string, rects: seq<SvgRect>)

  /** What `paletteColors[colorIndex]` prints as, also when there is no such colour. */
  function PaletteColor(palette: seq<string>, index: int): string {
    if 0 <= index < |palette| then palette[index] else "undefined"
  }

  /** An index that is not a number is one of no colour. */
  const NO_COLOR: int := -1

  /** The box the part is painted in; without columns when a side is not a number. */
  function PaintedBox(b: ReadBounds): Bounds {
    if b.left.Some? && b.right.Some? then Bounds(b.top.GetOr(0), b.right.value, b.bottom.GetOr(0), b.left.value)
    else Bounds(0, 0, 0, 0)
  }

  function PaintedRun(run: ReadRun): Run {
    Run(run.length.GetOr(0), run.color.GetOr(NO_COLOR))
  }

  function PaintedRuns(rects: seq<ReadRun>): (runs: seq<Run>)
    ensures |runs| == |rects|
  {
    seq(|rects|, i requires 0 <= i < |rects| => PaintedRun(rects[i]))
  }

  /** `top` is not a number for the whole part, or for none of it. */
  function Scale(s: Stroke, top: Number, palette: seq<string>): SvgRect {
    SvgRect(s.x * 10, if top.Some? then Some(s.y * 10) else None, s.length * 10, 10, "#" + PaletteColor(palette, s.color))
  }

  function ScaleAll(strokes: seq<Stroke>, top: Number, palette: seq<string>): (rects: seq<SvgRect>)
    ensures |rects| == |strokes|
  {
    seq(|strokes|, i requires 0 <= i < |strokes| => Scale(strokes[i], top, palette))
  }

  function PartStrokes(part: DecodedImage): seq<Stroke> {
    Strokes(PaintedBox(part.bounds), PaintedRuns(part.rects))
  }

  function PartRects(part: DecodedImage, palette: seq<string>): seq<SvgRect> {
    ScaleAll(PartStrokes(part), part.bounds.top, palette)
  }

  lemma PaintedExactlyAsRead(b: Bounds, runs: seq<Run>)
    ensures PaintedBox(Exactly(b, runs).bounds) == b && PaintedRuns(Exactly(b, runs).rects) == runs
    ensures Ends(Exactly(b, runs))
  {
  }

  function DecodeAll(parts: seq<string>): (images: seq<DecodedImage>)
    ensures |images| == |parts|
  {
    seq(|parts|, i requires 0 <= i < |parts| => DecodeImage(parts[i]))
  }

  predicate AllEnd(parts: seq<string>) {
    forall image <- DecodeAll(parts) :: Ends(image)
  }

  /** The rectangles of the first `n` parts, in order. */
  function AllRects(images: seq<DecodedImage>, palette: seq<string>, n: nat): seq<SvgRect>
    requires n <= |images|
  {
    if n == 0 then [] else AllRects(images, palette, n - 1) + PartRects(images[n - 1], palette)
  }

  function BackgroundFill(bgColor: Option<string>): string {
    if bgColor.None? || bgColor.value == "" then "none" else "#" + bgColor.value
  }

  lemma NoColumnsNoTurn(part: DecodedImage, run: ReadRun)
    requires !HasColumns(part.bounds)
    ensures !Positive(GetRectLength(part.bounds.left, run.length, part.bounds.right))
    ensures PartStrokes(part) == []
  {
    var b := PaintedBox(part.bounds);
    NothingDrawn(Pen(b.left, b.top, []), PaintedRuns(part.rects), b);
  }

  /** The turns of the loop for one run, in a part with columns; `pen` is where the numbers say. */
  method PaintRun(part: DecodedImage, run: ReadRun, palette: seq<string>, currentX: Number, currentY: Number, svgRects: seq<SvgRect>,
                  ghost pen: Pen)
    returns (x: Number, y: Number, rects: seq<SvgRect>)
    requires HasColumns(part.bounds) && run.length.Some?
    requires currentX == Some(pen.x) && currentY == (if part.bounds.top.Some? then Some(pen.y) else None)
    requires svgRects == ScaleAll(pen.strokes, part.bounds.top, palette)
    ensures var end := Drag(pen, run.length.value, PaintedRun(run).color, PaintedBox(part.bounds));
            && x == Some(end.x) && y == (if part.bounds.top.Some? then Some(end.y) else None)
            && rects == ScaleAll(end.strokes, part.bounds.top, palette)
  {
    ghost var b, color := PaintedBox(part.bounds), PaintedRun(run).color;
    ghost var end, at := Drag(pen, run.length.value, color, b), pen;
    x, y, rects := currentX, currentY, svgRects;
    var drawLength, colorIndex := run.length, run.color;
    var hexColor := if colorIndex.Some? then PaletteColor(palette, colorIndex.value) else "undefined";
    var length := GetRectLength(x, drawLength, part.bounds.right);
    while Positive(length)
      invariant drawLength.Some? && length == GetRectLength(x, drawLength, part.bounds.right)
      invariant x == Some(at.x) && y == (if part.bounds.top.Some? then Some(at.y) else None)
      invariant rects == ScaleAll(at.strokes, part.bounds.top, palette)
      invariant Drag(at, drawLength.value, color, b) == end
      decreases drawLength.value
    {
      ghost var next := Advance(at, length.value, color, b);
      if !Same(colorIndex, Some(0)) {
        rects := rects + [SvgRect(x.value * 10, if y.Some? then Some(y.value * 10) else None, length.value * 10, 10, "#" + hexColor)];
      }
      assert rects == ScaleAll(next.strokes, part.bounds.top, palette);
      x := Plus(x, length);
      if Same(x, part.bounds.right) {
        x, y := part.bounds.left, Plus(y, Some(1));
      }
      drawLength := Minus(drawLength, length);
      at := next;
      length := GetRectLength(x, drawLength, part.bounds.right);
    }
  }

  lemma DrawNext(pen: Pen, runs: seq<Run>, i: nat, b: Bounds)
    requires i < |runs|
    ensures Draw(pen, runs[i..], b) == Draw(Drag(pen, runs[i].length, runs[i].color, b), runs[i + 1..], b)
  {
    assert runs[i..][1..] == runs[i + 1..];
  }

  /** The rectangles of one part. */
  method PaintPart(part: DecodedImage, palette: seq<string>) returns (svgRects: seq<SvgRect>)
    requires Ends(part)
    ensures svgRects == PartRects(part, palette)
  {
    var currentX, currentY := part.bounds.left, part.bounds.top;
    ghost var b, runs := PaintedBox(part.bounds), PaintedRuns(part.rects);
    ghost var pen := Pen(b.left, b.top, []);
    svgRects := [];
    for i := 0 to |part.rects|
      invariant if HasColumns(part.bounds) then
          && currentX == Some(pen.x) && currentY == (if part.bounds.top.Some? then Some(pen.y) else None)
          && svgRects == ScaleAll(pen.strokes, part.bounds.top, palette)
          && Draw(pen, runs[i..], b).strokes == PartStrokes(part)
        else currentX == part.bounds.left && svgRects == []
    {
      var run := part.rects[i];
      if HasColumns(part.bounds) {
        assert run in part.rects;
        DrawNext(pen, runs, i, b);
        ghost var end := Drag(pen, run.length.value, PaintedRun(run).color, b);
        currentX, currentY, svgRects := PaintRun(part, run, palette, currentX, currentY, svgRects, pen);
        pen := end;
      } else {
        NoColumnsNoTurn(part, run);
      }
    }
    if !HasColumns(part.bounds) {
      NoColumnsNoTurn(part, ReadRun(None, None));
    }
  }

  /** The parts one after the other. */
  method PaintAll(images: seq<DecodedImage>, palette: seq<string>) returns (rects: seq<SvgRect>)
    requires forall image <- images :: Ends(image)
    ensures rects == AllRects(images, palette, |images|)
  {
    rects := [];
    for i := 0 to |images|
      invariant rects == AllRects(images, palette, i)
    {
      var svgRects := PaintPart(images[i], palette);
      rects := rects + svgRects;
    }
  }

  method BuildSVG(parts: seq<string>, paletteColors: seq<string>, bgColor: Option<string>) returns (svg: Svg)
    requires AllEnd(parts)
    ensures svg.rects == AllRects(DecodeAll(parts), paletteColors, |parts|)
    ensures svg.background == if bgColor.Some? && bgColor.value != "" then "#" + bgColor.value else "none"
  {
    var rects := PaintAll(DecodeAll(parts), paletteColors);
    svg := Svg(BackgroundFill(bgColor), rects);
  }

  /** What is seen at a point: later rectangles cover earlier ones (SVG 1.1, section 3.3). */
  function FillAt(rects: seq<SvgRect>, px: int, py: int, background: string): string {
    if rects == [] then background
    else if rects[|rects| - 1].Covers(px, py) then rects[|rects| - 1].fill
    else FillAt(rects[..|rects| - 1], px, py, background)
  }

  lemma {:induction false} FillAtAppend(below: seq<SvgRect>, above: seq<SvgRect>, px: int, py: int, background: string)
    ensures FillAt(below + above, px, py, background) == FillAt(above, px, py, FillAt(below, px, py, background))
  {
    if above == [] {
      assert below + above == below;
    } else {
      assert (below + above)[..|below + above| - 1] == below + above[..|above| - 1];
      FillAtAppend(below, above[..|above| - 1], px, py, background);
    }
  }

  lemma {:induction false} ScaledFill(strokes: seq<Stroke>, top: Number, palette: seq<string>, px: int, py: int, background: string)
    requires forall s <- strokes :: s.color != 0
    ensures var c := TopColor(strokes, px / 10, py / 10);
            FillAt(ScaleAll(strokes, top, palette), px, py, background) ==
            if top.None? || c == 0 then background else "#" + PaletteColor(palette, c)
  {
    if strokes != [] {
      var n := |strokes| - 1;
      assert ScaleAll(strokes, top, palette)[..n] == ScaleAll(strokes[..n], top, palette);
      ScaledFill(strokes[..n], top, palette, px, py, background);
    }
  }

  lemma {:induction false} NoTransparentStroke(strokes: seq<Stroke>, cells: seq<int>, b: Bounds)
    requires Trace(strokes, cells, b)
    ensures forall s <- strokes :: s.color != 0
  {
    if strokes != [] {
      var last := strokes[|strokes| - 1];
      NoTransparentStroke(strokes[..|strokes| - 1], cells[..Flat(last.x, last.y, b)], b);
    }
  }

  /** One part over a background: each cell its runs colour shows that colour, the others show what was below. */
  lemma PartPicture(part: DecodedImage, palette: seq<string>, px: int, py: int, background: string)
    ensures var c := CellColor(Expand(PaintedRuns(part.rects)), PaintedBox(part.bounds), px / 10, py / 10);
            FillAt(PartRects(part, palette), px, py, background) ==
            if part.bounds.top.None? || c == 0 then background else "#" + PaletteColor(palette, c)
  {
    var b, runs := PaintedBox(part.bounds), PaintedRuns(part.rects);
    PaintedExactly(b, runs, px / 10, py / 10);
    if b.left < b.right {
      StrokesTrace(b, runs);
      NoTransparentStroke(PartStrokes(part), Expand(runs), b);
    } else {
      NothingDrawn(Pen(b.left, b.top, []), runs, b);
    }
    ScaledFill(PartStrokes(part), part.bounds.top, palette, px, py, background);
  }
}
