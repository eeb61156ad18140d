/**
 Pictures that are painted wrong, because a number in their text takes three digits and moves all that
 follow: one with a pixel in row 256, and one with a colour whose index is 256. (`Collection` has those
 that are too wide.)
 */
module CodecFailures {
  import opened Collection
  import opened Grid
  import opened Hex
  import opened Image
  import opened Painter
  import opened Palette
  import opened Rle
  import opened SvgBuilder
  import opened Wrappers

  /** A picture of one column, all of one colour. */
  function Column(height: nat, c: Rgba): Picture {
    Picture(1, height, (x, y) => c)
  }

  lemma ColumnBox(height: nat, c: Rgba)
    requires height > 0 && c.a != 0
    ensures TightBox(Column(height, c)) == Bounds(0, 1, height - 1, 0)
  {
    var p := Column(height, c);
    TightBoxHolds(p);
    assert p.Visible(0, 0) && p.Visible(0, height - 1);
    assert TightBox(p).Contains(0, 0) && TightBox(p).Contains(0, height - 1);
  }

  lemma {:induction false} OneWide(n: nat)
    ensures RowStart(n, 1) == n
  {
    if n > 0 {
      OneWide(n - 1);
    }
  }

  lemma ColumnCell(height: nat, c: Rgba, b: Bounds, i: nat)
    requires i < |BoxCells(Column(height, c), b)|
    ensures BoxCells(Column(height, c), b)[i] == c
  {
    var x, y := CellOfRows(Column(height, c), b, b.Height(), BoxCells(Column(height, c), b)[i]);
  }

  lemma ColumnLength(height: nat, c: Rgba)
    requires height > 0 && c.a != 0
    ensures |BoxCells(Column(height, c), TightBox(Column(height, c)))| == height
  {
    ColumnBox(height, c);
    BoxCellsListed(Column(height, c), TightBox(Column(height, c)));
    OneWide(height);
  }

  lemma ColumnCells(height: nat, c: Rgba)
    requires height > 0 && c.a != 0
    ensures var cells := BoxCells(Column(height, c), TightBox(Column(height, c)));
            |cells| == height && forall i :: 0 <= i < height ==> cells[i] == c
  {
    var b := TightBox(Column(height, c));
    ColumnLength(height, c);
    forall i | 0 <= i < height
      ensures BoxCells(Column(height, c), b)[i] == c
    {
      ColumnCell(height, c, b, i);
    }
  }

  lemma {:induction false} GrowSame(keys: seq<string>, colors: seq<string>, n: nat, color: string)
    requires 0 < n <= |colors| && forall i :: 0 <= i < n ==> colors[i] == color
    ensures Grow(keys, colors, n) == Insert(keys, color)
  {
    if n > 1 {
      GrowSame(keys, colors, n - 1, color);
    } else {
      assert Grow(keys, colors, 0) == keys;
    }
  }

  /** The column's colour joins the palette, and all its cells have that colour's index. */
  lemma ColumnEncoded(height: nat, c: Rgba, keys: seq<string>)
    requires height > 0 && c.a != 0
    ensures var p, final := Column(height, c), Insert(keys, Color(c));
            GrownKeys(p, keys) == final && PictureRuns(p, final) == Greedy(Repeat(Index(c, final), height))
  {
    var p, final := Column(height, c), Insert(keys, Color(c));
    var cells := BoxCells(p, TightBox(p));
    ColumnCells(height, c);
    GrowSame(keys, Colors(cells), height, Color(c));
    assert CellIndexes(cells, height, final) == Repeat(Index(c, final), height);
  }

  /** One picture's SVG, at its first cell. */
  lemma FirstCell(p: Picture, keys: seq<string>)
    ensures var final := GrownKeys(p, keys);
            FillAt(Built([p], keys, None).rects, 0, 0, "none") == FillAt(PartRects(DecodeImage(Encoded(p, final)), final), 0, 0, "none")
  {
    assert KeysAfter([p], keys, 0) == keys && KeysAfter([p], keys, 1) == GrownKeys(p, keys);
    var images := DecodeAll(Texts([p], keys));
    assert AllRects(images, GrownKeys(p, keys), 0) == [];
    assert [] + PartRects(images[0], GrownKeys(p, keys)) == PartRects(images[0], GrownKeys(p, keys));
  }

  lemma FirstExpanded(runs: seq<Run>)
    requires runs != [] && runs[0].length >= 1
    ensures |Expand(runs)| > 0 && Expand(runs)[0] == runs[0].color
  {
    assert RunCells(runs[0])[0] == runs[0].color;
  }

  lemma CornerColor(cells: seq<int>, b: Bounds)
    requires b.left == 0 < b.right && b.top == 0 && |cells| > 0
    ensures CellColor(cells, b, 0 / 10, 0 / 10) == cells[0]
  {
    assert 0 / 10 == 0 && Flat(0, 0, b) == 0;
  }

  /** A part that starts at the first cell shows its first run there. */
  lemma FirstRunShows(part: DecodedImage, palette: seq<string>, length: int, color: int)
    requires part.bounds.top == Some(0) && part.bounds.right == Some(1) && part.bounds.left == Some(0)
    requires |part.rects| > 0 && part.rects[0] == ReadRun(Some(length), Some(color)) && length >= 1 && color != 0
    ensures FillAt(PartRects(part, palette), 0, 0, "none") == "#" + PaletteColor(palette, color)
  {
    var b, cells := PaintedBox(part.bounds), Expand(PaintedRuns(part.rects));
    FirstExpanded(PaintedRuns(part.rects));
    CornerColor(cells, b);
    PartPicture(part, palette, 0, 0, "none");
  }

  // ---------- a bottom of three digits ----------

  lemma LongRunFirst(color: int)
    ensures Greedy(Repeat(color, 257)) == [Run(255, color), Run(2, color)]
  {
    var data := Repeat(color, 257);
    assert data[1..] == Repeat(color, 254) + Repeat(color, 2);
    Absorb(color, 1, 254, Repeat(color, 2));
    assert Repeat(color, 2)[1..] == Repeat(color, 1) && Repeat(color, 1)[1..] == [];
    assert Pending(color, 1, Repeat(color, 1)) == Pending(color, 2, []);
  }

  lemma IsByte(n: Byte, s: string)
    requires s == [DIGITS[n / 16], DIGITS[n % 16]]
    ensures ToPaddedHex(n) == s && ParseInt16(s) == Some(n) && IsPair(s)
  {
    PaddedByte(n);
    FieldRoundTrip(n);
  }

  lemma ThreeDigits()
    ensures ToPaddedHex(256) == "100"
  {
    assert Digits(256) == Digits(16) + [DIGITS[0]];
    assert Digits(16) == Digits(1) + [DIGITS[0]];
  }

  /** What follows a number of three digits is read one digit late. */
  lemma Moved(front: string, x: char, y: char, z: char, u: char, v: char, f: char, g: char, h: char, i: char, tail: string)
    ensures front + [x, y, z] + [u, v] + ([f, g] + [h, i] + tail) == front + [x, y] + [z, u] + ([v, f] + [g, h] + ([i] + tail))
  {
  }

  /** The third digit of the bottom is read as the first of the left bound, and so on. */
  lemma MovedByRow(tail: string)
    ensures var part := DecodeImage("0x" + "00" + "00" + "01" + "100" + "00" + ("ff" + "01" + tail));
            && part.bounds.top == Some(0) && part.bounds.right == Some(1) && part.bounds.left == Some(0)
            && |part.rects| > 0 && part.rects[0] == ReadRun(Some(15), Some(240))
  {
    Moved("0x" + "00" + "00" + "01", '1', '0', '0', '0', '0', 'f', 'f', '0', '1', tail);
    IsByte(0, "00");
    IsByte(1, "01");
    IsByte(15, "0f");
    IsByte(240, "f0");
    DecodeHeader("00", "00", "01", "10", "00", "0f" + "f0" + ("1" + tail));
    DecodeChunk("0f", "f0", "1" + tail);
  }

  const BLACK := Rgba(0, 0, 0, 255)

  lemma BlackIndex()
    ensures Insert([TRANSPARENT], Color(BLACK)) == [TRANSPARENT, Color(BLACK)]
    ensures IsPalette([TRANSPARENT, Color(BLACK)]) && Index(BLACK, [TRANSPARENT, Color(BLACK)]) == 1
  {
    TwoDistinct(TRANSPARENT, Color(BLACK));
    IndexIsReal(BLACK, [TRANSPARENT, Color(BLACK)]);
  }

  lemma TallGrown()
    ensures GrownKeys(Column(257, BLACK), [TRANSPARENT]) == [TRANSPARENT, Color(BLACK)]
    ensures PictureRuns(Column(257, BLACK), [TRANSPARENT, Color(BLACK)]) == [Run(255, 1), Run(2, 1)]
  {
    BlackIndex();
    ColumnEncoded(257, BLACK, [TRANSPARENT]);
    LongRunFirst(1);
  }

  lemma TwoRunsText(first: Run, second: Run)
    ensures RunsText([first, second]) == ToPaddedHex(first.length) + ToPaddedHex(first.color) + RunsText([second])
  {
    assert [first, second][1..] == [second];
  }

  lemma TallRle()
    ensures RleText(Bounds(0, 1, 256, 0), [Run(255, 1), Run(2, 1)]) ==
            "0x" + "00" + "00" + "01" + "100" + "00" + ("ff" + "01" + RunsText([Run(2, 1)]))
  {
    ThreeDigits();
    TwoRunsText(Run(255, 1), Run(2, 1));
    TallBytes();
    RleTextIs(Bounds(0, 1, 256, 0), [Run(255, 1), Run(2, 1)]);
  }

  lemma TallBytes()
    ensures ToPaddedHex(0) == "00" && ToPaddedHex(1) == "01" && ToPaddedHex(255) == "ff"
  {
    IsByte(0, "00");
    IsByte(1, "01");
    IsByte(255, "ff");
  }

  /** The text of a black column of 257 rows. */
  lemma TallText()
    ensures Encoded(Column(257, BLACK), [TRANSPARENT, Color(BLACK)]) ==
            "0x" + "00" + "00" + "01" + "100" + "00" + ("ff" + "01" + RunsText([Run(2, 1)]))
  {
    ColumnBox(257, BLACK);
    TallGrown();
    TallRle();
  }

  lemma TallPainted()
    ensures var final := [TRANSPARENT, Color(BLACK)];
            FillAt(PartRects(DecodeImage(Encoded(Column(257, BLACK), final)), final), 0, 0, "none") == "#" + "undefined"
  {
    TallText();
    MovedByRow(RunsText([Run(2, 1)]));
    FirstRunShows(DecodeImage("0x" + "00" + "00" + "01" + "100" + "00" + ("ff" + "01" + RunsText([Run(2, 1)]))),
                  [TRANSPARENT, Color(BLACK)], 15, 240);
  }

  /** Its bottom is 256: the picture shows black, and a colour of no palette is painted. */
  lemma TallPicture()
    ensures var p := Column(257, BLACK);
            && p.Visible(0, 256) && IsPalette([TRANSPARENT])
            && FillAt(Built([p], [TRANSPARENT], None).rects, 0, 0, "none") == "#" + "undefined"
            && TopPixel([p], 1, 0, 0, "none") == "#" + Color(BLACK)
            && "#" + "undefined" != "#" + Color(BLACK)
  {
    TallGrown();
    FirstCell(Column(257, BLACK), [TRANSPARENT]);
    TallPainted();
  }

  // ---------- an index of three digits ----------

  lemma MovedByColor()
    ensures var part := DecodeImage("0x" + "00" + "00" + "01" + "00" + "00" + ("01" + "100" + ""));
            && part.bounds.top == Some(0) && part.bounds.right == Some(1) && part.bounds.left == Some(0)
            && |part.rects| > 0 && part.rects[0] == ReadRun(Some(1), Some(16))
  {
    assert "01" + "100" + "" == "01" + "10" + "0";
    IsByte(0, "00");
    IsByte(1, "01");
    IsByte(16, "10");
    DecodeHeader("00", "00", "01", "00", "00", "01" + "10" + "0");
    DecodeChunk("01", "10", "0");
  }

  lemma NewIndex(c: Rgba, keys: seq<string>)
    requires IsPalette(keys) && c.a != 0 && Color(c) !in keys
    ensures Insert(keys, Color(c)) == keys + [Color(c)] && IsPalette(keys + [Color(c)])
    ensures Index(c, keys + [Color(c)]) == |keys|
  {
    var final := keys + [Color(c)];
    assert final[..|keys|] == keys;
    PositionUnique(final, |keys|);
  }

  lemma ManyGrown(c: Rgba, keys: seq<string>)
    requires IsPalette(keys) && c.a != 0 && Color(c) !in keys
    ensures GrownKeys(Column(1, c), keys) == keys + [Color(c)]
  {
    ColumnEncoded(1, c, keys);
  }

  lemma ManyText(c: Rgba, keys: seq<string>)
    requires IsPalette(keys) && |keys| == 256 && c.a != 0 && Color(c) !in keys
    ensures var p, final := Column(1, c), keys + [Color(c)];
            GrownKeys(p, keys) == final &&
            Encoded(p, final) == "0x" + "00" + "00" + "01" + "00" + "00" + ("01" + "100" + "")
  {
    var final, runs := keys + [Color(c)], [Run(1, 256)];
    NewIndex(c, keys);
    ColumnBox(1, c);
    ColumnEncoded(1, c, keys);
    assert Repeat(256, 1)[1..] == [];
    assert Greedy(Repeat(256, 1)) == runs;
    RleTextIs(Bounds(0, 1, 0, 0), runs);
    IsByte(0, "00");
    IsByte(1, "01");
    ThreeDigits();
    assert runs[1..] == [];
  }

  lemma ManyPainted(c: Rgba, keys: seq<string>)
    requires IsPalette(keys) && |keys| == 256 && c.a != 0 && Color(c) !in keys
    ensures FillAt(PartRects(DecodeImage(Encoded(Column(1, c), keys + [Color(c)])), keys + [Color(c)]), 0, 0, "none") == "#" + keys[16]
  {
    ManyText(c, keys);
    MovedByColor();
    FirstRunShows(DecodeImage("0x" + "00" + "00" + "01" + "00" + "00" + ("01" + "100" + "")), keys + [Color(c)], 1, 16);
  }

  /** One pixel of a colour that is the 257th of its palette: the 17th colour is painted. */
  lemma ManyColors(c: Rgba, keys: seq<string>)
    requires IsPalette(keys) && |keys| == 256 && c.a != 0 && Color(c) !in keys
    ensures var p := Column(1, c);
            && p.Visible(0, 0) && TopPixel([p], 1, 0, 0, "none") == "#" + Color(c)
            && FillAt(Built([p], keys, None).rects, 0, 0, "none") == "#" + keys[16]
            && keys[16] != Color(c)
  {
    ManyGrown(c, keys);
    FirstCell(Column(1, c), keys);
    ManyPainted(c, keys);
  }
}
