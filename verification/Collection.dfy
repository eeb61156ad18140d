/**
 `PNGCollectionEncoder`: pictures encoded in turn against one palette, and the theorem about the
 whole codec: what is painted is what was in the pixels.
 */
module Collection {
  import Grid
  import opened Hex
  import opened Image
  import opened Painter
  import opened Palette
  import opened Rle
  import opened SvgBuilder
  import opened Wrappers

  class PNGCollectionEncoder {
    const colors: ColorMap
    var images: map<string, string>
    var folders: map<string, seq<string>>

    constructor (palette: seq<string>)
      ensures fresh(colors) && colors.Valid() && colors.keys == InitialKeys(palette) && colors.index == Indexes(palette, |palette|)
      ensures colors.Ordered() <==> KeepsPositions(palette)
      ensures images == map[] && folders == map[] && Filed()
    {
      colors := new ColorMap(palette);
      images, folders := map[], map[];
    }

    /** Every name in a folder is that of a stored text. */
    predicate Filed()
      reads this
    {
      forall folder <- folders, name <- folders[folder] :: name in images
    }

    /** A folder with an empty name counts as no folder. */
    method EncodeImage(name: string, png: Picture, folder: Option<string>) returns (rle: string)
      requires colors.Valid()
      modifies this, colors
      ensures colors.Valid() && colors.View() == GrownTable(png, old(colors.View()))
      ensures rle == RleText(TightBox(png), TableRuns(png, colors.View()))
      ensures old(colors.Ordered()) ==>
                colors.Ordered() && colors.keys == GrownKeys(png, old(colors.keys)) && rle == Encoded(png, colors.keys)
      ensures images == old(images)[name := rle]
      ensures old(Filed()) ==> Filed()
      ensures folders == AddedTo(old(folders), name, folder)
    {
      var image := new Image(png.width, png.height, png.rgbaAt);
      rle := image.ToRLE(colors);
      images := images[name := rle];
      if folder.Some? && folder.value != "" {
        folders := folders[folder.value := FilenamesIn(folders, folder.value) + [name]];
      }
    }

    /** Where the encoder is after `n` calls of a run. */
    ghost predicate After(stored: map<string, string>, filed: map<string, seq<string>>, keys: seq<string>,
                          names: seq<string>, pngs: seq<Picture>, into: seq<Option<string>>, n: nat)
      requires n <= |names| == |pngs| == |into|
      reads this, colors
    {
      && colors.Valid() && colors.Ordered() && colors.keys == KeysAfter(pngs, keys, n)
      && images == ImagesAfter(stored, names, Texts(pngs, keys), n) && folders == FoldersAfter(filed, names, into, n)
    }

    /** One call of a run. */
    method EncodeNext(names: seq<string>, pngs: seq<Picture>, into: seq<Option<string>>, i: nat,
                      ghost stored: map<string, string>, ghost filed: map<string, seq<string>>, ghost keys: seq<string>)
      returns (rle: string)
      requires i < |names| == |pngs| == |into| && After(stored, filed, keys, names, pngs, into, i)
      modifies this, colors
      ensures After(stored, filed, keys, names, pngs, into, i + 1) && rle == Texts(pngs, keys)[i]
    {
      rle := EncodeImage(names[i], pngs[i], into[i]);
    }

    method EncodeEach(names: seq<string>, pngs: seq<Picture>, into: seq<Option<string>>) returns (texts: seq<string>)
      requires colors.Valid() && colors.Ordered() && |names| == |pngs| == |into|
      modifies this, colors
      ensures texts == Texts(pngs, old(colors.keys))
      ensures After(old(images), old(folders), old(colors.keys), names, pngs, into, |names|)
    {
      ghost var stored, filed, keys := images, folders, colors.keys;
      texts := [];
      for i := 0 to |pngs|
        invariant After(stored, filed, keys, names, pngs, into, i) && texts == Texts(pngs, keys)[..i]
      {
        var rle := EncodeNext(names, pngs, into, i, stored, filed, keys);
        OneMore(texts, rle, Texts(pngs, keys), i);
        texts := texts + [rle];
      }
    }

    /** A run of calls: the texts, the palette, what is stored under each name, and the names in each folder. */
    method EncodeAll(names: seq<string>, pngs: seq<Picture>, into: seq<Option<string>>) returns (texts: seq<string>)
      requires colors.Valid() && colors.Ordered() && |names| == |pngs| == |into|
      modifies this, colors
      ensures colors.Valid() && colors.Ordered()
      ensures texts == Texts(pngs, old(colors.keys)) && colors.keys == FinalKeys(pngs, old(colors.keys))
      ensures StoredUnder(old(images), images, names, texts) && FiledUnder(old(folders), folders, names, into)
    {
      ghost var stored, filed := images, folders;
      texts := EncodeEach(names, pngs, into);
      ImagesStored(stored, names, texts);
      FoldersFiled(filed, names, into);
    }
  }

  /** What a call leaves in the folders. */
  function AddedTo(folders: map<string, seq<string>>, name: string, folder: Option<string>): map<string, seq<string>> {
    if folder.None? || folder.value == "" then folders
    else folders[folder.value := FilenamesIn(folders, folder.value) + [name]]
  }

  function FoldersAfter(folders: map<string, seq<string>>, names: seq<string>, into: seq<Option<string>>, n: nat): map<string, seq<string>>
    requires n <= |names| == |into|
  {
    if n == 0 then folders else AddedTo(FoldersAfter(folders, names, into, n - 1), names[n - 1], into[n - 1])
  }

  function ImagesAfter(images: map<string, string>, names: seq<string>, texts: seq<string>, n: nat): map<string, string>
    requires n <= |names| == |texts|
  {
    if n == 0 then images else ImagesAfter(images, names, texts, n - 1)[names[n - 1] := texts[n - 1]]
  }

  function FilenamesIn(folders: map<string, seq<string>>, folder: string): seq<string> {
    if folder in folders then folders[folder] else []
  }

  function StoredText(images: map<string, string>, name: string): Option<string> {
    if name in images then Some(images[name]) else None
  }

  /** The text of the last of the first `n` calls with a name. */
  function LastText(names: seq<string>, texts: seq<string>, n: nat, name: string): Option<string>
    requires n <= |names| == |texts|
  {
    if n == 0 then None else if names[n - 1] == name then Some(texts[n - 1]) else LastText(names, texts, n - 1, name)
  }

  /** The names that the first `n` calls put into a folder, in order. */
  function NamesFor(names: seq<string>, into: seq<Option<string>>, n: nat, folder: string): seq<string>
    requires n <= |names| == |into|
  {
    if n == 0 then []
    else NamesFor(names, into, n - 1, folder) + (if into[n - 1] == Some(folder) then [names[n - 1]] else [])
  }

  /** Each name has the text of its last call, or what it had. */
  ghost predicate StoredUnder(before: map<string, string>, after: map<string, string>, names: seq<string>, texts: seq<string>)
    requires |names| == |texts|
  {
    forall name :: StoredText(after, name) ==
                   var text := LastText(names, texts, |names|, name);
                   if text.Some? then text else StoredText(before, name)
  }

  /** Each folder has its names in the order of the calls, after those it had; a folder with an empty name is none. */
  ghost predicate FiledUnder(before: map<string, seq<string>>, after: map<string, seq<string>>, names: seq<string>, into: seq<Option<string>>)
    requires |names| == |into|
  {
    forall f :: FilenamesIn(after, f) == FilenamesIn(before, f) + (if f == "" then [] else NamesFor(names, into, |names|, f))
  }

  lemma {:induction false} StoredAfter(images: map<string, string>, names: seq<string>, texts: seq<string>, n: nat, name: string)
    requires n <= |names| == |texts|
    ensures var text := LastText(names, texts, n, name);
            StoredText(ImagesAfter(images, names, texts, n), name) == if text.Some? then text else StoredText(images, name)
  {
    if n > 0 {
      StoredAfter(images, names, texts, n - 1, name);
    }
  }

  lemma ImagesStored(images: map<string, string>, names: seq<string>, texts: seq<string>)
    requires |names| == |texts|
    ensures StoredUnder(images, ImagesAfter(images, names, texts, |names|), names, texts)
  {
    forall name {
      StoredAfter(images, names, texts, |names|, name);
    }
  }

  lemma {:induction false} FiledAfter(folders: map<string, seq<string>>, names: seq<string>, into: seq<Option<string>>, n: nat, f: string)
    requires n <= |names| == |into|
    ensures FilenamesIn(FoldersAfter(folders, names, into, n), f) ==
            FilenamesIn(folders, f) + (if f == "" then [] else NamesFor(names, into, n, f))
  {
    if n > 0 {
      FiledAfter(folders, names, into, n - 1, f);
    }
  }

  lemma FoldersFiled(folders: map<string, seq<string>>, names: seq<string>, into: seq<Option<string>>)
    requires |names| == |into|
    ensures FiledUnder(folders, FoldersAfter(folders, names, into, |names|), names, into)
  {
    forall f {
      FiledAfter(folders, names, into, |names|, f);
    }
  }

  lemma OneMore(some: seq<string>, next: string, all: seq<string>, i: nat)
    requires i < |all| && some == all[..i] && next == all[i]
    ensures some + [next] == all[..i + 1]
  {
  }

  function Encoded(p: Picture, keys: seq<string>): string {
    RleText(TightBox(p), PictureRuns(p, keys))
  }

  /** The palette after the first `n` of a list of pictures. */
  function KeysAfter(pictures: seq<Picture>, keys: seq<string>, n: nat): seq<string>
    requires n <= |pictures|
  {
    if n == 0 then keys else GrownKeys(pictures[n - 1], KeysAfter(pictures, keys, n - 1))
  }

  function FinalKeys(pictures: seq<Picture>, keys: seq<string>): seq<string> {
    KeysAfter(pictures, keys, |pictures|)
  }

  /** The texts that a run of `encodeImage` calls returns. */
  function Texts(pictures: seq<Picture>, keys: seq<string>): (texts: seq<string>)
    ensures |texts| == |pictures|
  {
    seq(|pictures|, i requires 0 <= i < |pictures| => Encoded(pictures[i], KeysAfter(pictures, keys, i + 1)))
  }

  /** Each number in the picture's text fits on two characters. */
  predicate FieldsFit(p: Picture, keys: seq<string>) {
    BoundsFit(TightBox(p)) && RunsFit(PictureRuns(p, keys))
  }

  /** Every visible pixel is in the first 255 columns and the first 256 rows, and its colour among the first 256. */
  ghost predicate Prints(p: Picture, keys: seq<string>) {
    forall x, y :: p.Visible(x, y) ==> x <= 254 && y <= 255 && Index(p.rgbaAt(x, y), keys) <= 255
  }

  /** The colour of the topmost picture that is visible at a cell. */
  function TopPixel(pictures: seq<Picture>, n: nat, x: int, y: int, background: string): string
    requires n <= |pictures|
  {
    if n == 0 then background
    else if pictures[n - 1].Visible(x, y) then "#" + Color(pictures[n - 1].rgbaAt(x, y))
    else TopPixel(pictures, n - 1, x, y, background)
  }

  /** The colour is spelled as red, green and blue, two digits each. */
  lemma ColorSpells(c: Rgba)
    ensures ParseInt16(Color(c)[..2]) == Some(c.r) && ParseInt16(Color(c)[2..4]) == Some(c.g) && ParseInt16(Color(c)[4..]) == Some(c.b)
  {
    var s := RgbToHex(c.r, c.g, c.b);
    ColorText(c);
    FieldRoundTrip(c.r);
    FieldRoundTrip(c.g);
    FieldRoundTrip(c.b);
    assert s[..2] == ToPaddedHex(c.r) && s[2..4] == ToPaddedHex(c.g) && s[4..] == ToPaddedHex(c.b);
  }

  lemma {:induction false} RunColors(runs: seq<Run>, run: Run)
    requires run in runs && run.length >= 1
    ensures run.color in Expand(runs)
  {
    if run == runs[0] {
      assert Expand(runs)[0] == run.color;
    } else {
      RunColors(runs[1..], run);
    }
  }

  lemma {:induction false} ColorsOfRuns(runs: seq<Run>, color: int)
    requires color in Expand(runs)
    ensures exists run <- runs :: run.color == color
  {
    if color in RunCells(runs[0]) {
      assert runs[0] in runs;
    } else {
      ColorsOfRuns(runs[1..], color);
      var run :| run in runs[1..] && run.color == color;
      assert run in runs;
    }
  }

  /** The pixel that a listed cell is. */
  lemma {:induction false} CellOfRows(p: Picture, b: Bounds, n: nat, c: Rgba) returns (x: int, y: int)
    requires c in Rows(p, b, n) && n <= b.Height()
    ensures b.Contains(x, y) && c == p.rgbaAt(x, y)
  {
    var row := Row(p, b, b.top + n - 1, b.Width());
    if c in row {
      var i :| 0 <= i < |row| && row[i] == c;
      x, y := b.left + i, b.top + n - 1;
    } else {
      x, y := CellOfRows(p, b, n - 1, c);
    }
  }

  lemma SeenInColumn(p: Picture, x: int) returns (y: int)
    requires 0 <= x < p.width && !p.ColumnClear(x)
    ensures p.Visible(x, y)
  {
    y :| 0 <= y < p.height && p.rgbaAt(x, y).a != 0;
  }

  lemma SeenInRow(p: Picture, y: int) returns (x: int)
    requires 0 <= y < p.height && !p.RowClear(y)
    ensures p.Visible(x, y)
  {
    x :| 0 <= x < p.width && p.rgbaAt(x, y).a != 0;
  }

  /** The last column of the box has a visible pixel. */
  lemma LastColumn(p: Picture) returns (y: int)
    requires TightBox(p).right > 0
    ensures p.Visible(TightBox(p).right - 1, y)
  {
    RightStops(p, p.width - 1);
    y := SeenInColumn(p, Right(p, p.width - 1));
  }

  /** So has the last row, unless it is the first of the picture. */
  lemma LastRow(p: Picture) returns (x: int)
    requires TightBox(p).bottom > 0
    ensures p.Visible(x, TightBox(p).bottom)
  {
    BottomStops(p, p.height - 1);
    x := SeenInRow(p, Bottom(p, p.height - 1));
  }

  lemma BoxFits(p: Picture, keys: seq<string>)
    requires Prints(p, keys)
    ensures BoundsFit(TightBox(p))
  {
    TightBoxHolds(p);
    if TightBox(p).right > 0 {
      var y := LastColumn(p);
    }
    if TightBox(p).bottom > 0 {
      var x := LastRow(p);
    }
  }

  lemma RunFits(p: Picture, keys: seq<string>, run: Run)
    requires Prints(p, keys) && run in PictureRuns(p, keys)
    ensures FitsField(run.length) && FitsField(run.color)
  {
    var cells := BoxCells(p, TightBox(p));
    var indexes := CellIndexes(cells, |cells|, keys);
    GreedyExpands(indexes);
    RunColors(PictureRuns(p, keys), run);
    var i :| 0 <= i < |indexes| && indexes[i] == run.color;
    TightBoxHolds(p);
    var x, y := CellOfRows(p, TightBox(p), TightBox(p).Height(), cells[i]);
    assert cells[i].a != 0 ==> p.Visible(x, y);
  }

  lemma PixelFits(p: Picture, keys: seq<string>, x: int, y: int)
    requires FieldsFit(p, keys) && p.Visible(x, y)
    ensures x <= 254 && y <= 255 && Index(p.rgbaAt(x, y), keys) <= 255
  {
    var b := TightBox(p);
    var cells := BoxCells(p, b);
    var indexes := CellIndexes(cells, |cells|, keys);
    TightBoxHolds(p);
    BoxCellsListed(p, b);
    GreedyExpands(indexes);
    assert b.Contains(x, y) && indexes[Flat(x, y, b)] == Index(p.rgbaAt(x, y), keys);
    ColorsOfRuns(PictureRuns(p, keys), Index(p.rgbaAt(x, y), keys));
  }

  /** The numbers of a picture's text fit exactly when its pixels say so. */
  lemma PrintsExact(p: Picture, keys: seq<string>)
    ensures FieldsFit(p, keys) <==> Prints(p, keys)
  {
    if FieldsFit(p, keys) {
      forall x, y | p.Visible(x, y)
        ensures x <= 254 && y <= 255 && Index(p.rgbaAt(x, y), keys) <= 255
      {
        PixelFits(p, keys, x, y);
      }
    }
    if Prints(p, keys) {
      BoxFits(p, keys);
      forall run | run in PictureRuns(p, keys)
        ensures FitsField(run.length) && FitsField(run.color)
      {
        RunFits(p, keys, run);
      }
    }
  }

  lemma GrownKeysAppend(p: Picture, keys: seq<string>)
    ensures keys <= GrownKeys(p, keys)
    ensures IsPalette(keys) ==> IsPalette(GrownKeys(p, keys))
    ensures forall c <- BoxCells(p, TightBox(p)) :: Color(c) in GrownKeys(p, keys)
  {
    var cells := BoxCells(p, TightBox(p));
    GrowAppends(keys, Colors(cells), |cells|);
    ColorsGrown(cells, |cells|, keys);
  }

  /** Over any sequence of encodings old entries never move, and the palette stays one. */
  lemma {:induction false} KeysAppendOnly(pictures: seq<Picture>, keys: seq<string>, i: nat, n: nat)
    requires i <= n <= |pictures| && IsPalette(keys)
    ensures KeysAfter(pictures, keys, i) <= KeysAfter(pictures, keys, n)
    ensures IsPalette(KeysAfter(pictures, keys, n))
  {
    if n > 0 {
      KeysAppendOnly(pictures, keys, if i < n then i else n - 1, n - 1);
      GrownKeysAppend(pictures[n - 1], KeysAfter(pictures, keys, n - 1));
    }
  }

  /** An earlier encoding is also the encoding under any longer palette. */
  lemma EncodingStable(p: Picture, keys: seq<string>, more: seq<string>)
    requires IsPalette(keys) && GrownKeys(p, keys) <= more && IsPalette(more)
    ensures PictureRuns(p, more) == PictureRuns(p, GrownKeys(p, keys))
  {
    var cells := BoxCells(p, TightBox(p));
    GrownKeysAppend(p, keys);
    forall i | 0 <= i < |cells|
      ensures Color(cells[i]) in GrownKeys(p, keys)
    {
      assert cells[i] in cells;
    }
    CellIndexesStable(cells, |cells|, GrownKeys(p, keys), more);
  }

  /** A list of cells in a box, run-length encoded by palette index, says of each cell of the box which colour it has. */
  lemma RunsShowCell(cells: seq<Rgba>, keys: seq<string>, i: nat)
    requires IsPalette(keys) && i < |cells| && Color(cells[i]) in keys
    ensures var all := Expand(Greedy(CellIndexes(cells, |cells|, keys)));
            |all| == |cells| && (all[i] == 0 <==> cells[i].a == 0) &&
            (cells[i].a != 0 ==> PaletteColor(keys, all[i]) == Color(cells[i]))
  {
    GreedyExpands(CellIndexes(cells, |cells|, keys));
    if cells[i].a != 0 {
      IndexIsReal(cells[i], keys);
    }
  }

  /** What a picture's runs say about a cell, read through the palette, is what the picture shows there. */
  lemma RunsShowPicture(p: Picture, keys: seq<string>, x: int, y: int)
    requires IsPalette(keys) && forall c <- BoxCells(p, TightBox(p)) :: Color(c) in keys
    ensures var c := CellColor(Expand(PictureRuns(p, keys)), TightBox(p), x, y);
            (c == 0 <==> !p.Visible(x, y)) &&
            (p.Visible(x, y) ==> PaletteColor(keys, c) == Color(p.rgbaAt(x, y)))
  {
    var b := TightBox(p);
    var cells := BoxCells(p, b);
    TightBoxHolds(p);
    BoxCellsListed(p, b);
    if b.Contains(x, y) {
      assert cells[Flat(x, y, b)] in cells;
      RunsShowCell(cells, keys, Flat(x, y, b));
    } else if b.left <= x < b.right && b.top <= y {
      BelowBox(b, x, y);
      GreedyExpands(CellIndexes(cells, |cells|, keys));
    }
  }

  lemma BelowBox(b: Bounds, x: int, y: int)
    requires b.left <= x < b.right && b.top <= y && b.bottom < y && b.top <= b.bottom + 1
    ensures Flat(x, y, b) >= b.Area()
  {
    if b.Height() < y - b.top {
      Grid.RowsFollow(b.Height(), y - b.top, b.Width());
    }
  }

  /** The final palette has the colours of every picture, and gives it the indexes it was encoded with. */
  lemma FinalPaletteServes(pictures: seq<Picture>, keys: seq<string>, i: nat)
    requires IsPalette(keys) && i < |pictures|
    ensures IsPalette(FinalKeys(pictures, keys))
    ensures forall c <- BoxCells(pictures[i], TightBox(pictures[i])) :: Color(c) in FinalKeys(pictures, keys)
    ensures PictureRuns(pictures[i], KeysAfter(pictures, keys, i + 1)) == PictureRuns(pictures[i], FinalKeys(pictures, keys))
  {
    var p, before, final := pictures[i], KeysAfter(pictures, keys, i), FinalKeys(pictures, keys);
    KeysAppendOnly(pictures, keys, i, i);
    KeysAppendOnly(pictures, keys, i + 1, |pictures|);
    GrownKeysAppend(p, before);
    EncodingStable(p, before, final);
    forall c | c in BoxCells(p, TightBox(p))
      ensures Color(c) in final
    {
      var j :| 0 <= j < |GrownKeys(p, before)| && GrownKeys(p, before)[j] == Color(c);
      assert final[j] == Color(c);
    }
  }

  /** What a picture's text stands for under a palette. */
  function Meant(p: Picture, keys: seq<string>): DecodedImage {
    Exactly(TightBox(p), PictureRuns(p, keys))
  }

  function AllMeant(pictures: seq<Picture>, keys: seq<string>): (images: seq<DecodedImage>)
    ensures |images| == |pictures|
  {
    seq(|pictures|, i requires 0 <= i < |pictures| => Meant(pictures[i], keys))
  }

  lemma SameText(p: Picture, keys: seq<string>, more: seq<string>)
    requires PictureRuns(p, keys) == PictureRuns(p, more)
    ensures Encoded(p, keys) == Encoded(p, more)
  {
  }

  lemma PrintedReads(p: Picture, keys: seq<string>, text: string)
    requires text == Encoded(p, keys)
    ensures DecodeImage(text) == Meant(p, keys) <==> Prints(p, keys)
  {
    PrintsExact(p, keys);
    TextRoundTrip(TightBox(p), PictureRuns(p, keys));
  }

  lemma FinalRuns(pictures: seq<Picture>, keys: seq<string>, i: nat)
    requires IsPalette(keys) && i < |pictures|
    ensures PictureRuns(pictures[i], KeysAfter(pictures, keys, i + 1)) == PictureRuns(pictures[i], FinalKeys(pictures, keys))
  {
    FinalPaletteServes(pictures, keys, i);
  }

  lemma NthText(pictures: seq<Picture>, keys: seq<string>, i: nat)
    requires IsPalette(keys) && i < |pictures|
    ensures Texts(pictures, keys)[i] == Encoded(pictures[i], FinalKeys(pictures, keys))
  {
    FinalRuns(pictures, keys, i);
    SameText(pictures[i], KeysAfter(pictures, keys, i + 1), FinalKeys(pictures, keys));
  }

  /** Texts read back one by one. */
  lemma ReadExact(texts: seq<string>, images: seq<DecodedImage>, pictures: seq<Picture>, keys: seq<string>)
    requires |texts| == |images| == |pictures|
    requires forall i :: 0 <= i < |texts| ==> (DecodeImage(texts[i]) == images[i] <==> Prints(pictures[i], keys))
    ensures DecodeAll(texts) == images <==> forall p <- pictures :: Prints(p, keys)
  {
    if DecodeAll(texts) == images {
      forall i | 0 <= i < |texts|
        ensures Prints(pictures[i], keys)
      {
        assert DecodeAll(texts)[i] == images[i];
      }
    }
  }

  lemma NthReads(pictures: seq<Picture>, keys: seq<string>, i: nat)
    requires IsPalette(keys) && i < |pictures|
    ensures DecodeImage(Texts(pictures, keys)[i]) == Meant(pictures[i], FinalKeys(pictures, keys)) <==>
            Prints(pictures[i], FinalKeys(pictures, keys))
  {
    NthText(pictures, keys, i);
    PrintedReads(pictures[i], FinalKeys(pictures, keys), Texts(pictures, keys)[i]);
  }

  /**
   Every text of the run reads back as its picture's box and runs, with the indexes of the final
   palette, exactly when every picture prints under that palette.
   */
  lemma TextsRead(pictures: seq<Picture>, keys: seq<string>)
    requires IsPalette(keys)
    ensures DecodeAll(Texts(pictures, keys)) == AllMeant(pictures, FinalKeys(pictures, keys)) <==>
            forall p <- pictures :: Prints(p, FinalKeys(pictures, keys))
  {
    var final := FinalKeys(pictures, keys);
    forall i | 0 <= i < |pictures|
      ensures DecodeImage(Texts(pictures, keys)[i]) == AllMeant(pictures, final)[i] <==> Prints(pictures[i], final)
    {
      NthReads(pictures, keys, i);
    }
    ReadExact(Texts(pictures, keys), AllMeant(pictures, final), pictures, final);
  }

  /** One picture over a background. */
  lemma OnePicture(p: Picture, keys: seq<string>, px: int, py: int, background: string)
    requires IsPalette(keys) && forall c <- BoxCells(p, TightBox(p)) :: Color(c) in keys
    ensures FillAt(PartRects(Meant(p, keys), keys), px, py, background) ==
            if p.Visible(px / 10, py / 10) then "#" + Color(p.rgbaAt(px / 10, py / 10)) else background
  {
    RunsShowPicture(p, keys, px / 10, py / 10);
    PaintedExactlyAsRead(TightBox(p), PictureRuns(p, keys));
    PartPicture(Meant(p, keys), keys, px, py, background);
  }

  /** A part painted over any background shows its picture where that is visible, and the background elsewhere. */
  ghost predicate Shows(image: DecodedImage, palette: seq<string>, p: Picture, px: int, py: int) {
    forall background :: FillAt(PartRects(image, palette), px, py, background) ==
                         if p.Visible(px / 10, py / 10) then "#" + Color(p.rgbaAt(px / 10, py / 10)) else background
  }

  lemma {:induction false} Stack(images: seq<DecodedImage>, palette: seq<string>, pictures: seq<Picture>, n: nat, px: int, py: int, background: string)
    requires n <= |images| == |pictures|
    requires forall i :: 0 <= i < |images| ==> Shows(images[i], palette, pictures[i], px, py)
    ensures FillAt(AllRects(images, palette, n), px, py, background) ==
            TopPixel(pictures, n, px / 10, py / 10, background)
  {
    if n > 0 {
      var below := AllRects(images, palette, n - 1);
      Stack(images, palette, pictures, n - 1, px, py, background);
      FillAtAppend(below, PartRects(images[n - 1], palette), px, py, background);
      assert Shows(images[n - 1], palette, pictures[n - 1], px, py);
    }
  }

  lemma NthShows(pictures: seq<Picture>, keys: seq<string>, i: nat, px: int, py: int)
    requires IsPalette(keys) && i < |pictures|
    ensures Shows(Meant(pictures[i], FinalKeys(pictures, keys)), FinalKeys(pictures, keys), pictures[i], px, py)
  {
    FinalPaletteServes(pictures, keys, i);
    forall background {
      OnePicture(pictures[i], FinalKeys(pictures, keys), px, py, background);
    }
  }

  /** The SVG that is built from the texts of a run of encodings. */
  function Built(pictures: seq<Picture>, keys: seq<string>, bgColor: Option<string>): Svg {
    var parts := Texts(pictures, keys);
    Svg(BackgroundFill(bgColor), AllRects(DecodeAll(parts), FinalKeys(pictures, keys), |parts|))
  }

  /**
   What is painted is what was in the pixels: for any pictures encoded in turn against one palette
   and any point of the SVG built from their texts, the point has the colour of the last picture
   that is visible at its cell, and the background's where none is.
   */
  lemma WhatIsPaintedIsWhatWasInThePixels(pictures: seq<Picture>, keys: seq<string>, bgColor: Option<string>, px: int, py: int)
    requires IsPalette(keys)
    requires forall p <- pictures :: Prints(p, FinalKeys(pictures, keys))
    ensures AllEnd(Texts(pictures, keys))
    ensures var svg := Built(pictures, keys, bgColor);
            FillAt(svg.rects, px, py, svg.background) ==
            TopPixel(pictures, |pictures|, px / 10, py / 10, if bgColor.Some? && bgColor.value != "" then "#" + bgColor.value else "none")
  {
    var final := FinalKeys(pictures, keys);
    TextsRead(pictures, keys);
    forall i | 0 <= i < |pictures|
      ensures Ends(AllMeant(pictures, final)[i])
    {
      PaintedExactlyAsRead(TightBox(pictures[i]), PictureRuns(pictures[i], final));
    }
    forall i | 0 <= i < |pictures|
      ensures Shows(AllMeant(pictures, final)[i], final, pictures[i], px, py)
    {
      NthShows(pictures, keys, i, px, py);
    }
    Stack(AllMeant(pictures, final), final, pictures, |pictures|, px, py, BackgroundFill(bgColor));
  }

  predicate TextEnds(text: string) {
    Ends(DecodeImage(text))
  }

  /** The painter gets through the text of every picture. */
  lemma EncodedEnds(p: Picture, keys: seq<string>, text: string)
    requires text == Encoded(p, keys)
    ensures TextEnds(text)
  {
    var b, runs := TightBox(p), PictureRuns(p, keys);
    var cells := BoxCells(p, b);
    TightBoxHolds(p);
    BoxCellsListed(p, b);
    GreedyExpands(CellIndexes(cells, |cells|, keys));
    if p.height == 0 {
      assert cells == [];
      FittingTextDecodes(b, runs);
      PaintedExactlyAsRead(b, runs);
    } else {
      forall run | run in runs
        ensures run.length >= 0 && run.color >= 0
      {
        RunColors(runs, run);
      }
      PrintedEnds(b, runs);
    }
  }

  lemma EachEnds(texts: seq<string>)
    requires forall i :: 0 <= i < |texts| ==> TextEnds(texts[i])
    ensures AllEnd(texts)
  {
    forall i | 0 <= i < |texts|
      ensures Ends(DecodeAll(texts)[i])
    {
      assert TextEnds(texts[i]);
    }
  }

  /** So it gets through the texts of every run of encodings. */
  lemma AllEncodedEnd(pictures: seq<Picture>, keys: seq<string>)
    ensures AllEnd(Texts(pictures, keys))
  {
    forall i | 0 <= i < |pictures|
      ensures TextEnds(Texts(pictures, keys)[i])
    {
      EncodedEnds(pictures[i], KeysAfter(pictures, keys, i + 1), Texts(pictures, keys)[i]);
    }
    EachEnds(Texts(pictures, keys));
  }

  /** At every point the SVG shows what the pictures in order show, and the background's colour, if any, where they show nothing. */
  ghost predicate Pictures(svg: Svg, pictures: seq<Picture>, bgColor: Option<string>) {
    forall px, py :: FillAt(svg.rects, px, py, svg.background) ==
                     TopPixel(pictures, |pictures|, px / 10, py / 10,
                              if bgColor.Some? && bgColor.value != "" then "#" + bgColor.value else "none")
  }

  lemma BuiltShows(pictures: seq<Picture>, keys: seq<string>, bgColor: Option<string>)
    requires IsPalette(keys)
    requires forall p <- pictures :: Prints(p, FinalKeys(pictures, keys))
    ensures Pictures(Built(pictures, keys, bgColor), pictures, bgColor)
  {
    forall px, py {
      WhatIsPaintedIsWhatWasInThePixels(pictures, keys, bgColor, px, py);
    }
  }

  /** The whole way: encode the pictures, then build the SVG of their texts with the palette they left. */
  method EncodeAndBuild(encoder: PNGCollectionEncoder, names: seq<string>, pictures: seq<Picture>, into: seq<Option<string>>,
                        bgColor: Option<string>)
    returns (svg: Svg)
    requires encoder.colors.Valid() && encoder.colors.Ordered() && |names| == |pictures| == |into|
    modifies encoder, encoder.colors
    ensures svg == Built(pictures, old(encoder.colors.keys), bgColor)
    ensures (forall p <- pictures :: Prints(p, FinalKeys(pictures, old(encoder.colors.keys)))) ==> Pictures(svg, pictures, bgColor)
  {
    ghost var keys := encoder.colors.keys;
    AllEncodedEnd(pictures, keys);
    var texts := encoder.EncodeAll(names, pictures, into);
    svg := BuildSVG(texts, encoder.colors.keys, bgColor);
    if forall p <- pictures :: Prints(p, FinalKeys(pictures, keys)) {
      BuiltShows(pictures, keys, bgColor);
    }
  }

  // ---------- pictures that are too wide ----------

  /** At a point a part changes nothing, whatever is below it. */
  ghost predicate Silent(image: DecodedImage, palette: seq<string>, px: int, py: int) {
    forall background :: FillAt(PartRects(image, palette), px, py, background) == background
  }

  /** Whatever the text, nothing is painted beyond the first 255 columns. */
  lemma NothingBeyond(text: string, palette: seq<string>, px: int, py: int)
    requires px / 10 >= 255
    ensures Silent(DecodeImage(text), palette, px, py)
  {
    DecodedBoundsFit(text);
    forall background {
      PartPicture(DecodeImage(text), palette, px, py, background);
    }
  }

  lemma {:induction false} SilentStack(images: seq<DecodedImage>, palette: seq<string>, n: nat, px: int, py: int, background: string)
    requires n <= |images| && forall i :: 0 <= i < |images| ==> Silent(images[i], palette, px, py)
    ensures FillAt(AllRects(images, palette, n), px, py, background) == background
  {
    if n > 0 {
      SilentStack(images, palette, n - 1, px, py, background);
      FillAtAppend(AllRects(images, palette, n - 1), PartRects(images[n - 1], palette), px, py, background);
      assert Silent(images[n - 1], palette, px, py);
    }
  }

  lemma NothingBeyondAll(texts: seq<string>, palette: seq<string>, px: int, py: int, background: string)
    requires px / 10 >= 255
    ensures FillAt(AllRects(DecodeAll(texts), palette, |texts|), px, py, background) == background
  {
    var images := DecodeAll(texts);
    forall i | 0 <= i < |images|
      ensures Silent(images[i], palette, px, py)
    {
      NothingBeyond(texts[i], palette, px, py);
    }
    SilentStack(images, palette, |images|, px, py, background);
  }

  lemma {:induction false} SomePixelShows(pictures: seq<Picture>, n: nat, i: nat, x: int, y: int, background: string)
    requires i < n <= |pictures| && pictures[i].Visible(x, y)
    ensures |TopPixel(pictures, n, x, y, background)| == 7
  {
    if i < n - 1 && !pictures[n - 1].Visible(x, y) {
      SomePixelShows(pictures, n - 1, i, x, y, background);
    }
  }

  /** A pixel that is visible beyond the first 255 columns is never painted, whatever the other pictures and the palette. */
  lemma WideIsNotPainted(pictures: seq<Picture>, keys: seq<string>, i: nat, x: int, y: int)
    requires i < |pictures| && pictures[i].Visible(x, y) && x >= 255
    ensures var svg := Built(pictures, keys, None);
            FillAt(svg.rects, 10 * x, 10 * y, svg.background) == "none" != TopPixel(pictures, |pictures|, x, y, "none")
  {
    NothingBeyondAll(Texts(pictures, keys), FinalKeys(pictures, keys), 10 * x, 10 * y, "none");
    SomePixelShows(pictures, |pictures|, i, x, y, "none");
  }

  ghost predicate ColumnsFit(p: Picture) {
    forall x, y :: p.Visible(x, y) ==> x <= 254
  }

  /** The rows and the colours of every visible pixel are in range. */
  ghost predicate RowsAndColorsFit(p: Picture, keys: seq<string>) {
    forall x, y :: p.Visible(x, y) ==> y <= 255 && Index(p.rgbaAt(x, y), keys) <= 255
  }

  lemma WideIsWrong(pictures: seq<Picture>, keys: seq<string>, p: Picture)
    requires p in pictures && !ColumnsFit(p)
    ensures !Pictures(Built(pictures, keys, None), pictures, None)
  {
    var x, y :| p.Visible(x, y) && x >= 255;
    var i :| 0 <= i < |pictures| && pictures[i] == p;
    WideIsNotPainted(pictures, keys, i, x, y);
    assert 10 * x / 10 == x && 10 * y / 10 == y;
  }

  /**
   As long as rows and colours are in range, what is painted over no background is what was in the
   pixels, if and only if every visible pixel is in the first 255 columns.
   */
  lemma PictureExactInColumns(pictures: seq<Picture>, keys: seq<string>)
    requires IsPalette(keys) && forall p <- pictures :: RowsAndColorsFit(p, FinalKeys(pictures, keys))
    ensures Pictures(Built(pictures, keys, None), pictures, None) <==> forall p <- pictures :: ColumnsFit(p)
  {
    if forall p <- pictures :: ColumnsFit(p) {
      forall p | p in pictures
        ensures Prints(p, FinalKeys(pictures, keys))
      {
        assert ColumnsFit(p) && RowsAndColorsFit(p, FinalKeys(pictures, keys));
      }
      BuiltShows(pictures, keys, None);
    } else {
      var p :| p in pictures && !ColumnsFit(p);
      WideIsWrong(pictures, keys, p);
    }
  }

  /** Pictures of at most 255 columns and 256 rows print, as long as the palette has at most 256 colours. */
  lemma SmallPicturesPrint(p: Picture, keys: seq<string>)
    requires p.width <= 255 && p.height <= 256 && |keys| <= 256
    ensures Prints(p, keys)
  {
    forall x, y | p.Visible(x, y)
      ensures Index(p.rgbaAt(x, y), keys) <= 255
    {
    }
  }

  /** A visible pixel in column 255: the right bound needs a third digit, and the text does not read back. */
  lemma WidePicture(p: Picture, keys: seq<string>, y: int)
    requires p.Visible(255, y)
    ensures !Prints(p, keys) && DecodeImage(Encoded(p, keys)) != Meant(p, keys)
  {
    PrintedReads(p, keys, Encoded(p, keys));
  }
}
