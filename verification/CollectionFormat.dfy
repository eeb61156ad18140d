/**
 `PNGCollectionEncoder.format`: the stored texts, sorted into their folders, and what is left into
 `root`; and exactly when that loses nothing.
 */
module CollectionFormat {
  import opened Lists
  import opened Wrappers

  const ROOT: string := "root"

  /** `data` is absent where the source stores `undefined`. */
  datatype EncodedImage = EncodedImage(filename: string, data: Option<string>)

  /** A folder and the names added to it, in the order of `Object.entries`. */
  datatype Folder = Folder(name: string, filenames: seq<string>)

  type ImageData = map<string, seq<EncodedImage>>

  /** What a file gets once the texts of `taken` were deleted from the working map. */
  function Entry(images: map<string, string>, taken: seq<string>, name: string): EncodedImage {
    EncodedImage(name, if name in images && name !in taken then Some(images[name]) else None)
  }

  function Written(images: map<string, string>, taken: seq<string>, names: seq<string>): (entries: seq<EncodedImage>)
    ensures |entries| == |names|
  {
    seq(|names|, i requires 0 <= i < |names| => Entry(images, taken + names[..i], names[i]))
  }

  /** The names in the first `n` folders. */
  function Taken(folders: seq<Folder>, n: nat): seq<string>
    requires n <= |folders|
  {
    if n == 0 then [] else Taken(folders, n - 1) + folders[n - 1].filenames
  }

  function FolderEntries(images: map<string, string>, folders: seq<Folder>, k: nat): seq<EncodedImage>
    requires k < |folders|
  {
    Written(images, Taken(folders, k), folders[k].filenames)
  }

  function InFolders(images: map<string, string>, folders: seq<Folder>, n: nat): ImageData
    requires n <= |folders|
  {
    if n == 0 then map[] else InFolders(images, folders, n - 1)[folders[n - 1].name := FolderEntries(images, folders, n - 1)]
  }

  /** What is left of the images, in insertion order. */
  function Rest(images: map<string, string>, names: seq<string>, taken: seq<string>): (rest: seq<EncodedImage>) {
    var left := Without(names, taken);
    seq(|left|, i requires 0 <= i < |left| => Entry(images, [], left[i]))
  }

  /** `names` are the keys of `images` in insertion order. */
  function Formatted(images: map<string, string>, names: seq<string>, folders: seq<Folder>, flatten: bool): ImageData {
    var sorted := if flatten then [] else folders;
    var data := InFolders(images, sorted, |sorted|);
    var rest := Rest(images, names, Taken(sorted, |sorted|));
    if rest == [] then data else data[ROOT := rest]
  }

  function Left(images: map<string, string>, taken: seq<string>): map<string, string> {
    map name | name in images && name !in taken :: images[name]
  }

  method WriteFolder(left: map<string, string>, filenames: seq<string>, ghost images: map<string, string>, ghost taken: seq<string>)
    returns (entries: seq<EncodedImage>, rest: map<string, string>)
    requires left == Left(images, taken)
    ensures entries == Written(images, taken, filenames) && rest == Left(images, taken + filenames)
  {
    entries, rest := [], left;
    assert taken + filenames[..0] == taken;
    for i := 0 to |filenames|
      invariant rest == Left(images, taken + filenames[..i])
      invariant entries == Written(images, taken, filenames)[..i]
    {
      var filename := filenames[i];
      entries := entries + [EncodedImage(filename, if filename in rest then Some(rest[filename]) else None)];
      rest := rest - {filename};
      assert taken + filenames[..i + 1] == taken + filenames[..i] + [filename];
    }
    assert filenames[..|filenames|] == filenames;
  }

  method WriteRest(left: map<string, string>, names: seq<string>, ghost images: map<string, string>, ghost taken: seq<string>)
    returns (rest: seq<EncodedImage>)
    requires left == Left(images, taken) && forall name <- names :: name in images
    ensures rest == Rest(images, names, taken)
  {
    rest := [];
    for i := 0 to |names|
      invariant rest == Rest(images, names[..i], taken)
    {
      assert names[..i + 1][..i] == names[..i] && names[i] in names;
      if names[i] in left {
        rest := rest + [EncodedImage(names[i], Some(left[names[i]]))];
      }
    }
    assert names[..|names|] == names;
  }

  method Format(images: map<string, string>, names: seq<string>, folders: seq<Folder>, flatten: bool) returns (data: ImageData)
    requires forall name :: name in names <==> name in images
    ensures data == Formatted(images, names, folders, flatten)
  {
    var left := images;
    data := map[];
    ghost var taken := [];
    assert left == Left(images, taken);
    if !flatten {
      for i := 0 to |folders|
        invariant taken == Taken(folders, i) && left == Left(images, taken)
        invariant data == InFolders(images, folders, i)
      {
        var entries;
        entries, left := WriteFolder(left, folders[i].filenames, images, taken);
        data := data[folders[i].name := entries];
        taken := taken + folders[i].filenames;
      }
    }
    var rest := WriteRest(left, names, images, taken);
    if rest != [] {
      data := data[ROOT := rest];
    }
  }

  // ---------- what is where ----------

  /** Flattened, all the images are in `root`, in insertion order, and there is nothing else. */
  lemma FlattenedExact(images: map<string, string>, names: seq<string>, folders: seq<Folder>)
    requires forall name :: name in names <==> name in images
    ensures var data := Formatted(images, names, folders, true);
            && data.Keys == (if names == [] then {} else {ROOT})
            && (names != [] ==> |data[ROOT]| == |names|)
            && forall i :: 0 <= i < |names| ==> names[i] in images && data[ROOT][i] == EncodedImage(names[i], Some(images[names[i]]))
  {
    WithoutNone(names);
  }

  lemma {:induction false} WithoutNone(names: seq<string>)
    ensures Without(names, []) == names
  {
    if names != [] {
      WithoutNone(names[..|names| - 1]);
      assert names == names[..|names| - 1] + [names[|names| - 1]];
    }
  }

  /** A file is listed in an earlier folder, or earlier in its own. */
  predicate ListedBefore(folders: seq<Folder>, k: nat, i: nat, name: string)
    requires k < |folders| && i <= |folders[k].filenames|
  {
    (exists j :: 0 <= j < k && name in folders[j].filenames) || name in folders[k].filenames[..i]
  }

  lemma {:induction false} TakenExact(folders: seq<Folder>, n: nat, name: string)
    requires n <= |folders|
    ensures name in Taken(folders, n) <==> exists j :: 0 <= j < n && name in folders[j].filenames
  {
    if n > 0 {
      TakenExact(folders, n - 1, name);
    }
  }

  /** Every folder lists its files in order, each with its text unless it is listed before. */
  lemma FolderFilesExact(images: map<string, string>, folders: seq<Folder>, k: nat, i: nat)
    requires FoldersDistinct(folders) && k < |folders| && i < |folders[k].filenames|
    ensures folders[k].name in InFolders(images, folders, |folders|)
    ensures var entries, name := InFolders(images, folders, |folders|)[folders[k].name], folders[k].filenames[i];
            && |entries| == |folders[k].filenames|
            && entries[i] == EncodedImage(name, if name in images && !ListedBefore(folders, k, i, name) then Some(images[name]) else None)
  {
    InFoldersAt(images, folders, |folders|, k);
    TakenExact(folders, k, folders[k].filenames[i]);
  }

  // ---------- what is lost ----------

  /** The keys of an object: no folder comes twice. */
  predicate FoldersDistinct(folders: seq<Folder>) {
    forall j, k :: 0 <= j < k < |folders| ==> folders[j].name != folders[k].name
  }

  predicate AllStored(images: map<string, string>, folders: seq<Folder>) {
    forall f <- folders, name <- f.filenames :: name in images
  }

  lemma {:induction false} InFoldersAt(images: map<string, string>, folders: seq<Folder>, n: nat, k: nat)
    requires FoldersDistinct(folders) && k < n <= |folders|
    ensures folders[k].name in InFolders(images, folders, n)
    ensures InFolders(images, folders, n)[folders[k].name] == FolderEntries(images, folders, k)
  {
    if k < n - 1 {
      InFoldersAt(images, folders, n - 1, k);
    }
  }

  predicate Complete(entries: seq<EncodedImage>) {
    forall e <- entries :: e.data.Some?
  }

  lemma WrittenLast(images: map<string, string>, taken: seq<string>, names: seq<string>)
    requires names != []
    ensures var n := |names| - 1;
            Written(images, taken, names) == Written(images, taken, names[..n]) + [Entry(images, taken + names[..n], names[n])]
  {
    var n := |names| - 1;
    forall i | 0 <= i < n
      ensures names[..n][..i] == names[..i]
    {
    }
  }

  lemma CompleteAppend(entries: seq<EncodedImage>, e: EncodedImage)
    ensures Complete(entries + [e]) <==> Complete(entries) && e.data.Some?
  {
    assert e in entries + [e];
    assert forall x <- entries :: x in entries + [e];
  }

  lemma DistinctLast(taken: seq<string>, names: seq<string>)
    requires names != []
    ensures var n := |names| - 1;
            Distinct(taken + names) <==> Distinct(taken + names[..n]) && names[n] !in taken + names[..n]
  {
    assert (taken + names)[..|taken + names| - 1] == taken + names[..|names| - 1];
  }

  /** A list of files is complete exactly when no name was taken before, or comes twice. */
  lemma {:induction false} WrittenComplete(images: map<string, string>, taken: seq<string>, names: seq<string>)
    requires Distinct(taken) && forall name <- names :: name in images
    ensures Complete(Written(images, taken, names)) <==> Distinct(taken + names)
  {
    if names == [] {
      assert taken + names == taken;
    } else {
      var init, last := names[..|names| - 1], names[|names| - 1];
      assert last in names;
      WrittenComplete(images, taken, init);
      WrittenLast(images, taken, names);
      CompleteAppend(Written(images, taken, init), Entry(images, taken + init, last));
      DistinctLast(taken, names);
    }
  }

  lemma {:induction false} FoldersComplete(images: map<string, string>, folders: seq<Folder>, n: nat)
    requires AllStored(images, folders) && n <= |folders|
    ensures (forall k :: 0 <= k < n ==> Complete(FolderEntries(images, folders, k))) <==> Distinct(Taken(folders, n))
  {
    if n > 0 {
      FoldersComplete(images, folders, n - 1);
      var taken, names := Taken(folders, n - 1), folders[n - 1].filenames;
      DistinctAppend(taken, names);
      assert folders[n - 1] in folders;
      if Distinct(taken) {
        WrittenComplete(images, taken, names);
        assert Complete(FolderEntries(images, folders, n - 1)) <==> Distinct(Taken(folders, n));
      }
    }
  }

  /** Every file in a folder has its text if and only if no name is listed twice, in one folder or in two. */
  lemma FilesHaveTexts(images: map<string, string>, folders: seq<Folder>)
    requires FoldersDistinct(folders) && AllStored(images, folders)
    ensures forall k :: 0 <= k < |folders| ==> folders[k].name in InFolders(images, folders, |folders|)
    ensures (forall k :: 0 <= k < |folders| ==> Complete(InFolders(images, folders, |folders|)[folders[k].name])) <==>
            Distinct(Taken(folders, |folders|))
  {
    FoldersComplete(images, folders, |folders|);
    forall k | 0 <= k < |folders|
      ensures folders[k].name in InFolders(images, folders, |folders|)
      ensures InFolders(images, folders, |folders|)[folders[k].name] == FolderEntries(images, folders, k)
    {
      InFoldersAt(images, folders, |folders|, k);
    }
  }

  predicate Has(data: ImageData, name: string, text: string) {
    exists key <- data :: EncodedImage(name, Some(text)) in data[key]
  }

  /** A folder named `root` lists nothing but what folders before it list. */
  predicate RootFolderRepeats(folders: seq<Folder>) {
    forall k :: 0 <= k < |folders| && folders[k].name == ROOT ==>
      forall name <- folders[k].filenames :: name in Taken(folders, k)
  }

  lemma {:induction false} WrittenHas(images: map<string, string>, taken: seq<string>, names: seq<string>, name: string, text: string)
    ensures EncodedImage(name, Some(text)) in Written(images, taken, names) <==>
            name in names && name !in taken && name in images && text == images[name]
  {
    if names != [] {
      var n := |names| - 1;
      WrittenHas(images, taken, names[..n], name, text);
      WrittenLast(images, taken, names);
      assert names == names[..n] + [names[n]];
    }
  }

  lemma RestHas(images: map<string, string>, names: seq<string>, taken: seq<string>, name: string)
    requires name in names && name in images && name !in taken
    ensures EncodedImage(name, Some(images[name])) in Rest(images, names, taken)
  {
    WithoutHas(names, taken, name);
    var left := Without(names, taken);
    var i :| 0 <= i < |left| && left[i] == name;
    assert Rest(images, names, taken)[i] == EncodedImage(name, Some(images[name]));
  }

  lemma RestLacks(images: map<string, string>, names: seq<string>, taken: seq<string>, e: EncodedImage)
    requires e in Rest(images, names, taken)
    ensures e.filename !in taken
  {
    var left := Without(names, taken);
    var i :| 0 <= i < |left| && Rest(images, names, taken)[i] == e;
    WithoutHas(names, taken, left[i]);
  }

  lemma {:induction false} TakenGrows(folders: seq<Folder>, j: nat, k: nat, name: string)
    requires j <= k <= |folders| && name in Taken(folders, j)
    ensures name in Taken(folders, k)
  {
    if j < k {
      TakenGrows(folders, j, k - 1, name);
    }
  }

  lemma {:induction false} FirstFolder(folders: seq<Folder>, n: nat, name: string) returns (k: nat)
    requires n <= |folders| && name in Taken(folders, n)
    ensures k < n && name in folders[k].filenames && name !in Taken(folders, k)
  {
    k := n - 1;
    if name in Taken(folders, n - 1) {
      k := FirstFolder(folders, n - 1, name);
    }
  }

  lemma {:induction false} FolderOfKey(images: map<string, string>, folders: seq<Folder>, n: nat, key: string) returns (k: nat)
    requires n <= |folders| && key in InFolders(images, folders, n)
    ensures k < n && folders[k].name == key
  {
    k := n - 1;
    if folders[n - 1].name != key {
      k := FolderOfKey(images, folders, n - 1, key);
    }
  }

  /** An image is where it is listed first, or in the rest. */
  lemma KeptImage(images: map<string, string>, names: seq<string>, folders: seq<Folder>, name: string)
    requires FoldersDistinct(folders) && name in names && name in images
    requires Rest(images, names, Taken(folders, |folders|)) == [] || RootFolderRepeats(folders)
    ensures Has(Formatted(images, names, folders, false), name, images[name])
  {
    var data, taken := Formatted(images, names, folders, false), Taken(folders, |folders|);
    if name in taken {
      var k := FirstFolder(folders, |folders|, name);
      InFoldersAt(images, folders, |folders|, k);
      WrittenHas(images, Taken(folders, k), folders[k].filenames, name, images[name]);
      assert folders[k].name in data;
    } else {
      RestHas(images, names, taken, name);
      assert ROOT in data;
    }
  }

  /** A folder that is not the first to list a name has no text for it. */
  lemma OnlyInFirst(images: map<string, string>, folders: seq<Folder>, k: nat, j: nat, name: string, text: string)
    requires k < |folders| && j < |folders| && j != k && name in folders[k].filenames && name !in Taken(folders, k)
    ensures EncodedImage(name, Some(text)) !in FolderEntries(images, folders, j)
  {
    WrittenHas(images, Taken(folders, j), folders[j].filenames, name, text);
    if name in folders[j].filenames && k < j {
      TakenGrows(folders, k + 1, j, name);
    } else if name in folders[j].filenames {
      TakenGrows(folders, j + 1, k, name);
    }
  }

  /** An image that is listed first in a folder named `root` is overwritten by the rest. */
  lemma LostImage(images: map<string, string>, names: seq<string>, folders: seq<Folder>, k: nat, name: string, text: string)
    requires FoldersDistinct(folders) && k < |folders| && folders[k].name == ROOT
    requires name in folders[k].filenames && name !in Taken(folders, k)
    requires Rest(images, names, Taken(folders, |folders|)) != []
    ensures !Has(Formatted(images, names, folders, false), name, text)
  {
    var data, e := Formatted(images, names, folders, false), EncodedImage(name, Some(text));
    TakenGrows(folders, k + 1, |folders|, name);
    forall key | key in data
      ensures e !in data[key]
    {
      if key == ROOT {
        if e in data[key] {
          RestLacks(images, names, Taken(folders, |folders|), e);
        }
      } else {
        var j := FolderOfKey(images, folders, |folders|, key);
        InFoldersAt(images, folders, |folders|, j);
        OnlyInFirst(images, folders, k, j, name, text);
      }
    }
  }

  /**
   Every image is in the output with its text if and only if nothing is left for `root`, or no folder
   of that name is the first to list an image.
   */
  lemma NothingLostExact(images: map<string, string>, names: seq<string>, folders: seq<Folder>)
    requires FoldersDistinct(folders) && AllStored(images, folders) && forall name :: name in names <==> name in images
    ensures (forall name <- images :: Has(Formatted(images, names, folders, false), name, images[name])) <==>
            Rest(images, names, Taken(folders, |folders|)) == [] || RootFolderRepeats(folders)
  {
    if Rest(images, names, Taken(folders, |folders|)) == [] || RootFolderRepeats(folders) {
      forall name | name in images
        ensures Has(Formatted(images, names, folders, false), name, images[name])
      {
        KeptImage(images, names, folders, name);
      }
    } else {
      var k :| 0 <= k < |folders| && folders[k].name == ROOT && exists name <- folders[k].filenames :: name !in Taken(folders, k);
      var name :| name in folders[k].filenames && name !in Taken(folders, k);
      assert folders[k] in folders;
      LostImage(images, names, folders, k, name, images[name]);
    }
  }

  /** An image that is listed twice in a folder has its text once. */
  lemma ListedTwice(name: string, text: string)
    ensures FolderEntries(map[name := text], [Folder("bodies", [name, name])], 0) ==
            [EncodedImage(name, Some(text)), EncodedImage(name, None)]
  {
    assert Taken([Folder("bodies", [name, name])], 0) == [];
    assert [name, name][..0] == [] && [name, name][..1] == [name];
  }

  /** An image in a folder named `root` is lost when another is in no folder. */
  lemma RootFolderOverwritten(name: string, other: string, text: string)
    requires name != other
    ensures var images, folders := map[name := text, other := text], [Folder(ROOT, [name])];
            !Has(Formatted(images, [name, other], folders, false), name, text)
  {
    var images, folders := map[name := text, other := text], [Folder(ROOT, [name])];
    assert Taken(folders, 0) == [] && Taken(folders, 1) == [name];
    RestHas(images, [name, other], [name], other);
    LostImage(images, [name, other], folders, 0, name, text);
  }
}
