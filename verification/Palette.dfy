/**
 The colour palette shared by all encodings: an ECMAScript `Map` from hex colour to index, whose
 key order is insertion order (ECMA-262, "Map Objects"), and the list of keys it grows into.
 */
module Palette {
  import opened Lists

  const TRANSPARENT: string := ""

  /** A list of colours whose positions can serve as indexes: index 0 is transparent, no colour repeats. */
  predicate IsPalette(keys: seq<string>) {
    |keys| >= 1 && keys[0] == TRANSPARENT && Distinct(keys)
  }

  function Position<T(==)>(keys: seq<T>, key: T): (i: nat)
    requires key in keys
    ensures i < |keys| && keys[i] == key
  {
    if keys[|keys| - 1] == key then |keys| - 1 else Position(keys[..|keys| - 1], key)
  }

  lemma PositionUnique<T>(keys: seq<T>, i: nat)
    requires Distinct(keys) && i < |keys|
    ensures Position(keys, keys[i]) == i
  {
    DistinctMeans(keys);
  }

  function Insert<T(==)>(keys: seq<T>, key: T): seq<T> {
    if key in keys then keys else keys + [key]
  }

  /** The keys after the first `n` of a list of colours were inserted in turn. */
  function Grow(keys: seq<string>, colors: seq<string>, n: nat): seq<string>
    requires n <= |colors|
  {
    if n == 0 then keys else Insert(Grow(keys, colors, n - 1), colors[n - 1])
  }

  /** Insertion only appends: no colour moves, none is lost, and a palette stays one. */
  lemma {:induction false} GrowAppends(keys: seq<string>, colors: seq<string>, n: nat)
    requires n <= |colors|
    ensures keys <= Grow(keys, colors, n)
    ensures forall i :: 0 <= i < n ==> colors[i] in Grow(keys, colors, n)
    ensures IsPalette(keys) ==> IsPalette(Grow(keys, colors, n))
  {
    if n > 0 {
      GrowAppends(keys, colors, n - 1);
    }
  }

  lemma {:induction false} GrowFront(keys: seq<string>, colors: seq<string>, n: nat)
    requires 0 < n <= |colors|
    ensures Grow(keys, colors, n) == Grow(Insert(keys, colors[0]), colors[1..], n - 1)
  {
    if n > 1 {
      GrowFront(keys, colors, n - 1);
    } else {
      assert Grow(keys, colors, 0) == keys;
    }
  }

  lemma {:induction false} GrowCount(keys: seq<string>, colors: seq<string>, n: nat)
    requires n <= |colors|
    ensures |Grow(keys, colors, n)| <= |keys| + n
    ensures |Grow(keys, colors, n)| == |keys| + n ==> Grow(keys, colors, n) == keys + colors[..n]
    ensures Distinct(keys) ==> Distinct(Grow(keys, colors, n))
  {
    if n > 0 {
      GrowCount(keys, colors, n - 1);
      assert colors[..n] == colors[..n - 1] + [colors[n - 1]];
    }
  }

  /** New colours are appended as they are. */
  lemma {:induction false} GrowDistinct(keys: seq<string>, colors: seq<string>, n: nat)
    requires n <= |colors| && Distinct(keys + colors[..n])
    ensures Grow(keys, colors, n) == keys + colors[..n]
  {
    if n > 0 {
      assert (keys + colors[..n])[..|keys| + n - 1] == keys + colors[..n - 1];
      GrowDistinct(keys, colors, n - 1);
    }
  }

  /** The map from each key to its position. */
  function Positions(keys: seq<string>): map<string, int> {
    if keys == [] then map[] else Positions(keys[..|keys| - 1])[keys[|keys| - 1] := |keys| - 1]
  }

  /** Every colour's index is its position in key order. */
  ghost predicate InOrder(keys: seq<string>, index: map<string, int>) {
    IsPalette(keys) && index == Positions(keys)
  }

  lemma {:induction false} PositionsOf(keys: seq<string>, key: string)
    ensures key in Positions(keys) <==> key in keys
    ensures Distinct(keys) && key in keys ==> Positions(keys)[key] == Position(keys, key)
  {
    if keys != [] {
      var n := |keys| - 1;
      PositionsOf(keys[..n], key);
      assert keys == keys[..n] + [keys[n]];
    }
  }

  /** The indexes the collection encoder's constructor assigns: a repeated colour keeps the last. */
  function Indexes(colors: seq<string>, n: nat): map<string, int>
    requires n <= |colors|
  {
    if n == 0 then map[TRANSPARENT := 0] else Indexes(colors, n - 1)[colors[n - 1] := n - 1]
  }

  /**
   The initial colour lists that put every colour at its own index: transparent comes first, or the
   first colour comes twice, and the rest are distinct colours.
   */
  predicate KeepsPositions(colors: seq<string>) {
    colors == [] ||
    (Distinct([TRANSPARENT] + colors[1..]) &&
     (colors[0] == TRANSPARENT || (|colors| > 1 && colors[0] == colors[1])))
  }

  lemma {:induction false} IndexesLast(colors: seq<string>, n: nat, key: string)
    requires n <= |colors|
    ensures key in Indexes(colors, n) <==> key == TRANSPARENT || key in colors[..n]
    ensures key !in colors[..n] && key == TRANSPARENT ==> Indexes(colors, n)[key] == 0
    ensures key in colors[..n] ==>
              var i := Indexes(colors, n)[key];
              0 <= i < n && colors[i] == key && forall j :: i < j < n ==> colors[j] != key
  {
    if n > 0 {
      IndexesLast(colors, n - 1, key);
      assert colors[..n] == colors[..n - 1] + [colors[n - 1]];
    }
  }

  /** The keys a collection encoder starts with. */
  function InitialKeys(colors: seq<string>): seq<string> {
    Grow([TRANSPARENT], colors, |colors|)
  }

  /** The insertions that open the constructor's loop. */
  lemma InitialKeysUnfold(colors: seq<string>)
    requires colors != []
    ensures colors[0] == TRANSPARENT ==> InitialKeys(colors) == Grow([TRANSPARENT], colors[1..], |colors| - 1)
    ensures colors[0] != TRANSPARENT ==> InitialKeys(colors) == Grow([TRANSPARENT, colors[0]], colors[1..], |colors| - 1)
    ensures colors[0] != TRANSPARENT && |colors| > 1 && colors[0] == colors[1] ==>
              InitialKeys(colors) == Grow([TRANSPARENT, colors[0]], colors[2..], |colors| - 2)
  {
    GrowFront([TRANSPARENT], colors, |colors|);
    assert [TRANSPARENT] + [colors[0]] == [TRANSPARENT, colors[0]];
    if |colors| > 1 {
      GrowFront([TRANSPARENT, colors[0]], colors[1..], |colors| - 1);
      assert colors[1..][1..] == colors[2..];
    }
  }

  lemma KeysWhenKept(colors: seq<string>)
    requires colors != [] && KeepsPositions(colors)
    ensures InitialKeys(colors) == [TRANSPARENT] + colors[1..]
  {
    InitialKeysUnfold(colors);
    if colors[0] == TRANSPARENT {
      assert colors[1..][..|colors| - 1] == colors[1..];
      GrowDistinct([TRANSPARENT], colors[1..], |colors| - 1);
    } else {
      SameTail(colors);
      DistinctMeans([TRANSPARENT] + colors[1..]);
      assert ([TRANSPARENT] + colors[1..])[0] != ([TRANSPARENT] + colors[1..])[1];
      assert colors[2..][..|colors| - 2] == colors[2..];
      GrowDistinct([TRANSPARENT, colors[0]], colors[2..], |colors| - 2);
    }
  }

  /** The last colour's index bounds the number of keys from below. */
  lemma EnoughKeys(colors: seq<string>)
    requires colors != [] && InOrder(InitialKeys(colors), Indexes(colors, |colors|))
    ensures |colors| <= |InitialKeys(colors)|
  {
    var last := colors[|colors| - 1];
    IndexesLast(colors, |colors|, last);
    PositionsOf(InitialKeys(colors), last);
  }

  lemma SecondKey(colors: seq<string>)
    requires colors != [] && colors[0] != TRANSPARENT
    ensures |InitialKeys(colors)| >= 2 && InitialKeys(colors)[1] == colors[0]
  {
    InitialKeysUnfold(colors);
    GrowAppends([TRANSPARENT, colors[0]], colors[1..], |colors| - 1);
  }

  lemma PositionOfSecond(keys: seq<string>)
    requires Distinct(keys) && |keys| >= 2
    ensures keys[1] in Positions(keys) && Positions(keys)[keys[1]] == 1
  {
    PositionsOf(keys, keys[1]);
    PositionUnique(keys, 1);
  }

  lemma FirstTwiceOrTransparent(colors: seq<string>)
    requires colors != [] && InOrder(InitialKeys(colors), Indexes(colors, |colors|)) && colors[0] != TRANSPARENT
    ensures |colors| > 1 && colors[1] == colors[0]
  {
    SecondKey(colors);
    PositionOfSecond(InitialKeys(colors));
    IndexesLast(colors, |colors|, colors[0]);
  }

  /** At most one insertion was of a colour already there, and it was one of the first two. */
  lemma PositionsAreKept(colors: seq<string>)
    requires colors != [] && InOrder(InitialKeys(colors), Indexes(colors, |colors|))
    ensures KeepsPositions(colors)
  {
    EnoughKeys(colors);
    if colors[0] == TRANSPARENT {
      RestIsNew(colors);
    } else {
      FirstTwiceOrTransparent(colors);
      RestIsNewAfterTwo(colors);
    }
  }

  lemma RestIsNew(colors: seq<string>)
    requires colors != [] && |colors| <= |InitialKeys(colors)| && colors[0] == TRANSPARENT
    ensures Distinct([TRANSPARENT] + colors[1..])
  {
    InitialKeysUnfold(colors);
    AllNew([TRANSPARENT], colors[1..]);
  }

  lemma TwoDistinct(a: string, b: string)
    requires a != b
    ensures Distinct([a, b])
  {
    DistinctMeans([a, b]);
  }

  lemma RestIsNewAfterTwo(colors: seq<string>)
    requires |colors| > 1 && |colors| <= |InitialKeys(colors)| && colors[0] == colors[1] != TRANSPARENT
    ensures Distinct([TRANSPARENT] + colors[1..])
  {
    InitialKeysUnfold(colors);
    TwoDistinct(TRANSPARENT, colors[0]);
    AllNew([TRANSPARENT, colors[0]], colors[2..]);
    SameTail(colors);
  }

  lemma SameTail(colors: seq<string>)
    requires |colors| > 1 && colors[0] == colors[1]
    ensures [TRANSPARENT, colors[0]] + colors[2..] == [TRANSPARENT] + colors[1..]
  {
  }

  lemma AllNew(keys: seq<string>, colors: seq<string>)
    requires Distinct(keys) && |Grow(keys, colors, |colors|)| >= |keys| + |colors|
    ensures Distinct(keys + colors)
  {
    GrowCount(keys, colors, |colors|);
    assert colors[..|colors|] == colors;
  }

  lemma KeptIndex(colors: seq<string>, k: string)
    requires colors != [] && KeepsPositions(colors)
    ensures var keys, index := [TRANSPARENT] + colors[1..], Indexes(colors, |colors|);
            (k in index <==> k in Positions(keys)) && (k in index ==> index[k] == Positions(keys)[k])
  {
    var keys, index := [TRANSPARENT] + colors[1..], Indexes(colors, |colors|);
    IndexesLast(colors, |colors|, k);
    PositionsOf(keys, k);
    if k in index {
      assert keys[index[k]] == k;
      PositionUnique(keys, index[k]);
    }
  }

  lemma KeptIndexes(colors: seq<string>)
    requires colors != [] && KeepsPositions(colors)
    ensures Indexes(colors, |colors|) == Positions([TRANSPARENT] + colors[1..])
  {
    var index, positions := Indexes(colors, |colors|), Positions([TRANSPARENT] + colors[1..]);
    forall k
      ensures k in index <==> k in positions
      ensures k in index ==> index[k] == positions[k]
    {
      KeptIndex(colors, k);
    }
  }

  lemma KeptIsInOrder(colors: seq<string>)
    requires KeepsPositions(colors)
    ensures InOrder(InitialKeys(colors), Indexes(colors, |colors|))
  {
    if colors == [] {
      assert Positions([TRANSPARENT]) == map[TRANSPARENT := 0];
    } else {
      KeysWhenKept(colors);
      KeptIndexes(colors);
    }
  }

  /** The constructor builds a usable palette from exactly those lists. */
  lemma InitialPaletteExact(colors: seq<string>)
    ensures InOrder(InitialKeys(colors), Indexes(colors, |colors|)) <==> KeepsPositions(colors)
  {
    if KeepsPositions(colors) {
      KeptIsInOrder(colors);
    }
    if colors != [] && InOrder(InitialKeys(colors), Indexes(colors, |colors|)) {
      PositionsAreKept(colors);
    }
  }

  /** A palette that does not start with the transparent colour: its first colour gets the transparent index. */
  lemma FirstColorIsLost()
    ensures var index := Indexes(["ff0000", "00ff00"], 2);
            index["ff0000"] == index[TRANSPARENT] && !InOrder(InitialKeys(["ff0000", "00ff00"]), index)
  {
    var colors := ["ff0000", "00ff00"];
    assert colors[0] != colors[1] by { assert colors[0][0] != colors[1][0]; }
    IndexesLast(colors, 2, "ff0000");
    IndexesLast(colors, 2, TRANSPARENT);
    InitialPaletteExact(colors);
  }

  function KeySet(keys: seq<string>): set<string> {
    set k | k in keys
  }

  /** A `Map<string, number>`: its keys in insertion order, and the number of each. */
  datatype Table = Table(keys: seq<string>, index: map<string, int>)

  predicate IsTable(t: Table) {
    Distinct(t.keys) && t.index.Keys == KeySet(t.keys)
  }

  /** A colour that is not there yet gets the size of the map. */
  function Put(t: Table, key: string): Table {
    if key in t.index then t else Table(t.keys + [key], t.index[key := |t.keys|])
  }

  /** The map after the first `n` of a list of colours. */
  function Extend(t: Table, colors: seq<string>, n: nat): Table
    requires n <= |colors|
  {
    if n == 0 then t else Put(Extend(t, colors, n - 1), colors[n - 1])
  }

  /** Every number in the one map is in the other. */
  ghost predicate Agrees(t: Table, u: Table) {
    forall k <- t.index :: k in u.index && u.index[k] == t.index[k]
  }

  lemma InKeySet(t: Table, key: string)
    requires t.index.Keys == KeySet(t.keys)
    ensures key in t.index <==> key in t.keys
  {
    assert key in t.index <==> key in KeySet(t.keys);
  }

  lemma KeySetGrows(keys: seq<string>, key: string)
    ensures KeySet(keys + [key]) == KeySet(keys) + {key}
  {
  }

  lemma PutTable(t: Table, key: string)
    requires IsTable(t)
    ensures IsTable(Put(t, key)) && Put(t, key).keys == Insert(t.keys, key)
    ensures key in Put(t, key).index && Agrees(t, Put(t, key))
  {
    InKeySet(t, key);
    if key !in t.index {
      assert (t.keys + [key])[..|t.keys|] == t.keys;
      KeySetGrows(t.keys, key);
    }
  }

  lemma PutInOrder(t: Table, key: string)
    requires IsTable(t) && InOrder(t.keys, t.index)
    ensures InOrder(Put(t, key).keys, Put(t, key).index)
  {
    InKeySet(t, key);
    if key !in t.index {
      assert (t.keys + [key])[..|t.keys|] == t.keys;
    }
  }

  /** Extending a map changes no number in it, and grows its keys. */
  lemma {:induction false} ExtendTable(t: Table, colors: seq<string>, n: nat)
    requires IsTable(t) && n <= |colors|
    ensures IsTable(Extend(t, colors, n)) && Extend(t, colors, n).keys == Grow(t.keys, colors, n)
    ensures Agrees(t, Extend(t, colors, n))
  {
    if n > 0 {
      ExtendTable(t, colors, n - 1);
      PutTable(Extend(t, colors, n - 1), colors[n - 1]);
    }
  }

  /** A map in key order stays in key order. */
  lemma {:induction false} ExtendInOrder(t: Table, colors: seq<string>, n: nat)
    requires IsTable(t) && n <= |colors| && InOrder(t.keys, t.index)
    ensures InOrder(Extend(t, colors, n).keys, Extend(t, colors, n).index)
  {
    if n > 0 {
      ExtendInOrder(t, colors, n - 1);
      ExtendTable(t, colors, n - 1);
      PutInOrder(Extend(t, colors, n - 1), colors[n - 1]);
    }
  }

  /** `Map<string, number>`, as the encoder uses it. */
  class ColorMap {
    var keys: seq<string>
    var index: map<string, int>

    function View(): Table
      reads this
    {
      Table(keys, index)
    }

    ghost predicate Valid()
      reads this
    {
      IsTable(View())
    }

    /** Every colour has its position in key order, transparent the first. */
    ghost predicate Ordered()
      reads this
    {
      InOrder(keys, index)
    }

    /** The colour map of a collection encoder: transparent first, then an existing palette, if any. */
    constructor (colors: seq<string>)
      ensures Valid() && keys == InitialKeys(colors) && index == Indexes(colors, |colors|)
      ensures Ordered() <==> KeepsPositions(colors)
    {
      keys, index := [TRANSPARENT], map[TRANSPARENT := 0];
      new;
      for i := 0 to |colors|
        invariant Valid() && keys == Grow([TRANSPARENT], colors, i) && index == Indexes(colors, i)
      {
        Set(colors[i], i);
      }
      InitialPaletteExact(colors);
    }

    method Set(key: string, value: int)
      requires Valid()
      modifies this
      ensures Valid() && keys == Insert(old(keys), key) && index == old(index)[key := value]
    {
      assert key in index <==> key in KeySet(keys);
      if key !in index {
        keys := keys + [key];
        assert keys[..|keys| - 1] == old(keys);
      }
      index := index[key := value];
    }

    /** Insert the colour, unless it is there, at the next free index. */
    method Add(key: string)
      requires Valid()
      modifies this
      ensures Valid() && View() == Put(old(View()), key)
    {
      if key !in index {
        Set(key, |keys|);
      }
      PutTable(old(View()), key);
    }
  }
}
