/** Sums over the keys of a map. */
module Sums {
  ghost function SumOver<K>(keys: set<K>, f: K -> int): int {
    if keys == {} then 0
    else
      var k :| k in keys;
      f(k) + SumOver(keys - {k}, f)
  }

  lemma {:induction false} SumSplit<K>(keys: set<K>, f: K -> int, x: K)
    requires x in keys
    ensures SumOver(keys, f) == f(x) + SumOver(keys - {x}, f)
    decreases |keys|
  {
    var k :| k in keys && SumOver(keys, f) == f(k) + SumOver(keys - {k}, f);
    if k != x {
      SumSplit(keys - {k}, f, x);
      SumSplit(keys - {x}, f, k);
      assert keys - {k} - {x} == keys - {x} - {k};
    }
  }

  lemma {:induction false} SumSame<K>(keys: set<K>, f: K -> int, g: K -> int)
    requires forall k :: k in keys ==> f(k) == g(k)
    ensures SumOver(keys, f) == SumOver(keys, g)
    decreases |keys|
  {
    if keys != {} {
      var k :| k in keys;
      SumSplit(keys, f, k);
      SumSplit(keys, g, k);
      SumSame(keys - {k}, f, g);
    }
  }

  /** Changing, or adding, one key changes the sum by the difference. */
  lemma SumUpdate<K>(keys: set<K>, f: K -> int, g: K -> int, x: K)
    requires forall k :: k in keys && k != x ==> f(k) == g(k)
    requires x !in keys ==> f(x) == 0
    ensures SumOver(keys + {x}, g) == SumOver(keys, f) - f(x) + g(x)
  {
    SumSplit(keys + {x}, g, x);
    assert keys + {x} - {x} == keys - {x};
    SumSame(keys - {x}, f, g);
    if x in keys {
      SumSplit(keys, f, x);
    } else {
      assert keys - {x} == keys;
    }
  }
}
