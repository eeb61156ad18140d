/** Lists without repeats, as the palette, the indexer and the caches keep them. */
module Lists {
  predicate Distinct<T(==)>(s: seq<T>) {
    s == [] || (s[|s| - 1] !in s[..|s| - 1] && Distinct(s[..|s| - 1]))
  }

  lemma {:induction false} DistinctMeans<T>(s: seq<T>)
    ensures Distinct(s) <==> forall i, j :: 0 <= i < j < |s| ==> s[i] != s[j]
  {
    if s != [] {
      var n := |s| - 1;
      DistinctMeans(s[..n]);
      assert forall i :: 0 <= i < n ==> s[..n][i] == s[i];
    }
  }

  /** `filter(x => !gone.includes(x))`. */
  function Without<T(==)>(s: seq<T>, gone: seq<T>): (r: seq<T>)
    ensures |r| <= |s|
  {
    if s == [] then []
    else
      var last := s[|s| - 1];
      Without(s[..|s| - 1], gone) + (if last in gone then [] else [last])
  }

  lemma {:induction false} WithoutHas<T>(s: seq<T>, gone: seq<T>, x: T)
    ensures x in Without(s, gone) <==> x in s && x !in gone
  {
    if s != [] {
      WithoutHas(s[..|s| - 1], gone, x);
      assert s == s[..|s| - 1] + [s[|s| - 1]];
    }
  }

  lemma {:induction false} WithoutDistinct<T>(s: seq<T>, gone: seq<T>)
    requires Distinct(s)
    ensures Distinct(Without(s, gone))
  {
    if s != [] {
      var rest, last := Without(s[..|s| - 1], gone), s[|s| - 1];
      WithoutDistinct(s[..|s| - 1], gone);
      WithoutHas(s[..|s| - 1], gone, last);
      if last in gone {
        assert Without(s, gone) == rest;
      } else {
        assert Without(s, gone)[..|rest|] == rest;
      }
    }
  }

  /** Removing one element that occurs once shortens the list by one; removing an absent one leaves it. */
  lemma {:induction false} WithoutOne<T>(s: seq<T>, x: T)
    requires Distinct(s)
    ensures |Without(s, [x])| == if x in s then |s| - 1 else |s|
    ensures x !in s ==> Without(s, [x]) == s
  {
    if s != [] {
      WithoutOne(s[..|s| - 1], x);
      assert s == s[..|s| - 1] + [s[|s| - 1]];
    }
  }

  lemma {:induction false} DistinctAppend<T>(s: seq<T>, t: seq<T>)
    ensures Distinct(s + t) <==> Distinct(s) && Distinct(t) && forall x <- t :: x !in s
  {
    if t == [] {
      assert s + t == s;
    } else {
      var n := |t| - 1;
      DistinctAppend(s, t[..n]);
      assert (s + t)[..|s + t| - 1] == s + t[..n];
      assert t == t[..n] + [t[n]];
    }
  }
}
