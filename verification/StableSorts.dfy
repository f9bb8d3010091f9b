/** Stable sorting, as the standard library's `sort` does it. */
module StableSorts {

  /** A comparison by an integer key, or by two of them in turn. */
  ghost predicate TotalOrder<T(!new)>(le: (T, T) -> bool)
  {
    (forall a, b :: le(a, b) || le(b, a)) &&
    (forall a, b, c :: le(a, b) && le(b, c) ==> le(a, c))
  }

  ghost predicate Ascending<T>(s: seq<T>, le: (T, T) -> bool)
  {
    forall i, j :: 0 <= i < j < |s| ==> le(s[i], s[j])
  }

  function Place<T>(x: T, s: seq<T>, le: (T, T) -> bool): (r: seq<T>)
    ensures |r| == |s| + 1
  {
    if s == [] || le(x, s[0]) then [x] + s else [s[0]] + Place(x, s[1..], le)
  }

  function Sorted<T>(s: seq<T>, le: (T, T) -> bool): (r: seq<T>)
    ensures |r| == |s|
  {
    if s == [] then [] else Place(s[0], Sorted(s[1..], le), le)
  }

  /** The elements that the order does not tell from `x`. */
  function Alike<T>(s: seq<T>, x: T, le: (T, T) -> bool): seq<T>
  {
    if s == [] then []
    else (if le(s[0], x) && le(x, s[0]) then [s[0]] else []) + Alike(s[1..], x, le)
  }

  lemma {:induction false} PlaceAdds<T>(x: T, s: seq<T>, le: (T, T) -> bool)
    ensures multiset(Place(x, s, le)) == multiset(s) + multiset{x}
  {
    if s != [] && !le(x, s[0]) {
      PlaceAdds(x, s[1..], le);
      assert s == [s[0]] + s[1..];
    }
  }

  lemma {:induction false} PlaceKeeps<T(!new)>(x: T, s: seq<T>, le: (T, T) -> bool)
    requires TotalOrder(le) && Ascending(s, le)
    ensures Ascending(Place(x, s, le), le)
  {
    if s != [] && !le(x, s[0]) {
      PlaceKeeps(x, s[1..], le);
      var r := Place(x, s[1..], le);
      PlaceAdds(x, s[1..], le);
      forall i | 0 <= i < |r|
        ensures le(s[0], r[i])
      {
        assert r[i] in multiset(r);
        assert r[i] == x || r[i] in s[1..];
      }
    }
  }

  lemma {:induction false} PlaceStable<T(!new)>(x: T, s: seq<T>, le: (T, T) -> bool, y: T)
    requires TotalOrder(le)
    ensures Alike(Place(x, s, le), y, le) == Alike([x] + s, y, le)
  {
    assert ([x] + s)[1..] == s;
    if s != [] && !le(x, s[0]) {
      PlaceStable(x, s[1..], le, y);
      assert ([s[0]] + Place(x, s[1..], le))[1..] == Place(x, s[1..], le);
      assert ([x] + s[1..])[1..] == s[1..];
      assert !(le(x, y) && le(y, x) && le(s[0], y) && le(y, s[0]));
    }
  }

  /** The result is a sorted rearrangement in which equal elements keep their order. */
  lemma {:induction false} SortedSorts<T(!new)>(s: seq<T>, le: (T, T) -> bool)
    requires TotalOrder(le)
    ensures Ascending(Sorted(s, le), le)
    ensures multiset(Sorted(s, le)) == multiset(s)
  {
    if s != [] {
      SortedSorts(s[1..], le);
      PlaceKeeps(s[0], Sorted(s[1..], le), le);
      PlaceAdds(s[0], Sorted(s[1..], le), le);
      assert s == [s[0]] + s[1..];
    }
  }

  lemma {:induction false} SortedStable<T(!new)>(s: seq<T>, le: (T, T) -> bool, y: T)
    requires TotalOrder(le)
    ensures Alike(Sorted(s, le), y, le) == Alike(s, y, le)
  {
    if s != [] {
      SortedStable(s[1..], le, y);
      PlaceStable(s[0], Sorted(s[1..], le), le, y);
      assert ([s[0]] + Sorted(s[1..], le))[1..] == Sorted(s[1..], le);
    }
  }

  lemma {:induction false} AlreadySorted<T>(s: seq<T>, le: (T, T) -> bool)
    requires Ascending(s, le)
    ensures Sorted(s, le) == s
  {
    if s != [] {
      AlreadySorted(s[1..], le);
      assert |s| > 1 ==> le(s[0], s[1]);
    }
  }
}
