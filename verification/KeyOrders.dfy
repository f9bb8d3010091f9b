/** Why real keys stand for all: however `cmp` orders countably many keys, they have places among the reals that compare in
    the same way. */
module KeyOrders {
  import opened Wrappers

  /** What `cmp` has to be, as the relation `cmp(a, b) < 0`; keys of which neither is smaller count as equal. */
  ghost predicate WeakOrder<K(!new)>(less: (K, K) -> bool)
  {
    && (forall a :: !less(a, a))
    && (forall a, b, c :: less(a, b) && less(b, c) ==> less(a, c))
    && (forall a, b, c :: less(a, c) ==> less(a, b) || less(b, c))
  }

  predicate Equal<K>(less: (K, K) -> bool, a: K, b: K)
  {
    !less(a, b) && !less(b, a)
  }

  ghost predicate Occurs<K(!new)>(at: nat -> K, k: K)
  {
    exists i: nat :: at(i) == k
  }

  /** Every key occurs in the list `at`, some perhaps often: there are countably many, or finitely many. */
  ghost predicate Lists<K(!new)>(at: nat -> K)
  {
    forall k: K :: Occurs(at, k)
  }

  ghost predicate Monotone<K(!new)>(less: (K, K) -> bool, place: K -> real)
  {
    forall a, b :: less(a, b) <==> place(a) < place(b)
  }

  function Between(lo: Option<real>, hi: Option<real>): (r: real)
    ensures lo.Some? && (hi.Some? ==> lo.value < hi.value) ==> lo.value < r
    ensures hi.Some? && (lo.Some? ==> lo.value < hi.value) ==> r < hi.value
  {
    match (lo, hi)
    case (None, None) => 0.0
    case (Some(l), None) => l + 1.0
    case (None, Some(h)) => h - 1.0
    case (Some(l), Some(h)) => (l + h) / 2.0
  }

  /** The place of the `n`-th key: that of an equal key before it, or between the smaller and the greater ones before it. */
  ghost function Place<K(!new)>(at: nat -> K, less: (K, K) -> bool, n: nat): real
    decreases n, n + 1
  {
    var e := Earlier(at, less, n, n);
    if e.Some? then Place(at, less, e.value) else Between(Highest(at, less, n, n), Lowest(at, less, n, n))
  }

  /** A key among the first `m` that equals the `n`-th. */
  ghost function Earlier<K(!new)>(at: nat -> K, less: (K, K) -> bool, n: nat, m: nat): (e: Option<nat>)
    requires m <= n
    ensures e.Some? ==> e.value < m && Equal(less, at(e.value), at(n))
    ensures e.None? ==> forall i: nat :: i < m ==> !Equal(less, at(i), at(n))
    decreases n, m
  {
    if m == 0 then None
    else if Equal(less, at(m - 1), at(n)) then Some(m - 1)
    else Earlier(at, less, n, m - 1)
  }

  /** The highest place of a smaller key among the first `m`. */
  ghost function Highest<K(!new)>(at: nat -> K, less: (K, K) -> bool, n: nat, m: nat): Option<real>
    requires m <= n
    decreases n, m
  {
    if m == 0 then None
    else
      var r := Highest(at, less, n, m - 1);
      if less(at(m - 1), at(n)) && (r.None? || r.value < Place(at, less, m - 1)) then Some(Place(at, less, m - 1)) else r
  }

  /** The lowest place of a greater key among the first `m`. */
  ghost function Lowest<K(!new)>(at: nat -> K, less: (K, K) -> bool, n: nat, m: nat): Option<real>
    requires m <= n
    decreases n, m
  {
    if m == 0 then None
    else
      var r := Lowest(at, less, n, m - 1);
      if less(at(n), at(m - 1)) && (r.None? || Place(at, less, m - 1) < r.value) then Some(Place(at, less, m - 1)) else r
  }

  lemma {:induction false} HighestIs<K(!new)>(at: nat -> K, less: (K, K) -> bool, n: nat, m: nat)
    requires m <= n
    ensures var r := Highest(at, less, n, m);
      && (r.Some? ==> exists i: nat :: i < m && less(at(i), at(n)) && Place(at, less, i) == r.value)
      && (forall i: nat :: i < m && less(at(i), at(n)) ==> r.Some? && Place(at, less, i) <= r.value)
  {
    if m > 0 {
      HighestIs(at, less, n, m - 1);
    }
  }

  lemma {:induction false} LowestIs<K(!new)>(at: nat -> K, less: (K, K) -> bool, n: nat, m: nat)
    requires m <= n
    ensures var r := Lowest(at, less, n, m);
      && (r.Some? ==> exists i: nat :: i < m && less(at(n), at(i)) && Place(at, less, i) == r.value)
      && (forall i: nat :: i < m && less(at(n), at(i)) ==> r.Some? && r.value <= Place(at, less, i))
  {
    if m > 0 {
      LowestIs(at, less, n, m - 1);
    }
  }

  /** The places of the keys before the `k`-th compare with its place as the keys do. */
  ghost predicate Fits<K(!new)>(at: nat -> K, less: (K, K) -> bool, i: nat, k: nat)
  {
    && (less(at(i), at(k)) ==> Place(at, less, i) < Place(at, less, k))
    && (less(at(k), at(i)) ==> Place(at, less, k) < Place(at, less, i))
    && (Equal(less, at(i), at(k)) ==> Place(at, less, i) == Place(at, less, k))
  }

  lemma EqualsCompare<K(!new)>(less: (K, K) -> bool, x: K, a: K, b: K)
    requires WeakOrder(less) && Equal(less, a, b)
    ensures less(x, a) <==> less(x, b)
    ensures less(a, x) <==> less(b, x)
  {
  }

  lemma SamePlace<K(!new)>(at: nat -> K, less: (K, K) -> bool, i: nat, e: nat, k: nat)
    requires WeakOrder(less) && Equal(less, at(e), at(k)) && Place(at, less, k) == Place(at, less, e) && Fits(at, less, i, e)
    ensures Fits(at, less, i, k)
  {
    EqualsCompare(less, at(i), at(e), at(k));
  }

  lemma {:induction false} PlacesOrdered<K(!new)>(at: nat -> K, less: (K, K) -> bool, n: nat)
    requires WeakOrder(less)
    ensures forall i: nat, j: nat :: i < n && j < n ==> Fits(at, less, i, j)
  {
    if n > 0 {
      var k := n - 1;
      PlacesOrdered(at, less, k);
      forall i: nat | i < n
        ensures Fits(at, less, i, k) && Fits(at, less, k, i)
      {
        if i < k { LastFits(at, less, i, k); }
      }
    }
  }

  lemma LastFits<K(!new)>(at: nat -> K, less: (K, K) -> bool, i: nat, k: nat)
    requires WeakOrder(less) && i < k
    requires forall i: nat, j: nat :: i < k && j < k ==> Fits(at, less, i, j)
    ensures Fits(at, less, i, k)
  {
    var e := Earlier(at, less, k, k);
    if e.Some? {
      SamePlace(at, less, i, e.value, k);
    } else {
      NewPlace(at, less, k);
    }
  }

  lemma NewPlace<K(!new)>(at: nat -> K, less: (K, K) -> bool, k: nat)
    requires WeakOrder(less) && Earlier(at, less, k, k).None?
    requires forall i: nat, j: nat :: i < k && j < k ==> Fits(at, less, i, j)
    ensures forall i: nat :: i < k && less(at(i), at(k)) ==> Place(at, less, i) < Place(at, less, k)
    ensures forall i: nat :: i < k && less(at(k), at(i)) ==> Place(at, less, k) < Place(at, less, i)
  {
    HighestIs(at, less, k, k);
    LowestIs(at, less, k, k);
    var lo, hi := Highest(at, less, k, k), Lowest(at, less, k, k);
    if lo.Some? && hi.Some? {
      var i: nat :| i < k && less(at(i), at(k)) && Place(at, less, i) == lo.value;
      var j: nat :| j < k && less(at(k), at(j)) && Place(at, less, j) == hi.value;
      assert less(at(i), at(j)) && Fits(at, less, i, j);
    }
  }

  ghost function IndexOf<K(!new)>(at: nat -> K, k: K): (i: nat)
    requires Lists(at)
    ensures at(i) == k
  {
    assert Occurs(at, k);
    var i: nat :| at(i) == k;
    i
  }

  ghost function PlaceOf<K(!new)>(at: nat -> K, less: (K, K) -> bool, k: K): real
    requires Lists(at)
  {
    Place(at, less, IndexOf(at, k))
  }

  lemma PlacesCompare<K(!new)>(at: nat -> K, less: (K, K) -> bool, a: K, b: K)
    requires WeakOrder(less) && Lists(at)
    ensures less(a, b) <==> PlaceOf(at, less, a) < PlaceOf(at, less, b)
  {
    var i, j := IndexOf(at, a), IndexOf(at, b);
    PlacesOrdered(at, less, i + j + 1);
    assert Fits(at, less, i, j);
  }

  /** However `cmp` orders countably many keys, they have places among the reals that compare in the same way. */
  lemma Embeds<K(!new)>(at: nat -> K, less: (K, K) -> bool) returns (place: K -> real)
    requires WeakOrder(less) && Lists(at)
    ensures Monotone(less, place)
  {
    place := k => PlaceOf(at, less, k);
    forall a, b
      ensures less(a, b) <==> place(a) < place(b)
    {
      PlacesCompare(at, less, a, b);
    }
  }
}
