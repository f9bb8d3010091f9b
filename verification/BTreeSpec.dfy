/** The compiler's B-tree as a value: what insertion, lookup and rank selection compute, and why they are right. */
module BTreeSpec {
  import opened Wrappers

  /** The keys with their order.  The tree only ever compares keys; under any other `cmp` it does with keys what it does
      with their places among these (`AnyKeys.RunImage`, `KeyOrders.Embeds`). */
  type Key = real

  type Branching = m: nat | m > 2 && m % 2 == 0 witness 4

  /** Children per node are at most `M - 1`.  Nothing below depends on its value. */
  const M: Branching
  const MHALF: nat := M / 2

  /** The shape of a tree does not depend on what its keys are. */
  datatype KeyedTree<K, V> =
    | Leaf(keys: seq<K>, vals: seq<V>)
    | Inner(keys: seq<K>, kids: seq<KeyedTree<K, V>>)

  type Tree<V> = KeyedTree<Key, V>

  function InsertAt<T>(s: seq<T>, j: nat, x: T): (r: seq<T>)
    requires j <= |s|
    ensures |r| == |s| + 1 && r[j] == x
    ensures forall i :: 0 <= i < j ==> r[i] == s[i]
    ensures forall i :: j < i < |r| ==> r[i] == s[i - 1]
  {
    s[..j] + [x] + s[j..]
  }

  // ---------------------------------------------------------------------------
  // Shape: uniform depth and entry counts.

  /** A node of height `h` with at least `least` entries; below it every node is at least half full. */
  predicate Shaped<K, V>(t: KeyedTree<K, V>, h: nat, least: nat)
  {
    && least <= |t.keys| < M
    && (t.Leaf? ==> h == 0 && |t.vals| == |t.keys|)
    && (t.Inner? ==> h > 0 && |t.kids| == |t.keys| && forall j :: 0 <= j < |t.kids| ==> Shaped(t.kids[j], h - 1, MHALF))
  }

  /** A whole tree: an inner root has at least two children, a leaf root may be empty. */
  predicate RootShaped<K, V>(t: KeyedTree<K, V>, h: nat)
  {
    Shaped(t, h, if h == 0 then 0 else 2)
  }

  // ---------------------------------------------------------------------------
  // Contents in key order.

  ghost function Entries<K, V>(t: KeyedTree<K, V>): seq<(K, V)>
    decreases t, 0
  {
    match t
    case Leaf(keys, vals) => seq(if |vals| < |keys| then |vals| else |keys|, i requires 0 <= i < |keys| && i < |vals| => (keys[i], vals[i]))
    case Inner(_, kids) => Flat(kids)
  }

  ghost function Flat<K, V>(kids: seq<KeyedTree<K, V>>): seq<(K, V)>
    decreases kids, 1
  {
    if kids == [] then [] else Entries(kids[0]) + Flat(kids[1..])
  }

  // ---------------------------------------------------------------------------
  // Order: every key lies between the separators around its subtree.

  ghost predicate AtLeast(lo: Option<Key>, k: Key) { lo.Some? ==> lo.value <= k }

  ghost predicate Below(k: Key, hi: Option<Key>) { hi.Some? ==> k < hi.value }

  ghost function Low(keys: seq<Key>, lo: Option<Key>, j: nat): Option<Key>
    requires j < |keys|
  {
    if j == 0 then lo else Some(keys[j])
  }

  ghost function High(keys: seq<Key>, hi: Option<Key>, j: nat): Option<Key>
    requires j < |keys|
  {
    if j + 1 == |keys| then hi else Some(keys[j + 1])
  }

  /** `keys[0]` of an inner node separates nothing and is not constrained. */
  ghost predicate Ordered<V>(t: Tree<V>, lo: Option<Key>, hi: Option<Key>)
  {
    match t
    case Leaf(keys, _) =>
      && (forall i, j :: 0 <= i < j < |keys| ==> keys[i] < keys[j])
      && (forall i :: 0 <= i < |keys| ==> AtLeast(lo, keys[i]) && Below(keys[i], hi))
    case Inner(keys, kids) =>
      && |keys| == |kids| > 0
      && (forall i, j :: 0 < i < j < |keys| ==> keys[i] < keys[j])
      && (forall i :: 0 < i < |keys| ==> AtLeast(lo, keys[i]) && Below(keys[i], hi))
      && (forall j: nat :: j < |kids| ==> Ordered(kids[j], Low(keys, lo, j), High(keys, hi, j)))
  }

  // ---------------------------------------------------------------------------
  // Insertion.

  /** Where a leaf scan stops: the first entry that is not less than `key`. */
  function LeafPos(keys: seq<Key>, key: Key): (j: nat)
    ensures j <= |keys|
    ensures forall i :: 0 <= i < j ==> keys[i] < key
    ensures j < |keys| ==> key <= keys[j]
  {
    if keys == [] || key <= keys[0] then 0 else 1 + LeafPos(keys[1..], key)
  }

  /** Which child an inner node hands `key` to. */
  function Route(keys: seq<Key>, key: Key): (j: nat)
    requires keys != []
    ensures j < |keys|
    ensures forall i :: 0 < i <= j ==> keys[i] <= key
    ensures j + 1 < |keys| ==> key < keys[j + 1]
  {
    if |keys| == 1 || key < keys[1] then 0 else 1 + Route(keys[1..], key)
  }

  /** A node after insertion, and the new right sibling if it had to be split. */
  datatype KeyedGrown<K, V> = Grown(t: KeyedTree<K, V>, u: Option<KeyedTree<K, V>>)

  type Grown<V> = KeyedGrown<Key, V>

  /** A node that may have just reached `M` entries. */
  predicate Filled<K, V>(t: KeyedTree<K, V>, h: nat, least: nat)
  {
    && least <= |t.keys| <= M
    && (t.Leaf? ==> h == 0 && |t.vals| == |t.keys|)
    && (t.Inner? ==> h > 0 && |t.kids| == |t.keys| && forall j :: 0 <= j < |t.kids| ==> Shaped(t.kids[j], h - 1, MHALF))
  }

  function SplitFull<K, V>(t: KeyedTree<K, V>, h: nat, least: nat): (r: KeyedGrown<K, V>)
    requires Filled(t, h, least)
    ensures r.u.None? ==> Shaped(r.t, h, least)
    ensures r.u.Some? ==> Shaped(r.t, h, MHALF) && Shaped(r.u.value, h, MHALF)
  {
    if |t.keys| < M then Grown(t, None)
    else match t
      case Leaf(keys, vals) => Grown(Leaf(keys[..MHALF], vals[..MHALF]), Some(Leaf(keys[MHALF..], vals[MHALF..])))
      case Inner(keys, kids) => Grown(Inner(keys[..MHALF], kids[..MHALF]), Some(Inner(keys[MHALF..], kids[MHALF..])))
  }

  /** `u` becomes child `j + 1`, separated by its own first key. */
  function AttachKid<K, V>(t: KeyedTree<K, V>, h: nat, least: nat, j: nat, u: KeyedTree<K, V>): (r: KeyedTree<K, V>)
    requires t.Inner? && Shaped(t, h, least) && j < |t.kids| && Shaped(u, h - 1, MHALF)
    ensures Filled(r, h, least)
  {
    Inner(InsertAt(t.keys, j + 1, u.keys[0]), InsertAt(t.kids, j + 1, u))
  }

  function ReplaceKid<K, V>(t: KeyedTree<K, V>, h: nat, least: nat, j: nat, kid: KeyedTree<K, V>): (r: KeyedTree<K, V>)
    requires t.Inner? && Shaped(t, h, least) && j < |t.kids| && Shaped(kid, h - 1, MHALF)
    ensures r.Inner? && Shaped(r, h, least) && |r.kids| == |t.kids|
  {
    Inner(t.keys, t.kids[j := kid])
  }

  function LeafInsert<V>(t: Tree<V>, least: nat, key: Key, val: V): (r: Grown<V>)
    requires t.Leaf? && Shaped(t, 0, least)
    ensures r.u.None? ==> Shaped(r.t, 0, least)
    ensures r.u.Some? ==> Shaped(r.t, 0, MHALF) && Shaped(r.u.value, 0, MHALF)
  {
    var j := LeafPos(t.keys, key);
    if j < |t.keys| && t.keys[j] == key then Grown(Leaf(t.keys, t.vals[j := val]), None)
    else SplitFull(Leaf(InsertAt(t.keys, j, key), InsertAt(t.vals, j, val)), 0, least)
  }

  /** Hooks the outcome `r` of inserting into child `j` back into the node. */
  function AbsorbKid<K, V>(t: KeyedTree<K, V>, h: nat, least: nat, j: nat, r: KeyedGrown<K, V>): (g: KeyedGrown<K, V>)
    requires t.Inner? && Shaped(t, h, least) && j < |t.kids|
    requires Shaped(r.t, h - 1, MHALF) && (r.u.Some? ==> Shaped(r.u.value, h - 1, MHALF))
    ensures g.u.None? ==> Shaped(g.t, h, least)
    ensures g.u.Some? ==> Shaped(g.t, h, MHALF) && Shaped(g.u.value, h, MHALF)
  {
    var t' := ReplaceKid(t, h, least, j, r.t);
    if r.u.None? then Grown(t', None) else SplitFull(AttachKid(t', h, least, j, r.u.value), h, least)
  }

  function Insert<V>(t: Tree<V>, h: nat, least: nat, key: Key, val: V): (r: Grown<V>)
    requires Shaped(t, h, least) && (h > 0 ==> least > 0)
    ensures r.u.None? ==> Shaped(r.t, h, least)
    ensures r.u.Some? ==> Shaped(r.t, h, MHALF) && Shaped(r.u.value, h, MHALF)
    decreases h
  {
    if t.Leaf? then LeafInsert(t, least, key, val)
    else
      var j := Route(t.keys, key);
      AbsorbKid(t, h, least, j, Insert(t.kids[j], h - 1, MHALF, key, val))
  }

  // ---------------------------------------------------------------------------
  // Insertion changes the sorted entry list by exactly one overwrite or insertion.

  ghost function Put<V>(es: seq<(Key, V)>, key: Key, val: V): seq<(Key, V)>
  {
    if es == [] then [(key, val)]
    else if es[0].0 == key then [(key, val)] + es[1..]
    else if key < es[0].0 then [(key, val)] + es
    else [es[0]] + Put(es[1..], key, val)
  }

  ghost predicate AllBelow<V>(es: seq<(Key, V)>, key: Key) { forall i :: 0 <= i < |es| ==> es[i].0 < key }

  ghost predicate AllAbove<V>(es: seq<(Key, V)>, key: Key) { forall i :: 0 <= i < |es| ==> key < es[i].0 }

  ghost predicate Sorted<V>(es: seq<(Key, V)>)
  {
    forall i, j :: 0 <= i < j < |es| ==> es[i].0 < es[j].0
  }

  lemma {:induction false} PutAfter<V>(a: seq<(Key, V)>, b: seq<(Key, V)>, key: Key, val: V)
    requires AllBelow(a, key)
    ensures Put(a + b, key, val) == a + Put(b, key, val)
  {
    if a == [] {
      assert a + b == b;
    } else {
      assert (a + b)[1..] == a[1..] + b;
      PutAfter(a[1..], b, key, val);
      assert [a[0]] + (a[1..] + Put(b, key, val)) == a + Put(b, key, val);
    }
  }

  lemma {:induction false} PutBefore<V>(b: seq<(Key, V)>, c: seq<(Key, V)>, key: Key, val: V)
    requires AllAbove(c, key)
    ensures Put(b + c, key, val) == Put(b, key, val) + c
  {
    if b == [] {
      assert b + c == c;
    } else {
      assert (b + c)[1..] == b[1..] + c;
      PutBefore(b[1..], c, key, val);
    }
  }

  lemma PutMiddle<V>(a: seq<(Key, V)>, b: seq<(Key, V)>, c: seq<(Key, V)>, key: Key, val: V)
    requires AllBelow(a, key) && AllAbove(c, key)
    ensures Put(a + b + c, key, val) == a + Put(b, key, val) + c
  {
    PutBefore(a + b, c, key, val);
    PutAfter(a, b, key, val);
  }

  lemma {:induction false} FlatConcat<V>(a: seq<Tree<V>>, b: seq<Tree<V>>)
    ensures Flat(a + b) == Flat(a) + Flat(b)
  {
    if a == [] {
      assert a + b == b;
    } else {
      assert (a + b)[1..] == a[1..] + b;
      FlatConcat(a[1..], b);
    }
  }

  lemma FlatThree<V>(a: seq<Tree<V>>, x: Tree<V>, c: seq<Tree<V>>)
    ensures Flat(a + [x] + c) == Flat(a) + Entries(x) + Flat(c)
  {
    FlatConcat(a + [x], c);
    FlatConcat(a, [x]);
    assert [x][1..] == [];
    assert Flat([x]) == Entries(x);
  }

  lemma Around<T>(s: seq<T>, j: nat)
    requires j < |s|
    ensures s == s[..j] + [s[j]] + s[j + 1..]
  {
  }

  lemma FlatAround<V>(kids: seq<Tree<V>>, j: nat)
    requires j < |kids|
    ensures Flat(kids) == Flat(kids[..j]) + Entries(kids[j]) + Flat(kids[j + 1..])
  {
    var a, x, c := kids[..j], kids[j], kids[j + 1..];
    Around(kids, j);
    assert Flat(a + [x] + c) == Flat(a) + Entries(x) + Flat(c) by { FlatThree(a, x, c); }
  }

  ghost predicate EntriesWithin<V>(es: seq<(Key, V)>, lo: Option<Key>, hi: Option<Key>)
  {
    forall i :: 0 <= i < |es| ==> AtLeast(lo, es[i].0) && Below(es[i].0, hi)
  }

  /** The entries of an ordered tree are strictly sorted and respect its bounds. */
  lemma {:induction false} OrderedEntries<V>(t: Tree<V>, lo: Option<Key>, hi: Option<Key>)
    requires Ordered(t, lo, hi)
    ensures EntriesWithin(Entries(t), lo, hi) && Sorted(Entries(t))
    decreases t, 0
  {
    if t.Inner? {
      OrderedKids(t, lo, hi, |t.kids|);
      assert t.kids[..|t.kids|] == t.kids;
    }
  }

  /** The upper bound of the first `n` children. */
  ghost function HighOf(keys: seq<Key>, hi: Option<Key>, n: nat): Option<Key>
    requires 0 < n <= |keys|
  {
    if n == |keys| then hi else Some(keys[n])
  }

  ghost predicate NotAbove(lo: Option<Key>, hi: Option<Key>)
  {
    lo.Some? && hi.Some? ==> lo.value <= hi.value
  }

  lemma KidAppends<V>(a: seq<(Key, V)>, e: seq<(Key, V)>, lo: Option<Key>, mid: Option<Key>, hi: Option<Key>)
    requires Sorted(a) && Sorted(e) && EntriesWithin(e, mid, hi)
    requires NotAbove(lo, mid) && (lo.Some? ==> mid.Some?)
    requires a != [] ==> mid.Some? && EntriesWithin(a, lo, mid) && NotAbove(mid, hi)
    ensures Sorted(a + e) && EntriesWithin(a + e, lo, hi)
  {
  }

  lemma BoundsAround<V>(t: Tree<V>, lo: Option<Key>, hi: Option<Key>, n: nat)
    requires t.Inner? && Ordered(t, lo, hi) && 0 < n <= |t.kids|
    ensures NotAbove(lo, Low(t.keys, lo, n - 1)) && (lo.Some? ==> Low(t.keys, lo, n - 1).Some?)
    ensures n > 1 ==> NotAbove(Low(t.keys, lo, n - 1), HighOf(t.keys, hi, n))
  {
  }

  /** The first `n` children taken together. */
  lemma {:induction false} OrderedKids<V>(t: Tree<V>, lo: Option<Key>, hi: Option<Key>, n: nat)
    requires t.Inner? && Ordered(t, lo, hi) && n <= |t.kids|
    ensures Sorted(Flat(t.kids[..n]))
    ensures n > 0 ==> EntriesWithin(Flat(t.kids[..n]), lo, HighOf(t.keys, hi, n))
    decreases t, 0, n
  {
    if n > 0 {
      OrderedKids(t, lo, hi, n - 1);
      OrderedEntries(t.kids[n - 1], Low(t.keys, lo, n - 1), High(t.keys, hi, n - 1));
      FlatLast(t.kids, n);
      BoundsAround(t, lo, hi, n);
      assert n == 1 ==> t.kids[..n - 1] == [];
      KidAppends(Flat(t.kids[..n - 1]), Entries(t.kids[n - 1]), lo, Low(t.keys, lo, n - 1), HighOf(t.keys, hi, n));
    }
  }

  lemma FlatLast<V>(kids: seq<Tree<V>>, n: nat)
    requires 0 < n <= |kids|
    ensures Flat(kids[..n]) == Flat(kids[..n - 1]) + Entries(kids[n - 1])
  {
    FlatAround(kids[..n], n - 1);
    assert kids[..n][..n - 1] == kids[..n - 1];
    assert kids[..n][n..] == [];
  }

  // ---------------------------------------------------------------------------
  // How many entries a tree of a given height has at least.

  function Power(b: nat, e: nat): nat
  {
    if e == 0 then 1 else b * Power(b, e - 1)
  }

  lemma {:induction false} FlatSize<V>(kids: seq<Tree<V>>, h: nat, each: nat)
    requires forall j :: 0 <= j < |kids| ==> Shaped(kids[j], h, MHALF)
    requires each == MHALF * Power(MHALF, h)
    ensures |Flat(kids)| >= |kids| * each
    decreases h, |kids| + 1
  {
    if kids != [] {
      EntriesSize(kids[0], h, MHALF);
      FlatSize(kids[1..], h, each);
      assert |kids| * each == each + (|kids| - 1) * each;
    }
  }

  /** Half-full nodes make the tree exponentially large in its height. */
  lemma {:induction false} EntriesSize<V>(t: Tree<V>, h: nat, least: nat)
    requires Shaped(t, h, least)
    ensures |Entries(t)| >= least * Power(MHALF, h)
    decreases h, 0
  {
    if h > 0 {
      var each := Power(MHALF, h);
      FlatSize(t.kids, h - 1, each);
      ProductMonotone(least, |t.kids|, each);
    }
  }

  lemma ProductMonotone(a: nat, b: nat, c: nat)
    requires a <= b
    ensures a * c <= b * c
  {
  }

  lemma {:induction false} SomeEntry<V>(t: Tree<V>, h: nat, least: nat)
    requires Shaped(t, h, least) && least > 0
    ensures Entries(t) != []
    decreases h
  {
    if h > 0 { SomeEntry(t.kids[0], h - 1, MHALF); }
  }

  // ---------------------------------------------------------------------------
  // Splitting.

  ghost function Joined<V>(g: Grown<V>): seq<(Key, V)>
  {
    Entries(g.t) + if g.u.Some? then Entries(g.u.value) else []
  }

  /** Both halves are ordered around the new sibling's first key. */
  ghost predicate GrownOrdered<V>(g: Grown<V>, lo: Option<Key>, hi: Option<Key>)
  {
    if g.u.None? then Ordered(g.t, lo, hi)
    else
      && g.u.value.keys != []
      && var sep := g.u.value.keys[0];
      AtLeast(lo, sep) && Below(sep, hi) && Ordered(g.t, lo, Some(sep)) && Ordered(g.u.value, Some(sep), hi)
  }

  lemma SplitLeaf<V>(t: Tree<V>, least: nat, lo: Option<Key>, hi: Option<Key>)
    requires t.Leaf? && Filled(t, 0, least) && Ordered(t, lo, hi)
    ensures Joined(SplitFull(t, 0, least)) == Entries(t)
    ensures GrownOrdered(SplitFull(t, 0, least), lo, hi)
  {
  }

  lemma LeftHalfOrdered<V>(t: Tree<V>, n: nat, lo: Option<Key>, hi: Option<Key>)
    requires t.Inner? && Ordered(t, lo, hi) && 0 < n < |t.keys|
    ensures Ordered(Inner(t.keys[..n], t.kids[..n]), lo, Some(t.keys[n]))
  {
    var left := Inner(t.keys[..n], t.kids[..n]);
    forall j: nat | j < n
      ensures Ordered(left.kids[j], Low(left.keys, lo, j), High(left.keys, Some(t.keys[n]), j))
    {
      assert Ordered(t.kids[j], Low(t.keys, lo, j), High(t.keys, hi, j));
    }
  }

  lemma RightHalfOrdered<V>(t: Tree<V>, n: nat, lo: Option<Key>, hi: Option<Key>)
    requires t.Inner? && Ordered(t, lo, hi) && 0 < n < |t.keys|
    ensures Ordered(Inner(t.keys[n..], t.kids[n..]), Some(t.keys[n]), hi)
  {
  }

  lemma SplitInner<V>(t: Tree<V>, h: nat, least: nat, lo: Option<Key>, hi: Option<Key>)
    requires t.Inner? && Filled(t, h, least) && Ordered(t, lo, hi)
    ensures Joined(SplitFull(t, h, least)) == Entries(t)
    ensures GrownOrdered(SplitFull(t, h, least), lo, hi)
  {
    if |t.keys| == M {
      LeftHalfOrdered(t, MHALF, lo, hi);
      RightHalfOrdered(t, MHALF, lo, hi);
      FlatHalves(t.kids, MHALF);
    }
  }

  lemma FlatHalves<V>(kids: seq<Tree<V>>, n: nat)
    requires n <= |kids|
    ensures Flat(kids[..n]) + Flat(kids[n..]) == Flat(kids)
  {
    FlatConcat(kids[..n], kids[n..]);
    assert kids == kids[..n] + kids[n..];
  }

  // ---------------------------------------------------------------------------
  // One insertion.

  lemma LeafPut<V>(t: Tree<V>, key: Key, val: V)
    requires t.Leaf? && |t.keys| == |t.vals|
    ensures var j := LeafPos(t.keys, key);
      Put(Entries(t), key, val) ==
        if j < |t.keys| && t.keys[j] == key then Entries(Leaf(t.keys, t.vals[j := val]))
        else Entries(Leaf(InsertAt(t.keys, j, key), InsertAt(t.vals, j, val)))
  {
    var es, j := Entries(t), LeafPos(t.keys, key);
    assert es == es[..j] + es[j..];
    PutAfter(es[..j], es[j..], key, val);
    if j < |t.keys| && t.keys[j] == key {
      assert Put(es[j..], key, val) == [(key, val)] + es[j + 1..];
      LeafOverwritten(t, j, key, val);
    } else {
      assert Put(es[j..], key, val) == [(key, val)] + es[j..];
      LeafInserted(t, j, key, val);
    }
  }

  lemma LeafOverwritten<V>(t: Tree<V>, j: nat, key: Key, val: V)
    requires t.Leaf? && |t.keys| == |t.vals| && j < |t.keys| && t.keys[j] == key
    ensures Entries(Leaf(t.keys, t.vals[j := val])) == Entries(t)[..j] + ([(key, val)] + Entries(t)[j + 1..])
  {
  }

  lemma LeafInserted<V>(t: Tree<V>, j: nat, key: Key, val: V)
    requires t.Leaf? && |t.keys| == |t.vals| && j <= |t.keys|
    ensures Entries(Leaf(InsertAt(t.keys, j, key), InsertAt(t.vals, j, val))) == Entries(t)[..j] + ([(key, val)] + Entries(t)[j..])
  {
    var es := Entries(t);
    var keys', vals' := InsertAt(t.keys, j, key), InsertAt(t.vals, j, val);
    var es', r := Entries(Leaf(keys', vals')), es[..j] + ([(key, val)] + es[j..]);
    forall i | 0 <= i < |es'|
      ensures es'[i] == r[i]
    {
      if i > j {
        assert r[i] == es[i - 1] && keys'[i] == t.keys[i - 1] && vals'[i] == t.vals[i - 1];
      }
    }
  }

  /** A new key put in its place keeps a key list ascending. */
  lemma InsertAtAscends(keys: seq<Key>, j: nat, key: Key)
    requires j <= |keys| && (forall a, b :: 0 <= a < b < |keys| ==> keys[a] < keys[b])
    requires (forall i :: 0 <= i < j ==> keys[i] < key) && (j < |keys| ==> key < keys[j])
    ensures forall a, b :: 0 <= a < b < |InsertAt(keys, j, key)| ==> InsertAt(keys, j, key)[a] < InsertAt(keys, j, key)[b]
  {
  }

  lemma InsertAtWithin(keys: seq<Key>, j: nat, key: Key, lo: Option<Key>, hi: Option<Key>)
    requires j <= |keys| && AtLeast(lo, key) && Below(key, hi)
    requires forall i :: 0 <= i < |keys| ==> AtLeast(lo, keys[i]) && Below(keys[i], hi)
    ensures forall i :: 0 <= i <= |keys| ==> AtLeast(lo, InsertAt(keys, j, key)[i]) && Below(InsertAt(keys, j, key)[i], hi)
  {
  }

  lemma LeafStaysOrdered<V>(t: Tree<V>, lo: Option<Key>, hi: Option<Key>, key: Key, val: V)
    requires t.Leaf? && |t.keys| == |t.vals| && Ordered(t, lo, hi) && AtLeast(lo, key) && Below(key, hi)
    ensures var j := LeafPos(t.keys, key);
      if j < |t.keys| && t.keys[j] == key then Ordered(Leaf(t.keys, t.vals[j := val]), lo, hi)
      else Ordered(Leaf(InsertAt(t.keys, j, key), InsertAt(t.vals, j, val)), lo, hi)
  {
    var j := LeafPos(t.keys, key);
    if !(j < |t.keys| && t.keys[j] == key) {
      InsertAtAscends(t.keys, j, key);
      InsertAtWithin(t.keys, j, key, lo, hi);
    }
  }

  lemma LeafInsertCorrect<V>(t: Tree<V>, least: nat, lo: Option<Key>, hi: Option<Key>, key: Key, val: V)
    requires t.Leaf? && Shaped(t, 0, least) && Ordered(t, lo, hi) && AtLeast(lo, key) && Below(key, hi)
    ensures Joined(LeafInsert(t, least, key, val)) == Put(Entries(t), key, val)
    ensures GrownOrdered(LeafInsert(t, least, key, val), lo, hi)
  {
    var j := LeafPos(t.keys, key);
    LeafPut(t, key, val);
    LeafStaysOrdered(t, lo, hi, key, val);
    if !(j < |t.keys| && t.keys[j] == key) {
      SplitLeaf(Leaf(InsertAt(t.keys, j, key), InsertAt(t.vals, j, val)), least, lo, hi);
    }
  }

  lemma ReplaceKidCorrect<V>(t: Tree<V>, h: nat, least: nat, j: nat, kid: Tree<V>, lo: Option<Key>, hi: Option<Key>)
    requires t.Inner? && Shaped(t, h, least) && j < |t.kids| && Shaped(kid, h - 1, MHALF)
    requires Ordered(t, lo, hi) && Ordered(kid, Low(t.keys, lo, j), High(t.keys, hi, j))
    ensures Entries(ReplaceKid(t, h, least, j, kid)) == Flat(t.kids[..j]) + Entries(kid) + Flat(t.kids[j + 1..])
    ensures Ordered(ReplaceKid(t, h, least, j, kid), lo, hi)
  {
    var kids' := t.kids[j := kid];
    FlatAround(kids', j);
    assert kids'[..j] == t.kids[..j] && kids'[j + 1..] == t.kids[j + 1..];
    forall i: nat | i < |kids'|
      ensures Ordered(kids'[i], Low(t.keys, lo, i), High(t.keys, hi, i))
    {
    }
  }

  lemma AttachKidEntries<V>(t: Tree<V>, h: nat, least: nat, j: nat, kid: Tree<V>, u: Tree<V>)
    requires t.Inner? && Shaped(t, h, least) && j < |t.kids| && Shaped(kid, h - 1, MHALF) && Shaped(u, h - 1, MHALF)
    ensures Entries(AttachKid(ReplaceKid(t, h, least, j, kid), h, least, j, u)) ==
      Flat(t.kids[..j]) + (Entries(kid) + Entries(u)) + Flat(t.kids[j + 1..])
  {
    var a, c := t.kids[..j], t.kids[j + 1..];
    AttachedKids(t.kids, j, kid, u);
    FlatThree(a + [kid], u, c);
    FlatThree(a, kid, []);
    assert a + [kid] + [] == a + [kid];
    assert Flat<Key, V>([]) == [];
    Reassociated(Flat(a), Entries(kid), Entries(u), Flat(c));
  }

  lemma AttachedKids<V>(kids: seq<Tree<V>>, j: nat, kid: Tree<V>, u: Tree<V>)
    requires j < |kids|
    ensures InsertAt(kids[j := kid], j + 1, u) == (kids[..j] + [kid]) + [u] + kids[j + 1..]
  {
  }

  lemma Reassociated<T>(a: seq<T>, b: seq<T>, c: seq<T>, d: seq<T>)
    ensures (a + b + []) + c + d == a + (b + c) + d
  {
  }

  lemma BoundsApart<V>(kid: Tree<V>, h: nat, lo: Option<Key>, sep: Key)
    requires Shaped(kid, h, MHALF) && Ordered(kid, lo, Some(sep))
    ensures lo.Some? ==> lo.value < sep
  {
    SomeEntry(kid, h, MHALF);
    OrderedEntries(kid, lo, Some(sep));
    assert AtLeast(lo, Entries(kid)[0].0) && Below(Entries(kid)[0].0, Some(sep));
  }

  lemma KidAfterAttach<V>(t: Tree<V>, j: nat, kid: Tree<V>, u: Tree<V>, lo: Option<Key>, hi: Option<Key>, i: nat)
    requires t.Inner? && Ordered(t, lo, hi) && j < |t.kids| && i <= |t.kids| && u.keys != []
    requires GrownOrdered(Grown(kid, Some(u)), Low(t.keys, lo, j), High(t.keys, hi, j))
    ensures var keys' := InsertAt(t.keys, j + 1, u.keys[0]);
      Ordered(InsertAt(t.kids[j := kid], j + 1, u)[i], Low(keys', lo, i), High(keys', hi, i))
  {
    var keys' := InsertAt(t.keys, j + 1, u.keys[0]);
    if i < j {
      assert Ordered(t.kids[i], Low(t.keys, lo, i), High(t.keys, hi, i));
      assert Low(keys', lo, i) == Low(t.keys, lo, i) && High(keys', hi, i) == High(t.keys, hi, i);
    } else if i == j {
      assert Low(keys', lo, i) == Low(t.keys, lo, i) && High(keys', hi, i) == Some(u.keys[0]);
    } else if i == j + 1 {
      assert Low(keys', lo, i) == Some(u.keys[0]) && High(keys', hi, i) == High(t.keys, hi, j);
    } else {
      assert Ordered(t.kids[i - 1], Low(t.keys, lo, i - 1), High(t.keys, hi, i - 1));
      assert Low(keys', lo, i) == Low(t.keys, lo, i - 1) && High(keys', hi, i) == High(t.keys, hi, i - 1);
    }
  }

  /** Separators and children of a node whose child `j` was split at `u.keys[0]`. */
  lemma AttachKidOrdered<V>(t: Tree<V>, h: nat, least: nat, j: nat, kid: Tree<V>, u: Tree<V>, lo: Option<Key>, hi: Option<Key>)
    requires t.Inner? && Shaped(t, h, least) && j < |t.kids| && Shaped(kid, h - 1, MHALF) && Shaped(u, h - 1, MHALF)
    requires Ordered(t, lo, hi) && GrownOrdered(Grown(kid, Some(u)), Low(t.keys, lo, j), High(t.keys, hi, j))
    ensures Ordered(AttachKid(ReplaceKid(t, h, least, j, kid), h, least, j, u), lo, hi)
  {
    var keys', kids' := InsertAt(t.keys, j + 1, u.keys[0]), InsertAt(t.kids[j := kid], j + 1, u);
    BoundsApart(kid, h - 1, Low(t.keys, lo, j), u.keys[0]);
    SeparatorsAfterAttach(t, lo, hi, j, u.keys[0]);
    forall i: nat | i < |kids'|
      ensures Ordered(kids'[i], Low(keys', lo, i), High(keys', hi, i))
    {
      KidAfterAttach(t, j, kid, u, lo, hi, i);
    }
  }

  lemma SeparatorsAfterAttach<V>(t: Tree<V>, lo: Option<Key>, hi: Option<Key>, j: nat, sep: Key)
    requires t.Inner? && Ordered(t, lo, hi) && j < |t.keys|
    requires AtLeast(Low(t.keys, lo, j), sep) && Below(sep, High(t.keys, hi, j))
    requires j > 0 ==> t.keys[j] < sep
    ensures var keys' := InsertAt(t.keys, j + 1, sep);
      && (forall a, b :: 0 < a < b < |keys'| ==> keys'[a] < keys'[b])
      && (forall i :: 0 < i < |keys'| ==> AtLeast(lo, keys'[i]) && Below(keys'[i], hi))
  {
  }

  /** The entries below the children with `es` for those of child `j`. */
  ghost function Spliced<V>(kids: seq<Tree<V>>, j: nat, es: seq<(Key, V)>): seq<(Key, V)>
    requires j < |kids|
  {
    Flat(kids[..j]) + es + Flat(kids[j + 1..])
  }

  lemma AbsorbKidCorrect<V>(t: Tree<V>, h: nat, least: nat, j: nat, r: Grown<V>, lo: Option<Key>, hi: Option<Key>)
    requires t.Inner? && Shaped(t, h, least) && j < |t.kids|
    requires Shaped(r.t, h - 1, MHALF) && (r.u.Some? ==> Shaped(r.u.value, h - 1, MHALF))
    requires Ordered(t, lo, hi) && GrownOrdered(r, Low(t.keys, lo, j), High(t.keys, hi, j))
    ensures Joined(AbsorbKid(t, h, least, j, r)) == Spliced(t.kids, j, Joined(r))
    ensures GrownOrdered(AbsorbKid(t, h, least, j, r), lo, hi)
  {
    if r.u.None? {
      ReplaceKidCorrect(t, h, least, j, r.t, lo, hi);
      assert Joined(r) == Entries(r.t);
    } else {
      AttachKidEntries(t, h, least, j, r.t, r.u.value);
      AttachKidOrdered(t, h, least, j, r.t, r.u.value, lo, hi);
      SplitInner(AttachKid(ReplaceKid(t, h, least, j, r.t), h, least, j, r.u.value), h, least, lo, hi);
    }
  }

  lemma InnerPut<V>(t: Tree<V>, lo: Option<Key>, hi: Option<Key>, key: Key, val: V)
    requires t.Inner? && Ordered(t, lo, hi)
    ensures var j := Route(t.keys, key);
      Put(Entries(t), key, val) == Spliced(t.kids, j, Put(Entries(t.kids[j]), key, val))
  {
    var j := Route(t.keys, key);
    FlatAround(t.kids, j);
    RoutedBetween(t, lo, hi, key);
    PutMiddle(Flat(t.kids[..j]), Entries(t.kids[j]), Flat(t.kids[j + 1..]), key, val);
  }

  lemma InnerInsertCorrect<V>(t: Tree<V>, h: nat, least: nat, r: Grown<V>, lo: Option<Key>, hi: Option<Key>, key: Key, val: V)
    requires t.Inner? && Shaped(t, h, least) && t.keys != []
    requires Shaped(r.t, h - 1, MHALF) && (r.u.Some? ==> Shaped(r.u.value, h - 1, MHALF))
    requires Ordered(t, lo, hi)
    requires var j := Route(t.keys, key);
      Joined(r) == Put(Entries(t.kids[j]), key, val) && GrownOrdered(r, Low(t.keys, lo, j), High(t.keys, hi, j))
    ensures var g := AbsorbKid(t, h, least, Route(t.keys, key), r);
      Joined(g) == Put(Entries(t), key, val) && GrownOrdered(g, lo, hi)
  {
    InnerPut(t, lo, hi, key, val);
    AbsorbKidCorrect(t, h, least, Route(t.keys, key), r, lo, hi);
  }

  /** Inserting anywhere below a node overwrites or inserts exactly one entry of its sorted contents,
      and the node, or the two nodes it was split into, stay ordered. */
  lemma {:induction false} InsertCorrect<V>(t: Tree<V>, h: nat, least: nat, lo: Option<Key>, hi: Option<Key>, key: Key, val: V)
    requires Shaped(t, h, least) && (h > 0 ==> least > 0)
    requires Ordered(t, lo, hi) && AtLeast(lo, key) && Below(key, hi)
    ensures Joined(Insert(t, h, least, key, val)) == Put(Entries(t), key, val)
    ensures GrownOrdered(Insert(t, h, least, key, val), lo, hi)
    decreases h, 1
  {
    if t.Leaf? {
      LeafInsertCorrect(t, least, lo, hi, key, val);
    } else {
      var r := KidInsertCorrect(t, h, least, lo, hi, key, val);
      InnerInsertCorrect(t, h, least, r, lo, hi, key, val);
    }
  }

  lemma {:induction false} KidInsertCorrect<V>(t: Tree<V>, h: nat, least: nat, lo: Option<Key>, hi: Option<Key>, key: Key, val: V)
    returns (r: Grown<V>)
    requires t.Inner? && Shaped(t, h, least) && least > 0
    requires Ordered(t, lo, hi) && AtLeast(lo, key) && Below(key, hi)
    ensures var j := Route(t.keys, key);
      r == Insert(t.kids[j], h - 1, MHALF, key, val) && Joined(r) == Put(Entries(t.kids[j]), key, val) &&
      GrownOrdered(r, Low(t.keys, lo, j), High(t.keys, hi, j))
    decreases h, 0
  {
    var j := Route(t.keys, key);
    RouteWithin(t, lo, hi, key);
    InsertCorrect(t.kids[j], h - 1, MHALF, Low(t.keys, lo, j), High(t.keys, hi, j), key, val);
    r := Insert(t.kids[j], h - 1, MHALF, key, val);
  }

  lemma RouteWithin<V>(t: Tree<V>, lo: Option<Key>, hi: Option<Key>, key: Key)
    requires t.Inner? && Ordered(t, lo, hi) && AtLeast(lo, key) && Below(key, hi)
    ensures var j := Route(t.keys, key);
      Ordered(t.kids[j], Low(t.keys, lo, j), High(t.keys, hi, j)) && AtLeast(Low(t.keys, lo, j), key) && Below(key, High(t.keys, hi, j))
  {
  }

  /** Everything left of the chosen child is smaller than `key`, everything right of it is larger. */
  lemma RoutedBetween<V>(t: Tree<V>, lo: Option<Key>, hi: Option<Key>, key: Key)
    requires t.Inner? && Ordered(t, lo, hi)
    ensures AllBelow(Flat(t.kids[..Route(t.keys, key)]), key)
    ensures AllAbove(Flat(t.kids[Route(t.keys, key) + 1..]), key)
  {
    var j := Route(t.keys, key);
    OrderedKids(t, lo, hi, j);
    KidsFrom(t, lo, hi, j + 1);
  }

  lemma {:induction false} KidsFrom<V>(t: Tree<V>, lo: Option<Key>, hi: Option<Key>, n: nat)
    requires t.Inner? && Ordered(t, lo, hi) && 0 < n <= |t.kids|
    ensures forall i :: 0 <= i < |Flat(t.kids[n..])| ==> n < |t.keys| && t.keys[n] <= Flat(t.kids[n..])[i].0
    decreases |t.kids| - n
  {
    if n < |t.kids| {
      var es, rest := Entries(t.kids[n]), Flat(t.kids[n + 1..]);
      OrderedEntries(t.kids[n], Low(t.keys, lo, n), High(t.keys, hi, n));
      KidsFrom(t, lo, hi, n + 1);
      FlatFirst(t.kids, n);
      forall i | 0 <= i < |Flat(t.kids[n..])|
        ensures t.keys[n] <= Flat(t.kids[n..])[i].0
      {
        if i < |es| {
          assert AtLeast(Low(t.keys, lo, n), es[i].0);
        } else {
          assert t.keys[n + 1] <= rest[i - |es|].0;
        }
      }
    } else {
      assert t.kids[n..] == [];
      assert Flat(t.kids[n..]) == [];
    }
  }

  lemma FlatFirst<V>(kids: seq<Tree<V>>, n: nat)
    requires n < |kids|
    ensures Flat(kids[n..]) == Entries(kids[n]) + Flat(kids[n + 1..])
  {
    assert kids[n..][1..] == kids[n + 1..];
  }

  // ---------------------------------------------------------------------------
  // The whole tree.

  /** `add`: the root is replaced when it was split. */
  function AddToRoot<V>(t: Tree<V>, h: nat, key: Key, val: V): (r: (Tree<V>, nat))
    requires RootShaped(t, h)
    ensures RootShaped(r.0, r.1)
  {
    var g := Insert(t, h, if h == 0 then 0 else 2, key, val);
    if g.u.None? then (g.t, h) else (Inner([g.t.keys[0], g.u.value.keys[0]], [g.t, g.u.value]), h + 1)
  }

  /** A root that is split gets a new one over it, with the first keys of the two halves. */
  lemma RootGrows<V>(t: Tree<V>, h: nat, key: Key, val: V)
    requires RootShaped(t, h)
    ensures var r := AddToRoot(t, h, key, val);
      r.1 == h || (
        && r.1 == h + 1 && r.0.Inner? && |r.0.kids| == 2 && r.0.kids[0].keys != [] && r.0.kids[1].keys != []
        && r.0.keys == [r.0.kids[0].keys[0], r.0.kids[1].keys[0]])
  {
  }

  lemma NewRoot<V>(t: Tree<V>, u: Tree<V>, k0: Key, sep: Key)
    requires Ordered(t, None, Some(sep)) && Ordered(u, Some(sep), None)
    ensures Ordered(Inner([k0, sep], [t, u]), None, None)
    ensures Entries(Inner([k0, sep], [t, u])) == Entries(t) + Entries(u)
  {
    var keys := [k0, sep];
    assert Low(keys, None, 0) == None && High(keys, None, 0) == Some(sep);
    assert Low(keys, None, 1) == Some(sep) && High(keys, None, 1) == None;
    assert [t, u][1..] == [u] && [u][1..] == [];
    assert Flat([u]) == Entries(u);
  }

  lemma AddToRootCorrect<V>(t: Tree<V>, h: nat, key: Key, val: V)
    requires RootShaped(t, h) && Ordered(t, None, None)
    ensures Ordered(AddToRoot(t, h, key, val).0, None, None)
    ensures Entries(AddToRoot(t, h, key, val).0) == Put(Entries(t), key, val)
  {
    var least := if h == 0 then 0 else 2;
    InsertCorrect(t, h, least, None, None, key, val);
    var g := Insert(t, h, least, key, val);
    if g.u.Some? {
      NewRoot(g.t, g.u.value, g.t.keys[0], g.u.value.keys[0]);
    }
  }

  // ---------------------------------------------------------------------------
  // Entry lists as maps.

  ghost function ToMap<V>(es: seq<(Key, V)>): map<Key, V>
  {
    if es == [] then map[] else ToMap(es[1..])[es[0].0 := es[0].1]
  }

  lemma {:induction false} MapKeys<V>(es: seq<(Key, V)>, key: Key)
    ensures key in ToMap(es) <==> exists i :: 0 <= i < |es| && es[i].0 == key
  {
    if es != [] {
      MapKeys(es[1..], key);
      if i :| 0 <= i < |es| && es[i].0 == key {
        if i > 0 { assert es[1..][i - 1].0 == key; }
      }
    }
  }

  lemma {:induction false} MapAt<V>(es: seq<(Key, V)>, i: nat)
    requires Sorted(es) && i < |es|
    ensures es[i].0 in ToMap(es) && ToMap(es)[es[i].0] == es[i].1
  {
    if i > 0 {
      MapAt(es[1..], i - 1);
      assert es[0].0 < es[i].0;
    }
  }

  lemma {:induction false} MapSize<V>(es: seq<(Key, V)>)
    requires Sorted(es)
    ensures |ToMap(es)| == |es|
  {
    if es != [] {
      MapSize(es[1..]);
      MapKeys(es[1..], es[0].0);
    }
  }

  lemma {:induction false} PutSorted<V>(es: seq<(Key, V)>, key: Key, val: V, low: Option<Key>)
    requires Sorted(es) && (low.Some? ==> low.value < key && AllAbove(es, low.value))
    ensures Sorted(Put(es, key, val))
    ensures low.Some? ==> AllAbove(Put(es, key, val), low.value)
  {
    if es != [] && es[0].0 < key {
      assert AllAbove(es[1..], es[0].0);
      PutSorted(es[1..], key, val, Some(es[0].0));
    }
  }

  lemma {:induction false} MapOfPut<V>(es: seq<(Key, V)>, key: Key, val: V)
    requires Sorted(es)
    ensures ToMap(Put(es, key, val)) == ToMap(es)[key := val]
  {
    if es == [] || key < es[0].0 {
      assert ([(key, val)] + es)[1..] == es;
    } else if es[0].0 == key {
      assert ([(key, val)] + es[1..])[1..] == es[1..];
    } else {
      MapOfPut(es[1..], key, val);
      assert ([es[0]] + Put(es[1..], key, val))[1..] == Put(es[1..], key, val);
    }
  }

  // ---------------------------------------------------------------------------
  // Runs of additions.

  datatype State<V> = State(t: Tree<V>, h: nat, count: nat)

  ghost predicate Good<V>(s: State<V>)
  {
    RootShaped(s.t, s.h) && Ordered(s.t, None, None)
  }

  ghost function Step<V>(s: State<V>, a: (Key, V)): (s': State<V>)
    requires Good(s)
    ensures Good(s') && s'.count == s.count + 1
  {
    var r := AddToRoot(s.t, s.h, a.0, a.1);
    AddToRootCorrect(s.t, s.h, a.0, a.1);
    State(r.0, r.1, s.count + 1)
  }

  ghost function Run<V>(adds: seq<(Key, V)>): (s: State<V>)
    ensures Good(s) && s.count == |adds|
  {
    if adds == [] then State(Leaf([], []), 0, 0) else Step(Run(adds[..|adds| - 1]), adds[|adds| - 1])
  }

  ghost function KeysOf<V>(adds: seq<(Key, V)>): set<Key>
  {
    set i | 0 <= i < |adds| :: adds[i].0
  }

  /** The map a run of additions describes: the last value of every key. */
  ghost function LastValues<V>(adds: seq<(Key, V)>): map<Key, V>
  {
    if adds == [] then map[] else LastValues(adds[..|adds| - 1])[adds[|adds| - 1].0 := adds[|adds| - 1].1]
  }

  /** Adding to a whole tree changes the map it stands for at exactly one key. */
  lemma AddToRootMap<V>(t: Tree<V>, h: nat, key: Key, val: V)
    requires RootShaped(t, h) && Ordered(t, None, None)
    ensures Ordered(AddToRoot(t, h, key, val).0, None, None)
    ensures Entries(AddToRoot(t, h, key, val).0) == Put(Entries(t), key, val)
    ensures ToMap(Put(Entries(t), key, val)) == ToMap(Entries(t))[key := val]
  {
    AddToRootCorrect(t, h, key, val);
    OrderedEntries(t, None, None);
    MapOfPut(Entries(t), key, val);
  }

  lemma StepMap<V>(s: State<V>, a: (Key, V))
    requires Good(s)
    ensures ToMap(Entries(Step(s, a).t)) == ToMap(Entries(s.t))[a.0 := a.1]
  {
    AddToRootMap(s.t, s.h, a.0, a.1);
  }

  lemma {:induction false} RunMap<V>(adds: seq<(Key, V)>)
    ensures ToMap(Entries(Run(adds).t)) == LastValues(adds)
  {
    if adds != [] {
      RunMap(adds[..|adds| - 1]);
      StepMap(Run(adds[..|adds| - 1]), adds[|adds| - 1]);
    }
  }

  lemma {:induction false} LastValuesKeys<V>(adds: seq<(Key, V)>)
    ensures LastValues(adds).Keys == KeysOf(adds)
  {
    if adds != [] {
      var n := |adds| - 1;
      LastValuesKeys(adds[..n]);
      KeysOfLast(adds, n);
    }
  }

  ghost predicate FreshKeys<V>(adds: seq<(Key, V)>)
  {
    forall i, j :: 0 <= i < j < |adds| ==> adds[i].0 != adds[j].0
  }

  lemma KeysOfLast<V>(adds: seq<(Key, V)>, n: nat)
    requires n + 1 == |adds|
    ensures KeysOf(adds) == KeysOf(adds[..n]) + {adds[n].0}
  {
  }

  /** The last key is new exactly when a list of fresh keys stays one. */
  lemma FreshLast<V>(adds: seq<(Key, V)>, n: nat)
    requires n + 1 == |adds|
    ensures FreshKeys(adds) <==> FreshKeys(adds[..n]) && adds[n].0 !in KeysOf(adds[..n])
  {
  }

  lemma {:induction false} KeysOfSize<V>(adds: seq<(Key, V)>)
    ensures |KeysOf(adds)| <= |adds|
    ensures |KeysOf(adds)| == |adds| <==> FreshKeys(adds)
  {
    if adds != [] {
      var n := |adds| - 1;
      KeysOfSize(adds[..n]);
      KeysOfLast(adds, n);
      FreshLast(adds, n);
    }
  }

  /** `add` bumps the entry counter even when it overwrites: the counter `hasNext` and `len` rely on is
      the number of stored pairs exactly when no key was added twice. */
  lemma CountIsSizeIffFresh<V>(adds: seq<(Key, V)>)
    ensures |Entries(Run(adds).t)| <= Run(adds).count
    ensures Run(adds).count == |Entries(Run(adds).t)| <==> FreshKeys(adds)
  {
    RunMap(adds);
    LastValuesKeys(adds);
    OrderedEntries(Run(adds).t, None, None);
    MapSize(Entries(Run(adds).t));
    KeysOfSize(adds);
    assert |ToMap(Entries(Run(adds).t)).Keys| == |ToMap(Entries(Run(adds).t))|;
  }

  /** A tree of height `h >= 1` stores at least `2 * (M / 2)^h` pairs. */
  lemma MinimumSize<V>(t: Tree<V>, h: nat)
    requires RootShaped(t, h) && h >= 1
    ensures |Entries(t)| >= 2 * Power(MHALF, h)
  {
    EntriesSize(t, h, 2);
  }

  // ---------------------------------------------------------------------------
  // What one step of a descent keeps.

  /** `es` and `es'` agree about `key`. */
  ghost predicate SameAt<V>(es: seq<(Key, V)>, es': seq<(Key, V)>, key: Key)
  {
    && (key in ToMap(es) <==> key in ToMap(es'))
    && (key in ToMap(es) ==> ToMap(es)[key] == ToMap(es')[key])
  }

  lemma {:induction false} MapPrefix<V>(a: seq<(Key, V)>, es: seq<(Key, V)>, key: Key)
    requires AllBelow(a, key)
    ensures SameAt(a + es, es, key)
  {
    if a == [] {
      assert a + es == es;
    } else {
      assert (a + es)[1..] == a[1..] + es;
      MapPrefix(a[1..], es, key);
    }
  }

  lemma {:induction false} MapSuffix<V>(es: seq<(Key, V)>, c: seq<(Key, V)>, key: Key)
    requires AllAbove(c, key)
    ensures SameAt(es + c, es, key)
  {
    if es == [] {
      assert es + c == c;
      MapKeys(c, key);
    } else {
      assert (es + c)[1..] == es[1..] + c;
      MapSuffix(es[1..], c, key);
    }
  }

  /** The child `Route` picks decides a lookup. */
  lemma LookupStep<V>(t: Tree<V>, lo: Option<Key>, hi: Option<Key>, key: Key)
    requires t.Inner? && Ordered(t, lo, hi)
    ensures SameAt(Entries(t), Entries(t.kids[Route(t.keys, key)]), key)
  {
    var j := Route(t.keys, key);
    FlatAround(t.kids, j);
    RoutedBetween(t, lo, hi, key);
    MapSuffix(Flat(t.kids[..j]) + Entries(t.kids[j]), Flat(t.kids[j + 1..]), key);
    MapPrefix(Flat(t.kids[..j]), Entries(t.kids[j]), key);
  }

  lemma LeafMap<V>(t: Tree<V>, lo: Option<Key>, hi: Option<Key>, key: Key)
    requires t.Leaf? && Ordered(t, lo, hi) && |t.keys| == |t.vals|
    ensures key in ToMap(Entries(t)) <==> key in t.keys
    ensures forall j :: 0 <= j < |t.keys| && t.keys[j] == key ==> key in ToMap(Entries(t)) && ToMap(Entries(t))[key] == t.vals[j]
  {
    var es := Entries(t);
    MapKeys(es, key);
    OrderedEntries(t, lo, hi);
    if key in t.keys {
      var i :| 0 <= i < |t.keys| && t.keys[i] == key;
      assert es[i].0 == key;
    }
    forall j: nat | j < |t.keys| && t.keys[j] == key
      ensures key in ToMap(es) && ToMap(es)[key] == t.vals[j]
    {
      MapAt(es, j);
    }
  }

  /** The entry of rank `i` lies in the child whose cumulative count first exceeds `i`. */
  lemma RankStep<V>(kids: seq<Tree<V>>, k: nat, i: nat)
    requires k < |kids| && |Flat(kids[..k])| <= i < |Flat(kids[..k])| + |Entries(kids[k])|
    ensures i < |Flat(kids)| && Flat(kids)[i] == Entries(kids[k])[i - |Flat(kids[..k])|]
  {
    FlatAround(kids, k);
  }
}
