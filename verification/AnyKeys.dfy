/** The tree over keys of any type under any `cmp`: it does with the keys what the tree of `BTreeSpec` does with their
    places among the reals, so all that is proved there holds of it. */
module AnyKeys {
  import opened Wrappers
  import opened BTreeSpec
  import opened KeyOrders

  /** Where a leaf scan stops: the first key that is not smaller. */
  function LeafPosBy<K>(less: (K, K) -> bool, keys: seq<K>, key: K): (j: nat)
    ensures j <= |keys|
  {
    if keys == [] || !less(keys[0], key) then 0 else 1 + LeafPosBy(less, keys[1..], key)
  }

  function RouteBy<K>(less: (K, K) -> bool, keys: seq<K>, key: K): (j: nat)
    requires keys != []
    ensures j < |keys|
  {
    if |keys| == 1 || less(key, keys[1]) then 0 else 1 + RouteBy(less, keys[1..], key)
  }

  /** An equal key keeps the key that is there and takes the new value. */
  function LeafInsertBy<K, V>(less: (K, K) -> bool, t: KeyedTree<K, V>, least: nat, key: K, val: V): (r: KeyedGrown<K, V>)
    requires t.Leaf? && Shaped(t, 0, least)
    ensures r.u.None? ==> Shaped(r.t, 0, least)
    ensures r.u.Some? ==> Shaped(r.t, 0, MHALF) && Shaped(r.u.value, 0, MHALF)
  {
    var j := LeafPosBy(less, t.keys, key);
    if j < |t.keys| && Equal(less, t.keys[j], key) then Grown(Leaf(t.keys, t.vals[j := val]), None)
    else SplitFull(Leaf(InsertAt(t.keys, j, key), InsertAt(t.vals, j, val)), 0, least)
  }

  lemma {:induction false} LeafPosStops<K(!new)>(less: (K, K) -> bool, keys: seq<K>, key: K, i: nat)
    requires WeakOrder(less) && i < |keys| && Equal(less, keys[i], key) && forall a, b :: 0 <= a < b < |keys| ==> less(keys[a], keys[b])
    ensures LeafPosBy(less, keys, key) == i
    decreases i
  {
    if i > 0 {
      assert less(keys[0], keys[i]) && less(keys[0], key);
      LeafPosStops(less, keys[1..], key, i - 1);
    }
  }

  /** A key that `cmp` calls equal to one in an ascending leaf leaves the keys there as they are and only replaces the value. */
  lemma OverwriteKeepsKeys<K(!new), V>(less: (K, K) -> bool, t: KeyedTree<K, V>, least: nat, key: K, val: V, i: nat)
    requires WeakOrder(less) && t.Leaf? && Shaped(t, 0, least) && i < |t.keys| && Equal(less, t.keys[i], key)
    requires forall a, b :: 0 <= a < b < |t.keys| ==> less(t.keys[a], t.keys[b])
    ensures LeafInsertBy(less, t, least, key, val) == Grown(Leaf(t.keys, t.vals[i := val]), None)
  {
    LeafPosStops(less, t.keys, key, i);
  }

  function InsertBy<K, V>(less: (K, K) -> bool, t: KeyedTree<K, V>, h: nat, least: nat, key: K, val: V): (r: KeyedGrown<K, V>)
    requires Shaped(t, h, least) && (h > 0 ==> least > 0)
    ensures r.u.None? ==> Shaped(r.t, h, least)
    ensures r.u.Some? ==> Shaped(r.t, h, MHALF) && Shaped(r.u.value, h, MHALF)
    decreases h
  {
    if t.Leaf? then LeafInsertBy(less, t, least, key, val)
    else
      var j := RouteBy(less, t.keys, key);
      AbsorbKid(t, h, least, j, InsertBy(less, t.kids[j], h - 1, MHALF, key, val))
  }

  function AddBy<K, V>(less: (K, K) -> bool, t: KeyedTree<K, V>, h: nat, key: K, val: V): (r: (KeyedTree<K, V>, nat))
    requires RootShaped(t, h)
    ensures RootShaped(r.0, r.1)
  {
    var g := InsertBy(less, t, h, if h == 0 then 0 else 2, key, val);
    if g.u.None? then (g.t, h) else (Inner([g.t.keys[0], g.u.value.keys[0]], [g.t, g.u.value]), h + 1)
  }

  /** The scan of a leaf for an equal key. */
  function FindBy<K, V>(less: (K, K) -> bool, keys: seq<K>, vals: seq<V>, key: K): Option<V>
    requires |keys| == |vals|
  {
    if keys == [] then None
    else if Equal(less, keys[0], key) then Some(vals[0])
    else FindBy(less, keys[1..], vals[1..], key)
  }

  function GetBy<K, V>(less: (K, K) -> bool, t: KeyedTree<K, V>, h: nat, least: nat, key: K): Option<V>
    requires Shaped(t, h, least) && (h > 0 ==> least > 0)
    decreases h
  {
    if t.Leaf? then FindBy(less, t.keys, t.vals, key)
    else GetBy(less, t.kids[RouteBy(less, t.keys, key)], h - 1, MHALF, key)
  }

  function RunBy<K, V>(less: (K, K) -> bool, adds: seq<(K, V)>): (r: (KeyedTree<K, V>, nat))
    ensures RootShaped(r.0, r.1)
  {
    if adds == [] then (Leaf([], []), 0)
    else
      var n := |adds| - 1;
      var r := RunBy(less, adds[..n]);
      AddBy(less, r.0, r.1, adds[n].0, adds[n].1)
  }

  /** The value added last for a key equal to `key`. */
  function LastBy<K, V>(less: (K, K) -> bool, adds: seq<(K, V)>, key: K): Option<V>
  {
    if adds == [] then None
    else
      var n := |adds| - 1;
      if Equal(less, adds[n].0, key) then Some(adds[n].1) else LastBy(less, adds[..n], key)
  }

  // ---------------------------------------------------------------------------
  // The same tree with the keys' places for keys.

  function Places<K>(place: K -> real, keys: seq<K>): (r: seq<Key>)
    ensures |r| == |keys| && forall i :: 0 <= i < |r| ==> r[i] == place(keys[i])
  {
    seq(|keys|, i requires 0 <= i < |keys| => place(keys[i]))
  }

  function Image<K, V>(place: K -> real, t: KeyedTree<K, V>): (r: Tree<V>)
    decreases t, 0
  {
    match t
    case Leaf(keys, vals) => Leaf(Places(place, keys), vals)
    case Inner(keys, kids) => Inner(Places(place, keys), Images(place, kids))
  }

  function Images<K, V>(place: K -> real, kids: seq<KeyedTree<K, V>>): (r: seq<Tree<V>>)
    ensures |r| == |kids| && forall i :: 0 <= i < |r| ==> r[i] == Image(place, kids[i])
    decreases kids, 1
  {
    seq(|kids|, i requires 0 <= i < |kids| => Image(place, kids[i]))
  }

  function GrownImage<K, V>(place: K -> real, g: KeyedGrown<K, V>): Grown<V>
  {
    Grown(Image(place, g.t), if g.u.None? then None else Some(Image(place, g.u.value)))
  }

  lemma {:induction false} ImageShaped<K, V>(place: K -> real, t: KeyedTree<K, V>, h: nat, least: nat)
    requires Shaped(t, h, least)
    ensures Shaped(Image(place, t), h, least)
    decreases h
  {
    if t.Inner? {
      forall j: nat | j < |t.kids|
        ensures Shaped(Images(place, t.kids)[j], h - 1, MHALF)
      {
        ImageShaped(place, t.kids[j], h - 1, MHALF);
      }
    }
  }

  lemma ImageFilled<K, V>(place: K -> real, t: KeyedTree<K, V>, h: nat, least: nat)
    requires Filled(t, h, least)
    ensures Filled(Image(place, t), h, least)
  {
    if t.Inner? {
      forall j: nat | j < |t.kids|
        ensures Shaped(Images(place, t.kids)[j], h - 1, MHALF)
      {
        ImageShaped(place, t.kids[j], h - 1, MHALF);
      }
    }
  }

  lemma ImageKept<K, V>(place: K -> real, keys: seq<K>, kids: seq<KeyedTree<K, V>>, n: nat)
    requires n <= |keys| && n <= |kids|
    ensures Places(place, keys)[..n] == Places(place, keys[..n]) && Places(place, keys)[n..] == Places(place, keys[n..])
    ensures Images(place, kids)[..n] == Images(place, kids[..n]) && Images(place, kids)[n..] == Images(place, kids[n..])
  {
  }

  lemma SplitImage<K, V>(place: K -> real, t: KeyedTree<K, V>, h: nat, least: nat)
    requires Filled(t, h, least)
    ensures Filled(Image(place, t), h, least)
    ensures GrownImage(place, SplitFull(t, h, least)) == SplitFull(Image(place, t), h, least)
  {
    ImageFilled(place, t, h, least);
    if |t.keys| == M {
      ImageKept(place, t.keys, if t.Inner? then t.kids else seq(M, _ => t), MHALF);
    }
  }

  lemma PlacesInsert<K>(place: K -> real, keys: seq<K>, j: nat, key: K)
    requires j <= |keys|
    ensures Places(place, InsertAt(keys, j, key)) == InsertAt(Places(place, keys), j, place(key))
  {
  }

  lemma ImagesInsert<K, V>(place: K -> real, kids: seq<KeyedTree<K, V>>, j: nat, u: KeyedTree<K, V>)
    requires j <= |kids|
    ensures Images(place, InsertAt(kids, j, u)) == InsertAt(Images(place, kids), j, Image(place, u))
  {
  }

  lemma ImagesReplace<K, V>(place: K -> real, kids: seq<KeyedTree<K, V>>, j: nat, u: KeyedTree<K, V>)
    requires j < |kids|
    ensures Images(place, kids[j := u]) == Images(place, kids)[j := Image(place, u)]
  {
  }

  lemma {:induction false} LeafPosImage<K(!new)>(less: (K, K) -> bool, place: K -> real, keys: seq<K>, key: K)
    requires Monotone(less, place)
    ensures LeafPosBy(less, keys, key) == LeafPos(Places(place, keys), place(key))
  {
    if keys != [] {
      LeafPosImage(less, place, keys[1..], key);
      assert Places(place, keys)[1..] == Places(place, keys[1..]);
    }
  }

  lemma {:induction false} RouteImage<K(!new)>(less: (K, K) -> bool, place: K -> real, keys: seq<K>, key: K)
    requires Monotone(less, place) && keys != []
    ensures RouteBy(less, keys, key) == Route(Places(place, keys), place(key))
  {
    if |keys| > 1 {
      RouteImage(less, place, keys[1..], key);
      assert Places(place, keys)[1..] == Places(place, keys[1..]);
    }
  }

  lemma LeafInsertImage<K(!new), V>(less: (K, K) -> bool, place: K -> real, t: KeyedTree<K, V>, least: nat, key: K, val: V)
    requires Monotone(less, place) && t.Leaf? && Shaped(t, 0, least)
    ensures GrownImage(place, LeafInsertBy(less, t, least, key, val)) == LeafInsert(Image(place, t), least, place(key), val)
  {
    LeafPosImage(less, place, t.keys, key);
    var j := LeafPosBy(less, t.keys, key);
    if !(j < |t.keys| && Equal(less, t.keys[j], key)) {
      PlacesInsert(place, t.keys, j, key);
      SplitImage(place, Leaf(InsertAt(t.keys, j, key), InsertAt(t.vals, j, val)), 0, least);
    }
  }

  lemma AbsorbImage<K, V>(place: K -> real, t: KeyedTree<K, V>, h: nat, least: nat, j: nat, r: KeyedGrown<K, V>)
    requires t.Inner? && Shaped(t, h, least) && j < |t.kids|
    requires Shaped(r.t, h - 1, MHALF) && (r.u.Some? ==> Shaped(r.u.value, h - 1, MHALF))
    requires Shaped(Image(place, t), h, least)
    requires var g := GrownImage(place, r); Shaped(g.t, h - 1, MHALF) && (g.u.Some? ==> Shaped(g.u.value, h - 1, MHALF))
    ensures GrownImage(place, AbsorbKid(t, h, least, j, r)) == AbsorbKid(Image(place, t), h, least, j, GrownImage(place, r))
  {
    ImagesReplace(place, t.kids, j, r.t);
    if r.u.Some? {
      var u := r.u.value;
      var t' := ReplaceKid(t, h, least, j, r.t);
      PlacesInsert(place, t.keys, j + 1, u.keys[0]);
      ImagesInsert(place, t'.kids, j + 1, u);
      SplitImage(place, AttachKid(t', h, least, j, u), h, least);
    }
  }

  lemma {:induction false} InsertImage<K(!new), V>(less: (K, K) -> bool, place: K -> real, t: KeyedTree<K, V>, h: nat, least: nat, key: K, val: V)
    requires Monotone(less, place) && Shaped(t, h, least) && (h > 0 ==> least > 0)
    ensures Shaped(Image(place, t), h, least)
    ensures GrownImage(place, InsertBy(less, t, h, least, key, val)) == Insert(Image(place, t), h, least, place(key), val)
    decreases h
  {
    ImageShaped(place, t, h, least);
    if t.Leaf? {
      LeafInsertImage(less, place, t, least, key, val);
    } else {
      var kid := t.kids[RouteBy(less, t.keys, key)];
      InsertImage(less, place, kid, h - 1, MHALF, key, val);
      InnerImage(less, place, t, h, least, key, val, kid);
    }
  }

  lemma InnerImage<K(!new), V>(less: (K, K) -> bool, place: K -> real, t: KeyedTree<K, V>, h: nat, least: nat, key: K, val: V, kid: KeyedTree<K, V>)
    requires Monotone(less, place) && t.Inner? && Shaped(t, h, least) && least > 0
    requires kid == t.kids[RouteBy(less, t.keys, key)] && Shaped(Image(place, kid), h - 1, MHALF) && Shaped(Image(place, t), h, least)
    requires GrownImage(place, InsertBy(less, kid, h - 1, MHALF, key, val)) == Insert(Image(place, kid), h - 1, MHALF, place(key), val)
    ensures GrownImage(place, InsertBy(less, t, h, least, key, val)) == Insert(Image(place, t), h, least, place(key), val)
  {
    RouteImage(less, place, t.keys, key);
    AbsorbImage(place, t, h, least, RouteBy(less, t.keys, key), InsertBy(less, kid, h - 1, MHALF, key, val));
  }

  lemma AddImage<K(!new), V>(less: (K, K) -> bool, place: K -> real, t: KeyedTree<K, V>, h: nat, key: K, val: V)
    requires Monotone(less, place) && RootShaped(t, h)
    ensures RootShaped(Image(place, t), h)
    ensures var r := AddBy(less, t, h, key, val);
      AddToRoot(Image(place, t), h, place(key), val) == (Image(place, r.0), r.1)
  {
    var least := if h == 0 then 0 else 2;
    InsertImage(less, place, t, h, least, key, val);
    var g := InsertBy(less, t, h, least, key, val);
    if g.u.Some? {
      PairImage(place, g.t, g.u.value);
    }
  }

  lemma PairImage<K, V>(place: K -> real, t: KeyedTree<K, V>, u: KeyedTree<K, V>)
    requires t.keys != [] && u.keys != []
    ensures Image(place, Inner([t.keys[0], u.keys[0]], [t, u]))
         == Inner([Image(place, t).keys[0], Image(place, u).keys[0]], [Image(place, t), Image(place, u)])
  {
    assert Places(place, [t.keys[0], u.keys[0]]) == [place(t.keys[0]), place(u.keys[0])];
    assert Images(place, [t, u]) == [Image(place, t), Image(place, u)];
  }

  function Placed<K, V>(place: K -> real, adds: seq<(K, V)>): (r: seq<(Key, V)>)
    ensures |r| == |adds| && forall i :: 0 <= i < |r| ==> r[i] == (place(adds[i].0), adds[i].1)
  {
    seq(|adds|, i requires 0 <= i < |adds| => (place(adds[i].0), adds[i].1))
  }

  /** A run over keys is, place by place, the run over their places. */
  lemma {:induction false} RunImage<K(!new), V>(less: (K, K) -> bool, place: K -> real, adds: seq<(K, V)>)
    requires Monotone(less, place)
    ensures var r, s := RunBy(less, adds), Run(Placed(place, adds)); s.t == Image(place, r.0) && s.h == r.1
  {
    if adds != [] {
      var n := |adds| - 1;
      RunImage(less, place, adds[..n]);
      assert Placed(place, adds)[..n] == Placed(place, adds[..n]);
      var r := RunBy(less, adds[..n]);
      AddImage(less, place, r.0, r.1, adds[n].0, adds[n].1);
    }
  }

  lemma {:induction false} EntriesImage<K, V>(place: K -> real, t: KeyedTree<K, V>)
    ensures Entries(Image(place, t)) == Placed(place, Entries(t))
    decreases t, 0
  {
    if t.Inner? {
      FlatImage(place, t.kids);
    }
  }

  lemma {:induction false} FlatImage<K, V>(place: K -> real, kids: seq<KeyedTree<K, V>>)
    ensures Flat(Images(place, kids)) == Placed(place, Flat(kids))
    decreases kids, 1
  {
    if kids != [] {
      EntriesImage(place, kids[0]);
      FlatImage(place, kids[1..]);
      assert Images(place, kids)[1..] == Images(place, kids[1..]);
    }
  }

  // ---------------------------------------------------------------------------
  // What follows for the keys themselves.

  function Lookup<V>(m: map<Key, V>, k: Key): Option<V>
  {
    if k in m then Some(m[k]) else None
  }

  lemma {:induction false} LastImage<K(!new), V>(less: (K, K) -> bool, place: K -> real, adds: seq<(K, V)>, key: K)
    requires Monotone(less, place)
    ensures LastBy(less, adds, key) == Lookup(LastValues(Placed(place, adds)), place(key))
  {
    if adds != [] {
      var n := |adds| - 1;
      LastImage(less, place, adds[..n], key);
      assert Placed(place, adds)[..n] == Placed(place, adds[..n]);
    }
  }

  lemma {:induction false} FindImage<K(!new), V>(less: (K, K) -> bool, place: K -> real, keys: seq<K>, vals: seq<V>, key: K)
    requires Monotone(less, place) && |keys| == |vals|
    ensures var r := FindBy(less, keys, vals, key);
      && (r.None? ==> place(key) !in Places(place, keys))
      && (r.Some? ==> exists j :: 0 <= j < |keys| && Places(place, keys)[j] == place(key) && vals[j] == r.value)
  {
    if keys != [] && !Equal(less, keys[0], key) {
      FindImage(less, place, keys[1..], vals[1..], key);
      assert Places(place, keys)[1..] == Places(place, keys[1..]);
    }
  }

  lemma {:induction false} GetImage<K(!new), V>(less: (K, K) -> bool, place: K -> real, t: KeyedTree<K, V>, h: nat, least: nat,
                                               lo: Option<Key>, hi: Option<Key>, key: K)
    requires Monotone(less, place) && Shaped(t, h, least) && (h > 0 ==> least > 0)
    requires Ordered(Image(place, t), lo, hi)
    ensures GetBy(less, t, h, least, key) == Lookup(ToMap(Entries(Image(place, t))), place(key))
    decreases h
  {
    var i := Image(place, t);
    if t.Leaf? {
      FindImage(less, place, t.keys, t.vals, key);
      LeafMap(i, lo, hi, place(key));
    } else {
      RouteImage(less, place, t.keys, key);
      var j := RouteBy(less, t.keys, key);
      GetImage(less, place, t.kids[j], h - 1, MHALF, Low(i.keys, lo, j), High(i.keys, hi, j), key);
      LookupStep(i, lo, hi, place(key));
    }
  }

  ghost predicate Ascending<K, V>(less: (K, K) -> bool, es: seq<(K, V)>)
  {
    forall i, j :: 0 <= i < j < |es| ==> less(es[i].0, es[j].0)
  }

  /** After any run of additions under any `cmp`, a lookup gives the value added last for a key that `cmp` calls equal, and
      the stored keys ascend. */
  lemma RunGives<K(!new), V>(at: nat -> K, less: (K, K) -> bool, adds: seq<(K, V)>, key: K)
    requires WeakOrder(less) && Lists(at)
    ensures var r := RunBy(less, adds);
      && GetBy(less, r.0, r.1, if r.1 == 0 then 0 else 2, key) == LastBy(less, adds, key)
      && Ascending(less, Entries(r.0))
  {
    var place := Embeds(at, less);
    var r := RunBy(less, adds);
    RunImage(less, place, adds);
    RunMap(Placed(place, adds));
    LastImage(less, place, adds, key);
    GetImage(less, place, r.0, r.1, if r.1 == 0 then 0 else 2, None, None, key);
    OrderedEntries(Image(place, r.0), None, None);
    EntriesImage(place, r.0);
  }
}
