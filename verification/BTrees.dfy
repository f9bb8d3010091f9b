/** The compiler's B-tree as mutable nodes over fixed arrays.  After a split the upper half of a node's
    arrays keeps stale entries, so everything is stated about the first `entries` slots only. */
module BTrees {
  import opened Wrappers
  import opened BTreeSpec

  /** `for i in countdown(n, j + 1): a[i] = a[i - 1]`, then `a[j] = x`. */
  method ShiftIn<T>(a: array<T>, j: nat, n: nat, x: T)
    requires j <= n < a.Length
    modifies a
    ensures a[..n + 1] == InsertAt(old(a[..n]), j, x)
  {
    var i := n;
    while i > j
      invariant j <= i <= n
      invariant a[..i] == old(a[..i])
      invariant forall m :: i < m <= n ==> a[m] == old(a[m - 1])
    {
      a[i] := a[i - 1];
      i := i - 1;
    }
    a[j] := x;
  }

  /** One array of `copyHalf`. */
  method CopyHalf<T>(h: array<T>, result: array<T>)
    requires h.Length == result.Length == M && h != result
    modifies result
    ensures result[..MHALF] == h[MHALF..]
  {
    for j := 0 to MHALF
      invariant result[..j] == h[MHALF..MHALF + j]
    {
      result[j] := h[MHALF + j];
    }
  }

  ghost function Union(feet: seq<set<object>>): set<object>
  {
    set f, o | f in feet && o in f :: o
  }

  ghost predicate Disjoint(feet: seq<set<object>>)
  {
    forall i, j :: 0 <= i < j < |feet| ==> feet[i] !! feet[j]
  }

  lemma InUnion(feet: seq<set<object>>, j: nat)
    requires j < |feet|
    ensures feet[j] <= Union(feet)
  {
  }

  lemma UnionSplit(a: seq<set<object>>, b: seq<set<object>>)
    ensures Union(a + b) == Union(a) + Union(b)
    ensures Disjoint(a + b) ==> Disjoint(a) && Disjoint(b) && Union(a) !! Union(b)
  {
    if Disjoint(a + b) {
      forall i: nat, j: nat | i < j < |a|
        ensures a[i] !! a[j]
      {
        assert (a + b)[i] == a[i] && (a + b)[j] == a[j];
      }
      forall i: nat, j: nat | i < |a| && j < |b|
        ensures a[i] !! b[j]
      {
        assert (a + b)[i] == a[i] && (a + b)[|a| + j] == b[j];
      }
      forall i: nat, j: nat | i < j < |b|
        ensures b[i] !! b[j]
      {
        assert (a + b)[|a| + i] == b[i] && (a + b)[|a| + j] == b[j];
      }
    }
  }

  lemma UnionAround(feet: seq<set<object>>, j: nat)
    requires Disjoint(feet) && j < |feet|
    ensures Union(feet) == Union(feet[..j]) + feet[j] + Union(feet[j + 1..])
    ensures Union(feet[..j]) !! feet[j] !! Union(feet[j + 1..])
  {
    var a, c := feet[..j], feet[j + 1..];
    assert feet == a + [feet[j]] + c;
    UnionSplit(a + [feet[j]], c);
    UnionSplit(a, [feet[j]]);
    assert Union([feet[j]]) == feet[j];
  }

  lemma StaysApart(s: set<object>, r: set<object>, grown: set<object>, r': set<object>)
    requires s !! r && s !! grown && r' <= r + grown
    ensures s !! r'
  {
  }

  lemma NewObjects(a: set<object>, b: set<object>, c: set<object>)
    ensures c - a <= (b - a) + (c - b)
  {
  }

  class BTreeNode<V(0)> {
    var entries: nat
    const keys: array<Key>
    const isInternal: bool
    const vals: array<V>
    const links: array<BTreeNode?<V>>
    ghost var tree: Tree<V>
    ghost var Repr: set<object>
    ghost var feet: seq<set<object>>  // the footprint of each child

    /** The node's own objects. */
    ghost function Own(): set<object>
    {
      {this, keys, vals, links}
    }

    ghost predicate Valid()
      reads this, Repr
      ensures Valid() ==> this in Repr
      decreases Repr, 0
    {
      && Own() <= Repr
      && keys as object != vals && keys as object != links && vals as object != links
      && keys.Length == M && entries <= M
      && (!isInternal ==> vals.Length == M && tree == Leaf(keys[..entries], vals[..entries]))
      && (isInternal ==>
        && links.Length == M && entries > 0
        && tree.Inner? && tree.keys == keys[..entries] && |tree.kids| == |feet| == entries
        && Repr == Own() + Union(feet) && Own() !! Union(feet)
        && Kids(links[..entries], feet, tree.kids))
    }

    /** The links `ls` are valid nodes with separate footprints `feet` that represent `kids`. */
    static ghost predicate Kids(ls: seq<BTreeNode?<V>>, feet: seq<set<object>>, kids: seq<Tree<V>>)
      reads Union(feet)
      decreases Union(feet), 2
    {
      && |ls| == |feet| == |kids| && Disjoint(feet)
      && forall j: nat :: j < |ls| ==> Kid(ls, feet, kids, j)
    }

    static ghost predicate Kid(ls: seq<BTreeNode?<V>>, feet: seq<set<object>>, kids: seq<Tree<V>>, j: nat)
      requires |ls| == |feet| == |kids| && j < |ls|
      reads Union(feet)
      decreases Union(feet), 1
    {
      InUnion(feet, j);
      && ls[j] != null && ls[j] in feet[j] && ls[j].Repr == feet[j]
      && ls[j].Valid() && ls[j].tree == kids[j]
    }

    static lemma KidsConcat(ls: seq<BTreeNode?<V>>, feet: seq<set<object>>, kids: seq<Tree<V>>,
                            ls': seq<BTreeNode?<V>>, feet': seq<set<object>>, kids': seq<Tree<V>>)
      requires Kids(ls, feet, kids) && Kids(ls', feet', kids') && Union(feet) !! Union(feet')
      ensures Kids(ls + ls', feet + feet', kids + kids')
    {
      forall a: nat, b: nat | a < b < |feet + feet'|
        ensures (feet + feet')[a] !! (feet + feet')[b]
      {
        if a < |feet| { InUnion(feet, a); }
        if b >= |feet| { InUnion(feet', b - |feet|); }
      }
      forall j: nat | j < |ls + ls'|
        ensures Kid(ls + ls', feet + feet', kids + kids', j)
      {
        if j < |ls| {
          assert Kid(ls, feet, kids, j);
        } else {
          assert Kid(ls', feet', kids', j - |ls|);
        }
      }
    }

    static lemma KidsTake(ls: seq<BTreeNode?<V>>, feet: seq<set<object>>, kids: seq<Tree<V>>, n: nat)
      requires Kids(ls, feet, kids) && n <= |ls|
      ensures Kids(ls[..n], feet[..n], kids[..n])
    {
      forall j: nat | j < n
        ensures Kid(ls[..n], feet[..n], kids[..n], j)
      {
        assert Kid(ls, feet, kids, j);
      }
    }

    static lemma KidsDrop(ls: seq<BTreeNode?<V>>, feet: seq<set<object>>, kids: seq<Tree<V>>, n: nat)
      requires Kids(ls, feet, kids) && n <= |ls|
      ensures Kids(ls[n..], feet[n..], kids[n..])
    {
      forall j: nat | j < |ls| - n
        ensures Kid(ls[n..], feet[n..], kids[n..], j)
      {
        assert Kid(ls, feet, kids, n + j);
      }
    }

    static lemma KidsOne(u: BTreeNode<V>)
      requires u.Valid()
      ensures Kids([u], [u.Repr], [u.tree]) && Union([u.Repr]) == u.Repr
    {
      assert Kid([u], [u.Repr], [u.tree], 0);
    }

    static lemma KidsTwo(a: BTreeNode<V>, b: BTreeNode<V>)
      requires a.Valid() && b.Valid() && a.Repr !! b.Repr
      ensures Kids([a, b], [a.Repr, b.Repr], [a.tree, b.tree])
      ensures Union([a.Repr, b.Repr]) == a.Repr + b.Repr
    {
      KidsOne(a);
      KidsOne(b);
      KidsConcat([a], [a.Repr], [a.tree], [b], [b.Repr], [b.tree]);
      UnionSplit([a.Repr], [b.Repr]);
      assert [a] + [b] == [a, b] && [a.Repr] + [b.Repr] == [a.Repr, b.Repr] && [a.tree] + [b.tree] == [a.tree, b.tree];
    }

    /** Sets child `j` apart from the children on its left and right. */
    static lemma KidsOpen(ls: seq<BTreeNode?<V>>, feet: seq<set<object>>, kids: seq<Tree<V>>, j: nat)
      requires Kids(ls, feet, kids) && j < |ls|
      ensures Kids(ls[..j], feet[..j], kids[..j]) && Kids(ls[j + 1..], feet[j + 1..], kids[j + 1..])
      ensures Kid(ls, feet, kids, j)
      ensures Union(feet) == Union(feet[..j]) + feet[j] + Union(feet[j + 1..])
      ensures Union(feet[..j]) !! feet[j] !! Union(feet[j + 1..])
    {
      KidsTake(ls, feet, kids, j);
      KidsDrop(ls, feet, kids, j + 1);
      UnionAround(feet, j);
      assert Kid(ls, feet, kids, j);
    }

    /** Puts a changed child `j` back between its neighbours. */
    static lemma KidsClose(ls: seq<BTreeNode?<V>>, a: seq<set<object>>, c: seq<set<object>>, kids: seq<Tree<V>>, j: nat, kid: BTreeNode<V>)
      requires |ls| == |kids| && j < |ls| && ls[j] == kid && kid.Valid()
      requires Kids(ls[..j], a, kids[..j]) && Kids(ls[j + 1..], c, kids[j + 1..])
      requires Union(a) !! kid.Repr !! Union(c)
      ensures Kids(ls, a + [kid.Repr] + c, kids[j := kid.tree])
      ensures Union(a + [kid.Repr] + c) == Union(a) + kid.Repr + Union(c)
    {
      KidsInsert(ls[..j], a, kids[..j], ls[j + 1..], c, kids[j + 1..], kid);
      assert ls == ls[..j] + [kid] + ls[j + 1..];
      assert kids[j := kid.tree] == kids[..j] + [kid.tree] + kids[j + 1..];
    }

    static lemma KidsInsert(ls: seq<BTreeNode?<V>>, feet: seq<set<object>>, kids: seq<Tree<V>>,
                            ls': seq<BTreeNode?<V>>, feet': seq<set<object>>, kids': seq<Tree<V>>, u: BTreeNode<V>)
      requires Kids(ls, feet, kids) && Kids(ls', feet', kids') && u.Valid()
      requires Union(feet) !! u.Repr !! Union(feet')
      ensures Kids(ls + [u] + ls', feet + [u.Repr] + feet', kids + [u.tree] + kids')
      ensures Union(feet + [u.Repr] + feet') == Union(feet) + u.Repr + Union(feet')
    {
      KidsOne(u);
      UnionSplit(feet, [u.Repr]);
      UnionSplit(feet + [u.Repr], feet');
      KidsConcat(ls, feet, kids, [u], [u.Repr], [u.tree]);
      KidsConcat(ls + [u], feet + [u.Repr], kids + [u.tree], ls', feet', kids');
    }

    static lemma KidsAround(ls: seq<BTreeNode?<V>>, feet: seq<set<object>>, kids: seq<Tree<V>>, j: nat, u: BTreeNode<V>)
      requires Kids(ls, feet, kids) && j <= |ls| && u.Valid() && u.Repr !! Union(feet)
      ensures Kids(InsertAt(ls, j, u), InsertAt(feet, j, u.Repr), InsertAt(kids, j, u.tree))
      ensures Union(InsertAt(feet, j, u.Repr)) == Union(feet) + u.Repr
    {
      KidsTake(ls, feet, kids, j);
      KidsDrop(ls, feet, kids, j);
      UnionSplit(feet[..j], feet[j..]);
      assert feet == feet[..j] + feet[j..];
      KidsInsert(ls[..j], feet[..j], kids[..j], ls[j..], feet[j..], kids[j..], u);
    }

    constructor Blank(isInternal: bool)
      ensures this.isInternal == isInternal && entries == 0 && Repr == Own() && fresh(Own())
      ensures keys.Length == M && (if isInternal then links.Length == M else vals.Length == M)
      ensures tree == Leaf([], [])
      ensures keys as object != vals && keys as object != links && vals as object != links
    {
      this.isInternal := isInternal;
      entries := 0;
      keys := new Key[M];
      vals := new V[if isInternal then 0 else M];
      links := new BTreeNode?<V>[if isInternal then M else 0](_ => null);
      tree := Leaf([], []);
      new;
      Repr := Own();
    }

    method SplitLeaf() returns (u: BTreeNode<V>)
      requires Valid() && entries == M && !isInternal
      modifies this`entries, this`tree, this`Repr
      ensures Valid() && u.Valid() && !u.isInternal
      ensures tree == Leaf(old(tree.keys)[..MHALF], old(tree.vals)[..MHALF])
      ensures u.tree == Leaf(old(tree.keys)[MHALF..], old(tree.vals)[MHALF..])
      ensures Repr <= old(Repr) && fresh(u.Repr) && Repr !! u.Repr
    {
      u := new BTreeNode<V>.Blank(false);
      CopyHalf(keys, u.keys);
      CopyHalf(vals, u.vals);
      entries, u.entries := MHALF, MHALF;
      tree := Leaf(keys[..MHALF], vals[..MHALF]);
      u.tree := Leaf(u.keys[..MHALF], u.vals[..MHALF]);
      Repr := Own();
    }

    /** The new right sibling of a full inner node; it shares the children it takes over until `Truncate`. */
    method UpperHalf() returns (u: BTreeNode<V>)
      requires Valid() && entries == M && isInternal
      ensures u.Valid() && u.isInternal && fresh(u.Own())
      ensures u.tree == Inner(tree.keys[MHALF..], tree.kids[MHALF..])
      ensures u.Repr == u.Own() + Union(feet[MHALF..])
    {
      UpperKids();
      u := new BTreeNode<V>.Blank(true);
      CopyHalf(keys, u.keys);
      CopyHalf(links, u.links);
      u.entries := MHALF;
      u.InstallInner(Inner(tree.keys[MHALF..], tree.kids[MHALF..]), feet[MHALF..]);
    }

    lemma UpperKids()
      requires Valid() && entries == M && isInternal
      ensures Union(feet[MHALF..]) <= Repr && Kids(links[MHALF..], feet[MHALF..], tree.kids[MHALF..])
    {
      UnionSplit(feet[..MHALF], feet[MHALF..]);
      assert feet == feet[..MHALF] + feet[MHALF..];
      KidsDrop(links[..M], feet, tree.kids, MHALF);
      assert links[..M][MHALF..] == links[MHALF..];
    }

    method Truncate()
      requires Valid() && entries == M && isInternal
      modifies this`entries, this`tree, this`Repr, this`feet
      ensures Valid() && tree == Inner(old(tree.keys)[..MHALF], old(tree.kids)[..MHALF])
      ensures Repr == Own() + Union(old(feet)[..MHALF]) && Repr <= old(Repr)
    {
      UnionSplit(feet[..MHALF], feet[MHALF..]);
      assert feet == feet[..MHALF] + feet[MHALF..];
      KidsTake(links[..M], feet, tree.kids, MHALF);
      assert links[..M][..MHALF] == links[..MHALF];
      entries := MHALF;
      tree := Inner(tree.keys[..MHALF], tree.kids[..MHALF]);
      feet := feet[..MHALF];
      Repr := Own() + Union(feet);
    }

    method SplitInner() returns (u: BTreeNode<V>)
      requires Valid() && entries == M && isInternal
      modifies this`entries, this`tree, this`Repr, this`feet
      ensures Valid() && u.Valid() && u.isInternal
      ensures tree == Inner(old(tree.keys)[..MHALF], old(tree.kids)[..MHALF])
      ensures u.tree == Inner(old(tree.keys)[MHALF..], old(tree.kids)[MHALF..])
      ensures Repr <= old(Repr) && fresh(u.Repr - old(Repr)) && Repr !! u.Repr
    {
      u := UpperHalf();
      UnionSplit(feet[..MHALF], feet[MHALF..]);
      assert feet == feet[..MHALF] + feet[MHALF..];
      Truncate();
    }

    /** What a caller learns: this node and the optional new sibling represent `g`, in separate objects. */
    ghost predicate Represents(g: Grown<V>, u: BTreeNode?<V>)
      reads this, Repr, u, if u != null then u.Repr else {}
    {
      && Valid() && tree == g.t
      && (u == null <==> g.u.None?)
      && (u != null ==> u.Valid() && u.tree == g.u.value && Repr !! u.Repr)
    }

    /** The objects of this node and of its new sibling. */
    ghost function With(u: BTreeNode?<V>): set<object>
      reads this, u
    {
      Repr + if u == null then {} else u.Repr
    }

    method LeafScan(key: Key) returns (j: nat)
      requires Valid() && !isInternal
      ensures j == LeafPos(tree.keys, key)
    {
      j := 0;
      while j < entries && keys[j] < key
        invariant j <= entries
        invariant forall i :: 0 <= i < j ==> keys[i] < key
      {
        j := j + 1;
      }
      LeafPosUnique(tree.keys, key, j);
    }

    method InnerScan(key: Key) returns (j: nat)
      requires Valid() && isInternal
      ensures j == Route(tree.keys, key) && j < entries
    {
      j := 0;
      while !(j + 1 == entries || key < keys[j + 1])
        invariant j < entries
        invariant forall i :: 0 < i <= j ==> keys[i] <= key
        decreases entries - j
      {
        j := j + 1;
      }
      RouteUnique(tree.keys, key, j);
    }

    /** Opens slot `j` of a leaf. */
    method LeafShift(j: nat, key: Key, val: V)
      requires Valid() && !isInternal && j <= entries < M
      modifies this`entries, this`tree, keys, vals
      ensures Valid() && entries == old(entries) + 1
      ensures tree == Leaf(InsertAt(old(tree.keys), j, key), InsertAt(old(tree.vals), j, val))
    {
      ShiftIn(vals, j, entries, val);
      ShiftIn(keys, j, entries, key);
      entries := entries + 1;
      tree := Leaf(keys[..entries], vals[..entries]);
    }

    method LeafInsert(key: Key, val: V, ghost least: nat) returns (u: BTreeNode?<V>)
      requires Valid() && !isInternal && Shaped(tree, 0, least)
      modifies this, keys, vals
      ensures Represents(BTreeSpec.LeafInsert(old(tree), least, key, val), u)
      ensures Repr <= old(Repr) && (u != null ==> fresh(u.Repr))
    {
      var j := LeafScan(key);
      u := null;
      if j < entries && keys[j] == key {
        vals[j] := val;
        tree := Leaf(keys[..entries], vals[..entries]);
      } else {
        LeafShift(j, key, val);
        if entries == M {
          u := SplitLeaf();
        }
      }
    }

    /** Shifts `newKey` and `newLink` into slot `j` of the two arrays. */
    method InnerShift(j: nat, newKey: Key, newLink: BTreeNode<V>, ghost feet': seq<set<object>>, ghost kids': seq<Tree<V>>)
      requires keys.Length == links.Length == M && keys as object != links && j <= entries < M
      requires Own() !! Union(feet') && Kids(InsertAt(links[..entries], j, newLink), feet', kids')
      modifies this`entries, keys, links
      ensures entries == old(entries) + 1 && keys[..entries] == InsertAt(old(keys[..entries]), j, newKey)
      ensures Kids(links[..entries], feet', kids')
    {
      ShiftIn(links, j, entries, newLink);
      ShiftIn(keys, j, entries, newKey);
      entries := entries + 1;
    }

    /** The children with `u` among them, before the arrays are changed. */
    lemma Attachable(j: nat, u: BTreeNode<V>)
      requires Valid() && isInternal && j < entries
      requires u.Valid() && u.Repr !! Repr
      ensures var feet' := InsertAt(feet, j + 1, u.Repr);
        && Own() !! Union(feet') && Own() + Union(feet') == Repr + u.Repr
        && Kids(InsertAt(links[..entries], j + 1, u), feet', InsertAt(tree.kids, j + 1, u.tree))
    {
      KidsAround(links[..entries], feet, tree.kids, j + 1, u);
    }

    /** Opens slot `j + 1` of an inner node for the sibling that child `j` was split into. */
    method Attach(j: nat, u: BTreeNode<V>)
      requires Valid() && isInternal && j < entries < M
      requires u.Valid() && u.Repr !! Repr && u.entries > 0 && |u.tree.keys| == u.entries
      modifies this`entries, this`tree, this`Repr, this`feet, keys, links
      ensures Valid() && entries == old(entries) + 1
      ensures tree == Inner(InsertAt(old(tree.keys), j + 1, u.tree.keys[0]), InsertAt(old(tree.kids), j + 1, u.tree))
      ensures Repr == old(Repr) + u.Repr
    {
      Attachable(j, u);
      ghost var kids', feet' := InsertAt(tree.kids, j + 1, u.tree), InsertAt(feet, j + 1, u.Repr);
      ghost var keys' := InsertAt(tree.keys, j + 1, u.tree.keys[0]);
      InnerShift(j + 1, u.keys[0], u, feet', kids');
      InstallInner(Inner(keys', kids'), feet');
    }

    /** All of `Valid` for an inner node except its children. */
    ghost predicate Shell()
      reads this, keys
    {
      && isInternal && links.Length == M && 0 < entries <= M
      && keys as object != vals && keys as object != links && vals as object != links
      && keys.Length == M && tree.Inner? && tree.keys == keys[..entries] && |tree.kids| == entries
    }

    /** A node taken apart at child `j`: `a` and `c` are the footprints of the other children. */
    ghost predicate Opened(j: nat, kid: BTreeNode<V>, a: seq<set<object>>, c: seq<set<object>>)
      reads this, keys, links, Union(a), Union(c), kid, kid.Repr
    {
      && Shell() && j < entries && links[j] == kid && kid.Valid()
      && Kids(links[..j], a, tree.kids[..j]) && Kids(links[j + 1..entries], c, tree.kids[j + 1..])
      && kid.Repr !! Others(a, c) && Union(a) !! Union(c) && Own() !! Union(a) + Union(c)
    }

    ghost function Others(a: seq<set<object>>, c: seq<set<object>>): set<object>
    {
      Own() + Union(a) + Union(c)
    }

    ghost predicate Loose(u: BTreeNode?<V>, s: set<object>)
      reads u, if u == null then {} else u.Repr
    {
      u != null ==> u.Valid() && u.Repr !! s
    }

    lemma OpenAt(j: nat)
      requires Valid() && isInternal && j < entries
      ensures links[j] != null && links[j].tree == tree.kids[j] && Opened(j, links[j], feet[..j], feet[j + 1..])
      ensures Repr == Others(feet[..j], feet[j + 1..]) + links[j].Repr
    {
      KidsOpen(links[..entries], feet, tree.kids, j);
      assert links[..entries][..j] == links[..j] && links[..entries][j + 1..] == links[j + 1..entries];
    }

    /** Records a changed child `j` in the ghost state. */
    ghost method Reseat(j: nat, kid: BTreeNode<V>, a: seq<set<object>>, c: seq<set<object>>, u: BTreeNode?<V>)
      requires Opened(j, kid, a, c)
      requires Loose(u, Others(a, c) + kid.Repr)
      modifies this`tree, this`Repr, this`feet
      ensures Valid() && tree == Inner(old(tree.keys), old(tree.kids)[j := old(kid.tree)])
      ensures Repr == Others(a, c) + old(kid.Repr)
      ensures Loose(u, Repr) && (u != null ==> u.tree == old(u.tree) && u.Repr == old(u.Repr))
    {
      ghost var ls := links[..entries];
      assert ls[..j] == links[..j] && ls[j + 1..] == links[j + 1..entries];
      KidsClose(ls, a, c, tree.kids, j, kid);
      Install(Inner(tree.keys, tree.kids[j := kid.tree]), a + [kid.Repr] + c, u);
    }

    ghost method Install(tree': Tree<V>, feet': seq<set<object>>, u: BTreeNode?<V>)
      requires u != null ==> u.Valid() && this !in u.Repr
      modifies this`tree, this`Repr, this`feet
      ensures tree == tree' && feet == feet' && Repr == Own() + Union(feet')
      ensures u != null ==> u.Valid() && u.tree == old(u.tree) && u.Repr == old(u.Repr)
    {
      tree, feet, Repr := tree', feet', Own() + Union(feet');
    }

    /** Makes `tree'` the ghost state of an inner node whose arrays hold it already. */
    ghost method InstallInner(tree': Tree<V>, feet': seq<set<object>>)
      requires isInternal && keys.Length == links.Length == M && 0 < entries <= M
      requires keys as object != vals && keys as object != links && vals as object != links
      requires tree'.Inner? && tree'.keys == keys[..entries] && |tree'.kids| == |feet'| == entries
      requires Own() !! Union(feet') && Kids(links[..entries], feet', tree'.kids)
      modifies this`tree, this`Repr, this`feet
      ensures Valid() && tree == tree' && Repr == Own() + Union(feet')
    {
      tree, feet, Repr := tree', feet', Own() + Union(feet');
    }

    lemma PairKids(x: BTreeNode<V>, y: BTreeNode<V>)
      requires links.Length == M && entries == 2 && links[..2] == [x, y]
      requires x.Valid() && y.Valid() && x.Repr !! y.Repr && Own() !! x.Repr + y.Repr
      ensures var feet' := [x.Repr, y.Repr];
        && Own() !! Union(feet') && Own() + Union(feet') == Own() + x.Repr + y.Repr
        && Kids(links[..entries], feet', [x.tree, y.tree])
    {
      KidsTwo(x, y);
    }

    ghost method InstallPair(x: BTreeNode<V>, y: BTreeNode<V>)
      requires isInternal && entries == 2 && keys.Length == links.Length == M
      requires keys as object != vals && keys as object != links && vals as object != links
      requires x.Valid() && y.Valid() && x.Repr !! y.Repr && Own() !! x.Repr + y.Repr
      requires x.tree.keys != [] && y.tree.keys != []
      requires keys[..2] == [x.tree.keys[0], y.tree.keys[0]] && links[..2] == [x, y]
      modifies this`tree, this`Repr, this`feet
      ensures Valid() && tree == Inner([x.tree.keys[0], y.tree.keys[0]], [x.tree, y.tree])
      ensures Repr == Own() + x.Repr + y.Repr
    {
      assert x != this && y != this;
      PairKids(x, y);
      InstallInner(Inner([x.tree.keys[0], y.tree.keys[0]], [x.tree, y.tree]), [x.Repr, y.Repr]);
    }

    /** The recursive call proper: only the child's objects change. */
    method InsertKid(j: nat, kid: BTreeNode<V>, key: Key, val: V, ghost h: nat, ghost a: seq<set<object>>, ghost c: seq<set<object>>, ghost others: set<object>)
      returns (u: BTreeNode?<V>)
      requires Opened(j, kid, a, c) && Shaped(kid.tree, h, MHALF) && others == Others(a, c)
      modifies kid.Repr
      ensures Opened(j, kid, a, c) && tree == old(tree)
      ensures kid.Represents(BTreeSpec.Insert(old(kid.tree), h, MHALF, key, val), u) && Loose(u, Others(a, c) + kid.Repr)
      ensures fresh(kid.With(u) - old(kid.Repr))
      decreases h, 3
    {
      u := kid.Insert(key, val, h, MHALF);
      StaysApart(others, old(kid.Repr), kid.With(u) - old(kid.Repr), kid.With(u));
    }

    /** The recursive call on child `j`; afterwards the node is whole again, except that a split child's
        new sibling is still loose. */
    method InsertBelow(j: nat, key: Key, val: V, ghost h: nat) returns (u: BTreeNode?<V>, ghost g: Grown<V>)
      requires Valid() && isInternal && j < entries && h > 0 && Shaped(tree.kids[j], h - 1, MHALF)
      modifies Repr
      ensures g == BTreeSpec.Insert(old(tree).kids[j], h - 1, MHALF, key, val)
      ensures Represents(Grown(Inner(old(tree.keys), old(tree.kids)[j := g.t]), g.u), u)
      ensures fresh(With(u) - old(Repr))
      decreases h, 0
    {
      ghost var a, c := feet[..j], feet[j + 1..];
      OpenAt(j);
      var kid := links[j];
      g := BTreeSpec.Insert(tree.kids[j], h - 1, MHALF, key, val);
      u := InsertKid(j, kid, key, val, h - 1, a, c, Others(a, c));
      Reseat(j, kid, a, c, u);
    }

    /** Hooks the loose sibling of child `j` in, and splits this node when that fills it. */
    method Absorb(j: nat, v: BTreeNode<V>, ghost h: nat, ghost least: nat) returns (u: BTreeNode?<V>)
      requires Valid() && isInternal && j < entries && Shaped(tree, h, least)
      requires v.Valid() && v.Repr !! Repr && Shaped(v.tree, h - 1, MHALF)
      modifies this`entries, this`tree, this`Repr, this`feet, keys, links
      ensures Represents(SplitFull(AttachKid(old(tree), h, least, j, old(v.tree)), h, least), u)
      ensures fresh(With(u) - old(With(v)))
    {
      Attach(j, v);
      u := SplitIfFull(h, least);
    }

    method SplitIfFull(ghost h: nat, ghost least: nat) returns (u: BTreeNode?<V>)
      requires Valid() && isInternal && Filled(tree, h, least)
      modifies this`entries, this`tree, this`Repr, this`feet
      ensures Represents(SplitFull(old(tree), h, least), u)
      ensures fresh(With(u) - old(Repr))
    {
      u := null;
      if entries == M {
        u := SplitInner();
      }
    }

    method InsertInner(key: Key, val: V, ghost h: nat, ghost least: nat) returns (u: BTreeNode?<V>)
      requires Valid() && isInternal && Shaped(tree, h, least) && least > 0
      modifies Repr
      ensures Represents(BTreeSpec.Insert(old(tree), h, least, key, val), u)
      ensures fresh(With(u) - old(Repr))
      decreases h, 1
    {
      var j := InnerScan(key);
      ghost var t := tree;
      var v;
      ghost var g;
      v, g := InsertBelow(j, key, val, h);
      ghost var mid := With(v);
      u := Hook(j, v, h, least, t, g);
      NewObjects(old(Repr), mid, With(u));
    }

    /** What is left to do once child `j` of `t` has become `g`. */
    method Hook(j: nat, v: BTreeNode?<V>, ghost h: nat, ghost least: nat, ghost t: Tree<V>, ghost g: Grown<V>) returns (u: BTreeNode?<V>)
      requires t.Inner? && Shaped(t, h, least) && j < |t.kids| && Shaped(g.t, h - 1, MHALF) && (g.u.Some? ==> Shaped(g.u.value, h - 1, MHALF))
      requires Represents(Grown(Inner(t.keys, t.kids[j := g.t]), g.u), v)
      modifies this`entries, this`tree, this`Repr, this`feet, keys, links
      ensures Represents(AbsorbKid(t, h, least, j, g), u)
      ensures fresh(With(u) - old(With(v)))
    {
      assert tree == ReplaceKid(t, h, least, j, g.t);
      if v == null {
        u := null;
      } else {
        u := Absorb(j, v, h, least);
      }
    }

    method Insert(key: Key, val: V, ghost h: nat, ghost least: nat) returns (u: BTreeNode?<V>)
      requires Valid() && Shaped(tree, h, least) && (h > 0 ==> least > 0)
      modifies Repr
      ensures Represents(BTreeSpec.Insert(old(tree), h, least, key, val), u)
      ensures fresh(With(u) - old(Repr))
      decreases h, 2
    {
      if isInternal {
        u := InsertInner(key, val, h, least);
      } else {
        u := LeafInsert(key, val, least);
      }
    }
  }

  // ---------------------------------------------------------------------------

  /** The leaf a lookup of `key` ends at: the outer loop of `getOrDefault` and `contains`. */
  method FindLeaf<V(0)>(root: BTreeNode<V>, key: Key, ghost h: nat) returns (x: BTreeNode<V>)
    requires root.Valid() && RootShaped(root.tree, h) && Ordered(root.tree, None, None)
    ensures x.Valid() && !x.isInternal && SameAt(Entries(root.tree), Entries(x.tree), key)
    ensures exists lo, hi :: Ordered(x.tree, lo, hi)
  {
    x := root;
    ghost var n, lo, hi := h, None, None;
    while x.isInternal
      invariant x.Valid() && Shaped(x.tree, n, if x.tree.Leaf? then 0 else 1) && Ordered(x.tree, lo, hi)
      invariant AtLeast(lo, key) && BTreeSpec.Below(key, hi)
      invariant SameAt(Entries(root.tree), Entries(x.tree), key)
      decreases n
    {
      x, lo, hi := Descend(x, key, n, lo, hi);
      n := n - 1;
    }
  }

  /** One turn of that loop. */
  method Descend<V(0)>(x: BTreeNode<V>, key: Key, ghost n: nat, ghost lo: Option<Key>, ghost hi: Option<Key>)
    returns (y: BTreeNode<V>, ghost lo': Option<Key>, ghost hi': Option<Key>)
    requires x.Valid() && x.isInternal && Shaped(x.tree, n, 1) && Ordered(x.tree, lo, hi)
    requires AtLeast(lo, key) && BTreeSpec.Below(key, hi)
    ensures y.Valid() && Shaped(y.tree, n - 1, MHALF) && Ordered(y.tree, lo', hi')
    ensures AtLeast(lo', key) && BTreeSpec.Below(key, hi')
    ensures SameAt(Entries(x.tree), Entries(y.tree), key)
  {
    var j := x.InnerScan(key);
    assert BTreeNode.Kid(x.links[..x.entries], x.feet, x.tree.kids, j);
    LookupStep(x.tree, lo, hi, key);
    RouteWithin(x.tree, lo, hi, key);
    y, lo', hi' := x.links[j], Low(x.tree.keys, lo, j), High(x.tree.keys, hi, j);
  }

  method CountSubTree<V(0)>(it: BTreeNode<V>, ghost h: nat, ghost least: nat) returns (result: nat)
    requires it.Valid() && Shaped(it.tree, h, least)
    ensures result == |Entries(it.tree)|
    decreases h
  {
    if it.isInternal {
      result := 0;
      for k := 0 to it.entries
        invariant result == |Flat(it.tree.kids[..k])|
      {
        assert BTreeNode.Kid(it.links[..it.entries], it.feet, it.tree.kids, k);
        var c := CountSubTree(it.links[k], h - 1, MHALF);
        FlatLast(it.tree.kids, k + 1);
        result := result + c;
      }
      assert it.tree.kids[..it.entries] == it.tree.kids;
    } else {
      result := it.entries;
    }
  }

  /** The inner loop of `next`: the child that holds the entry of rank `i`, and its rank there; none for a rank beyond the
      entries, with which the loop runs to its end and changes nothing. */
  method PickChild<V(0)>(it: BTreeNode<V>, i: nat, ghost h: nat, ghost least: nat) returns (k: Option<nat>, i': nat)
    requires it.Valid() && it.isInternal && Shaped(it.tree, h, least)
    ensures k.Some? <==> i < |Entries(it.tree)|
    ensures k.Some? ==> k.value < it.entries && i' < |Entries(it.tree.kids[k.value])|
    ensures k.Some? ==> Entries(it.tree)[i] == Entries(it.tree.kids[k.value])[i']
  {
    var sum := 0;
    for j := 0 to it.entries
      invariant sum == |Flat(it.tree.kids[..j])| <= i
    {
      assert BTreeNode.Kid(it.links[..it.entries], it.feet, it.tree.kids, j);
      var c := CountSubTree(it.links[j], h - 1, MHALF);
      FlatLast(it.tree.kids, j + 1);
      sum := sum + c;
      if sum > i {
        RankStep(it.tree.kids, j, i);
        return Some(j), i - (sum - c);
      }
    }
    assert it.tree.kids[..it.entries] == it.tree.kids;
    return None, i;
  }

  /** What `next` comes to: a pair, an index outside a leaf's arrays, or a loop that repeats itself forever. */
  datatype Reached<V> = Found(key: Key, val: V) | OutOfRange | NoEnd

  /** A new inner node with two entries; its ghost state is still blank. */
  method NewPair<V(0)>(k0: Key, x: BTreeNode<V>, k1: Key, y: BTreeNode<V>) returns (t: BTreeNode<V>)
    ensures t.isInternal && t.entries == 2 && t.keys.Length == t.links.Length == M && fresh(t.Own())
    ensures t.keys as object != t.vals && t.keys as object != t.links && t.vals as object != t.links
    ensures t.keys[..2] == [k0, k1] && t.links[..2] == [x, y]
  {
    t := new BTreeNode<V>.Blank(true);
    t.keys[0], t.keys[1] := k0, k1;
    t.links[0], t.links[1] := x, y;
    t.entries := 2;
  }

  /** The new root over the two halves of a split root. */
  method JoinHalves<V(0)>(root: BTreeNode<V>, u: BTreeNode<V>) returns (t: BTreeNode<V>)
    requires root.Valid() && u.Valid() && root.Repr !! u.Repr && root.entries > 0 && u.entries > 0
    requires |root.tree.keys| == root.entries && |u.tree.keys| == u.entries
    ensures t.Valid() && t.tree == Inner([root.tree.keys[0], u.tree.keys[0]], [root.tree, u.tree])
    ensures t.Repr == t.Own() + root.Repr + u.Repr && fresh(t.Own())
  {
    t := NewPair(root.keys[0], root, u.keys[0], u);
    t.InstallPair(root, u);
  }

  /** Insertion into a whole tree, with the split of its root. */
  method AddBelow<V(0)>(root: BTreeNode<V>, key: Key, val: V, ghost h: nat) returns (t: BTreeNode<V>)
    requires root.Valid() && RootShaped(root.tree, h)
    modifies root.Repr
    ensures t.Valid() && fresh(t.Repr - old(root.Repr))
    ensures t.tree == AddToRoot(old(root.tree), h, key, val).0
  {
    var u := root.Insert(key, val, h, if h == 0 then 0 else 2);
    if u == null {
      t := root;
    } else {
      t := JoinHalves(root, u);
    }
  }

  class BTree<V(0)> {
    var root: BTreeNode<V>
    var entries: nat
    const default: V
    ghost var height: nat

    ghost predicate Valid()
      reads this, root, root.Repr
    {
      && root.Valid() && this !in root.Repr && RootShaped(root.tree, height) && Ordered(root.tree, None, None)
      && |Pairs()| <= entries
    }

    /** The stored pairs in key order. */
    ghost function Pairs(): seq<(Key, V)>
      reads this, root
    {
      Entries(root.tree)
    }

    ghost function Contents(): map<Key, V>
      reads this, root
    {
      ToMap(Pairs())
    }

    constructor (default: V)
      ensures Valid() && fresh(root.Repr) && Pairs() == [] && entries == 0 && this.default == default
    {
      this.default := default;
      root := new BTreeNode<V>.Blank(false);
      entries := 0;
      height := 0;
    }

    method GetOrDefault(key: Key) returns (result: V)
      requires Valid()
      ensures result == if key in Contents() then Contents()[key] else default
    {
      var x := FindLeaf(root, key, height);
      ghost var lo, hi :| Ordered(x.tree, lo, hi);
      LeafMap(x.tree, lo, hi, key);
      for j := 0 to x.entries
        invariant forall i :: 0 <= i < j ==> x.tree.keys[i] != key
      {
        if x.keys[j] == key {
          return x.vals[j];
        }
      }
      result := default;
    }

    method Contains(key: Key) returns (result: bool)
      requires Valid()
      ensures result == (key in Contents())
    {
      var x := FindLeaf(root, key, height);
      ghost var lo, hi :| Ordered(x.tree, lo, hi);
      LeafMap(x.tree, lo, hi, key);
      for j := 0 to x.entries
        invariant forall i :: 0 <= i < j ==> x.tree.keys[i] != key
      {
        if x.keys[j] == key {
          return true;
        }
      }
      result := false;
    }

    /** `add`.  The counter grows even when the key was already present. */
    method Add(key: Key, val: V)
      requires Valid()
      modifies this, root.Repr
      ensures Valid() && fresh(root.Repr - old(root.Repr))
      ensures Pairs() == Put(old(Pairs()), key, val)
      ensures Contents() == old(Contents())[key := val]
      ensures entries == old(entries) + 1
      ensures (root.tree, height) == AddToRoot(old(root.tree), old(height), key, val)
    {
      ghost var t, r := root.tree, AddToRoot(root.tree, height, key, val);
      AddToRootMap(t, height, key, val);
      PutLength(Entries(t), key, val);
      var newRoot := AddBelow(root, key, val, height);
      Adopt(newRoot, r.1);
    }

    method Adopt(newRoot: BTreeNode<V>, ghost h: nat)
      requires newRoot.Valid() && this !in newRoot.Repr && RootShaped(newRoot.tree, h) && Ordered(newRoot.tree, None, None)
      requires |Entries(newRoot.tree)| <= entries + 1
      modifies this
      ensures Valid() && root == newRoot && height == h && entries == old(entries) + 1
    {
      root, entries, height := newRoot, entries + 1, h;
    }

    method HasNext(index: nat) returns (result: bool)
      ensures result == (index < entries)
    {
      result := index < entries;
    }

    /** The slots of a root that is a leaf, stored pairs first and then whatever is left in the arrays. */
    ghost function Slots(): (r: seq<(Key, V)>)
      requires Valid() && height == 0
      reads this, root, root.Repr
      ensures |r| == M && Pairs() <= r
    {
      var r := Entries(Leaf(root.keys[..], root.vals[..]));
      assert r[..|Pairs()|] == Pairs();
      r
    }

    /** All that `next` can give. */
    ghost function Yields(): (r: seq<(Key, V)>)
      requires Valid()
      reads this, root, root.Repr
      ensures Pairs() <= r
    {
      if height == 0 then Slots() else Pairs()
    }

    /** `next`: the pair of rank `index`.  Beyond the stored pairs, which `hasNext` lets through once a key has been
        overwritten, it reads a stale slot of a leaf root, and never leaves an inner root. */
    method Next(index: nat) returns (r: Reached<V>, index': nat)
      requires Valid()
      ensures index' == index + 1
      ensures index < |Pairs()| ==> r == Found(Pairs()[index].0, Pairs()[index].1)
      ensures index >= |Pairs()| && height > 0 ==> r == NoEnd
      ensures height == 0 ==> r == if index < M then Found(Slots()[index].0, Slots()[index].1) else OutOfRange
      ensures r.Found? <==> index < |Yields()|
      ensures r.Found? ==> (r.key, r.val) == Yields()[index]
    {
      var it: BTreeNode<V> := root;
      var i: nat := index;
      ghost var h, least := height, if height == 0 then 0 else 2;
      index' := index + 1;
      while it.isInternal
        invariant it.Valid() && Shaped(it.tree, h, least)
        invariant (it == root && i == index && h == height)
               || (height > 0 && i < |Entries(it.tree)| && index < |Pairs()| && Pairs()[index] == Entries(it.tree)[i])
        decreases h
      {
        var k;
        k, i := PickChild(it, i, h, least);
        if k.None? {
          return NoEnd, index';
        }
        assert BTreeNode.Kid(it.links[..it.entries], it.feet, it.tree.kids, k.value);
        it := it.links[k.value];
        h, least := h - 1, MHALF;
      }
      if i >= M {
        return OutOfRange, index';
      }
      r := Found(it.keys[i], it.vals[i]);
    }

    /** What the first `entries` of those are. */
    lemma Taken(result: seq<(Key, V)>)
      requires Valid() && result == Yields()[..if entries <= |Yields()| then entries else |Yields()|]
      ensures Pairs() <= result && (entries == |Pairs()| || height > 0 ==> result == Pairs())
      ensures height == 0 ==> result == Slots()[..if entries <= M then entries else M]
      ensures entries <= |Yields()| <==> entries == |Pairs()| || (height == 0 && entries <= M)
      ensures forall i, j :: 0 <= i < j < |Pairs()| ==> result[i].0 < result[j].0
    {
      OrderedEntries(root.tree, None, None);
    }

    /** The `pairs` iterator run to its end, or as far as it gets. */
    method AllPairs() returns (result: seq<(Key, V)>, ended: bool)
      requires Valid()
      ensures Pairs() <= result && (entries == |Pairs()| || height > 0 ==> result == Pairs())
      ensures height == 0 ==> result == Slots()[..if entries <= M then entries else M]
      ensures ended <==> entries == |Pairs()| || (height == 0 && entries <= M)
      ensures forall i, j :: 0 <= i < j < |Pairs()| ==> result[i].0 < result[j].0
    {
      result := [];
      var i: nat := 0;
      var more := HasNext(i);
      while more
        invariant i <= entries && more == (i < entries)
        invariant i <= |Yields()| && result == Yields()[..i]
        decreases entries - i
      {
        var r, i2 := Next(i);
        if !r.Found? {
          Taken(result);
          return result, false;
        }
        TakeNext(Yields(), i);
        result := result + [(r.key, r.val)];
        i := i2;
        more := HasNext(i);
      }
      Taken(result);
      ended := true;
    }
  }

  lemma TakeNext<T>(s: seq<T>, i: nat)
    requires i < |s|
    ensures s[..i + 1] == s[..i] + [s[i]]
  {
  }

  lemma {:induction false} PutLength<V>(es: seq<(Key, V)>, key: Key, val: V)
    ensures |Put(es, key, val)| <= |es| + 1
  {
    if es != [] {
      PutLength(es[1..], key, val);
    }
  }

  lemma LeafPosUnique(keys: seq<Key>, key: Key, j: nat)
    requires j <= |keys| && (forall i :: 0 <= i < j ==> keys[i] < key) && (j < |keys| ==> key <= keys[j])
    ensures j == LeafPos(keys, key)
  {
  }

  lemma RouteUnique(keys: seq<Key>, key: Key, j: nat)
    requires j < |keys| && (forall i :: 0 < i <= j ==> keys[i] <= key) && (j + 1 < |keys| ==> key < keys[j + 1])
    ensures j == Route(keys, key)
  {
  }
}
