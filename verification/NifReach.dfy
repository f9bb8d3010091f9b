/** Which items the NIF writer defines: exactly the definable ones it can reach. */
module NifReach {
  import opened Wrappers
  import opened NifWriter

  ghost function Opt(x: Option<Item>): set<Item>
  {
    if x.None? then {} else {x.value}
  }

  /** The items written when `n` itself is written, not counting what their definitions mention. */
  ghost function Mentions(g: Graph, n: Node): set<Item>
  {
    match n
    case NilNode => {}
    case Empty => {}
    case TypedEmpty(_, t) => {Typ(t)}
    case SymNode(s, t) => {Sym(s)} + if t == SymTyp(g, s) then {} else Opt(TypItem(t))
    case Atomic(_, _, t) => Opt(TypItem(t))
    case Inner(_, _, t, sons) => Opt(TypItem(t)) + AllMentions(g, sons)
  }

  ghost function AllMentions(g: Graph, ns: seq<Node>): set<Item>
  {
    if ns == [] then {} else Mentions(g, ns[0]) + AllMentions(g, ns[1..])
  }

  ghost function FieldMentions(g: Graph, f: Field): set<Item>
  {
    match f
    case Atom(_) => {}
    case TypeRef(t) => Opt(TypItem(t))
    case SymRef(s) => Opt(SymItem(s))
    case Tree(n) => Mentions(g, n)
    case Annex(lib) => if lib.None? then {} else Mentions(g, lib.value.path)
  }

  ghost function FieldsMentions(g: Graph, fs: seq<Field>): set<Item>
  {
    if fs == [] then {} else FieldMentions(g, fs[0]) + FieldsMentions(g, fs[1..])
  }

  /** Every definable item of `roots` is sealed in the end, and so is every definable item that the
      definition of a newly sealed item mentions. */
  ghost predicate Covers(g: Graph, sealed: set<Item>, sealed': set<Item>, roots: set<Item>)
  {
    && (forall x :: x in roots && Definable(g, x) ==> x in sealed')
    && (forall x :: x in sealed' && x !in sealed ==> Definable(g, x) && Closed(g, x, sealed'))
  }

  ghost predicate Closed(g: Graph, x: Item, s: set<Item>)
  {
    InGraph(g, x) ==> forall y :: y in FieldsMentions(g, Body(g, x)) && Definable(g, y) ==> y in s
  }

  /** `r` contains `sealed` and is closed under mentions, except perhaps those of items already sealed. */
  ghost predicate ClosedAbove(g: Graph, sealed: set<Item>, r: set<Item>)
  {
    sealed <= r && forall x :: x in r && x !in sealed ==> Closed(g, x, r)
  }

  /** `sealed'` is the least closed set above `sealed` that has the definable roots. */
  ghost predicate Exact(g: Graph, sealed: set<Item>, sealed': set<Item>, roots: set<Item>, r: set<Item>)
  {
    && sealed <= sealed'
    && Covers(g, sealed, sealed', roots)
    && (ClosedAbove(g, sealed, r) && (forall x :: x in roots && Definable(g, x) ==> x in r) ==> sealed' <= r)
  }

  lemma ExactNothing(g: Graph, sealed: set<Item>, roots: set<Item>, r: set<Item>)
    requires forall x :: x in roots && Definable(g, x) ==> x in sealed
    ensures Exact(g, sealed, sealed, roots, r)
  {
  }

  lemma ExactThen(g: Graph, s0: set<Item>, s1: set<Item>, s2: set<Item>, a: set<Item>, b: set<Item>, r: set<Item>)
    requires Exact(g, s0, s1, a, r) && Exact(g, s1, s2, b, r)
    ensures Exact(g, s0, s2, a + b, r)
  {
  }

  /** Sealing `x` first and then writing its definition. */
  lemma ExactSeal(g: Graph, sealed: set<Item>, sealed': set<Item>, x: Item, r: set<Item>)
    requires Definable(g, x) && x !in sealed
    requires Exact(g, sealed + {x}, sealed', FieldsMentions(g, Body(g, x)), r)
    ensures Exact(g, sealed, sealed', {x}, r)
  {
  }

  lemma {:induction false} DefExact(g: Graph, sealed: set<Item>, x: Item, r: set<Item>)
    requires InGraph(g, x)
    ensures Exact(g, sealed, WDef(g, sealed, x).sealed, FieldsMentions(g, Body(g, x)), r)
    decreases Unsealed(g, sealed), 4, 0
  {
    FieldsExact(g, sealed, Body(g, x), r);
  }

  lemma {:induction false} RefExact(g: Graph, sealed: set<Item>, x: Option<Item>, r: set<Item>)
    ensures Exact(g, sealed, WRef(g, sealed, x).sealed, Opt(x), r)
    decreases Unsealed(g, sealed), 1, 0
  {
    if x.Some? && Definable(g, x.value) && x.value !in sealed {
      SealShrinks(g, sealed, x.value);
      DefExact(g, sealed + {x.value}, x.value, r);
      ExactSeal(g, sealed, WRef(g, sealed, x).sealed, x.value, r);
    } else {
      ExactNothing(g, sealed, Opt(x), r);
    }
  }

  lemma {:induction false} FieldsExact(g: Graph, sealed: set<Item>, fs: seq<Field>, r: set<Item>)
    ensures Exact(g, sealed, WFields(g, sealed, fs).sealed, FieldsMentions(g, fs), r)
    decreases Unsealed(g, sealed), 3, |fs|
  {
    if fs == [] {
      ExactNothing(g, sealed, {}, r);
    } else {
      var a := WField(g, sealed, fs[0]);
      MoreSealed(g, sealed, a.sealed);
      FieldExact(g, sealed, fs[0], r);
      FieldsExact(g, a.sealed, fs[1..], r);
      ExactThen(g, sealed, a.sealed, WFields(g, sealed, fs).sealed, FieldMentions(g, fs[0]), FieldsMentions(g, fs[1..]), r);
    }
  }

  lemma {:induction false} FieldExact(g: Graph, sealed: set<Item>, f: Field, r: set<Item>)
    ensures Exact(g, sealed, WField(g, sealed, f).sealed, FieldMentions(g, f), r)
    decreases Unsealed(g, sealed), 3, 0
  {
    match f
    case Atom(t) => ExactNothing(g, sealed, {}, r);
    case TypeRef(t) => RefExact(g, sealed, TypItem(t), r);
    case SymRef(s) => RefExact(g, sealed, SymItem(s), r);
    case Tree(n) => NodeExact(g, sealed, n, r);
    case Annex(lib) =>
      if lib.None? {
        ExactNothing(g, sealed, {}, r);
      } else {
        NodeExact(g, sealed, lib.value.path, r);
      }
  }

  /** Writing a tree defines exactly the definable items it can reach and that were not sealed before:
      `sealed'` is closed under mentions and contained in every closed set `r` that has the tree's own items. */
  lemma {:induction false} NodeExact(g: Graph, sealed: set<Item>, n: Node, r: set<Item>)
    ensures Exact(g, sealed, WNode(g, sealed, n).sealed, Mentions(g, n), r)
    decreases Unsealed(g, sealed), 2, n, 1
  {
    match n
    case NilNode => ExactNothing(g, sealed, {}, r);
    case Empty => ExactNothing(g, sealed, {}, r);
    case TypedEmpty(flags, t) => RefExact(g, sealed, Some(Typ(t)), r);
    case SymNode(s, t) => SymNodeExact(g, sealed, s, t, r);
    case Atomic(value, flags, t) => RefExact(g, sealed, TypItem(t), r);
    case Inner(tag, flags, t, sons) =>
      var h := WHead(g, sealed, NkOther(tag), flags, t);
      RefExact(g, sealed, TypItem(t), r);
      MoreSealed(g, sealed, h.sealed);
      NodesExact(g, h.sealed, sons, r);
      ExactThen(g, sealed, h.sealed, WNodes(g, h.sealed, sons).sealed, Opt(TypItem(t)), AllMentions(g, sons), r);
  }

  lemma {:induction false} NodesExact(g: Graph, sealed: set<Item>, ns: seq<Node>, r: set<Item>)
    ensures Exact(g, sealed, WNodes(g, sealed, ns).sealed, AllMentions(g, ns), r)
    decreases Unsealed(g, sealed), 2, ns, 0
  {
    if ns == [] {
      ExactNothing(g, sealed, {}, r);
    } else {
      var a := WNode(g, sealed, ns[0]);
      NodeExact(g, sealed, ns[0], r);
      MoreSealed(g, sealed, a.sealed);
      NodesExact(g, a.sealed, ns[1..], r);
      ExactThen(g, sealed, a.sealed, WNodes(g, a.sealed, ns[1..]).sealed, Mentions(g, ns[0]), AllMentions(g, ns[1..]), r);
    }
  }

  lemma {:induction false} SymNodeExact(g: Graph, sealed: set<Item>, s: SymId, t: Option<TypeId>, r: set<Item>)
    ensures Exact(g, sealed, WSymNode(g, sealed, s, t).sealed, {Sym(s)} + if t == SymTyp(g, s) then {} else Opt(TypItem(t)), r)
    decreases Unsealed(g, sealed), 1, 2
  {
    var x := Sym(s);
    if Definable(g, x) && x !in sealed {
      SealShrinks(g, sealed, x);
      if t == SymTyp(g, s) {
        var sealed' := PlainExact(g, sealed, x, r);
        assert {x} + {} == {x};
      } else {
        var sealed' := HiddenExact(g, sealed, x, t, r);
      }
    } else if t == SymTyp(g, s) {
      ExactNothing(g, sealed, {x}, r);
      assert {x} + {} == {x};
    } else {
      LaterExact(g, sealed, x, t, r);
    }
  }

  lemma {:induction false} PlainExact(g: Graph, sealed: set<Item>, x: Item, r: set<Item>) returns (sealed': set<Item>)
    requires Definable(g, x) && x !in sealed
    ensures sealed' == WDef(g, sealed + {x}, x).sealed && Exact(g, sealed, sealed', {x}, r)
    decreases Unsealed(g, sealed + {x}), 5
  {
    sealed' := WDef(g, sealed + {x}, x).sealed;
    DefExact(g, sealed + {x}, x, r);
    ExactSeal(g, sealed, sealed', x, r);
  }

  lemma {:induction false} LaterExact(g: Graph, sealed: set<Item>, x: Item, t: Option<TypeId>, r: set<Item>)
    requires !Definable(g, x) || x in sealed
    ensures Exact(g, sealed, WRef(g, sealed, TypItem(t)).sealed, {x} + Opt(TypItem(t)), r)
    decreases Unsealed(g, sealed), 1, 1
  {
    ExactNothing(g, sealed, {x}, r);
    RefExact(g, sealed, TypItem(t), r);
    ExactThen(g, sealed, sealed, WRef(g, sealed, TypItem(t)).sealed, {x}, Opt(TypItem(t)), r);
  }

  /** A first occurrence with a type of its own: the type is written before the definition. */
  lemma {:induction false} HiddenExact(g: Graph, sealed: set<Item>, x: Item, t: Option<TypeId>, r: set<Item>) returns (sealed': set<Item>)
    requires Definable(g, x) && x !in sealed
    ensures sealed' == WDef(g, WRef(g, sealed + {x}, TypItem(t)).sealed, x).sealed
    ensures Exact(g, sealed, sealed', {x} + Opt(TypItem(t)), r)
    decreases Unsealed(g, sealed + {x}), 5
  {
    sealed' := TypeThenFieldsExact(g, sealed + {x}, Body(g, x), t, r);
    ExactSealWith(g, sealed, sealed', x, Opt(TypItem(t)), r);
  }

  lemma {:induction false} TypeThenFieldsExact(g: Graph, sealed: set<Item>, fs: seq<Field>, t: Option<TypeId>, r: set<Item>) returns (sealed': set<Item>)
    ensures sealed' == WFields(g, WRef(g, sealed, TypItem(t)).sealed, fs).sealed
    ensures Exact(g, sealed, sealed', Opt(TypItem(t)) + FieldsMentions(g, fs), r)
    decreases Unsealed(g, sealed), 4, 1
  {
    var mid := WRef(g, sealed, TypItem(t)).sealed;
    MoreSealed(g, sealed, mid);
    RefExact(g, sealed, TypItem(t), r);
    FieldsExact(g, mid, fs, r);
    sealed' := WFields(g, mid, fs).sealed;
    ExactThen(g, sealed, mid, sealed', Opt(TypItem(t)), FieldsMentions(g, fs), r);
  }

  lemma ExactSealWith(g: Graph, sealed: set<Item>, sealed': set<Item>, x: Item, extra: set<Item>, r: set<Item>)
    requires Definable(g, x) && x !in sealed
    requires Exact(g, sealed + {x}, sealed', extra + FieldsMentions(g, Body(g, x)), r)
    ensures Exact(g, sealed, sealed', {x} + extra, r)
  {
    var body := FieldsMentions(g, Body(g, x));
    assert forall y :: y in extra || y in body ==> y in extra + body;
    assert x in sealed' && Closed(g, x, sealed');
    forall y | y in sealed' && y !in sealed
      ensures Definable(g, y) && Closed(g, y, sealed')
    {
    }
    if ClosedAbove(g, sealed, r) && (forall y :: y in {x} + extra && Definable(g, y) ==> y in r) {
      assert x in {x} + extra && Closed(g, x, r);
      assert forall y :: y in extra ==> y in {x} + extra;
      assert ClosedAbove(g, sealed + {x}, r);
    }
  }

  // ---------------------------------------------------------------------------
  // Reachability spelled out.

  /** Definable items, each mentioned by the definition of the one before it. */
  ghost predicate ItemPath(g: Graph, p: seq<Item>)
  {
    |p| > 0 && Definable(g, p[0]) && (|p| > 1 ==> p[1] in FieldsMentions(g, Body(g, p[0])) && ItemPath(g, p[1..]))
  }

  ghost predicate Reachable(g: Graph, ns: seq<Node>, x: Item)
  {
    exists p :: ItemPath(g, p) && p[0] in AllMentions(g, ns) && p[|p| - 1] == x
  }

  lemma {:induction false} PathStays(g: Graph, p: seq<Item>, s: set<Item>)
    requires ItemPath(g, p) && p[0] in s && forall x | x in s :: Closed(g, x, s)
    ensures p[|p| - 1] in s
  {
    if |p| > 1 {
      var x := p[0];
      assert Closed(g, x, s);
      assert p[1..][0] == p[1] && Definable(g, p[1]);
      PathStays(g, p[1..], s);
    }
  }

  lemma {:induction false} PathExtends(g: Graph, p: seq<Item>, y: Item)
    requires ItemPath(g, p) && Definable(g, p[|p| - 1]) && Definable(g, y) && y in FieldsMentions(g, Body(g, p[|p| - 1]))
    ensures ItemPath(g, p + [y])
  {
    var q := p + [y];
    if |p| == 1 {
      assert q[1..] == [y] && ItemPath(g, [y]);
    } else {
      PathExtends(g, p[1..], y);
      assert q[1..] == p[1..] + [y];
    }
  }

  ghost function AllReachable(g: Graph, ns: seq<Node>): set<Item>
  {
    set x | x in Definables(g) && Reachable(g, ns, x)
  }

  lemma InDefinables(g: Graph, x: Item)
    requires Definable(g, x)
    ensures x in Definables(g)
  {
  }

  lemma ReachableStep(g: Graph, ns: seq<Node>, x: Item, y: Item)
    requires x in AllReachable(g, ns) && Definable(g, x) && y in FieldsMentions(g, Body(g, x)) && Definable(g, y)
    ensures y in AllReachable(g, ns)
  {
    var p :| ItemPath(g, p) && p[0] in AllMentions(g, ns) && p[|p| - 1] == x;
    PathExtends(g, p, y);
    assert (p + [y])[0] in AllMentions(g, ns) && (p + [y])[|p + [y]| - 1] == y;
    InDefinables(g, y);
  }

  lemma RootReachable(g: Graph, ns: seq<Node>, x: Item)
    requires x in AllMentions(g, ns) && Definable(g, x)
    ensures x in AllReachable(g, ns)
  {
    assert ItemPath(g, [x]) && [x][0] in AllMentions(g, ns);
    InDefinables(g, x);
  }

  lemma ReachableClosed(g: Graph, ns: seq<Node>)
    ensures ClosedAbove(g, {}, AllReachable(g, ns))
    ensures forall x :: x in AllMentions(g, ns) && Definable(g, x) ==> x in AllReachable(g, ns)
  {
    var r := AllReachable(g, ns);
    forall x | x in r
      ensures Closed(g, x, r)
    {
      forall y | InGraph(g, x) && y in FieldsMentions(g, Body(g, x)) && Definable(g, y)
        ensures y in r
      {
        ReachableStep(g, ns, x, y);
      }
    }
    forall x | x in AllMentions(g, ns) && Definable(g, x)
      ensures x in r
    {
      RootReachable(g, ns, x);
    }
  }

  /** Writing trees one after the other gives every definable item that they reach exactly one definition, whatever the
      cycles, and nothing else any. */
  lemma ReachableDefinedOnce(g: Graph, ns: seq<Node>, x: Item)
    ensures DefCount(WNodes(g, {}, ns).toks, x) == if Reachable(g, ns, x) then 1 else 0
  {
    var sealed' := WNodes(g, {}, ns).sealed;
    NodesOnce(g, {}, ns, x);
    ReachableClosed(g, ns);
    NodesExact(g, {}, ns, AllReachable(g, ns));
    if Reachable(g, ns, x) {
      var p :| ItemPath(g, p) && p[0] in AllMentions(g, ns) && p[|p| - 1] == x;
      assert forall y | y in sealed' :: Closed(g, y, sealed');
      PathStays(g, p, sealed');
    }
  }
}
