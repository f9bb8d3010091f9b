/** Types as a graph that may be cyclic, and which of them lie inside which. */
module TypeGraphs {
  import opened Wrappers

  type TypeId = int

  /** The record part of an object type. */
  datatype Rec =
    | RecList(kids: seq<Rec>)
    | RecCase(discriminator: Option<TypeId>, branches: seq<Branch>)
    | RecSym(typ: Option<TypeId>)
    | OtherRec

  /** Of a branch only the last son counts; a case may also hold nodes that are no branches. */
  datatype Branch = Branch(last: Rec) | NoBranch

  /** A base class is given with its pointer types skipped. */
  datatype Type =
    | Object(base: Option<TypeId>, n: Rec)
    | Modifier(son: Option<TypeId>)
    | SetOrArray(elem: Option<TypeId>)
    | Tuple(kids: seq<Option<TypeId>>)
    | OtherType

  type Graph = map<TypeId, Type>

  // ---------------------------------------------------------------- value edges

  function Opt(t: Option<TypeId>): set<TypeId>
  {
    if t.None? then {} else {t.value}
  }

  function OptAll(ts: seq<Option<TypeId>>): set<TypeId>
  {
    if ts == [] then {} else Opt(ts[0]) + OptAll(ts[1..])
  }

  function InRec(n: Rec): set<TypeId>
  {
    match n
    case RecList(kids) => InRecs(kids)
    case RecCase(d, branches) => Opt(d) + InBranches(branches)
    case RecSym(t) => Opt(t)
    case OtherRec => {}
  }

  function InRecs(ns: seq<Rec>): set<TypeId>
  {
    if ns == [] then {} else InRec(ns[0]) + InRecs(ns[1..])
  }

  function InBranch(b: Branch): set<TypeId>
  {
    match b
    case Branch(last) => InRec(last)
    case NoBranch => {}
  }

  function InBranches(bs: seq<Branch>): set<TypeId>
  {
    if bs == [] then {} else InBranch(bs[0]) + InBranches(bs[1..])
  }

  /** The types whose values lie directly inside a value of type `t`. */
  function Inside(t: Type): set<TypeId>
  {
    match t
    case Object(base, n) => Opt(base) + InRec(n)
    case Modifier(son) => Opt(son)
    case SetOrArray(elem) => Opt(elem)
    case Tuple(kids) => OptAll(kids)
    case OtherType => {}
  }

  /** Types of the graph together with all that lies inside them. */
  ghost predicate Closed(g: Graph, d: set<TypeId>)
  {
    forall t :: t in d ==> t in g && Inside(g[t]) <= d
  }

  ghost predicate IsPath(g: Graph, p: seq<TypeId>)
  {
    |p| > 0 && p[0] in g && (|p| > 1 ==> p[1] in Inside(g[p[0]]) && IsPath(g, p[1..]))
  }

  ghost predicate Reaches(g: Graph, t: TypeId, x: TypeId)
  {
    exists p :: IsPath(g, p) && p[0] == t && p[|p| - 1] == x
  }

  lemma {:induction false} PathStays(g: Graph, p: seq<TypeId>, s: set<TypeId>)
    requires IsPath(g, p) && p[0] in s && Closed(g, s)
    ensures p[|p| - 1] in s
  {
    if |p| > 1 {
      var t := p[0];
      assert t in s;
      assert p[1] in Inside(g[t]);
      PathStays(g, p[1..], s);
    }
  }

  lemma {:induction false} PathExtends(g: Graph, p: seq<TypeId>, y: TypeId)
    requires IsPath(g, p) && p[|p| - 1] in g && y in g && y in Inside(g[p[|p| - 1]])
    ensures IsPath(g, p + [y])
  {
    var q := p + [y];
    if |p| == 1 {
      assert q[1..] == [y] && IsPath(g, [y]);
    } else {
      PathExtends(g, p[1..], y);
      assert q[1..] == p[1..] + [y];
    }
  }

  ghost function AllReached(g: Graph, t: TypeId): set<TypeId>
  {
    set x | x in g && Reaches(g, t, x)
  }

  lemma ReachedClosed(g: Graph, t: TypeId)
    requires t in g && Closed(g, g.Keys)
    ensures t in AllReached(g, t) && Closed(g, AllReached(g, t))
  {
    assert IsPath(g, [t]);
    forall x, y | x in AllReached(g, t) && y in Inside(g[x])
      ensures y in AllReached(g, t)
    {
      var p :| IsPath(g, p) && p[0] == t && p[|p| - 1] == x;
      assert y in g;
      PathExtends(g, p, y);
      assert (p + [y])[0] == t && (p + [y])[|p + [y]| - 1] == y;
    }
  }
}
