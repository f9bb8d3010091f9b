/** `aliases`: the three-valued comparison of two access paths. */
module AccessPaths {
  import opened Wrappers

  datatype Index = Literal(value: int) | Runtime(variable: int)

  /** Expressions as far as the comparison looks at them: conversions and checked fields are passed through to their
      first or second son, an address-of to its operand. */
  datatype Expr =
    | Sym(sym: int)
    | Dot(obj: Expr, field: int)
    | Bracket(arr: Expr, index: Index)
    | Deref(hidden: bool, ptr: Expr)
    | Addr(hiddenAddr: bool, loc: Expr)
    | Conv(kind: int, inner: Expr)
    | Other

  /** What is kept of a node on the way from an expression down to its root. */
  datatype Node = SymNode(sym: int) | DotNode(field: int) | BracketNode(index: Index) | DerefNode(hidden: bool)

  datatype AliasKind = Yes | No | Maybe

  // ---------------------------------------------------------------- collecting the important nodes

  function Cons(n: Node, rest: Option<seq<Node>>): Option<seq<Node>>
  {
    if rest.None? then None else Some([n] + rest.value)
  }

  /** The important nodes, outermost first; none for an expression that is no path. */
  function Important(e: Expr): (r: Option<seq<Node>>)
    ensures r.Some? ==> r.value != []
  {
    match e
    case Sym(s) => Some([SymNode(s)])
    case Dot(o, f) => Cons(DotNode(f), Important(o))
    case Bracket(a, i) => Cons(BracketNode(i), Important(a))
    case Deref(h, p) => Cons(DerefNode(h), Important(p))
    case Addr(_, l) => Important(l)
    case Conv(_, x) => Important(x)
    case Other => None
  }

  function After(done: seq<Node>, rest: Option<seq<Node>>): Option<seq<Node>>
  {
    if rest.None? then None else Some(done + rest.value)
  }

  lemma AfterCons(done: seq<Node>, n: Node, rest: Option<seq<Node>>)
    ensures After(done + [n], rest) == After(done, Cons(n, rest))
  {
    if rest.Some? {
      assert (done + [n]) + rest.value == done + ([n] + rest.value);
    }
  }

  method CollectImportantNodes(e: Expr) returns (result: Option<seq<Node>>)
    ensures result == Important(e)
  {
    var nodes: seq<Node> := [];
    var n := e;
    assert Important(e).Some? ==> [] + Important(e).value == Important(e).value;
    while true
      invariant After(nodes, Important(n)) == Important(e)
      decreases n
    {
      match n
      case Addr(_, l) => n := l;
      case Conv(_, x) => n := x;
      case Dot(o, f) =>
        AfterCons(nodes, DotNode(f), Important(o));
        nodes := nodes + [DotNode(f)];
        n := o;
      case Bracket(a, i) =>
        AfterCons(nodes, BracketNode(i), Important(a));
        nodes := nodes + [BracketNode(i)];
        n := a;
      case Deref(h, p) =>
        AfterCons(nodes, DerefNode(h), Important(p));
        nodes := nodes + [DerefNode(h)];
        n := p;
      case Sym(s) =>
        nodes := nodes + [SymNode(s)];
        return Some(nodes);
      case Other =>
        return None;
    }
  }

  // ---------------------------------------------------------------- comparing them from the root

  predicate SameKind(a: Node, b: Node)
  {
    match (a, b)
    case (SymNode(_), SymNode(_)) => true
    case (DotNode(_), DotNode(_)) => true
    case (BracketNode(_), BracketNode(_)) => true
    case (DerefNode(h), DerefNode(k)) => h == k
    case _ => false
  }

  function Compared(a: Node, b: Node): AliasKind
  {
    if !SameKind(a, b) then No
    else
      match (a, b)
      case (BracketNode(Literal(x)), BracketNode(Literal(y))) => if x == y then Yes else No
      case (BracketNode(_), BracketNode(_)) => Maybe
      case _ => if a == b then Yes else No
  }

  function NodeAt(nodes: seq<Node>, k: nat): Node
    requires k < |nodes|
  {
    nodes[|nodes| - 1 - k]
  }

  /** The verdict on the first `n` steps from the root. */
  function Verdict(o: seq<Node>, f: seq<Node>, n: nat): AliasKind
    requires n <= |o| <= |f|
  {
    if n == 0 then Yes
    else
      var before := Verdict(o, f, n - 1);
      match Compared(NodeAt(o, n - 1), NodeAt(f, n - 1))
      case No => No
      case Maybe => if before == No then No else Maybe
      case Yes => before
  }

  function Aliased(obj: Expr, field: Expr): AliasKind
  {
    var o, f := Important(obj), Important(field);
    if o.None? || f.None? || |f.value| < |o.value| then No
    else Verdict(o.value, f.value, |o.value|)
  }

  method Aliases(obj: Expr, field: Expr) returns (result: AliasKind)
    ensures result == Aliased(obj, field)
  {
    var objNodes := CollectImportantNodes(obj);
    if objNodes.None? {
      return No;
    }
    var fieldNodes := CollectImportantNodes(field);
    if fieldNodes.None? {
      return No;
    }
    var o, f := objNodes.value, fieldNodes.value;
    if |f| < |o| {
      return No;
    }
    result := Yes;
    for i := 1 to |o| + 1
      invariant result == Verdict(o, f, i - 1) && result != No
    {
      var currFieldPath, currObjPath := f[|f| - i], o[|o| - i];
      assert currFieldPath == NodeAt(f, i - 1) && currObjPath == NodeAt(o, i - 1);
      if !SameKind(currFieldPath, currObjPath) {
        NoStays(o, f, i, |o|);
        return No;
      }
      match currFieldPath
      case SymNode(s) =>
        if s != currObjPath.sym {
          NoStays(o, f, i, |o|);
          return No;
        }
      case DotNode(x) =>
        if x != currObjPath.field {
          NoStays(o, f, i, |o|);
          return No;
        }
      case DerefNode(_) =>
      case BracketNode(index) =>
        if index.Literal? && currObjPath.index.Literal? {
          if index.value != currObjPath.index.value {
            NoStays(o, f, i, |o|);
            return No;
          }
        } else {
          result := Maybe;
        }
    }
  }

  lemma {:induction false} NoStays(o: seq<Node>, f: seq<Node>, n: nat, m: nat)
    requires n <= m <= |o| <= |f| && Verdict(o, f, n) == No
    ensures Verdict(o, f, m) == No
  {
    if n < m {
      NoStays(o, f, n, m - 1);
    }
  }

  // ---------------------------------------------------------------- what the paths mean

  /** A step of an access path with its index evaluated. */
  datatype Step = Root(sym: int) | Field(field: int) | Elem(i: int) | Pointee(hidden: bool)

  function StepOf(n: Node, value: int): Step
  {
    match n
    case SymNode(s) => Root(s)
    case DotNode(f) => Field(f)
    case BracketNode(Literal(c)) => Elem(c)
    case BracketNode(Runtime(_)) => Elem(value)
    case DerefNode(h) => Pointee(h)
  }

  /** `v` gives the value of a runtime index for each place of the path. */
  function StepAt(nodes: seq<Node>, v: int -> int, k: nat): Step
    requires k < |nodes|
  {
    StepOf(NodeAt(nodes, k), v(k))
  }

  /** The location `o` denotes under `v` contains the one `f` denotes under `w`: its path is a prefix. */
  ghost predicate Contains(o: seq<Node>, v: int -> int, f: seq<Node>, w: int -> int)
  {
    |o| <= |f| && forall k :: 0 <= k < |o| ==> StepAt(o, v, k) == StepAt(f, w, k)
  }

  /** The values that make two paths meet if anything can. */
  function Meeting(nodes: seq<Node>, k: int): int
  {
    if 0 <= k < |nodes| && NodeAt(nodes, k).BracketNode? && NodeAt(nodes, k).index.Literal? then NodeAt(nodes, k).index.value else 0
  }

  function Meet(nodes: seq<Node>): int -> int
  {
    k => Meeting(nodes, k)
  }

  function Bumped(v: int -> int, at: int): int -> int
  {
    k => if k == at then v(k) + 1 else v(k)
  }

  lemma {:induction false} VerdictNever(o: seq<Node>, f: seq<Node>, n: nat, v: int -> int, w: int -> int) returns (k: nat)
    requires n <= |o| <= |f| && Verdict(o, f, n) == No
    ensures k < n && StepAt(o, v, k) != StepAt(f, w, k)
  {
    if Compared(NodeAt(o, n - 1), NodeAt(f, n - 1)) == No {
      k := n - 1;
    } else {
      k := VerdictNever(o, f, n - 1, v, w);
    }
  }

  lemma {:induction false} VerdictMeets(o: seq<Node>, f: seq<Node>, n: nat, k: nat)
    requires k < n <= |o| <= |f| && Verdict(o, f, n) != No
    ensures StepAt(o, Meet(f), k) == StepAt(f, Meet(o), k)
  {
    if k < n - 1 {
      VerdictMeets(o, f, n - 1, k);
    }
  }

  lemma {:induction false} VerdictParts(o: seq<Node>, f: seq<Node>, n: nat) returns (v: int -> int, w: int -> int, k: nat)
    requires n <= |o| <= |f| && Verdict(o, f, n) == Maybe
    ensures k < n && StepAt(o, v, k) != StepAt(f, w, k)
  {
    k := n - 1;
    if Compared(NodeAt(o, k), NodeAt(f, k)) == Maybe {
      v, w := Meet(f), Meet(o);
      if StepAt(o, v, k) == StepAt(f, w, k) {
        if NodeAt(o, k).index.Runtime? {
          v := Bumped(v, k);
        } else {
          w := Bumped(w, k);
        }
      }
    } else {
      v, w, k := VerdictParts(o, f, n - 1);
    }
  }

  lemma {:induction false} VerdictAlways(o: seq<Node>, f: seq<Node>, n: nat, v: int -> int, w: int -> int, k: nat)
    requires k < n <= |o| <= |f| && Verdict(o, f, n) == Yes
    ensures StepAt(o, v, k) == StepAt(f, w, k)
  {
    if k < n - 1 {
      VerdictAlways(o, f, n - 1, v, w, k);
    }
  }

  ghost predicate AlwaysContains(o: seq<Node>, f: seq<Node>)
  {
    forall v: int -> int, w: int -> int :: Contains(o, v, f, w)
  }

  ghost predicate NeverContains(o: seq<Node>, f: seq<Node>)
  {
    forall v: int -> int, w: int -> int :: !Contains(o, v, f, w)
  }

  /** For two paths, `yes` is answered exactly if one contains the other whatever the runtime indexes are, and `no` exactly
      if it never does; `maybe` is left for the rest. */
  lemma VerdictExact(o: seq<Node>, f: seq<Node>)
    requires |o| <= |f|
    ensures Verdict(o, f, |o|) == Yes <==> AlwaysContains(o, f)
    ensures Verdict(o, f, |o|) == No <==> NeverContains(o, f)
  {
    var n := |o|;
    match Verdict(o, f, n) {
      case Yes =>
        forall v: int -> int, w: int -> int
          ensures Contains(o, v, f, w)
        {
          forall k | 0 <= k < n ensures StepAt(o, v, k) == StepAt(f, w, k) { VerdictAlways(o, f, n, v, w, k); }
        }
        assert Contains(o, Meet(f), f, Meet(o));
      case No =>
        forall v: int -> int, w: int -> int
          ensures !Contains(o, v, f, w)
        {
          var k := VerdictNever(o, f, n, v, w);
        }
        assert !Contains(o, Meet(f), f, Meet(o));
      case Maybe =>
        forall k | 0 <= k < n ensures StepAt(o, Meet(f), k) == StepAt(f, Meet(o), k) { VerdictMeets(o, f, n, k); }
        assert Contains(o, Meet(f), f, Meet(o));
        var v, w, k := VerdictParts(o, f, n);
        assert !Contains(o, v, f, w);
    }
  }

  lemma AliasesExact(obj: Expr, field: Expr)
    requires Important(obj).Some? && Important(field).Some?
    ensures Aliased(obj, field) == Yes <==> AlwaysContains(Important(obj).value, Important(field).value)
    ensures Aliased(obj, field) == No <==> NeverContains(Important(obj).value, Important(field).value)
  {
    var o, f := Important(obj).value, Important(field).value;
    if |o| <= |f| {
      VerdictExact(o, f);
    } else {
      assert !Contains(o, Meet(f), f, Meet(o));
    }
  }

  predicate NoRuntimeIndex(nodes: seq<Node>)
  {
    forall n :: n in nodes ==> !(n.BracketNode? && n.index.Runtime?)
  }

  /** A path is its own alias exactly if it has no runtime index. */
  lemma Reflexive(e: Expr)
    requires Important(e).Some?
    ensures Aliased(e, e) == Yes <==> NoRuntimeIndex(Important(e).value)
    ensures Aliased(e, e) != No
  {
    var o := Important(e).value;
    AliasesExact(e, e);
    assert Contains(o, Meet(o), o, Meet(o));
    if NoRuntimeIndex(o) {
      forall v: int -> int, w: int -> int
        ensures Contains(o, v, o, w)
      {
        forall k | 0 <= k < |o| ensures StepAt(o, v, k) == StepAt(o, w, k) { assert NodeAt(o, k) in o; }
      }
    } else {
      var j :| 0 <= j < |o| && o[j].BracketNode? && o[j].index.Runtime?;
      var k := |o| - 1 - j;
      assert StepAt(o, Meet(o), k) != StepAt(o, Bumped(Meet(o), k), k);
      assert !Contains(o, Meet(o), o, Bumped(Meet(o), k));
    }
  }

  lemma Transitive(a: Expr, b: Expr, c: Expr)
    requires Aliased(a, b) == Yes && Aliased(b, c) == Yes
    ensures Aliased(a, c) == Yes
  {
    AliasesExact(a, b);
    AliasesExact(b, c);
    AliasesExact(a, c);
    var p, q, r := Important(a).value, Important(b).value, Important(c).value;
    forall v: int -> int, w: int -> int
      ensures Contains(p, v, r, w)
    {
      var u := Meet(q);
      assert Contains(p, v, q, u) && Contains(q, u, r, w);
      forall k | 0 <= k < |p| ensures StepAt(p, v, k) == StepAt(r, w, k) { assert StepAt(p, v, k) == StepAt(q, u, k); }
    }
  }

  // ---------------------------------------------------------------- the locations that expressions denote

  function Stripped(e: Expr): Expr
  {
    match e
    case Conv(_, x) => Stripped(x)
    case _ => e
  }

  /** Dereferencing an address gives back the location it was taken of, converted or not. */
  function Resolved(e: Expr): Expr
  {
    match e
    case Dot(o, f) => Dot(Resolved(o), f)
    case Bracket(a, i) => Bracket(Resolved(a), i)
    case Addr(h, l) => Addr(h, Resolved(l))
    case Conv(k, x) => Conv(k, Resolved(x))
    case Deref(h, p) => (match Stripped(Resolved(p)) case Addr(_, l) => l case _ => Deref(h, Resolved(p)))
    case _ => e
  }

  /** Somewhere on the way to the root an address is dereferenced. */
  predicate DerefOfAddr(e: Expr)
  {
    match e
    case Dot(o, _) => DerefOfAddr(o)
    case Bracket(a, _) => DerefOfAddr(a)
    case Addr(_, l) => DerefOfAddr(l)
    case Conv(_, x) => DerefOfAddr(x)
    case Deref(_, p) => Stripped(p).Addr? || DerefOfAddr(p)
    case _ => false
  }

  lemma {:induction false} NothingToResolve(e: Expr)
    requires !DerefOfAddr(e)
    ensures Resolved(e) == e
  {
    match e
    case Dot(o, _) => NothingToResolve(o);
    case Bracket(a, _) => NothingToResolve(a);
    case Addr(_, l) => NothingToResolve(l);
    case Conv(_, x) => NothingToResolve(x);
    case Deref(_, p) => NothingToResolve(p);
    case _ =>
  }

  lemma {:induction false} StrippedPath(e: Expr)
    ensures Important(Stripped(e)) == Important(e)
    ensures Stripped(e).Addr? ==> Stripped(Resolved(e)).Addr?
  {
    if e.Conv? { StrippedPath(e.inner); }
  }

  /** Resolving takes away one node for each address that is dereferenced. */
  lemma {:induction false} ResolvedShorter(e: Expr)
    requires Important(e).Some?
    ensures var r := Important(Resolved(e));
      r.Some? && |r.value| <= |Important(e).value| && (DerefOfAddr(e) ==> |r.value| < |Important(e).value|)
  {
    match e
    case Sym(_) =>
    case Dot(o, _) => ResolvedShorter(o);
    case Bracket(a, _) => ResolvedShorter(a);
    case Addr(_, l) => ResolvedShorter(l);
    case Conv(_, x) => ResolvedShorter(x);
    case Deref(_, p) =>
      ResolvedShorter(p);
      StrippedPath(p);
      StrippedPath(Resolved(p));
  }

  /** The comparison sees the path of the location exactly if no address is dereferenced. */
  lemma SeesLocation(e: Expr)
    requires Important(e).Some?
    ensures Important(Resolved(e)) == Important(e) <==> !DerefOfAddr(e)
  {
    if DerefOfAddr(e) {
      ResolvedShorter(e);
    } else {
      NothingToResolve(e);
    }
  }

  /** The path of the location that an expression denotes. */
  ghost function Location(e: Expr): (r: seq<Node>)
    requires Important(e).Some?
    ensures Important(Resolved(e)) == Some(r)
  {
    ResolvedShorter(e);
    Important(Resolved(e)).value
  }

  /** An explicit and a hidden dereference denote the same location. */
  function Erased(s: Step): Step
  {
    if s.Pointee? then Pointee(false) else s
  }

  ghost predicate LocationContains(o: seq<Node>, v: int -> int, f: seq<Node>, w: int -> int)
  {
    |o| <= |f| && forall k :: 0 <= k < |o| ==> Erased(StepAt(o, v, k)) == Erased(StepAt(f, w, k))
  }

  // ---------------------------------------------------------------- the same, on the expressions themselves

  /** What an expression leads to: the steps to a location from its root, and how many times its address has been taken. */
  datatype Place = Place(steps: seq<Step>, addresses: nat)

  /** A field, an element and a dereference are a step each, and a conversion is none; to dereference an address is to undo it.
      `v` has the value of a runtime index at each number of steps from the root. */
  function Where(e: Expr, v: int -> int): Option<Place>
  {
    match e
    case Sym(s) => Some(Place([Root(s)], 0))
    case Other => None
    case Conv(_, x) => Where(x, v)
    case Dot(o, f) =>
      var p := Where(o, v);
      if p.None? then None else Some(Place(p.value.steps + [Field(f)], 0))
    case Bracket(a, i) =>
      var p := Where(a, v);
      if p.None? then None
      else Some(Place(p.value.steps + [Elem(if i.Literal? then i.value else v(|p.value.steps|))], 0))
    case Addr(_, l) =>
      var p := Where(l, v);
      if p.None? then None else Some(Place(p.value.steps, p.value.addresses + 1))
    case Deref(_, x) =>
      var p := Where(x, v);
      if p.None? then None
      else if p.value.addresses > 0 then Some(Place(p.value.steps, p.value.addresses - 1))
      else Some(Place(p.value.steps + [Pointee(false)], 0))
  }

  /** The location of `obj` contains that of `field`: its steps come first. */
  ghost predicate Lies(obj: Expr, v: int -> int, field: Expr, w: int -> int)
  {
    Where(obj, v).Some? && Where(field, w).Some? && Where(obj, v).value.steps <= Where(field, w).value.steps
  }

  function StepsOf(nodes: seq<Node>, v: int -> int): (r: seq<Step>)
    ensures |r| == |nodes| && forall k :: 0 <= k < |r| ==> r[k] == Erased(StepAt(nodes, v, k))
  {
    seq(|nodes|, k requires 0 <= k < |nodes| => Erased(StepAt(nodes, v, k)))
  }

  lemma StepsCons(n: Node, rest: seq<Node>, v: int -> int)
    ensures StepsOf([n] + rest, v) == StepsOf(rest, v) + [Erased(StepOf(n, v(|rest|)))]
  {
    var all := [n] + rest;
    assert forall k :: 0 <= k < |rest| ==> NodeAt(all, k) == NodeAt(rest, k);
    assert NodeAt(all, |rest|) == n;
  }

  function Levels(e: Expr): nat
  {
    match e
    case Conv(_, x) => Levels(x)
    case Addr(_, l) => Levels(l) + 1
    case _ => 0
  }

  lemma {:induction false} StrippedLevels(e: Expr)
    ensures Levels(Stripped(e)) == Levels(e) && (Levels(e) > 0 <==> Stripped(e).Addr?)
  {
    if e.Conv? { StrippedLevels(e.inner); }
  }

  lemma {:induction false} NoPath(e: Expr, v: int -> int)
    ensures Where(e, v).Some? <==> Important(e).Some?
  {
    match e
    case Sym(_) =>
    case Other =>
    case Dot(o, _) => NoPath(o, v);
    case Bracket(a, _) => NoPath(a, v);
    case Addr(_, l) => NoPath(l, v);
    case Conv(_, x) => NoPath(x, v);
    case Deref(_, x) => NoPath(x, v);
  }

  lemma LocationOuter(e: Expr)
    requires Important(e).Some?
    ensures e.Dot? ==> Location(e) == [DotNode(e.field)] + Location(e.obj)
    ensures e.Bracket? ==> Location(e) == [BracketNode(e.index)] + Location(e.arr)
    ensures e.Addr? ==> Location(e) == Location(e.loc) && Levels(Resolved(e)) == Levels(Resolved(e.loc)) + 1
    ensures e.Conv? ==> Location(e) == Location(e.inner) && Levels(Resolved(e)) == Levels(Resolved(e.inner))
    ensures e.Dot? || e.Bracket? ==> Levels(Resolved(e)) == 0
  {
  }

  lemma LocationDeref(h: bool, x: Expr)
    requires Important(x).Some?
    ensures var e, n := Deref(h, x), Levels(Resolved(x));
      if n > 0 then Location(e) == Location(x) && Levels(Resolved(e)) == n - 1
      else Location(e) == [DerefNode(h)] + Location(x) && Levels(Resolved(e)) == 0
  {
    StrippedPath(Resolved(x));
    StrippedLevels(Resolved(x));
  }

  /** What the expression leads to is what its path says, once addresses are undone. */
  lemma {:induction false} WhereIs(e: Expr, v: int -> int)
    requires Important(e).Some?
    ensures Where(e, v) == Some(Place(StepsOf(Location(e), v), Levels(Resolved(e))))
  {
    LocationOuter(e);
    match e
    case Sym(s) => assert StepsOf([SymNode(s)], v) == [Root(s)];
    case Dot(o, f) =>
      WhereIs(o, v);
      StepsCons(DotNode(f), Location(o), v);
    case Bracket(a, i) =>
      WhereIs(a, v);
      StepsCons(BracketNode(i), Location(a), v);
    case Addr(_, l) => WhereIs(l, v);
    case Conv(_, x) => WhereIs(x, v);
    case Deref(h, x) =>
      WhereIs(x, v);
      LocationDeref(h, x);
      StepsCons(DerefNode(h), Location(x), v);
  }

  lemma LiesIs(obj: Expr, v: int -> int, field: Expr, w: int -> int)
    requires Important(obj).Some? && Important(field).Some?
    ensures Lies(obj, v, field, w) <==> LocationContains(Location(obj), v, Location(field), w)
  {
    WhereIs(obj, v);
    WhereIs(field, w);
    var o, f := StepsOf(Location(obj), v), StepsOf(Location(field), w);
    if LocationContains(Location(obj), v, Location(field), w) {
      assert forall k :: 0 <= k < |o| ==> o[k] == f[k];
    }
  }

  predicate BothDerefs(a: Node, b: Node)
  {
    a.DerefNode? && b.DerefNode?
  }

  /** Node by node, one path can be a prefix of the other but for the forms of dereferences. */
  predicate CanMeet(o: seq<Node>, f: seq<Node>)
  {
    |o| <= |f| &&
    forall k :: 0 <= k < |o| ==> Compared(NodeAt(o, k), NodeAt(f, k)) != No || BothDerefs(NodeAt(o, k), NodeAt(f, k))
  }

  /** Node by node, it is one: no runtime index either. */
  predicate MustMeet(o: seq<Node>, f: seq<Node>)
  {
    |o| <= |f| &&
    forall k :: 0 <= k < |o| ==> Compared(NodeAt(o, k), NodeAt(f, k)) == Yes || BothDerefs(NodeAt(o, k), NodeAt(f, k))
  }

  lemma EverContains(o: seq<Node>, f: seq<Node>)
    ensures (exists v, w :: LocationContains(o, v, f, w)) <==> CanMeet(o, f)
  {
    if CanMeet(o, f) {
      forall k | 0 <= k < |o|
        ensures Erased(StepAt(o, Meet(f), k)) == Erased(StepAt(f, Meet(o), k))
      {
        assert Compared(NodeAt(o, k), NodeAt(f, k)) != No || BothDerefs(NodeAt(o, k), NodeAt(f, k));
      }
      assert LocationContains(o, Meet(f), f, Meet(o));
    } else if |o| <= |f| {
      var k :| 0 <= k < |o| && Compared(NodeAt(o, k), NodeAt(f, k)) == No && !BothDerefs(NodeAt(o, k), NodeAt(f, k));
      forall v: int -> int, w: int -> int
        ensures !LocationContains(o, v, f, w)
      {
        assert Erased(StepAt(o, v, k)) != Erased(StepAt(f, w, k));
      }
    }
  }

  lemma ContainsForSure(o: seq<Node>, f: seq<Node>)
    ensures (forall v, w :: LocationContains(o, v, f, w)) <==> MustMeet(o, f)
  {
    if MustMeet(o, f) {
      forall v: int -> int, w: int -> int
        ensures LocationContains(o, v, f, w)
      {
        forall k | 0 <= k < |o|
          ensures Erased(StepAt(o, v, k)) == Erased(StepAt(f, w, k))
        {
          assert Compared(NodeAt(o, k), NodeAt(f, k)) == Yes || BothDerefs(NodeAt(o, k), NodeAt(f, k));
        }
      }
    } else if |o| <= |f| {
      var k :| 0 <= k < |o| && Compared(NodeAt(o, k), NodeAt(f, k)) != Yes && !BothDerefs(NodeAt(o, k), NodeAt(f, k));
      MayMiss(o, f, k);
    } else {
      assert !LocationContains(o, Meet(f), f, Meet(o));
    }
  }

  lemma MayMiss(o: seq<Node>, f: seq<Node>, k: nat)
    requires k < |o| <= |f| && Compared(NodeAt(o, k), NodeAt(f, k)) != Yes && !BothDerefs(NodeAt(o, k), NodeAt(f, k))
    ensures exists v, w :: !LocationContains(o, v, f, w)
  {
    var v, w := Meet(f), Meet(o);
    if Erased(StepAt(o, v, k)) == Erased(StepAt(f, w, k)) {
      if NodeAt(o, k).index.Runtime? {
        v := Bumped(v, k);
      } else {
        w := Bumped(w, k);
      }
    }
    assert Erased(StepAt(o, v, k)) != Erased(StepAt(f, w, k));
    assert !LocationContains(o, v, f, w);
  }

  /** Some of the first `n` steps are told apart. */
  predicate Apart(o: seq<Node>, f: seq<Node>, n: nat)
    requires n <= |o| <= |f|
  {
    exists k :: 0 <= k < n && Compared(NodeAt(o, k), NodeAt(f, k)) == No
  }

  /** All of the first `n` steps are equated. */
  predicate Equated(o: seq<Node>, f: seq<Node>, n: nat)
    requires n <= |o| <= |f|
  {
    forall k :: 0 <= k < n ==> Compared(NodeAt(o, k), NodeAt(f, k)) == Yes
  }

  lemma {:induction false} VerdictByNodes(o: seq<Node>, f: seq<Node>, n: nat)
    requires n <= |o| <= |f|
    ensures Verdict(o, f, n) == No <==> Apart(o, f, n)
    ensures Verdict(o, f, n) == Yes <==> Equated(o, f, n)
  {
    if n > 0 {
      VerdictByNodes(o, f, n - 1);
    }
  }

  /** At the `k`-th step one path has an explicit dereference and the other a hidden one. */
  predicate FormsDiffer(o: seq<Node>, f: seq<Node>, k: nat)
    requires k < |o| <= |f|
  {
    BothDerefs(NodeAt(o, k), NodeAt(f, k)) && NodeAt(o, k).hidden != NodeAt(f, k).hidden
  }

  lemma ApartByForm(o: seq<Node>, f: seq<Node>)
    requires CanMeet(o, f)
    ensures Apart(o, f, |o|) <==> exists k :: 0 <= k < |o| && FormsDiffer(o, f, k)
  {
    if k :| 0 <= k < |o| && FormsDiffer(o, f, k) {
      assert Compared(NodeAt(o, k), NodeAt(f, k)) == No;
    }
    if k :| 0 <= k < |o| && Compared(NodeAt(o, k), NodeAt(f, k)) == No {
      assert FormsDiffer(o, f, k);
    }
  }

  /** `no` is answered for locations that can coincide. */
  ghost predicate WrongNo(obj: Expr, field: Expr)
  {
    Aliased(obj, field) == No && exists v, w :: Lies(obj, v, field, w)
  }

  /** `yes` is answered for a location that need not lie in the other. */
  ghost predicate WrongYes(obj: Expr, field: Expr)
  {
    Aliased(obj, field) == Yes && exists v, w :: !Lies(obj, v, field, w)
  }

  /** The answer, node by node. */
  lemma AliasedByNodes(obj: Expr, field: Expr)
    requires Important(obj).Some? && Important(field).Some?
    ensures var o, f := Important(obj).value, Important(field).value;
      && (Aliased(obj, field) == No <==> |f| < |o| || Apart(o, f, |o|))
      && (Aliased(obj, field) == Yes <==> |o| <= |f| && Equated(o, f, |o|))
  {
    var o, f := Important(obj).value, Important(field).value;
    if |o| <= |f| {
      VerdictByNodes(o, f, |o|);
    }
  }

  /** `no` is wrong exactly if the paths of the locations can meet node by node, but the nodes collected run out or are told
      apart somewhere. */
  lemma NoIsWrong(obj: Expr, field: Expr)
    requires Important(obj).Some? && Important(field).Some?
    ensures var o, f := Important(obj).value, Important(field).value;
      WrongNo(obj, field) <==> CanMeet(Location(obj), Location(field)) && (|f| < |o| || Apart(o, f, |o|))
  {
    EverContains(Location(obj), Location(field));
    EverLies(obj, field);
    AliasedByNodes(obj, field);
  }

  lemma EverLies(obj: Expr, field: Expr)
    requires Important(obj).Some? && Important(field).Some?
    ensures (exists v, w :: Lies(obj, v, field, w)) <==> (exists v, w :: LocationContains(Location(obj), v, Location(field), w))
    ensures (exists v, w :: !Lies(obj, v, field, w)) <==> (exists v, w :: !LocationContains(Location(obj), v, Location(field), w))
  {
    forall v: int -> int, w: int -> int
      ensures Lies(obj, v, field, w) <==> LocationContains(Location(obj), v, Location(field), w)
    {
      LiesIs(obj, v, field, w);
    }
  }

  /** Without a dereference of an address, `no` is wrong exactly if it is the form of a dereference that tells the paths apart. */
  lemma NoIsWrongByForm(obj: Expr, field: Expr)
    requires Important(obj).Some? && Important(field).Some? && !DerefOfAddr(obj) && !DerefOfAddr(field)
    ensures var o, f := Location(obj), Location(field);
      WrongNo(obj, field) <==> CanMeet(o, f) && exists k :: 0 <= k < |o| && FormsDiffer(o, f, k)
  {
    NoIsWrong(obj, field);
    SeesLocation(obj);
    SeesLocation(field);
    if CanMeet(Location(obj), Location(field)) {
      ApartByForm(Location(obj), Location(field));
    }
  }

  /** `yes` is wrong exactly if the nodes collected are equated throughout but the paths of the locations need not meet; this
      takes a dereference of an address. */
  lemma YesIsWrong(obj: Expr, field: Expr)
    requires Important(obj).Some? && Important(field).Some?
    ensures var o, f := Important(obj).value, Important(field).value;
      WrongYes(obj, field) <==> |o| <= |f| && Equated(o, f, |o|) && !MustMeet(Location(obj), Location(field))
    ensures WrongYes(obj, field) ==> DerefOfAddr(obj) || DerefOfAddr(field)
  {
    MayNotLie(obj, field);
    AliasedByNodes(obj, field);
    if !DerefOfAddr(obj) && !DerefOfAddr(field) {
      EquatedMeet(obj, field);
    }
  }

  lemma MayNotLie(obj: Expr, field: Expr)
    requires Important(obj).Some? && Important(field).Some?
    ensures (exists v, w :: !Lies(obj, v, field, w)) <==> !MustMeet(Location(obj), Location(field))
  {
    ContainsForSure(Location(obj), Location(field));
    EverLies(obj, field);
  }

  lemma EquatedMeet(obj: Expr, field: Expr)
    requires Important(obj).Some? && Important(field).Some? && !DerefOfAddr(obj) && !DerefOfAddr(field)
    ensures var o, f := Important(obj).value, Important(field).value;
      |o| <= |f| && Equated(o, f, |o|) ==> MustMeet(Location(obj), Location(field))
  {
    SeesLocation(obj);
    SeesLocation(field);
  }

  /** Wherever both paths have a dereference it has the same form. */
  predicate SameForms(o: seq<Node>, f: seq<Node>)
  {
    forall k :: 0 <= k < |o| && k < |f| && BothDerefs(NodeAt(o, k), NodeAt(f, k)) ==> NodeAt(o, k).hidden == NodeAt(f, k).hidden
  }

  /** With the same forms of dereference, and none of an address, the verdict is exact for locations. */
  lemma SameFormsExact(obj: Expr, field: Expr)
    requires Important(obj).Some? && Important(field).Some? && !DerefOfAddr(obj) && !DerefOfAddr(field)
    requires SameForms(Important(obj).value, Important(field).value)
    ensures Aliased(obj, field) == Yes <==> forall v, w :: Lies(obj, v, field, w)
    ensures Aliased(obj, field) == No <==> forall v, w :: !Lies(obj, v, field, w)
  {
    SeesLocation(obj);
    SeesLocation(field);
    var o, f := Location(obj), Location(field);
    AliasesExact(obj, field);
    forall v: int -> int, w: int -> int
      ensures Lies(obj, v, field, w) <==> Contains(o, v, f, w)
    {
      LiesIs(obj, v, field, w);
      FormsAgree(o, v, f, w);
    }
  }

  lemma FormsAgree(o: seq<Node>, v: int -> int, f: seq<Node>, w: int -> int)
    requires SameForms(o, f)
    ensures LocationContains(o, v, f, w) <==> Contains(o, v, f, w)
  {
    if LocationContains(o, v, f, w) {
      forall k | 0 <= k < |o|
        ensures StepAt(o, v, k) == StepAt(f, w, k)
      {
        assert Erased(StepAt(o, v, k)) == Erased(StepAt(f, w, k));
      }
    }
  }

  /** An expression without a root, on either side, is answered `no`; every other one leads to a location. */
  lemma NoRoot(obj: Expr, field: Expr, v: int -> int)
    ensures Where(obj, v).None? || Where(field, v).None? ==> Aliased(obj, field) == No
    ensures CollectsFrom(obj, v)
  {
    NoPath(obj, v);
    NoPath(field, v);
    if Important(obj).Some? {
      WhereIs(obj, v);
      SeesLocation(obj);
    }
  }

  /** The nodes collected are the steps to the location, if no address is dereferenced on the way. */
  ghost predicate CollectsFrom(e: Expr, v: int -> int)
  {
    if Where(e, v).None? then Important(e).None?
    else Important(e).Some? && (!DerefOfAddr(e) ==> StepsOf(Important(e).value, v) == Where(e, v).value.steps)
  }

  /** The answers that the comment at the head of `aliases` lists, with any path for `x` in which no index is evaluated at
      run time. */
  lemma Documented(x: Expr, f: int, g: int, h: bool, c: int, d: int, i: int, j: int)
    requires Important(x).Some? && NoRuntimeIndex(Important(x).value) && f != g && c != d
    ensures Aliased(x, x) == Yes && Aliased(x, Dot(x, f)) == Yes && Aliased(Dot(x, f), x) == No
    ensures Aliased(Dot(x, f), Dot(x, f)) == Yes && Aliased(Dot(x, f), Dot(x, g)) == No
    ensures Aliased(x, Deref(h, x)) == Yes && Aliased(Deref(h, x), x) == No
    ensures Aliased(x, Bracket(x, Literal(c))) == Yes && Aliased(Bracket(x, Literal(c)), x) == No
    ensures Aliased(Bracket(x, Literal(c)), Bracket(x, Literal(c))) == Yes
    ensures Aliased(Bracket(x, Literal(c)), Bracket(x, Literal(d))) == No
    ensures Aliased(x, Bracket(x, Runtime(i))) == Yes && Aliased(Bracket(x, Runtime(i)), x) == No
    ensures Aliased(Bracket(x, Runtime(i)), Bracket(x, Runtime(i))) == Maybe
    ensures Aliased(Bracket(x, Runtime(i)), Bracket(x, Runtime(j))) == Maybe
    ensures Aliased(Bracket(x, Runtime(i)), Bracket(x, Literal(c))) == Maybe
    ensures Aliased(Bracket(x, Literal(c)), Bracket(x, Runtime(i))) == Maybe
  {
    Reflexive(x);
    DocumentedFields(x, f, g);
    DocumentedElements(x, c, d);
    DocumentedIndexes(x, c, i, j);
    DocumentedDeref(x, h);
  }

  lemma DocumentedDeref(x: Expr, h: bool)
    requires Important(x).Some? && NoRuntimeIndex(Important(x).value)
    ensures Aliased(x, Deref(h, x)) == Yes && Aliased(Deref(h, x), x) == No
  {
    Deeper(x, Deref(h, x), DerefNode(h), Deref(h, x), DerefNode(h));
  }

  lemma DocumentedFields(x: Expr, f: int, g: int)
    requires Important(x).Some? && NoRuntimeIndex(Important(x).value) && f != g
    ensures Aliased(x, Dot(x, f)) == Yes && Aliased(Dot(x, f), x) == No
    ensures Aliased(Dot(x, f), Dot(x, f)) == Yes && Aliased(Dot(x, f), Dot(x, g)) == No
  {
    Deeper(x, Dot(x, f), DotNode(f), Dot(x, f), DotNode(f));
    Deeper(x, Dot(x, f), DotNode(f), Dot(x, g), DotNode(g));
  }

  lemma DocumentedElements(x: Expr, c: int, d: int)
    requires Important(x).Some? && NoRuntimeIndex(Important(x).value) && c != d
    ensures var at, other := Bracket(x, Literal(c)), Bracket(x, Literal(d));
      Aliased(x, at) == Yes && Aliased(at, x) == No && Aliased(at, at) == Yes && Aliased(at, other) == No
  {
    var at, other := Bracket(x, Literal(c)), Bracket(x, Literal(d));
    Deeper(x, at, BracketNode(Literal(c)), at, BracketNode(Literal(c)));
    Deeper(x, at, BracketNode(Literal(c)), other, BracketNode(Literal(d)));
  }

  lemma DocumentedIndexes(x: Expr, c: int, i: int, j: int)
    requires Important(x).Some? && NoRuntimeIndex(Important(x).value)
    ensures var at, other, fixed := Bracket(x, Runtime(i)), Bracket(x, Runtime(j)), Bracket(x, Literal(c));
      && Aliased(x, at) == Yes && Aliased(at, x) == No && Aliased(at, at) == Maybe && Aliased(at, other) == Maybe
      && Aliased(at, fixed) == Maybe && Aliased(fixed, at) == Maybe
  {
    var at, other, fixed := Bracket(x, Runtime(i)), Bracket(x, Runtime(j)), Bracket(x, Literal(c));
    Deeper(x, at, BracketNode(Runtime(i)), at, BracketNode(Runtime(i)));
    Deeper(x, at, BracketNode(Runtime(i)), other, BracketNode(Runtime(j)));
    Deeper(x, at, BracketNode(Runtime(i)), fixed, BracketNode(Literal(c)));
    Deeper(x, fixed, BracketNode(Literal(c)), at, BracketNode(Runtime(i)));
  }

  /** Expressions one step above the same path. */
  lemma Deeper(x: Expr, d: Expr, a: Node, e: Expr, b: Node)
    requires Important(x).Some? && NoRuntimeIndex(Important(x).value)
    requires Important(d) == Some([a] + Important(x).value) && Important(e) == Some([b] + Important(x).value)
    ensures Aliased(x, d) == Yes && Aliased(d, x) == No && Aliased(d, e) == Compared(a, b)
  {
    Reflexive(x);
    OneStepMore(Important(x).value, a, b);
  }

  lemma OneStepMore(n: seq<Node>, a: Node, b: Node)
    requires Verdict(n, n, |n|) == Yes
    ensures Verdict([a] + n, [b] + n, |n| + 1) == Compared(a, b) && Verdict(n, [a] + n, |n|) == Yes
  {
    SameBelow(n, [], [a], |n|);
    SameBelow(n, [a], [b], |n|);
    assert [] + n == n;
    assert NodeAt([a] + n, |n|) == a && NodeAt([b] + n, |n|) == b;
  }

  lemma {:induction false} SameBelow(n: seq<Node>, a: seq<Node>, b: seq<Node>, k: nat)
    requires k <= |n| && |a| <= |b|
    ensures Verdict(a + n, b + n, k) == Verdict(n, n, k)
  {
    if k > 0 {
      SameBelow(n, a, b, k - 1);
      assert NodeAt(a + n, k - 1) == NodeAt(n, k - 1) && NodeAt(b + n, k - 1) == NodeAt(n, k - 1);
    }
  }

  /** `x[]` written out and `x[]` inserted by the compiler are kept apart: `no` for one location. */
  lemma MixedForms(x: int)
    ensures Aliased(Deref(false, Sym(x)), Deref(true, Sym(x))) == No
    ensures CanMeet([DerefNode(false), SymNode(x)], [DerefNode(true), SymNode(x)])
  {
  }

  /** An address-of is passed over but the dereference above it is counted: `addr(x)[]`, which is `x`, is said not to contain
      `x.f`. */
  lemma AddressThenDeref(x: int, f: int)
    ensures Aliased(Deref(false, Addr(false, Sym(x))), Dot(Sym(x), f)) == No
    ensures Resolved(Deref(false, Addr(false, Sym(x)))) == Sym(x) && Aliased(Sym(x), Dot(Sym(x), f)) == Yes
  {
    var sym, dot := [SymNode(x)], [DotNode(f), SymNode(x)];
    assert Important(Sym(x)) == Some(sym);
    assert Important(Addr(false, Sym(x))) == Some(sym);
    assert [DerefNode(false)] + sym == [DerefNode(false), SymNode(x)] && [DotNode(f)] + sym == dot;
    assert Important(Deref(false, Addr(false, Sym(x)))) == Some([DerefNode(false), SymNode(x)]);
    assert Important(Dot(Sym(x), f)) == Some(dot);
    assert Verdict([DerefNode(false), SymNode(x)], dot, 2) == No;
    assert Verdict(sym, dot, 1) == Yes;
    assert Resolved(Addr(false, Sym(x))) == Addr(false, Sym(x));
  }

  /** And `x[]` is said to contain `addr(x)[]`, although that is `x` itself. */
  lemma DerefThenAddress(x: int)
    ensures Aliased(Deref(false, Sym(x)), Deref(false, Addr(false, Sym(x)))) == Yes
    ensures forall v, w :: !LocationContains([DerefNode(false), SymNode(x)], v, [SymNode(x)], w)
    ensures Important(Deref(false, Sym(x))) == Some([DerefNode(false), SymNode(x)])
    ensures Location(Deref(false, Sym(x))) == [DerefNode(false), SymNode(x)]
    ensures Important(Deref(false, Addr(false, Sym(x)))).Some? && Location(Deref(false, Addr(false, Sym(x)))) == [SymNode(x)]
  {
    var sym, deref := [SymNode(x)], [DerefNode(false), SymNode(x)];
    assert Important(Sym(x)) == Some(sym) && Important(Addr(false, Sym(x))) == Some(sym);
    assert [DerefNode(false)] + sym == deref;
    assert Important(Deref(false, Sym(x))) == Some(deref) == Important(Deref(false, Addr(false, Sym(x))));
    assert NodeAt(deref, 0) == SymNode(x) && NodeAt(deref, 1) == DerefNode(false);
    assert Compared(SymNode(x), SymNode(x)) == Yes && Compared(DerefNode(false), DerefNode(false)) == Yes;
    assert Verdict(deref, deref, 0) == Yes;
    assert Verdict(deref, deref, 1) == Yes;
    assert Verdict(deref, deref, 2) == Yes;
    assert Resolved(Sym(x)) == Sym(x) && Resolved(Addr(false, Sym(x))) == Addr(false, Sym(x));
    assert Resolved(Deref(false, Addr(false, Sym(x)))) == Sym(x);
    assert Resolved(Deref(false, Sym(x))) == Deref(false, Sym(x));
  }
}
