/** In which order the loader registers and looks up local symbols, told by the graph alone: the tokens are not used. */
module NifOrder {
  import opened Wrappers
  import opened NifWriter
  import opened NifLoader

  /** A local symbol enters the table, or is looked up in it. */
  datatype Event = Enters(s: SymId) | LookedUp(s: SymId)

  /** Every local symbol that is looked up has been registered earlier. */
  ghost predicate InOrder(es: seq<Event>)
  {
    forall i :: 0 <= i < |es| && es[i].LookedUp? ==> Enters(es[i].s) in es[..i]
  }

  /** How far loading has come: the types begun, the table of local symbols with their current types, all events, and
      the definitions in which some node has been given no type because the symbol's own had not been read. */
  datatype Walk = Walk(started: set<TypeId>, locals: map<SymId, Option<TypeId>>, events: seq<Event>, blurred: set<Item>)

  /** A walk, and whether what was read is what was written. */
  datatype Pass = Pass(w: Walk, exact: bool)

  const START := Walk({}, map[], [], {})

  /** The table holds exactly what has entered it. */
  ghost predicate Keyed(w: Walk)
  {
    forall s :: s in w.locals <==> Enters(s) in w.events
  }

  /** Only local symbols are looked up. */
  ghost predicate Local(c: Context, w: Walk)
  {
    forall s :: LookedUp(s) in w.events ==> c.isLocal(s)
  }

  /** Every symbol in the table has its own type. */
  ghost predicate Settled(g: Graph, w: Walk)
  {
    forall s :: s in w.locals ==> w.locals[s] == SymTyp(g, s)
  }

  ghost predicate Grows(c: Context, a: Walk, b: Walk)
  {
    && a.started <= b.started
    && |a.events| <= |b.events| && a.events == b.events[..|a.events|]
    && (Keyed(a) ==> Keyed(b))
    && (Local(c, a) ==> Local(c, b))
  }

  /** Nothing leaves the table, and no symbol without its type is left behind. */
  ghost predicate Settles(g: Graph, a: Walk, b: Walk)
  {
    && (forall s :: s in a.locals ==> s in b.locals)
    && (forall s :: s in b.locals && b.locals[s] != SymTyp(g, s) ==> s in a.locals && a.locals[s] != SymTyp(g, s))
  }

  ghost predicate Steps(g: Graph, c: Context, a: Walk, b: Walk)
  {
    Grows(c, a, b) && Settles(g, a, b)
  }

  lemma StepsThen(g: Graph, c: Context, a: Walk, b: Walk, d: Walk)
    requires Steps(g, c, a, b) && Steps(g, c, b, d)
    ensures Steps(g, c, a, d)
  {
    assert d.events[..|b.events|][..|a.events|] == d.events[..|a.events|];
  }

  lemma EnterThen(g: Graph, c: Context, a: Walk, s: SymId, d: Walk)
    requires Steps(g, c, Enter(c, a, s), d) && s in d.locals && d.locals[s] == SymTyp(g, s)
    ensures Steps(g, c, a, d)
  {
    var b := Enter(c, a, s);
    assert d.events[..|b.events|][..|a.events|] == d.events[..|a.events|];
  }

  lemma BeginThen(g: Graph, c: Context, a: Walk, t: TypeId, d: Walk)
    requires Steps(g, c, a.(started := a.started + {t}), d)
    ensures Steps(g, c, a, d)
  {
  }

  lemma OrderOfPrefix(a: seq<Event>, b: seq<Event>)
    requires |a| <= |b| && a == b[..|a|] && InOrder(b)
    ensures InOrder(a)
  {
    forall i | 0 <= i < |a| && a[i].LookedUp?
      ensures Enters(a[i].s) in a[..i]
    {
      assert b[i] == a[i] && b[..i] == a[..i];
    }
  }

  lemma OrderOfNext(es: seq<Event>, e: Event)
    requires InOrder(es)
    ensures InOrder(es + [e]) <==> (e.LookedUp? ==> Enters(e.s) in es)
  {
    var all := es + [e];
    assert all[..|es|] == es && all[|es|] == e;
    forall i | 0 <= i < |es| && all[i].LookedUp?
      ensures Enters(all[i].s) in all[..i]
    {
      assert all[..i] == es[..i] && all[i] == es[i];
    }
  }

  ghost function Enter(c: Context, w: Walk, s: SymId): (r: Walk)
    ensures Grows(c, w, r) && s in r.locals
  {
    if s in w.locals then w else w.(locals := w.locals[s := None], events := w.events + [Enters(s)])
  }

  ghost function LookUp(g: Graph, c: Context, w: Walk, s: SymId): (r: Walk)
    ensures Steps(g, c, w, r)
  {
    if c.isLocal(s) then w.(events := w.events + [LookedUp(s)]) else w
  }

  /** The type of a symbol has been read. */
  ghost function Typed(g: Graph, c: Context, w: Walk, s: SymId): (r: Walk)
    ensures Steps(g, c, w, r) && (s in w.locals ==> r.locals[s] == SymTyp(g, s))
  {
    if s in w.locals then w.(locals := w.locals[s := SymTyp(g, s)]) else w
  }

  /** The definition of `x` has been loaded. */
  ghost function Loaded(g: Graph, c: Context, w: Walk, x: Item, exact: bool): (r: Walk)
    ensures Steps(g, c, w, r) && r.locals == w.locals
  {
    w.(blurred := if exact then w.blurred - {x} else w.blurred + {x})
  }

  // ---------------------------------------------------------------- the scan for local symbols

  ghost function SRef(g: Graph, c: Context, sealed: set<Item>, w: Walk, x: Option<Item>): (r: Walk)
    ensures Steps(g, c, w, r)
    decreases Unsealed(g, sealed), 1, 0
  {
    if x.Some? && Definable(g, x.value) && x.value !in sealed then
      SealShrinks(g, sealed, x.value);
      SDef(g, c, sealed + {x.value}, w, x.value)
    else w
  }

  /** Over a definition: one of a local symbol that is not in the table is loaded, any other stepped into. */
  ghost function SDef(g: Graph, c: Context, sealed: set<Item>, w: Walk, x: Item): (r: Walk)
    requires InGraph(g, x)
    ensures Steps(g, c, w, r)
    decreases Unsealed(g, sealed), 4, 1
  {
    if x.Sym? && c.isLocal(x.id) && x.id !in w.locals then
      var r := RSymBody(g, c, sealed, Enter(c, w, x.id), x.id);
      EnterThen(g, c, w, x.id, r);
      r
    else SFields(g, c, sealed, w, Body(g, x))
  }

  ghost function SFields(g: Graph, c: Context, sealed: set<Item>, w: Walk, fs: seq<Field>): (r: Walk)
    ensures Steps(g, c, w, r)
    decreases Unsealed(g, sealed), 3, |fs|
  {
    if fs == [] then w
    else
      var a, mid := SField(g, c, sealed, w, fs[0]), WField(g, sealed, fs[0]).sealed;
      MoreSealed(g, sealed, mid);
      var r := SFields(g, c, mid, a, fs[1..]);
      StepsThen(g, c, w, a, r);
      r
  }

  ghost function SField(g: Graph, c: Context, sealed: set<Item>, w: Walk, f: Field): (r: Walk)
    ensures Steps(g, c, w, r)
    decreases Unsealed(g, sealed), 3, 0
  {
    match f
    case Atom(_) => w
    case TypeRef(t) => SRef(g, c, sealed, w, TypItem(t))
    case SymRef(s) => SRef(g, c, sealed, w, SymItem(s))
    case Tree(n) => SNode(g, c, sealed, w, n)
    case Annex(lib) => if lib.None? then w else SNode(g, c, sealed, w, lib.value.path)
  }

  ghost function SNode(g: Graph, c: Context, sealed: set<Item>, w: Walk, n: Node): (r: Walk)
    ensures Steps(g, c, w, r)
    decreases Unsealed(g, sealed), 2, n, 1
  {
    match n
    case NilNode => w
    case Empty => w
    case TypedEmpty(_, t) => SRef(g, c, sealed, w, Some(Typ(t)))
    case SymNode(s, t) => SSymNode(g, c, sealed, w, s, t)
    case Atomic(_, _, t) => SRef(g, c, sealed, w, TypItem(t))
    case Inner(_, _, t, sons) =>
      var a, mid := SRef(g, c, sealed, w, TypItem(t)), WRef(g, sealed, TypItem(t)).sealed;
      MoreSealed(g, sealed, mid);
      var r := SNodes(g, c, mid, a, sons);
      StepsThen(g, c, w, a, r);
      r
  }

  ghost function SNodes(g: Graph, c: Context, sealed: set<Item>, w: Walk, ns: seq<Node>): (r: Walk)
    ensures Steps(g, c, w, r)
    decreases Unsealed(g, sealed), 2, ns, 0
  {
    if ns == [] then w
    else
      var a, mid := SNode(g, c, sealed, w, ns[0]), WNode(g, sealed, ns[0]).sealed;
      MoreSealed(g, sealed, mid);
      var r := SNodes(g, c, mid, a, ns[1..]);
      StepsThen(g, c, w, a, r);
      r
  }

  ghost function SSymNode(g: Graph, c: Context, sealed: set<Item>, w: Walk, s: SymId, t: Option<TypeId>): (r: Walk)
    ensures Steps(g, c, w, r)
    decreases Unsealed(g, sealed), 1, 2
  {
    var x := Sym(s);
    if Definable(g, x) && x !in sealed then
      SealShrinks(g, sealed, x);
      if t == SymTyp(g, s) then SDef(g, c, sealed + {x}, w, x)
      else
        var a, mid := SRef(g, c, sealed + {x}, w, TypItem(t)), WRef(g, sealed + {x}, TypItem(t)).sealed;
        MoreSealed(g, sealed + {x}, mid);
        var r := SDef(g, c, mid, a, x);
        StepsThen(g, c, w, a, r);
        r
    else if t == SymTyp(g, s) then w
    else SRef(g, c, sealed, w, TypItem(t))
  }

  // ---------------------------------------------------------------- loading

  ghost function RType(g: Graph, c: Context, sealed: set<Item>, w: Walk, t: Option<TypeId>): (r: Walk)
    ensures Steps(g, c, w, r)
    decreases Unsealed(g, sealed), 1, 0
  {
    if t.Some? && Definable(g, Typ(t.value)) && Typ(t.value) !in sealed && t.value !in w.started then
      SealShrinks(g, sealed, Typ(t.value));
      var begun := w.(started := w.started + {t.value});
      var r := RTypeBody(g, c, sealed + {Typ(t.value)}, begun, t.value);
      BeginThen(g, c, w, t.value, r);
      r
    else w
  }

  /** A type's definition: scanned first, then read. */
  ghost function RTypeBody(g: Graph, c: Context, sealed: set<Item>, w: Walk, t: TypeId): (r: Walk)
    requires InGraph(g, Typ(t))
    ensures Steps(g, c, w, r)
    decreases Unsealed(g, sealed), 4, 0
  {
    var data := g.types[t].data;
    var scanned := SFields(g, c, sealed, w, Body(g, Typ(t)));
    var fields, mid := RFields(g, c, sealed, scanned, TypeFields(data)), WFields(g, sealed, TypeFields(data)).sealed;
    MoreSealed(g, sealed, mid);
    var sons := RFields(g, c, mid, fields.w, SonFields(data.sons));
    StepsThen(g, c, w, scanned, fields.w);
    StepsThen(g, c, w, fields.w, sons.w);
    StepsThen(g, c, w, sons.w, Loaded(g, c, sons.w, Typ(t), fields.exact));
    Loaded(g, c, sons.w, Typ(t), fields.exact)
  }

  /** A symbol's definition, once its name has been dealt with. */
  ghost function RSymBody(g: Graph, c: Context, sealed: set<Item>, w: Walk, s: SymId): (r: Walk)
    requires InGraph(g, Sym(s))
    ensures Steps(g, c, w, r) && (s in w.locals ==> r.locals[s] == SymTyp(g, s))
    decreases Unsealed(g, sealed), 4, 0
  {
    var data := g.syms[s].data;
    var head, mid := RFields(g, c, sealed, w, SymHead(data)), WFields(g, sealed, SymHead(data)).sealed;
    MoreSealed(g, sealed, mid);
    var tail := RFields(g, c, mid, Typed(g, c, head.w, s), SymTail(data));
    var typed := Typed(g, c, head.w, s);
    StepsThen(g, c, w, head.w, typed);
    StepsThen(g, c, w, typed, tail.w);
    StepsThen(g, c, w, tail.w, Loaded(g, c, tail.w, Sym(s), head.exact && tail.exact));
    Loaded(g, c, tail.w, Sym(s), head.exact && tail.exact)
  }

  ghost function RSym(g: Graph, c: Context, w: Walk, s: Option<SymId>): (r: Walk)
    ensures Steps(g, c, w, r)
  {
    if s.None? then w else LookUp(g, c, w, s.value)
  }

  ghost function RFields(g: Graph, c: Context, sealed: set<Item>, w: Walk, fs: seq<Field>): (r: Pass)
    ensures Steps(g, c, w, r.w) && (Settled(g, w) ==> r.exact)
    decreases Unsealed(g, sealed), 3, |fs|
  {
    if fs == [] then Pass(w, true)
    else
      var a, mid := RField(g, c, sealed, w, fs[0]), WField(g, sealed, fs[0]).sealed;
      MoreSealed(g, sealed, mid);
      var b := RFields(g, c, mid, a.w, fs[1..]);
      StepsThen(g, c, w, a.w, b.w);
      Pass(b.w, a.exact && b.exact)
  }

  ghost function RField(g: Graph, c: Context, sealed: set<Item>, w: Walk, f: Field): (r: Pass)
    ensures Steps(g, c, w, r.w) && (Settled(g, w) ==> r.exact)
    decreases Unsealed(g, sealed), 3, 0
  {
    match f
    case Atom(_) => Pass(w, true)
    case TypeRef(t) => Pass(RType(g, c, sealed, w, t), true)
    case SymRef(s) => Pass(RSym(g, c, w, s), true)
    case Tree(n) => RNode(g, c, sealed, w, n)
    case Annex(lib) => if lib.None? then Pass(w, true) else RNode(g, c, sealed, w, lib.value.path)
  }

  ghost function RNode(g: Graph, c: Context, sealed: set<Item>, w: Walk, n: Node): (r: Pass)
    ensures Steps(g, c, w, r.w) && (Settled(g, w) ==> r.exact)
    decreases Unsealed(g, sealed), 2, n, 1
  {
    match n
    case NilNode => Pass(w, true)
    case Empty => Pass(w, true)
    case TypedEmpty(_, t) => Pass(RType(g, c, sealed, w, Some(t)), true)
    case SymNode(s, t) => RSymNode(g, c, sealed, w, s, t)
    case Atomic(_, _, t) => Pass(RType(g, c, sealed, w, t), true)
    case Inner(_, _, t, sons) =>
      var a, mid := RType(g, c, sealed, w, t), WRef(g, sealed, TypItem(t)).sealed;
      MoreSealed(g, sealed, mid);
      var r := RNodes(g, c, mid, a, sons);
      StepsThen(g, c, w, a, r.w);
      r
  }

  ghost function RNodes(g: Graph, c: Context, sealed: set<Item>, w: Walk, ns: seq<Node>): (r: Pass)
    ensures Steps(g, c, w, r.w) && (Settled(g, w) ==> r.exact)
    decreases Unsealed(g, sealed), 2, ns, 0
  {
    if ns == [] then Pass(w, true)
    else
      var a, mid := RNode(g, c, sealed, w, ns[0]), WNode(g, sealed, ns[0]).sealed;
      MoreSealed(g, sealed, mid);
      var b := RNodes(g, c, mid, a.w, ns[1..]);
      StepsThen(g, c, w, a.w, b.w);
      Pass(b.w, a.exact && b.exact)
  }

  /** A use by name gets the type that the table has for the symbol. */
  ghost function ByName(g: Graph, c: Context, w: Walk, s: SymId): (r: Pass)
    ensures Steps(g, c, w, r.w) && (Settled(g, w) ==> r.exact)
  {
    Pass(LookUp(g, c, w, s), s in w.locals ==> w.locals[s] == SymTyp(g, s))
  }

  /** A symbol under the hidden-type tag: its type is read, then the symbol is looked up. */
  ghost function Hidden(g: Graph, c: Context, sealed: set<Item>, w: Walk, s: SymId, t: Option<TypeId>): (r: Walk)
    ensures Steps(g, c, w, r)
    decreases Unsealed(g, sealed), 1, 1
  {
    var a := RType(g, c, sealed, w, t);
    StepsThen(g, c, w, a, LookUp(g, c, a, s));
    LookUp(g, c, a, s)
  }

  ghost function RSymNode(g: Graph, c: Context, sealed: set<Item>, w: Walk, s: SymId, t: Option<TypeId>): (r: Pass)
    ensures Steps(g, c, w, r.w) && (Settled(g, w) ==> r.exact)
    decreases Unsealed(g, sealed), 1, 2
  {
    var x := Sym(s);
    if Definable(g, x) && x !in sealed then
      SealShrinks(g, sealed, x);
      if t != SymTyp(g, s) then Pass(Hidden(g, c, sealed + {x}, w, s, t), true)
      else if c.isLocal(s) then
        var r := RSymBody(g, c, sealed + {x}, Enter(c, w, s), s);
        EnterThen(g, c, w, s, r);
        Pass(r, true)
      else Pass(w, true)
    else if t == SymTyp(g, s) then ByName(g, c, w, s)
    else Pass(Hidden(g, c, sealed, w, s, t), true)
  }

  // ---------------------------------------------------------------- when nothing is looked up too early

  lemma {:induction false} AllEntered(es: seq<Event>, from: nat)
    requires from <= |es| && InOrder(es[..from]) && forall s :: LookedUp(s) in es ==> Enters(s) in es[..from]
    ensures InOrder(es)
  {
    forall i | 0 <= i < |es| && es[i].LookedUp?
      ensures Enters(es[i].s) in es[..i]
    {
      if i < from {
        assert es[..from][..i] == es[..i] && es[..from][i] == es[i];
      } else {
        var s := es[i].s;
        assert LookedUp(s) in es;
        var j :| 0 <= j < from && es[..from][j] == Enters(s);
        assert es[..i][j] == Enters(s);
      }
    }
  }

  /** A loader that already has every local symbol meets no early lookup in any tree. */
  lemma RegisteredBefore(g: Graph, c: Context, sealed: set<Item>, w: Walk, n: Node)
    requires InOrder(w.events) && Keyed(w) && Local(c, w) && forall s :: c.isLocal(s) ==> s in w.locals
    ensures InOrder(RNode(g, c, sealed, w, n).w.events)
  {
    var r := RNode(g, c, sealed, w, n).w;
    AllEntered(r.events, |w.events|);
  }

  /** Neither does one that loads a module without local symbols. */
  lemma NoLocals(g: Graph, c: Context, sealed: set<Item>, ns: seq<Node>)
    requires forall s :: !c.isLocal(s)
    ensures InOrder(RNodes(g, c, sealed, START, ns).w.events)
  {
    var r := RNodes(g, c, sealed, START, ns).w;
    assert Local(c, START);
    AllEntered(r.events, 0);
  }

  /** From a table in which every symbol has its type, the definition of a symbol is read as it was written. */
  lemma SharpSym(g: Graph, c: Context, sealed: set<Item>, w: Walk, s: SymId)
    requires InGraph(g, Sym(s)) && Settled(g, w)
    ensures Sym(s) !in RSymBody(g, c, sealed, w, s).blurred
  {
    var data := g.syms[s].data;
    var head := RFields(g, c, sealed, w, SymHead(data));
    assert Settled(g, Typed(g, c, head.w, s));
  }

  /** So is that of a type. */
  lemma SharpType(g: Graph, c: Context, sealed: set<Item>, w: Walk, t: TypeId)
    requires InGraph(g, Typ(t)) && Settled(g, w)
    ensures Typ(t) !in RTypeBody(g, c, sealed, w, t).blurred
  {
    assert Settled(g, SFields(g, c, sealed, w, Body(g, Typ(t))));
  }
}
