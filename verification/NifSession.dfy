/** Whole sessions: trees written one after the other and loaded from an empty table of local symbols, and the lazy loading of
    single definitions. */
module NifSession {
  import opened Wrappers
  import opened NifWriter
  import opened NifLoader
  import opened NifBalance
  import opened NifOrder
  import opened NifDecoding
  import opened NifRoundTrip
  import opened NifWriting
  import opened NifLoading

  /** How loading the written trees registers and looks up local symbols. */
  ghost function Session(g: Graph, c: Context, ns: seq<Node>): Walk
  {
    RNodes(g, c, {}, START, ns).w
  }

  lemma StartSound(g: Graph, c: Context)
    ensures Sound(g, c, FRESH, START) && Settled(g, START)
  {
  }

  /** Writing any sequence of trees and loading them one after the other: it fails exactly if some local symbol is looked up
      before it is registered, and gives the same trees otherwise, whatever cycles there are between the symbols and types
      they mention; the loader ends at the end of the buffer. */
  method WriteThenLoad(g: Graph, c: Context, ns: seq<Node>) returns (r: Option<seq<Node>>, unread: nat)
    requires Fits(g, c)
    ensures r == if InOrder(Session(g, c, ns).events) then Some(ns) else None
    ensures r.Some? ==> unread == 0
  {
    var w := new Writer(g);
    w.WriteNodes(ns);
    var l := new Loader(w.dest, c);
    assert [] + WNodes(g, {}, ns).toks == WNodes(g, {}, ns).toks;
    r := LoadTrees(l, |ns|, g, ns);
    unread := |l.toks| - l.n;
  }

  /** Loads `count` trees from the cursor on. */
  method LoadTrees(l: Loader, count: nat, ghost g: Graph, ghost ns: seq<Node>) returns (r: Option<seq<Node>>)
    requires l.Valid() && Fits(g, l.c) && l.St() == FRESH && |ns| == count
    requires l.Rest() == WNodes(g, {}, ns).toks
    modifies l
    ensures l.Valid()
    ensures r == if InOrder(Session(g, l.c, ns).events) then Some(ns) else None
    ensures r.Some? ==> l.Rest() == [] && Sound(g, l.c, l.St(), Session(g, l.c, ns)) && Pending(l.St()) == {}
  {
    var trees: seq<Node> := [];
    ghost var sealed: set<Item>, w := {}, START;
    StartSound(g, l.c);
    for i := 0 to count
      invariant l.Valid() && Sound(g, l.c, l.St(), w) && Settled(g, w) && Pending(l.St()) == {} && trees == ns[..i]
      invariant l.Rest() == WNodes(g, sealed, ns[i..]).toks
      invariant RNodes(g, l.c, sealed, w, ns[i..]).w == Session(g, l.c, ns)
    {
      assert ns[i..][0] == ns[i] && ns[i..][1..] == ns[i + 1..];
      ghost var first, pass := WNode(g, sealed, ns[i]), RNode(g, l.c, sealed, w, ns[i]);
      NodeTrip(g, sealed, ns[i], l.c, l.St(), w, WNodes(g, first.sealed, ns[i + 1..]).toks);
      var n := l.LoadNode();
      if n.None? {
        SessionFails(g, l.c, sealed, w, ns[i..]);
        return None;
      }
      trees := trees + [n.value];
      sealed, w := first.sealed, pass.w;
    }
    assert ns[..|ns|] == ns && ns[|ns|..] == [];
    return Some(trees);
  }

  lemma SessionFails(g: Graph, c: Context, sealed: set<Item>, w: Walk, ns: seq<Node>)
    requires ns != [] && !InOrder(RNode(g, c, sealed, w, ns[0]).w.events)
    ensures !InOrder(RNodes(g, c, sealed, w, ns).w.events)
  {
    var a, b := RNode(g, c, sealed, w, ns[0]).w, RNodes(g, c, sealed, w, ns).w;
    assert Grows(c, a, b);
    if InOrder(b.events) {
      OrderSoFar(c, a, b);
    }
  }

  // ---------------------------------------------------------------- lazy loading

  /** The order of events when the definition of `s` is loaded at its indexed offset, with a table of its own. */
  ghost function LazySymWalk(g: Graph, c: Context, sealed: set<Item>, w: Walk, s: SymId): Walk
    requires InGraph(g, Sym(s))
  {
    RSymBody(g, c, sealed, SFields(g, c, sealed, w.(locals := map[], events := []), Body(g, Sym(s))), s)
  }

  /** `loadSym` gives what the format stores of the symbol, unless a local symbol of its definition is looked up before the
      scan of the definition, or the definition itself, has registered it. */
  lemma LazySymTrip(g: Graph, sealed: set<Item>, s: SymId, c: Context, st: State, w: Walk, rest: seq<Token>)
    requires Fits(g, c) && Sound(g, c, st, w) && InGraph(g, Sym(s))
    ensures var p := LSymAt(c, st, s, WFields(g, sealed, Body(g, Sym(s))).toks + ([ParRi] + rest));
      var w' := LazySymWalk(g, c, sealed, w, s);
      if InOrder(w'.events) then
        p.Parsed? && p.rest == rest && Sound(g, c, p.st, w') && s in p.st.syms && p.st.syms[s] == Stored(c, g.syms[s].data)
      else p.Bad?
  {
    var w0, st0 := w.(locals := map[], events := []), st.(locals := map[]);
    var all := Body(g, Sym(s));
    var v := SFields(g, c, sealed, w0, all);
    EmptyTableSound(g, c, st, w);
    var scanned := DefScanned(g, sealed, Sym(s), c, st0, w0, rest);
    if InOrder(v.events) {
      SymBodyTrip(g, sealed, s, c, scanned, v, rest);
      SharpSym(g, c, sealed, v, s);
    } else {
      OutOfOrder(c, v, RSymBody(g, c, sealed, v, s));
    }
  }

  lemma EmptyTableSound(g: Graph, c: Context, st: State, w: Walk)
    requires Sound(g, c, st, w)
    ensures Sound(g, c, st.(locals := map[]), w.(locals := map[], events := []))
    ensures Settled(g, w.(locals := map[], events := []))
  {
  }

  /** The scan of a whole definition, from just after its name. */
  lemma DefScanned(g: Graph, sealed: set<Item>, x: Item, c: Context, st: State, w: Walk, rest: seq<Token>) returns (st': State)
    requires Fits(g, c) && Sound(g, c, st, w) && InGraph(g, x)
    ensures var r := LScan(c, st, WFields(g, sealed, Body(g, x)).toks + ([ParRi] + rest), 1);
      var v := SFields(g, c, sealed, w, Body(g, x));
      if InOrder(v.events) then r == Some(st') && Reaches(g, c, st, st', v) else r.None?
  {
    BodyNested(g, x);
    BodySteppable(g, x);
    st' := FieldsScan(g, sealed, Body(g, x), c, st, w, [ParRi] + rest, 1);
    ScanClose(c, st', rest, 1);
  }

  ghost function LazyTypeWalk(g: Graph, c: Context, sealed: set<Item>, w: Walk, t: TypeId): Walk
    requires InGraph(g, Typ(t))
  {
    RTypeBody(g, c, sealed, w.(started := w.started + {t}, locals := map[], events := []), t)
  }

  /** `loadType` gives the type of the graph, unless a local symbol of its definition is looked up too early. */
  lemma LazyTypeTrip(g: Graph, sealed: set<Item>, t: TypeId, c: Context, st: State, w: Walk, rest: seq<Token>)
    requires Fits(g, c) && Sound(g, c, st, w) && InGraph(g, Typ(t))
    ensures var p := LTypeAt(c, st, t, WFields(g, sealed, Body(g, Typ(t))).toks + ([ParRi] + rest));
      var w' := LazyTypeWalk(g, c, sealed, w, t);
      if InOrder(w'.events) then
        p.Parsed? && p.rest == rest && Sound(g, c, p.st, w') && t in p.st.types && p.st.types[t] == g.types[t].data
      else p.Bad?
  {
    var w0 := w.(started := w.started + {t}, locals := map[], events := []);
    var st0 := st.(started := st.started + {t}, locals := map[]);
    assert Sound(g, c, st0, w0);
    TypeBodyTrip(g, sealed, t, c, st0, w0, rest);
    SharpType(g, c, sealed, w0, t);
  }

  // ---------------------------------------------------------------- inputs for which it goes wrong

  /** A local symbol that is met first in a symbol node with a type of its own: its definition is written under the
      hidden-type tag, where the loader only looks it up. */
  lemma FirstMetUnderHiddenType(g: Graph, c: Context, s: SymId, t: TypeId)
    requires Fits(g, c) && c.isLocal(s) && Definable(g, Sym(s)) && SymTyp(g, s) != Some(t) && !Definable(g, Typ(t))
    ensures LNode(c, FRESH, WNode(g, {}, SymNode(s, Some(t))).toks).Bad?
  {
    var n := SymNode(s, Some(t));
    StartSound(g, c);
    NodeTrip(g, {}, n, c, FRESH, START, []);
    assert WNode(g, {}, n).toks + [] == WNode(g, {}, n).toks;
    var sealed := {} + {Sym(s)};
    assert RType(g, c, sealed, START, Some(t)) == START;
    assert Hidden(g, c, sealed, START, s, Some(t)).events == [LookedUp(s)];
    assert RSymNode(g, c, {}, START, s, Some(t)).w == Hidden(g, c, sealed, START, s, Some(t));
    assert [LookedUp(s)][0] == LookedUp(s) && Enters(s) !in [LookedUp(s)][..0];
  }

  /** A local symbol whose type mentions it by name, like a local object type with a field of that type: the loader reads
      the mention before the symbol has its type. */
  predicate MentionsItself(g: Graph, s: SymId, t: TypeId)
  {
    && Definable(g, Sym(s)) && Definable(g, Typ(t))
    && var r, d := g.syms[s].data, g.types[t].data;
      && !Guarded(r.kind) && r.annex.None? && r.typ == Some(t) && r.owner.None? && r.ast.NilNode? && r.constraint.NilNode?
      && r.instantiatedFrom.None?
      && d.typeInst.None? && d.n == SymNode(s, Some(t)) && d.owner.None? && d.sym.None? && d.sons == []
  }

  /** Fields that mention nothing. */
  ghost predicate Still(fs: seq<Field>)
  {
    forall i :: 0 <= i < |fs| ==> fs[i].Atom? || fs[i] == TypeRef(None) || fs[i] == SymRef(None) || fs[i] == Tree(NilNode) || fs[i] == Annex(None)
  }

  lemma StillField(g: Graph, c: Context, sealed: set<Item>, w: Walk, f: Field)
    requires Still([f])
    ensures RField(g, c, sealed, w, f) == Pass(w, true) && SField(g, c, sealed, w, f) == w && WField(g, sealed, f).sealed == sealed
  {
    assert [f][0] == f;
  }

  lemma {:induction false} StillThen(g: Graph, c: Context, sealed: set<Item>, w: Walk, a: seq<Field>, b: seq<Field>)
    requires Still(a)
    ensures RFields(g, c, sealed, w, a + b) == RFields(g, c, sealed, w, b)
    ensures SFields(g, c, sealed, w, a + b) == SFields(g, c, sealed, w, b)
  {
    if a == [] {
      assert a + b == b;
    } else {
      var all := a + b;
      assert all[1..] == a[1..] + b && all[0] == a[0];
      StillField(g, c, sealed, w, a[0]);
      StillThen(g, c, sealed, w, a[1..], b);
      assert SFields(g, c, sealed, w, all) == SFields(g, c, sealed, w, all[1..]);
      assert RFields(g, c, sealed, w, all) == Pass(RFields(g, c, sealed, w, all[1..]).w, RFields(g, c, sealed, w, all[1..]).exact);
    }
  }

  lemma {:induction false} StillSealed(g: Graph, sealed: set<Item>, a: seq<Field>)
    requires Still(a)
    ensures WFields(g, sealed, a).sealed == sealed
  {
    if a != [] {
      StillField(g, Context(_ => false, _ => None, 0), sealed, START, a[0]);
      StillSealed(g, sealed, a[1..]);
    }
  }

  lemma AllStill(g: Graph, c: Context, sealed: set<Item>, w: Walk, a: seq<Field>)
    requires Still(a)
    ensures RFields(g, c, sealed, w, a) == Pass(w, true) && SFields(g, c, sealed, w, a) == w
  {
    StillThen(g, c, sealed, w, a, []);
    assert a + [] == a;
  }

  /** Reading such a type while its symbol has no type yet. */
  lemma OwnTypeBlurred(g: Graph, c: Context, sealed: set<Item>, w: Walk, s: SymId, t: TypeId)
    requires MentionsItself(g, s, t) && Sym(s) in sealed && s in w.locals && w.locals[s].None?
    ensures RTypeBody(g, c, sealed, w, t) == Loaded(g, c, LookUp(g, c, w, s), Typ(t), false)
  {
    var d := g.types[t].data;
    OwnFields(g, s, t);
    OwnFieldsRead(g, c, sealed, w, s, d);
    assert RFields(g, c, WFields(g, sealed, TypeFields(d)).sealed, LookUp(g, c, w, s), []) == Pass(LookUp(g, c, w, s), true);
  }

  /** What is before the mention in such a type, and what after it. */
  ghost function OwnFront(d: TypeData): (fs: seq<Field>)
    ensures Still(fs)
  {
    [Atom(Dot), Atom(Flags(d.flags)), Atom(Ident(d.callConv)), Atom(IntLit(d.size)), Atom(IntLit(d.align)), Atom(IntLit(d.padding)),
     Atom(IntLit(d.nonUniqueId)), TypeRef(None)]
  }

  ghost function OwnBack(d: TypeData): (fs: seq<Field>)
    ensures Still(fs)
  {
    [SymRef(None), SymRef(None)] + LocFields(d.loc)
  }

  lemma OwnFields(g: Graph, s: SymId, t: TypeId)
    requires MentionsItself(g, s, t)
    ensures var d := g.types[t].data;
      && TypeFields(d) == OwnFront(d) + ([Tree(d.n)] + OwnBack(d))
      && SonFields(d.sons) == [] && Body(g, Typ(t)) == TypeFields(d)
  {
    var d := g.types[t].data;
    assert TypeFields(d) + [] == TypeFields(d);
  }

  lemma OwnFieldsRead(g: Graph, c: Context, sealed: set<Item>, w: Walk, s: SymId, d: TypeData)
    requires d.n == SymNode(s, SymTyp(g, s)) && Sym(s) in sealed && s in w.locals && w.locals[s] != SymTyp(g, s)
    ensures var fs := OwnFront(d) + ([Tree(d.n)] + OwnBack(d));
      SFields(g, c, sealed, w, fs) == w && RFields(g, c, sealed, w, fs) == Pass(LookUp(g, c, w, s), false)
  {
    StillThen(g, c, sealed, w, OwnFront(d), [Tree(d.n)] + OwnBack(d));
    MentionRead(g, c, sealed, w, s, d.n, OwnBack(d));
  }

  lemma MentionRead(g: Graph, c: Context, sealed: set<Item>, w: Walk, s: SymId, n: Node, back: seq<Field>)
    requires n == SymNode(s, SymTyp(g, s)) && Sym(s) in sealed && s in w.locals && w.locals[s] != SymTyp(g, s) && Still(back)
    ensures SFields(g, c, sealed, w, [Tree(n)] + back) == w
    ensures RFields(g, c, sealed, w, [Tree(n)] + back) == Pass(LookUp(g, c, w, s), false)
  {
    var fs := [Tree(n)] + back;
    assert fs[1..] == back && fs[0] == Tree(n);
    AllStill(g, c, sealed, w, back);
    AllStill(g, c, sealed, LookUp(g, c, w, s), back);
    assert SNode(g, c, sealed, w, n) == SSymNode(g, c, sealed, w, s, SymTyp(g, s)) == w;
    assert RNode(g, c, sealed, w, n) == ByName(g, c, w, s);
    assert WNode(g, sealed, n).sealed == sealed;
  }

  lemma OwnHead(g: Graph, c: Context, sealed: set<Item>, w: Walk, s: SymId, t: TypeId)
    requires MentionsItself(g, s, t)
    ensures RFields(g, c, sealed, w, SymHead(g.syms[s].data)) == Pass(RType(g, c, sealed, w, Some(t)), true)
  {
    var r := g.syms[s].data;
    var front := [Atom(ParRi), Atom(Flags(r.magic)), Atom(SymFlags(r.flags)), Atom(Flags(r.options)), Atom(IntLit(r.offset)),
      Atom(PositionToken(r)), Annex(None)];
    assert SymHead(r) == front + [TypeRef(Some(t))];
    StillThen(g, c, sealed, w, front, [TypeRef(Some(t))]);
    assert [TypeRef(Some(t))][1..] == [];
  }

  lemma OwnType(g: Graph, c: Context, sealed: set<Item>, w: Walk, s: SymId, t: TypeId)
    requires MentionsItself(g, s, t) && Sym(s) in sealed && Typ(t) !in sealed && t !in w.started && s in w.locals && w.locals[s].None?
    ensures RType(g, c, sealed, w, Some(t)) == Loaded(g, c, LookUp(g, c, w.(started := w.started + {t}), s), Typ(t), false)
  {
    OwnTypeBlurred(g, c, sealed + {Typ(t)}, w.(started := w.started + {t}), s, t);
  }

  lemma OwnTail(g: Graph, c: Context, sealed: set<Item>, w: Walk, s: SymId, t: TypeId)
    requires MentionsItself(g, s, t)
    ensures RFields(g, c, sealed, w, SymTail(g.syms[s].data)) == Pass(w, true)
  {
    AllStill(g, c, sealed, w, SymTail(g.syms[s].data));
  }

  /** Reading the definition of such a symbol. */
  lemma OwnSymBody(g: Graph, c: Context, sealed: set<Item>, w: Walk, s: SymId, t: TypeId)
    requires MentionsItself(g, s, t)
    ensures RSymBody(g, c, sealed, w, s) == Loaded(g, c, Typed(g, c, RType(g, c, sealed, w, Some(t)), s), Sym(s), true)
  {
    var data := g.syms[s].data;
    OwnHead(g, c, sealed, w, s, t);
    OwnTail(g, c, WFields(g, sealed, SymHead(data)).sealed, Typed(g, c, RType(g, c, sealed, w, Some(t)), s), s, t);
  }

  lemma OwnNode(g: Graph, c: Context, s: SymId, t: TypeId)
    requires c.isLocal(s) && MentionsItself(g, s, t)
    ensures RNode(g, c, {}, START, SymNode(s, Some(t))).w == RSymBody(g, c, {} + {Sym(s)}, Enter(c, START, s), s)
  {
    assert RNode(g, c, {}, START, SymNode(s, Some(t))) == RSymNode(g, c, {}, START, s, Some(t));
  }

  /** How the walk over the definition of such a symbol ends. */
  ghost function OwnEnd(g: Graph, c: Context, w: Walk, s: SymId, t: TypeId): Walk
  {
    Loaded(g, c, Typed(g, c, Loaded(g, c, LookUp(g, c, w.(started := w.started + {t}), s), Typ(t), false), s), Sym(s), true)
  }

  lemma OnlyEntered(c: Context, s: SymId)
    ensures Enter(c, START, s) == START.(locals := map[s := None], events := [Enters(s)])
  {
  }

  lemma OwnEvents(g: Graph, c: Context, s: SymId, t: TypeId)
    requires c.isLocal(s)
    ensures var r := OwnEnd(g, c, Enter(c, START, s), s, t);
      r.events == [Enters(s), LookedUp(s)] && Typ(t) in r.blurred && t in r.started
  {
    OnlyEntered(c, s);
  }

  lemma OwnRead(g: Graph, c: Context, s: SymId, t: TypeId)
    requires MentionsItself(g, s, t)
    ensures RSymBody(g, c, {} + {Sym(s)}, Enter(c, START, s), s) == OwnEnd(g, c, Enter(c, START, s), s, t)
  {
    OnlyEntered(c, s);
    OwnReadFrom(g, c, {} + {Sym(s)}, Enter(c, START, s), s, t);
  }

  lemma OwnReadFrom(g: Graph, c: Context, sealed: set<Item>, w: Walk, s: SymId, t: TypeId)
    requires MentionsItself(g, s, t) && Sym(s) in sealed && Typ(t) !in sealed && t !in w.started && s in w.locals && w.locals[s].None?
    ensures RSymBody(g, c, sealed, w, s) == OwnEnd(g, c, w, s, t)
  {
    OwnSymBody(g, c, sealed, w, s, t);
    OwnType(g, c, sealed, w, s, t);
  }

  /** The walk over the one node. */
  lemma OwnWalk(g: Graph, c: Context, s: SymId, t: TypeId)
    requires c.isLocal(s) && MentionsItself(g, s, t)
    ensures var w := RNode(g, c, {}, START, SymNode(s, Some(t))).w;
      w.events == [Enters(s), LookedUp(s)] && Typ(t) in w.blurred && t in w.started
  {
    OwnNode(g, c, s, t);
    OwnRead(g, c, s, t);
    OwnEvents(g, c, s, t);
  }

  lemma NonePending(st: State, t: TypeId)
    requires t in st.started && Pending(st) == Pending(FRESH)
    ensures t in st.types
  {
    assert t !in Pending(FRESH);
  }

  /** The type that mentions its symbol is loaded, but not as it was written: the mention has no type. */
  lemma OwnTypeUntyped(g: Graph, c: Context, s: SymId, t: TypeId)
    requires Fits(g, c) && c.isLocal(s) && MentionsItself(g, s, t)
    ensures var p := LNode(c, FRESH, WNode(g, {}, SymNode(s, Some(t))).toks);
      p.Parsed? && p.value == SymNode(s, Some(t)) && t in p.st.types && p.st.types[t] != g.types[t].data
  {
    var n := SymNode(s, Some(t));
    StartSound(g, c);
    NodeTrip(g, {}, n, c, FRESH, START, []);
    assert WNode(g, {}, n).toks + [] == WNode(g, {}, n).toks;
    OwnWalk(g, c, s, t);
    assert [Enters(s), LookedUp(s)][..1] == [Enters(s)];
    NonePending(LNode(c, FRESH, WNode(g, {}, n).toks).st, t);
  }
}
