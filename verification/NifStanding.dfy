/** What the items of the own module get out of writing: told by the records of the graph and by the names in the output. */
module NifStanding {
  import opened Wrappers
  import opened NifWriter
  import opened NifReach

  // ---------------------------------------------------------------------------
  // What is named is defined, if it is to be.

  /** If `y` is definable and named, it has been sealed. */
  ghost predicate UsesSealed(g: Graph, o: Out, y: Item)
  {
    Symbol(y) in o.toks && Definable(g, y) ==> y in o.sealed
  }

  lemma UsesThen(g: Graph, a: Out, b: Out, y: Item)
    requires UsesSealed(g, a, y) && UsesSealed(g, b, y) && a.sealed <= b.sealed
    ensures UsesSealed(g, Out(a.toks + b.toks, b.sealed), y)
  {
  }

  /** Tokens that do not name it, put around. */
  lemma UsesAround(g: Graph, front: seq<Token>, o: Out, back: seq<Token>, y: Item)
    requires UsesSealed(g, o, y) && Symbol(y) !in front && Symbol(y) !in back
    ensures UsesSealed(g, Out(front + o.toks + back, o.sealed), y)
  {
  }

  lemma {:induction false} RefUses(g: Graph, sealed: set<Item>, x: Option<Item>, y: Item)
    ensures UsesSealed(g, WRef(g, sealed, x), y)
    decreases Unsealed(g, sealed), 1, 0
  {
    if x.Some? && Definable(g, x.value) && x.value !in sealed {
      SealShrinks(g, sealed, x.value);
      DefUses(g, sealed + {x.value}, x.value, y);
    }
  }

  lemma {:induction false} DefUses(g: Graph, sealed: set<Item>, x: Item, y: Item)
    requires InGraph(g, x)
    ensures UsesSealed(g, WDef(g, sealed, x), y)
    decreases Unsealed(g, sealed), 4
  {
    BodyNames(g, x);
    FieldsUses(g, sealed, Body(g, x), y);
    UsesAround(g, [ParLe(DefTag(x)), SymbolDef(x)], WFields(g, sealed, Body(g, x)), [ParRi], y);
  }

  /** The atoms of a field list name nothing. */
  ghost predicate NamelessAtoms(fs: seq<Field>)
  {
    forall i :: 0 <= i < |fs| && fs[i].Atom? ==> !fs[i].t.Symbol?
  }

  lemma BodyNames(g: Graph, x: Item)
    requires InGraph(g, x)
    ensures NamelessAtoms(Body(g, x))
  {
  }

  lemma {:induction false} FieldsUses(g: Graph, sealed: set<Item>, fs: seq<Field>, y: Item)
    requires NamelessAtoms(fs)
    ensures UsesSealed(g, WFields(g, sealed, fs), y)
    decreases Unsealed(g, sealed), 3, |fs|
  {
    if fs != [] {
      var a := WField(g, sealed, fs[0]);
      MoreSealed(g, sealed, a.sealed);
      FieldUses(g, sealed, fs[0], y);
      FieldsUses(g, a.sealed, fs[1..], y);
      UsesThen(g, a, WFields(g, a.sealed, fs[1..]), y);
    }
  }

  lemma {:induction false} FieldUses(g: Graph, sealed: set<Item>, f: Field, y: Item)
    requires f.Atom? ==> !f.t.Symbol?
    ensures UsesSealed(g, WField(g, sealed, f), y)
    decreases Unsealed(g, sealed), 3, 0
  {
    match f
    case Atom(_) =>
    case TypeRef(t) => RefUses(g, sealed, TypItem(t), y);
    case SymRef(s) => RefUses(g, sealed, SymItem(s), y);
    case Tree(n) => NodeUses(g, sealed, n, y);
    case Annex(lib) =>
      if lib.Some? {
        NodeUses(g, sealed, lib.value.path, y);
        UsesAround(g, LibHead(lib.value), WNode(g, sealed, lib.value.path), [ParRi], y);
      }
  }

  lemma {:induction false} HeadUses(g: Graph, sealed: set<Item>, kind: NodeKind, flags: string, typ: Option<TypeId>, back: seq<Token>, y: Item)
    requires Symbol(y) !in back
    ensures var h := WHead(g, sealed, kind, flags, typ); UsesSealed(g, Out(h.toks + back, h.sealed), y)
    decreases Unsealed(g, sealed), 1, 1
  {
    RefUses(g, sealed, TypItem(typ), y);
    UsesAround(g, [ParLe(KindTag(kind)), Flags(flags)], WRef(g, sealed, TypItem(typ)), back, y);
  }

  lemma {:induction false} NodeUses(g: Graph, sealed: set<Item>, n: Node, y: Item)
    ensures UsesSealed(g, WNode(g, sealed, n), y)
    decreases Unsealed(g, sealed), 2, n, 1
  {
    match n
    case NilNode =>
    case Empty =>
    case TypedEmpty(flags, t) => HeadUses(g, sealed, NkEmpty, flags, Some(t), [ParRi], y);
    case SymNode(s, t) => SymNodeUses(g, sealed, s, t, y);
    case Atomic(value, flags, t) =>
      HeadUses(g, sealed, KindOf(value), flags, t, PayloadTokens(value) + [ParRi], y);
      Regroup(WHead(g, sealed, KindOf(value), flags, t).toks, PayloadTokens(value), [ParRi]);
    case Inner(tag, flags, t, sons) =>
      var h := WHead(g, sealed, NkOther(tag), flags, t);
      HeadUses(g, sealed, NkOther(tag), flags, t, [], y);
      assert h.toks + [] == h.toks;
      MoreSealed(g, sealed, h.sealed);
      NodesUses(g, h.sealed, sons, y);
      GroupUses(g, h, WNodes(g, h.sealed, sons), y);
  }

  lemma GroupUses(g: Graph, a: Out, b: Out, y: Item)
    requires UsesSealed(g, a, y) && UsesSealed(g, b, y) && a.sealed <= b.sealed
    ensures UsesSealed(g, Out(a.toks + b.toks + [ParRi], b.sealed), y)
  {
    UsesThen(g, a, b, y);
  }

  lemma HiddenPartsUse(g: Graph, a: Out, b: Out, y: Item)
    requires UsesSealed(g, a, y) && UsesSealed(g, b, y) && a.sealed <= b.sealed
    ensures UsesSealed(g, Out([ParLe(Ht)] + a.toks + b.toks + [ParRi], b.sealed), y)
  {
    GroupUses(g, a, b, y);
    assert [ParLe(Ht)] + a.toks + b.toks + [ParRi] == [ParLe(Ht)] + (a.toks + b.toks + [ParRi]);
  }

  lemma {:induction false} NodesUses(g: Graph, sealed: set<Item>, ns: seq<Node>, y: Item)
    ensures UsesSealed(g, WNodes(g, sealed, ns), y)
    decreases Unsealed(g, sealed), 2, ns, 0
  {
    if ns != [] {
      var a := WNode(g, sealed, ns[0]);
      MoreSealed(g, sealed, a.sealed);
      NodeUses(g, sealed, ns[0], y);
      NodesUses(g, a.sealed, ns[1..], y);
      UsesThen(g, a, WNodes(g, a.sealed, ns[1..]), y);
    }
  }

  lemma {:induction false} SymNodeUses(g: Graph, sealed: set<Item>, s: SymId, t: Option<TypeId>, y: Item)
    ensures UsesSealed(g, WSymNode(g, sealed, s, t), y)
    decreases Unsealed(g, sealed), 1, 2
  {
    var x := Sym(s);
    if Definable(g, x) && x !in sealed {
      SealShrinks(g, sealed, x);
      if t == SymTyp(g, s) {
        DefUses(g, sealed + {x}, x, y);
      } else {
        HiddenUses(g, sealed + {x}, x, t, y);
      }
    } else if t != SymTyp(g, s) {
      var a := WRef(g, sealed, TypItem(t));
      RefUses(g, sealed, TypItem(t), y);
      HiddenPartsUse(g, a, Out([Symbol(x)], a.sealed), y);
    }
  }

  lemma {:induction false} HiddenUses(g: Graph, sealed: set<Item>, x: Item, t: Option<TypeId>, y: Item)
    requires InGraph(g, x)
    ensures var a := WRef(g, sealed, TypItem(t));
      var b := WDef(g, a.sealed, x);
      UsesSealed(g, Out([ParLe(Ht)] + a.toks + b.toks + [ParRi], b.sealed), y)
    decreases Unsealed(g, sealed), 5
  {
    var a := WRef(g, sealed, TypItem(t));
    var b := WDef(g, a.sealed, x);
    MoreSealed(g, sealed, a.sealed);
    RefUses(g, sealed, TypItem(t), y);
    DefUses(g, a.sealed, x, y);
    HiddenPartsUse(g, a, b, y);
  }

  /** The output names `x`, at its definition or elsewhere. */
  ghost predicate Named(toks: seq<Token>, x: Item)
  {
    Symbol(x) in toks || SymbolDef(x) in toks
  }

  lemma {:induction false} DefinedIsNamed(toks: seq<Token>, x: Item)
    ensures DefCount(toks, x) > 0 <==> SymbolDef(x) in toks
  {
    if toks != [] {
      assert toks == [toks[0]] + toks[1..];
      DefinedIsNamed(toks[1..], x);
    }
  }

  /** Of the symbols that the output names, just those of the own module that are complete or local have a definition in it,
      and of the types just those of the own module that are complete; each has exactly one. */
  lemma NamedDefinedOnce(g: Graph, ns: seq<Node>, x: Item)
    ensures var toks := WNodes(g, {}, ns).toks;
      DefCount(toks, x) == (
        if !Named(toks, x) then 0
        else match x
          case Sym(s) => if s in g.syms && g.syms[s].own && (!g.syms[s].partial || g.syms[s].local) then 1 else 0
          case Typ(t) => if t in g.types && g.types[t].own && !g.types[t].partial then 1 else 0)
  {
    var o := WNodes(g, {}, ns);
    NodesUses(g, {}, ns, x);
    NodesOnce(g, {}, ns, x);
    NodesExact(g, {}, ns, {});
    DefinedIsNamed(o.toks, x);
  }

  // ---------------------------------------------------------------------------
  // Mentions, read off the records of the graph.

  /** `m` is the tree `n` or lies in it. */
  ghost predicate Within(n: Node, m: Node)
  {
    n == m || (n.Inner? && exists i :: 0 <= i < |n.sons| && Within(n.sons[i], m))
  }

  /** The node `m` names a symbol if it is its node, and a type if that is its own; the type of a symbol node counts only if
      the symbol has another. */
  ghost predicate NodeNames(g: Graph, m: Node, y: Item)
  {
    match y
    case Sym(s) => m.SymNode? && m.sym == s
    case Typ(t) =>
      match m
      case TypedEmpty(_, u) => u == t
      case Atomic(_, _, u) => u == Some(t)
      case Inner(_, _, u, _) => u == Some(t)
      case SymNode(s, u) => u == Some(t) && !(s in g.syms && g.syms[s].data.typ == Some(t))
      case _ => false
  }

  ghost predicate TreeNames(g: Graph, n: Node, y: Item)
  {
    exists m :: Within(n, m) && NodeNames(g, m, y)
  }

  /** The record of `x` names `y`; the guard counts for the kinds of symbols that have one. */
  ghost predicate RecordNames(g: Graph, x: Item, y: Item)
  {
    match x
    case Sym(s) =>
      s in g.syms && var r := g.syms[s].data;
      || (y.Sym? && Some(y.id) in [r.owner, r.instantiatedFrom])
      || (y.Sym? && r.guard == Some(y.id) && (r.kind.SkLet? || r.kind.SkVar? || r.kind.SkField? || r.kind.SkForVar?))
      || (y.Typ? && r.typ == Some(y.id))
      || TreeNames(g, r.ast, y) || TreeNames(g, r.constraint, y) || (r.annex.Some? && TreeNames(g, r.annex.value.path, y))
    case Typ(t) =>
      t in g.types && var r := g.types[t].data;
      || (y.Sym? && Some(y.id) in [r.owner, r.sym])
      || (y.Typ? && (r.typeInst == Some(y.id) || Some(y.id) in r.sons))
      || TreeNames(g, r.n, y)
  }

  predicate Own(g: Graph, x: Item)
  {
    match x
    case Sym(s) => s in g.syms && g.syms[s].own
    case Typ(t) => t in g.types && g.types[t].own
  }

  /** Everything in the own module is complete. */
  ghost predicate NoStubs(g: Graph)
  {
    && (forall s :: s in g.syms && g.syms[s].own ==> !g.syms[s].partial)
    && (forall t :: t in g.types && g.types[t].own ==> !g.types[t].partial)
  }

  /** Items of the own module, each named by the record of the one before it. */
  ghost predicate OwnChain(g: Graph, p: seq<Item>)
  {
    |p| > 0 && Own(g, p[0]) && (|p| > 1 ==> RecordNames(g, p[0], p[1]) && OwnChain(g, p[1..]))
  }

  ghost predicate LeadsTo(g: Graph, ns: seq<Node>, x: Item)
  {
    exists p, k :: OwnChain(g, p) && 0 <= k < |ns| && TreeNames(g, ns[k], p[0]) && p[|p| - 1] == x
  }

  lemma {:induction false} MentionsAre(g: Graph, n: Node, y: Item)
    ensures y in Mentions(g, n) <==> TreeNames(g, n, y)
    decreases n, 1
  {
    match n
    case Inner(_, _, _, sons) =>
      AllMentionsAre(g, sons, y);
      if i :| 0 <= i < |sons| && TreeNames(g, sons[i], y) {
        var m :| Within(sons[i], m) && NodeNames(g, m, y);
        assert Within(n, m);
      }
      if TreeNames(g, n, y) {
        var m :| Within(n, m) && NodeNames(g, m, y);
        if m != n {
          var i :| 0 <= i < |sons| && Within(sons[i], m);
          assert TreeNames(g, sons[i], y);
        }
      }
      assert Within(n, n);
    case _ =>
      assert Within(n, n);
      assert forall m :: Within(n, m) ==> m == n;
  }

  lemma {:induction false} AllMentionsAre(g: Graph, ns: seq<Node>, y: Item)
    ensures y in AllMentions(g, ns) <==> exists i :: 0 <= i < |ns| && TreeNames(g, ns[i], y)
    decreases ns, 0
  {
    if ns != [] {
      MentionsAre(g, ns[0], y);
      AllMentionsAre(g, ns[1..], y);
      if i :| 0 <= i < |ns| && TreeNames(g, ns[i], y) {
        if i > 0 { assert TreeNames(g, ns[1..][i - 1], y); }
      }
    }
  }

  lemma {:induction false} FieldsMentionsAre(g: Graph, fs: seq<Field>, y: Item)
    ensures y in FieldsMentions(g, fs) <==> exists i :: 0 <= i < |fs| && y in FieldMentions(g, fs[i])
  {
    if fs != [] {
      FieldsMentionsAre(g, fs[1..], y);
      if i :| 0 <= i < |fs| && y in FieldMentions(g, fs[i]) {
        if i > 0 { assert fs[1..][i - 1] == fs[i]; }
      }
    }
  }

  lemma FieldsMentionsBoth(g: Graph, a: seq<Field>, b: seq<Field>, y: Item)
    ensures y in FieldsMentions(g, a + b) <==> y in FieldsMentions(g, a) || y in FieldsMentions(g, b)
  {
    FieldsMentionsAre(g, a + b, y);
    FieldsMentionsAre(g, a, y);
    FieldsMentionsAre(g, b, y);
    if i :| 0 <= i < |a| && y in FieldMentions(g, a[i]) { assert (a + b)[i] == a[i]; }
    if i :| 0 <= i < |b| && y in FieldMentions(g, b[i]) { assert (a + b)[|a| + i] == b[i]; }
  }

  lemma LocNames(g: Graph, loc: Loc, y: Item)
    ensures y !in FieldsMentions(g, LocFields(loc))
  {
    FieldsMentionsAre(g, LocFields(loc), y);
  }

  lemma SymHeadNames(g: Graph, r: SymData, y: Item)
    ensures y in FieldsMentions(g, SymHead(r)) <==>
      || (y.Sym? && r.guard == Some(y.id) && (r.kind.SkLet? || r.kind.SkVar? || r.kind.SkField? || r.kind.SkForVar?))
      || (y.Typ? && r.typ == Some(y.id)) || (r.annex.Some? && TreeNames(g, r.annex.value.path, y))
  {
    var rest := [Atom(ParRi), Atom(Flags(r.magic)), Atom(SymFlags(r.flags)), Atom(Flags(r.options)), Atom(IntLit(r.offset)),
                 Atom(PositionToken(r)), Annex(r.annex), TypeRef(r.typ)];
    FieldsMentionsBoth(g, GuardFields(r), rest, y);
    FieldsMentionsAre(g, rest, y);
    FieldsMentionsAre(g, GuardFields(r), y);
    if r.annex.Some? { MentionsAre(g, r.annex.value.path, y); }
    assert rest[6] == Annex(r.annex) && rest[7] == TypeRef(r.typ);
    if Guarded(r.kind) { assert GuardFields(r)[0] == SymRef(r.guard); }
  }

  lemma SymTailNames(g: Graph, r: SymData, y: Item)
    ensures y in FieldsMentions(g, SymTail(r)) <==>
      (y.Sym? && Some(y.id) in [r.owner, r.instantiatedFrom]) || TreeNames(g, r.ast, y) || TreeNames(g, r.constraint, y)
  {
    var front, back := [SymRef(r.owner), Tree(r.ast)], [Tree(r.constraint), SymRef(r.instantiatedFrom)];
    FieldsMentionsBoth(g, front + LocFields(r.loc), back, y);
    FieldsMentionsBoth(g, front, LocFields(r.loc), y);
    LocNames(g, r.loc, y);
    FieldsMentionsAre(g, front, y);
    FieldsMentionsAre(g, back, y);
    MentionsAre(g, r.ast, y);
    MentionsAre(g, r.constraint, y);
    assert front[0] == SymRef(r.owner) && front[1] == Tree(r.ast);
    assert back[0] == Tree(r.constraint) && back[1] == SymRef(r.instantiatedFrom);
  }

  lemma TypeNames(g: Graph, r: TypeData, y: Item)
    ensures y in FieldsMentions(g, TypeFields(r)) <==>
      (y.Sym? && Some(y.id) in [r.owner, r.sym]) || (y.Typ? && r.typeInst == Some(y.id)) || TreeNames(g, r.n, y)
  {
    var front := [Atom(Dot), Atom(Flags(r.flags)), Atom(Ident(r.callConv)), Atom(IntLit(r.size)), Atom(IntLit(r.align)),
      Atom(IntLit(r.padding)), Atom(IntLit(r.nonUniqueId)), TypeRef(r.typeInst), Tree(r.n), SymRef(r.owner), SymRef(r.sym)];
    FieldsMentionsBoth(g, front, LocFields(r.loc), y);
    LocNames(g, r.loc, y);
    FieldsMentionsAre(g, front, y);
    MentionsAre(g, r.n, y);
    assert front[7] == TypeRef(r.typeInst) && front[8] == Tree(r.n) && front[9] == SymRef(r.owner) && front[10] == SymRef(r.sym);
  }

  lemma SonNames(g: Graph, sons: seq<Option<TypeId>>, y: Item)
    ensures y in FieldsMentions(g, SonFields(sons)) <==> y.Typ? && Some(y.id) in sons
  {
    FieldsMentionsAre(g, SonFields(sons), y);
    if y.Typ? && Some(y.id) in sons {
      var i :| 0 <= i < |sons| && sons[i] == Some(y.id);
      assert y in FieldMentions(g, SonFields(sons)[i]);
    }
  }

  lemma BodyMentionsAre(g: Graph, x: Item, y: Item)
    requires InGraph(g, x)
    ensures y in FieldsMentions(g, Body(g, x)) <==> RecordNames(g, x, y)
  {
    match x
    case Sym(s) =>
      var r := g.syms[s].data;
      var opening := [Atom(ExportMarker(r)), Atom(ParLe(SymKindTag(r.kind)))];
      FieldsMentionsBoth(g, opening + SymHead(r), SymTail(r), y);
      FieldsMentionsBoth(g, opening, SymHead(r), y);
      FieldsMentionsAre(g, opening, y);
      SymHeadNames(g, r, y);
      SymTailNames(g, r, y);
    case Typ(t) =>
      var r := g.types[t].data;
      FieldsMentionsBoth(g, TypeFields(r), SonFields(r.sons), y);
      TypeNames(g, r, y);
      SonNames(g, r.sons, y);
  }

  lemma {:induction false} ChainIsPath(g: Graph, p: seq<Item>)
    requires NoStubs(g)
    ensures OwnChain(g, p) <==> ItemPath(g, p)
  {
    if |p| > 1 {
      ChainIsPath(g, p[1..]);
      if Own(g, p[0]) { BodyMentionsAre(g, p[0], p[1]); }
    }
  }

  /** If nothing in the own module is a stub, writing trees gives one definition to each item of the own module that a chain
      of mentions through the module leads to, whatever the cycles, and none to any other: in particular none to an item of
      another module. */
  lemma OwnDefinedOnce(g: Graph, ns: seq<Node>, x: Item)
    requires NoStubs(g)
    ensures DefCount(WNodes(g, {}, ns).toks, x) == if LeadsTo(g, ns, x) then 1 else 0
    ensures LeadsTo(g, ns, x) ==> Own(g, x)
  {
    ReachableDefinedOnce(g, ns, x);
    if Reachable(g, ns, x) {
      var p :| ItemPath(g, p) && p[0] in AllMentions(g, ns) && p[|p| - 1] == x;
      ChainIsPath(g, p);
      AllMentionsAre(g, ns, p[0]);
    }
    if LeadsTo(g, ns, x) {
      var p, k :| OwnChain(g, p) && 0 <= k < |ns| && TreeNames(g, ns[k], p[0]) && p[|p| - 1] == x;
      ChainIsPath(g, p);
      AllMentionsAre(g, ns, p[0]);
      ChainOwn(g, p);
    }
  }

  lemma {:induction false} ChainOwn(g: Graph, p: seq<Item>)
    requires OwnChain(g, p)
    ensures Own(g, p[|p| - 1])
  {
    if |p| > 1 { ChainOwn(g, p[1..]); }
  }
}
