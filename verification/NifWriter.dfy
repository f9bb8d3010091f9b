/** The NIF writer on a cyclic graph of symbols, types and trees: which tokens it produces. */
module NifWriter {
  import opened Wrappers

  /** A symbol or a type; its NIF name is an injective function of it. */
  datatype Item = Sym(id: int) | Typ(id: int)

  datatype NodeKind =
    | NkEmpty | NkIdent | NkCharLit | NkIntLit(width: int) | NkUIntLit(width: int) | NkStrLit(form: int) | NkNilLit
    | NkOther(tag: int)

  datatype SymKind = SkLet | SkVar | SkField | SkForVar | SkModule | SkResult | SkOther(tag: int)

  /** The symbol flags that the serializer looks at, and the others. */
  datatype SymFlag = SfExported | SfFromGeneric | SfMainModule | SfOther(code: int)

  datatype Tag = Ht | Sd | Td | KindTag(kind: NodeKind) | SymKindTag(skind: SymKind) | LibTag(lib: int) | BoolTag(b: bool)

  datatype Token =
    | Dot
    | ParLe(tag: Tag)
    | ParRi
    | Ident(s: string)
    | FlagSet(flags: set<SymFlag>)
    | Symbol(use: Item)
    | SymbolDef(def: Item)
    | IntLit(i: int)
    | UIntLit(u: nat)
    | CharLit(c: int)
    | StrLit(str: string)

  type SymId = int
  type TypeId = int

  /** What a leaf node carries besides its flags and its type. */
  datatype Payload =
    | PIdent(s: string)
    | PChar(c: int)
    | PInt(width: int, i: int)
    | PUInt(width: int, u: nat)
    | PStr(form: int, str: string)
    | PNil

  /** The trees of the fragment.  A node's type is optional except where its presence selects the form. */
  datatype Node =
    | NilNode
    | Empty
    | TypedEmpty(flags: string, etyp: TypeId)
    | SymNode(sym: SymId, styp: Option<TypeId>)
    | Atomic(value: Payload, flags: string, atyp: Option<TypeId>)
    | Inner(tag: int, flags: string, typ: Option<TypeId>, sons: seq<Node>)

  function KindOf(p: Payload): NodeKind
  {
    match p
    case PIdent(_) => NkIdent
    case PChar(_) => NkCharLit
    case PInt(w, _) => NkIntLit(w)
    case PUInt(w, _) => NkUIntLit(w)
    case PStr(f, _) => NkStrLit(f)
    case PNil => NkNilLit
  }

  function PayloadTokens(p: Payload): seq<Token>
  {
    match p
    case PIdent(s) => [Ident(s)]
    case PChar(c) => [CharLit(c)]
    case PInt(_, i) => [IntLit(i)]
    case PUInt(_, u) => [UIntLit(u)]
    case PStr(_, s) => [StrLit(s)]
    case PNil => []
  }

  /** The library a symbol is imported from. */
  datatype Lib = Lib(kind: int, generated: bool, overridden: bool, name: string, path: Node)

  /** One component of a definition, in the order in which it is stored. */
  datatype Field =
    | Atom(t: Token)
    | TypeRef(typ: Option<TypeId>)
    | SymRef(sym: Option<SymId>)
    | Tree(n: Node)
    | Annex(lib: Option<Lib>)

  datatype Loc = Loc(k: string, storage: string, flags: string, snippet: string)

  /** The fields of a symbol.  Those of a guard exist for some kinds only; the others have the initial values. */
  datatype SymData = SymData(kind: SymKind, guard: Option<SymId>, bitsize: int, alignment: int,
                             magic: string, flags: set<SymFlag>, options: string, offset: int, position: int,
                             annex: Option<Lib>, typ: Option<TypeId>, owner: Option<SymId>, ast: Node, loc: Loc,
                             constraint: Node, instantiatedFrom: Option<SymId>)

  /** A symbol with its standing in the module that is written: whether it belongs to it, whether it is still a stub,
      and whether its name is local. */
  datatype SymRec = SymRec(own: bool, partial: bool, local: bool, data: SymData)

  datatype TypeData = TypeData(flags: string, callConv: string, size: int, align: int, padding: int, nonUniqueId: int,
                               typeInst: Option<TypeId>, n: Node, owner: Option<SymId>, sym: Option<SymId>, loc: Loc,
                               sons: seq<Option<TypeId>>)

  datatype TypeRec = TypeRec(own: bool, partial: bool, data: TypeData)

  datatype Graph = Graph(syms: map<SymId, SymRec>, types: map<TypeId, TypeRec>)

  // ---------------------------------------------------------------------------
  // Definitions as field lists.

  /** A flag set: an identifier, or a dot when it is empty. */
  function Flags(flags: string): Token
  {
    if flags == "" then Dot else Ident(flags)
  }

  function SymFlags(flags: set<SymFlag>): Token
  {
    if flags == {} then Dot else FlagSet(flags)
  }

  predicate Exported(r: SymData)
  {
    SfExported in r.flags && SfFromGeneric !in r.flags
  }

  function ExportMarker(r: SymData): Token
  {
    if Exported(r) then Ident("x") else Dot
  }

  function LocFields(loc: Loc): seq<Field>
  {
    [Atom(Ident(loc.k)), Atom(Ident(loc.storage)), Atom(Flags(loc.flags)), Atom(StrLit(loc.snippet))]
  }

  predicate Guarded(kind: SymKind)
  {
    kind.SkLet? || kind.SkVar? || kind.SkField? || kind.SkForVar?
  }

  function PositionToken(r: SymData): Token
  {
    if r.kind.SkModule? then Dot
    else if r.kind.SkVar? || r.kind.SkLet? || r.kind.SkForVar? || r.kind.SkResult? then IntLit(0)
    else IntLit(r.position)
  }

  function GuardFields(r: SymData): seq<Field>
  {
    if Guarded(r.kind) then [SymRef(r.guard), Atom(IntLit(r.bitsize)), Atom(IntLit(r.alignment))] else []
  }

  /** What follows the kind of a symbol, up to its type. */
  function SymHead(r: SymData): seq<Field>
  {
    GuardFields(r)
    + [Atom(ParRi), Atom(Flags(r.magic)), Atom(SymFlags(r.flags)), Atom(Flags(r.options)), Atom(IntLit(r.offset)),
       Atom(PositionToken(r)), Annex(r.annex), TypeRef(r.typ)]
  }

  /** What follows the type. */
  function SymTail(r: SymData): seq<Field>
  {
    [SymRef(r.owner), Tree(r.ast)] + LocFields(r.loc) + [Tree(r.constraint), SymRef(r.instantiatedFrom)]
  }

  function SonFields(sons: seq<Option<TypeId>>): (fs: seq<Field>)
    ensures |fs| == |sons| && forall i :: 0 <= i < |sons| ==> fs[i] == TypeRef(sons[i])
  {
    seq(|sons|, i requires 0 <= i < |sons| => TypeRef(sons[i]))
  }

  function TypeFields(r: TypeData): seq<Field>
  {
    [Atom(Dot), Atom(Flags(r.flags)), Atom(Ident(r.callConv)), Atom(IntLit(r.size)), Atom(IntLit(r.align)),
     Atom(IntLit(r.padding)), Atom(IntLit(r.nonUniqueId)), TypeRef(r.typeInst), Tree(r.n), SymRef(r.owner), SymRef(r.sym)]
    + LocFields(r.loc)
  }

  /** What a definition of `x` stores between its name and the closing parenthesis. */
  function Body(g: Graph, x: Item): seq<Field>
    requires InGraph(g, x)
  {
    match x
    case Sym(s) =>
      var r := g.syms[s].data;
      [Atom(ExportMarker(r)), Atom(ParLe(SymKindTag(r.kind)))] + SymHead(r) + SymTail(r)
    case Typ(t) => TypeFields(g.types[t].data) + SonFields(g.types[t].data.sons)
  }

  predicate InGraph(g: Graph, x: Item)
  {
    if x.Sym? then x.id in g.syms else x.id in g.types
  }

  /** Items that get a definition the first time they are met: own-module types that are complete, and
      own-module symbols that are complete or local. */
  predicate Definable(g: Graph, x: Item)
  {
    && InGraph(g, x)
    && if x.Sym? then g.syms[x.id].own && (g.syms[x.id].local || !g.syms[x.id].partial)
       else g.types[x.id].own && !g.types[x.id].partial
  }

  ghost function Definables(g: Graph): set<Item>
  {
    (set s | s in g.syms && Definable(g, Sym(s)) :: Sym(s)) + (set t | t in g.types && Definable(g, Typ(t)) :: Typ(t))
  }

  ghost function Unsealed(g: Graph, sealed: set<Item>): nat
  {
    |Definables(g) - sealed|
  }

  function SymTyp(g: Graph, s: SymId): Option<TypeId>
  {
    if s in g.syms then g.syms[s].data.typ else None
  }

  function TypItem(t: Option<TypeId>): Option<Item>
  {
    if t.None? then None else Some(Typ(t.value))
  }

  function SymItem(s: Option<SymId>): Option<Item>
  {
    if s.None? then None else Some(Sym(s.value))
  }

  // ---------------------------------------------------------------------------
  // The writer.

  /** Tokens appended and the items sealed afterwards. */
  datatype Out = Out(toks: seq<Token>, sealed: set<Item>)

  lemma SealShrinks(g: Graph, sealed: set<Item>, x: Item)
    requires Definable(g, x) && x !in sealed
    ensures Unsealed(g, sealed + {x}) < Unsealed(g, sealed)
  {
    assert Definables(g) - (sealed + {x}) == (Definables(g) - sealed) - {x};
    assert x in Definables(g);
  }

  lemma MoreSealed(g: Graph, sealed: set<Item>, sealed': set<Item>)
    requires sealed <= sealed'
    ensures Unsealed(g, sealed') <= Unsealed(g, sealed)
  {
    Subsets(Definables(g) - sealed', Definables(g) - sealed);
  }

  lemma {:induction false} Subsets(a: set<Item>, b: set<Item>)
    requires a <= b
    ensures |a| <= |b|
  {
    if x :| x in a { Subsets(a - {x}, b - {x}); }
  }

  function DefTag(x: Item): Tag { if x.Sym? then Sd else Td }

  /** The definition of `x`, which has just been sealed. */
  ghost function WDef(g: Graph, sealed: set<Item>, x: Item): (o: Out)
    requires InGraph(g, x)
    ensures sealed <= o.sealed
    decreases Unsealed(g, sealed), 4
  {
    var o := WFields(g, sealed, Body(g, x));
    Out([ParLe(DefTag(x)), SymbolDef(x)] + o.toks + [ParRi], o.sealed)
  }

  /** `writeSym` and `writeType`. */
  ghost function WRef(g: Graph, sealed: set<Item>, x: Option<Item>): (o: Out)
    ensures sealed <= o.sealed
    decreases Unsealed(g, sealed), 1, 0
  {
    if x.None? then Out([Dot], sealed)
    else if Definable(g, x.value) && x.value !in sealed then
      SealShrinks(g, sealed, x.value);
      WDef(g, sealed + {x.value}, x.value)
    else Out([Symbol(x.value)], sealed)
  }

  ghost function WFields(g: Graph, sealed: set<Item>, fs: seq<Field>): (o: Out)
    ensures sealed <= o.sealed
    decreases Unsealed(g, sealed), 3, |fs|
  {
    if fs == [] then Out([], sealed)
    else
      var a := WField(g, sealed, fs[0]);
      MoreSealed(g, sealed, a.sealed);
      var b := WFields(g, a.sealed, fs[1..]);
      Out(a.toks + b.toks, b.sealed)
  }

  ghost function WField(g: Graph, sealed: set<Item>, f: Field): (o: Out)
    ensures sealed <= o.sealed
    decreases Unsealed(g, sealed), 3, 0
  {
    match f
    case Atom(t) => Out([t], sealed)
    case TypeRef(t) => WRef(g, sealed, TypItem(t))
    case SymRef(s) => WRef(g, sealed, SymItem(s))
    case Tree(n) => WNode(g, sealed, n)
    case Annex(lib) => WAnnex(g, sealed, lib)
  }

  /** `writeLib` up to the path. */
  function LibHead(l: Lib): seq<Token>
  {
    [ParLe(LibTag(l.kind)), ParLe(BoolTag(l.generated)), ParRi, ParLe(BoolTag(l.overridden)), ParRi, StrLit(l.name)]
  }

  ghost function WAnnex(g: Graph, sealed: set<Item>, lib: Option<Lib>): (o: Out)
    ensures sealed <= o.sealed
    decreases Unsealed(g, sealed), 2
  {
    if lib.None? then Out([Dot], sealed)
    else
      var p := WNode(g, sealed, lib.value.path);
      Out(LibHead(lib.value) + p.toks + [ParRi], p.sealed)
  }

  /** `withNode`: tag, flags, type, then the body. */
  ghost function WHead(g: Graph, sealed: set<Item>, kind: NodeKind, flags: string, typ: Option<TypeId>): (o: Out)
    ensures sealed <= o.sealed
    decreases Unsealed(g, sealed), 1, 1
  {
    var t := WRef(g, sealed, TypItem(typ));
    Out([ParLe(KindTag(kind)), Flags(flags)] + t.toks, t.sealed)
  }

  ghost function WNode(g: Graph, sealed: set<Item>, n: Node): (o: Out)
    ensures sealed <= o.sealed
    decreases Unsealed(g, sealed), 2, n, 1
  {
    match n
    case NilNode => Out([Dot], sealed)
    case Empty => Out([ParLe(KindTag(NkEmpty)), ParRi], sealed)
    case TypedEmpty(flags, t) =>
      var h := WHead(g, sealed, NkEmpty, flags, Some(t));
      Out(h.toks + [ParRi], h.sealed)
    case SymNode(s, t) => WSymNode(g, sealed, s, t)
    case Atomic(value, flags, t) =>
      var h := WHead(g, sealed, KindOf(value), flags, t);
      Out(h.toks + PayloadTokens(value) + [ParRi], h.sealed)
    case Inner(tag, flags, t, sons) =>
      var h := WHead(g, sealed, NkOther(tag), flags, t);
      MoreSealed(g, sealed, h.sealed);
      var ss := WNodes(g, h.sealed, sons);
      Out(h.toks + ss.toks + [ParRi], ss.sealed)
  }

  ghost function WNodes(g: Graph, sealed: set<Item>, ns: seq<Node>): (o: Out)
    ensures sealed <= o.sealed
    decreases Unsealed(g, sealed), 2, ns, 0
  {
    if ns == [] then Out([], sealed)
    else
      var a := WNode(g, sealed, ns[0]);
      MoreSealed(g, sealed, a.sealed);
      var b := WNodes(g, a.sealed, ns[1..]);
      Out(a.toks + b.toks, b.sealed)
  }

  /** `writeSymNode`.  The symbol is sealed before the hidden type is written. */
  ghost function WSymNode(g: Graph, sealed: set<Item>, s: SymId, t: Option<TypeId>): (o: Out)
    ensures sealed <= o.sealed
    decreases Unsealed(g, sealed), 1, 2
  {
    if Definable(g, Sym(s)) && Sym(s) !in sealed then
      SealShrinks(g, sealed, Sym(s));
      if t == SymTyp(g, s) then WDef(g, sealed + {Sym(s)}, Sym(s))
      else
        var a := WRef(g, sealed + {Sym(s)}, TypItem(t));
        MoreSealed(g, sealed + {Sym(s)}, a.sealed);
        var b := WDef(g, a.sealed, Sym(s));
        Out([ParLe(Ht)] + a.toks + b.toks + [ParRi], b.sealed)
    else if t == SymTyp(g, s) then Out([Symbol(Sym(s))], sealed)
    else
      var a := WRef(g, sealed, TypItem(t));
      Out([ParLe(Ht)] + a.toks + [Symbol(Sym(s))] + [ParRi], a.sealed)
  }

  lemma Regroup(a: seq<Token>, b: seq<Token>, c: seq<Token>)
    ensures (a + b) + c == a + (b + c)
  {
  }

  lemma {:induction false} FieldsConcat(g: Graph, sealed: set<Item>, a: seq<Field>, b: seq<Field>)
    ensures var x := WFields(g, sealed, a);
      var y := WFields(g, x.sealed, b);
      WFields(g, sealed, a + b) == Out(x.toks + y.toks, y.sealed)
    decreases |a|
  {
    if a == [] {
      assert a + b == b;
      assert [] + WFields(g, sealed, b).toks == WFields(g, sealed, b).toks;
    } else {
      var h := WField(g, sealed, a[0]);
      assert (a + b)[1..] == a[1..] + b;
      FieldsConcat(g, h.sealed, a[1..], b);
      Regroup(h.toks, WFields(g, h.sealed, a[1..]).toks, WFields(g, WFields(g, h.sealed, a[1..]).sealed, b).toks);
    }
  }

  // ---------------------------------------------------------------------------
  // Every item is defined at most once, exactly when it gets sealed.

  ghost function DefCount(toks: seq<Token>, x: Item): nat
  {
    if toks == [] then 0 else (if toks[0] == SymbolDef(x) then 1 else 0) + DefCount(toks[1..], x)
  }

  lemma {:induction false} DefCountConcat(a: seq<Token>, b: seq<Token>, x: Item)
    ensures DefCount(a + b, x) == DefCount(a, x) + DefCount(b, x)
  {
    if a == [] {
      assert a + b == b;
    } else {
      assert (a + b)[1..] == a[1..] + b;
      DefCountConcat(a[1..], b, x);
    }
  }

  ghost predicate NoDefs(toks: seq<Token>)
  {
    forall i :: 0 <= i < |toks| ==> !toks[i].SymbolDef?
  }

  lemma {:induction false} NoDefsCount(toks: seq<Token>, x: Item)
    requires NoDefs(toks)
    ensures DefCount(toks, x) == 0
  {
    if toks != [] { NoDefsCount(toks[1..], x); }
  }

  /** 1 if `x` was sealed between the two states, 0 otherwise. */
  ghost function Newly(sealed: set<Item>, sealed': set<Item>, x: Item): nat
  {
    if x in sealed' && x !in sealed then 1 else 0
  }

  /** The output of a writer call defines exactly the items it sealed, each once. */
  ghost predicate Once(sealed: set<Item>, o: Out, x: Item)
  {
    DefCount(o.toks, x) == Newly(sealed, o.sealed, x)
  }

  lemma {:induction false} DefOnce(g: Graph, sealed: set<Item>, x: Item, y: Item)
    requires InGraph(g, x) && x in sealed
    ensures DefCount(WDef(g, sealed, x).toks, y) == Newly(sealed, WDef(g, sealed, x).sealed, y) + if x == y then 1 else 0
    decreases Unsealed(g, sealed), 4
  {
    var o := WFields(g, sealed, Body(g, x));
    BodyPlain(g, x);
    FieldsOnce(g, sealed, Body(g, x), y);
    var head := [ParLe(DefTag(x)), SymbolDef(x)];
    DefCountConcat(head + o.toks, [ParRi], y);
    DefCountConcat(head, o.toks, y);
    assert head[1..] == [SymbolDef(x)] && head[1..][1..] == [] && [ParRi][1..] == [];
  }

  /** The atoms of a field list are not definitions of anything. */
  ghost predicate PlainAtoms(fs: seq<Field>)
  {
    forall i :: 0 <= i < |fs| && fs[i].Atom? ==> !fs[i].t.SymbolDef?
  }

  lemma BodyPlain(g: Graph, x: Item)
    requires InGraph(g, x)
    ensures PlainAtoms(Body(g, x))
  {
  }

  lemma {:induction false} RefOnce(g: Graph, sealed: set<Item>, x: Option<Item>, y: Item)
    ensures Once(sealed, WRef(g, sealed, x), y)
    decreases Unsealed(g, sealed), 1, 0
  {
    if x.Some? && Definable(g, x.value) && x.value !in sealed {
      SealShrinks(g, sealed, x.value);
      FirstRefOnce(g, sealed, x.value, y);
    } else {
      NoDefsCount(WRef(g, sealed, x).toks, y);
    }
  }

  lemma {:induction false} FirstRefOnce(g: Graph, sealed: set<Item>, x: Item, y: Item)
    requires InGraph(g, x) && x !in sealed
    ensures Once(sealed, WDef(g, sealed + {x}, x), y)
    decreases Unsealed(g, sealed + {x}), 5
  {
    DefOnce(g, sealed + {x}, x, y);
    NewlySealed(sealed, x, WDef(g, sealed + {x}, x).sealed, y);
  }

  lemma NewlySealed(sealed: set<Item>, x: Item, sealed': set<Item>, y: Item)
    requires x !in sealed && sealed + {x} <= sealed'
    ensures Newly(sealed, sealed', y) == Newly(sealed + {x}, sealed', y) + if x == y then 1 else 0
  {
  }

  lemma {:induction false} FieldsOnce(g: Graph, sealed: set<Item>, fs: seq<Field>, y: Item)
    requires PlainAtoms(fs)
    ensures Once(sealed, WFields(g, sealed, fs), y)
    decreases Unsealed(g, sealed), 3, |fs|
  {
    if fs != [] {
      var a := WField(g, sealed, fs[0]);
      MoreSealed(g, sealed, a.sealed);
      FieldOnce(g, sealed, fs[0], y);
      FieldsOnce(g, a.sealed, fs[1..], y);
      DefCountConcat(a.toks, WFields(g, a.sealed, fs[1..]).toks, y);
    }
  }

  lemma {:induction false} FieldOnce(g: Graph, sealed: set<Item>, f: Field, y: Item)
    requires f.Atom? ==> !f.t.SymbolDef?
    ensures Once(sealed, WField(g, sealed, f), y)
    decreases Unsealed(g, sealed), 3, 0
  {
    match f
    case Atom(t) => NoDefsCount([t], y);
    case TypeRef(t) => RefOnce(g, sealed, TypItem(t), y);
    case SymRef(s) => RefOnce(g, sealed, SymItem(s), y);
    case Tree(n) => NodeOnce(g, sealed, n, y);
    case Annex(lib) => AnnexOnce(g, sealed, lib, y);
  }

  lemma {:induction false} AnnexOnce(g: Graph, sealed: set<Item>, lib: Option<Lib>, y: Item)
    ensures Once(sealed, WAnnex(g, sealed, lib), y)
    decreases Unsealed(g, sealed), 2
  {
    if lib.None? {
      NoDefsCount([Dot], y);
    } else {
      NodeOnce(g, sealed, lib.value.path, y);
      NoDefsCount(LibHead(lib.value), y);
      OnceThen(sealed, Out(LibHead(lib.value), sealed), WNode(g, sealed, lib.value.path), y);
    }
  }

  lemma {:induction false} HeadOnce(g: Graph, sealed: set<Item>, kind: NodeKind, flags: string, typ: Option<TypeId>, y: Item)
    ensures Once(sealed, WHead(g, sealed, kind, flags, typ), y)
    decreases Unsealed(g, sealed), 1, 1
  {
    RefOnce(g, sealed, TypItem(typ), y);
    NoDefsCount([ParLe(KindTag(kind)), Flags(flags)], y);
    DefCountConcat([ParLe(KindTag(kind)), Flags(flags)], WRef(g, sealed, TypItem(typ)).toks, y);
  }

  /** A node that consists of a head and tokens that define nothing. */
  lemma {:induction false} LeafOnce(g: Graph, sealed: set<Item>, kind: NodeKind, flags: string, typ: Option<TypeId>, payload: seq<Token>, y: Item)
    requires NoDefs(payload)
    ensures var h := WHead(g, sealed, kind, flags, typ); DefCount(h.toks + payload + [ParRi], y) == Newly(sealed, h.sealed, y)
    decreases Unsealed(g, sealed), 1, 2
  {
    var h := WHead(g, sealed, kind, flags, typ);
    HeadOnce(g, sealed, kind, flags, typ, y);
    NoDefsCount(payload, y);
    NoDefsCount([ParRi], y);
    DefCountConcat(h.toks + payload, [ParRi], y);
    DefCountConcat(h.toks, payload, y);
  }

  lemma {:induction false} InnerOnce(g: Graph, sealed: set<Item>, tag: int, flags: string, t: Option<TypeId>, sons: seq<Node>, y: Item)
    ensures var h := WHead(g, sealed, NkOther(tag), flags, t);
      var ss := WNodes(g, h.sealed, sons);
      DefCount(h.toks + ss.toks + [ParRi], y) == Newly(sealed, ss.sealed, y)
    decreases Unsealed(g, sealed), 2, sons, 1
  {
    var h := WHead(g, sealed, NkOther(tag), flags, t);
    HeadOnce(g, sealed, NkOther(tag), flags, t, y);
    MoreSealed(g, sealed, h.sealed);
    NodesOnce(g, h.sealed, sons, y);
    OnceThen(sealed, h, WNodes(g, h.sealed, sons), y);
  }

  lemma OnceThen(sealed: set<Item>, a: Out, b: Out, y: Item)
    requires sealed <= a.sealed <= b.sealed && Once(sealed, a, y) && Once(a.sealed, b, y)
    ensures DefCount(a.toks + b.toks + [ParRi], y) == Newly(sealed, b.sealed, y)
  {
    NoDefsCount([ParRi], y);
    DefCountConcat(a.toks + b.toks, [ParRi], y);
    DefCountConcat(a.toks, b.toks, y);
  }

  lemma {:induction false} NodeOnce(g: Graph, sealed: set<Item>, n: Node, y: Item)
    ensures Once(sealed, WNode(g, sealed, n), y)
    decreases Unsealed(g, sealed), 2, n, 1
  {
    match n
    case NilNode => NoDefsCount([Dot], y);
    case Empty => NoDefsCount([ParLe(KindTag(NkEmpty)), ParRi], y);
    case TypedEmpty(flags, t) =>
      LeafOnce(g, sealed, NkEmpty, flags, Some(t), [], y);
      assert WHead(g, sealed, NkEmpty, flags, Some(t)).toks + [] == WHead(g, sealed, NkEmpty, flags, Some(t)).toks;
    case SymNode(s, t) => SymNodeOnce(g, sealed, s, t, y);
    case Atomic(value, flags, t) => LeafOnce(g, sealed, KindOf(value), flags, t, PayloadTokens(value), y);
    case Inner(tag, flags, t, sons) => InnerOnce(g, sealed, tag, flags, t, sons, y);
  }

  lemma {:induction false} NodesOnce(g: Graph, sealed: set<Item>, ns: seq<Node>, y: Item)
    ensures Once(sealed, WNodes(g, sealed, ns), y)
    decreases Unsealed(g, sealed), 2, ns, 0
  {
    if ns != [] {
      var a := WNode(g, sealed, ns[0]);
      NodeOnce(g, sealed, ns[0], y);
      MoreSealed(g, sealed, a.sealed);
      NodesOnce(g, a.sealed, ns[1..], y);
      DefCountConcat(a.toks, WNodes(g, a.sealed, ns[1..]).toks, y);
    }
  }

  lemma {:induction false} SymNodeOnce(g: Graph, sealed: set<Item>, s: SymId, t: Option<TypeId>, y: Item)
    ensures Once(sealed, WSymNode(g, sealed, s, t), y)
    decreases Unsealed(g, sealed), 1, 2
  {
    var x := Sym(s);
    if Definable(g, x) && x !in sealed {
      SealShrinks(g, sealed, x);
      if t == SymTyp(g, s) {
        FirstRefOnce(g, sealed, x, y);
      } else {
        HiddenDefOnce(g, sealed + {x}, x, t, y);
        var a := WRef(g, sealed + {x}, TypItem(t));
        MoreSealed(g, sealed + {x}, a.sealed);
        NewlySealed(sealed, x, WDef(g, a.sealed, x).sealed, y);
      }
    } else if t == SymTyp(g, s) {
      NoDefsCount([Symbol(x)], y);
    } else {
      RefOnce(g, sealed, TypItem(t), y);
      NoDefsCount([Symbol(x)], y);
      HiddenParts(WRef(g, sealed, TypItem(t)).toks, [Symbol(x)], y);
    }
  }

  lemma {:induction false} HiddenDefOnce(g: Graph, sealed: set<Item>, x: Item, t: Option<TypeId>, y: Item)
    requires InGraph(g, x) && x in sealed
    ensures var a := WRef(g, sealed, TypItem(t));
      var b := WDef(g, a.sealed, x);
      DefCount([ParLe(Ht)] + a.toks + b.toks + [ParRi], y) == Newly(sealed, b.sealed, y) + if x == y then 1 else 0
    decreases Unsealed(g, sealed), 5
  {
    var a := WRef(g, sealed, TypItem(t));
    MoreSealed(g, sealed, a.sealed);
    RefOnce(g, sealed, TypItem(t), y);
    DefOnce(g, a.sealed, x, y);
    HiddenParts(a.toks, WDef(g, a.sealed, x).toks, y);
  }

  lemma HiddenParts(b: seq<Token>, c: seq<Token>, y: Item)
    ensures DefCount([ParLe(Ht)] + b + c + [ParRi], y) == DefCount(b, y) + DefCount(c, y)
  {
    NoDefsCount([ParRi], y);
    NoDefsCount([ParLe(Ht)], y);
    DefCountConcat([ParLe(Ht)] + b + c, [ParRi], y);
    DefCountConcat([ParLe(Ht)] + b, c, y);
    DefCountConcat([ParLe(Ht)], b, y);
  }
}
