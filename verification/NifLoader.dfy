/** The NIF loader as a parser on a token sequence: what every loading step reads, returns and records. */
module NifLoader {
  import opened Wrappers
  import opened NifWriter

  /** What loading has found so far: the types whose loading has begun, the definitions that have been loaded, and the
      table of local symbols with the type that each has at the moment. */
  datatype State = State(started: set<TypeId>, types: map<TypeId, TypeData>, syms: map<SymId, SymData>,
                         locals: map<SymId, Option<TypeId>>)

  const FRESH := State({}, map[], map[], map[])

  /** What the loader looks up elsewhere: whether a symbol's name has no module suffix, the type a symbol with a suffix
      gets when it is itself loaded, and the position of a module. */
  datatype Context = Context(isLocal: SymId -> bool, lazyTyp: SymId -> Option<TypeId>, modulePos: int)

  /** The outcome of a loading step: a value, the tokens after it, and the new state; or a failed expectation. */
  datatype Parsed<+T> = Bad | Parsed(value: T, rest: seq<Token>, st: State)

  datatype Slot = FlagSlot | SymFlagSlot | IntSlot | StrSlot | DotSlot | CloseSlot | TypeSlot | SymSlot | TreeSlot | AnnexSlot

  predicate Accepts(slot: Slot, t: Token)
  {
    match slot
    case FlagSlot => t.Dot? || t.Ident?
    case SymFlagSlot => t.Dot? || t.FlagSet?
    case IntSlot => t.IntLit?
    case StrSlot => t.StrLit?
    case DotSlot => t.Dot?
    case CloseSlot => t.ParRi?
    case _ => false
  }

  function LocSchema(): seq<Slot>
  {
    [FlagSlot, FlagSlot, FlagSlot, StrSlot]
  }

  /** The order in which `loadSymFromCursor` reads after the kind tag, up to the type. */
  function SymHeadSchema(kind: SymKind): seq<Slot>
  {
    (if Guarded(kind) then [SymSlot, IntSlot, IntSlot] else [])
    + [CloseSlot, FlagSlot, SymFlagSlot, FlagSlot, IntSlot, if kind.SkModule? then DotSlot else IntSlot, AnnexSlot, TypeSlot]
  }

  /** After the type. */
  function SymTailSchema(): seq<Slot>
  {
    [SymSlot, TreeSlot] + LocSchema() + [TreeSlot, SymSlot]
  }

  /** The order in which `loadTypeFromCursor` reads before the sons. */
  function TypeSchema(): seq<Slot>
  {
    [DotSlot, FlagSlot, FlagSlot, IntSlot, IntSlot, IntSlot, IntSlot, TypeSlot, TreeSlot, SymSlot, SymSlot] + LocSchema()
  }

  // ---------------------------------------------------------------- from what was read to the fields of a symbol or type

  function TokenIn(f: Field): Token
  {
    if f.Atom? then f.t else Dot
  }

  function FlagsOf(t: Token): string
  {
    if t.Ident? then t.s else ""
  }

  function SymFlagsOf(t: Token): set<SymFlag>
  {
    if t.FlagSet? then t.flags else {}
  }

  function IntOf(t: Token): int
  {
    if t.IntLit? then t.i else 0
  }

  function StrOf(t: Token): string
  {
    if t.StrLit? then t.str else ""
  }

  function TypeIn(f: Field): Option<TypeId>
  {
    if f.TypeRef? then f.typ else None
  }

  function SymIn(f: Field): Option<SymId>
  {
    if f.SymRef? then f.sym else None
  }

  function TreeIn(f: Field): Node
  {
    if f.Tree? then f.n else NilNode
  }

  function LibIn(f: Field): Option<Lib>
  {
    if f.Annex? then f.lib else None
  }

  function LocIn(fs: seq<Field>, i: nat): Loc
    requires i + 4 <= |fs|
  {
    Loc(FlagsOf(TokenIn(fs[i])), FlagsOf(TokenIn(fs[i + 1])), FlagsOf(TokenIn(fs[i + 2])), StrOf(TokenIn(fs[i + 3])))
  }

  /** Where the closing parenthesis of the kind is. */
  function GuardLength(kind: SymKind): nat
  {
    if Guarded(kind) then 3 else 0
  }

  /** The symbol that `loadSymFromCursor` fills in: a module gets its position from the loader and is never the main
      module. */
  function DecodeSym(c: Context, kind: SymKind, head: seq<Field>, tail: seq<Field>): SymData
    requires |head| == GuardLength(kind) + 8 && |tail| == 8
  {
    var k := GuardLength(kind);
    var flags := SymFlagsOf(TokenIn(head[k + 2]));
    SymData(kind,
            if k == 3 then SymIn(head[0]) else None,
            if k == 3 then IntOf(TokenIn(head[1])) else 0,
            if k == 3 then IntOf(TokenIn(head[2])) else 0,
            FlagsOf(TokenIn(head[k + 1])),
            if kind.SkModule? then flags - {SfMainModule} else flags,
            FlagsOf(TokenIn(head[k + 3])),
            IntOf(TokenIn(head[k + 4])),
            if kind.SkModule? then c.modulePos else IntOf(TokenIn(head[k + 5])),
            LibIn(head[k + 6]), TypeIn(head[k + 7]),
            SymIn(tail[0]), TreeIn(tail[1]), LocIn(tail, 2), TreeIn(tail[6]), SymIn(tail[7]))
  }

  /** The type that `loadTypeFromCursor` fills in. */
  function DecodeType(fs: seq<Field>, sons: seq<Option<TypeId>>): TypeData
    requires |fs| == 15
  {
    TypeData(FlagsOf(TokenIn(fs[1])), FlagsOf(TokenIn(fs[2])),
             IntOf(TokenIn(fs[3])), IntOf(TokenIn(fs[4])), IntOf(TokenIn(fs[5])), IntOf(TokenIn(fs[6])),
             TypeIn(fs[7]), TreeIn(fs[8]), SymIn(fs[9]), SymIn(fs[10]), LocIn(fs, 11), sons)
  }

  // ---------------------------------------------------------------- reading

  /** Skips one tree, or `depth` enclosing ones. */
  function Skip(toks: seq<Token>, depth: nat): (rest: seq<Token>)
    ensures |rest| <= |toks| && (toks != [] ==> |rest| < |toks|)
  {
    if toks == [] then []
    else if toks[0].ParLe? then Skip(toks[1..], depth + 1)
    else if toks[0].ParRi? then (if depth <= 1 then toks[1..] else Skip(toks[1..], depth - 1))
    else if depth == 0 then toks[1..] else Skip(toks[1..], depth)
  }

  predicate StartsDef(toks: seq<Token>, tag: Tag)
  {
    |toks| >= 2 && toks[0] == ParLe(tag) && toks[1].SymbolDef?
  }

  /** `loadTypeStub` on a cursor. */
  function LType(c: Context, st: State, toks: seq<Token>): (r: Parsed<Option<TypeId>>)
    ensures r.Parsed? ==> |r.rest| < |toks|
    decreases |toks|, 1, 0
  {
    if toks == [] then Bad
    else if toks[0].Dot? then Parsed(None, toks[1..], st)
    else if toks[0].Symbol? && toks[0].use.Typ? then Parsed(Some(toks[0].use.id), toks[1..], st)
    else if StartsDef(toks, Td) && toks[1].def.Typ? then
      var t := toks[1].def.id;
      if t in st.started then Parsed(Some(t), Skip(toks, 0), st)
      else
        var b := LTypeBody(c, st.(started := st.started + {t}), t, toks[2..]);
        if b.Bad? then Bad else Parsed(Some(t), b.rest, b.st)
    else Bad
  }

  /** `loadTypeFromCursor` after the name: the local symbols of the definition are extracted first. */
  function LTypeBody(c: Context, st: State, t: TypeId, toks: seq<Token>): (r: Parsed<()>)
    ensures r.Parsed? ==> |r.rest| <= |toks|
    decreases |toks|, 5, 0
  {
    var scanned := LScan(c, st, toks, 1);
    if scanned.None? then Bad
    else
      var f := LFields(c, scanned.value, TypeSchema(), toks);
      if f.Bad? then Bad
      else
        var s := LSons(c, f.st, f.rest);
        if s.Bad? then Bad
        else Parsed((), s.rest, s.st.(types := s.st.types[t := DecodeType(f.value, s.value)]))
  }

  /** A new entry of the table of local symbols; its type is not known yet. */
  function Registered(st: State, s: SymId): State
  {
    if s in st.locals then st else st.(locals := st.locals[s := None])
  }

  /** The type of a symbol has been read. */
  function WithType(st: State, s: SymId, t: Option<TypeId>): State
  {
    if s in st.locals then st.(locals := st.locals[s := t]) else st
  }

  /** `extractLocalSymsFromTree` from inside `depth` open nodes: a definition of a local symbol that is not in the table
      is loaded on the spot; everything else is stepped into. */
  function LScan(c: Context, st: State, toks: seq<Token>, depth: nat): Option<State>
    decreases |toks|, 4, 1
  {
    if toks == [] then None
    else if toks[0] == ParLe(Sd) then
      if !StartsDef(toks, Sd) || !toks[1].def.Sym? then None
      else
        var s := toks[1].def.id;
        if c.isLocal(s) && s !in st.locals then
          var b := LSymBody(c, Registered(st, s), s, toks[2..]);
          if b.Bad? then None else LScan(c, b.st, b.rest, depth)
        else LScan(c, st, toks[1..], depth + 1)
    else if toks[0].ParLe? then LScan(c, st, toks[1..], depth + 1)
    else if toks[0].ParRi? then (if depth <= 1 then Some(st) else LScan(c, st, toks[1..], depth - 1))
    else LScan(c, st, toks[1..], depth)
  }

  /** The element types up to and including the closing parenthesis. */
  function LSons(c: Context, st: State, toks: seq<Token>): (r: Parsed<seq<Option<TypeId>>>)
    ensures r.Parsed? ==> |r.rest| < |toks|
    decreases |toks|, 3, 0
  {
    if toks == [] then Bad
    else if toks[0].ParRi? then Parsed([], toks[1..], st)
    else
      var a := LType(c, st, toks);
      if a.Bad? then Bad
      else
        var b := LSons(c, a.st, a.rest);
        if b.Bad? then Bad else Parsed([a.value] + b.value, b.rest, b.st)
  }

  /** `loadSymStub` by name: a local symbol must have been registered. */
  function Stub(c: Context, st: State, s: SymId, rest: seq<Token>): Parsed<Option<SymId>>
  {
    if c.isLocal(s) && s !in st.locals then Bad else Parsed(Some(s), rest, st)
  }

  /** `loadSymStub` on a cursor: an inlined definition is skipped. */
  function LSym(c: Context, st: State, toks: seq<Token>): (r: Parsed<Option<SymId>>)
    ensures r.Parsed? ==> |r.rest| < |toks|
  {
    if toks == [] then Bad
    else if toks[0].Dot? then Parsed(None, toks[1..], st)
    else if toks[0].Symbol? && toks[0].use.Sym? then Stub(c, st, toks[0].use.id, toks[1..])
    else if StartsDef(toks, Sd) && toks[1].def.Sym? then Stub(c, st, toks[1].def.id, Skip(toks, 0))
    else Bad
  }

  /** `loadSymFromCursor` after the name. */
  function LSymBody(c: Context, st: State, s: SymId, toks: seq<Token>): (r: Parsed<()>)
    ensures r.Parsed? ==> |r.rest| <= |toks|
    decreases |toks|, 4, 0
  {
    if |toks| < 2 || !(toks[0].Dot? || toks[0] == Ident("x")) || !toks[1].ParLe? || !toks[1].tag.SymKindTag? then Bad
    else
      var kind := toks[1].tag.skind;
      var head := LFields(c, st, SymHeadSchema(kind), toks[2..]);
      if head.Bad? then Bad
      else
        var tail := LFields(c, WithType(head.st, s, TypeIn(head.value[|head.value| - 1])), SymTailSchema(), head.rest);
        if tail.Bad? || tail.rest == [] || !tail.rest[0].ParRi? then Bad
        else Parsed((), tail.rest[1..], tail.st.(syms := tail.st.syms[s := DecodeSym(c, kind, head.value, tail.value)]))
  }

  /** `loadSym` at an indexed offset, after the name: a table of its own, filled by a scan of the whole definition. */
  function LSymAt(c: Context, st: State, s: SymId, toks: seq<Token>): Parsed<()>
  {
    var scanned := LScan(c, st.(locals := map[]), toks, 1);
    if scanned.None? then Bad else LSymBody(c, scanned.value, s, toks)
  }

  /** `loadType` at an indexed offset, after the name. */
  function LTypeAt(c: Context, st: State, t: TypeId, toks: seq<Token>): Parsed<()>
  {
    LTypeBody(c, st.(started := st.started + {t}, locals := map[]), t, toks)
  }

  function LFields(c: Context, st: State, schema: seq<Slot>, toks: seq<Token>): (r: Parsed<seq<Field>>)
    ensures r.Parsed? ==> |r.rest| <= |toks| && |r.value| == |schema|
    decreases |toks|, 3, |schema|
  {
    if schema == [] then Parsed([], toks, st)
    else
      var a := LField(c, st, schema[0], toks);
      if a.Bad? then Bad
      else
        var b := LFields(c, a.st, schema[1..], a.rest);
        if b.Bad? then Bad else Parsed([a.value] + b.value, b.rest, b.st)
  }

  function LField(c: Context, st: State, slot: Slot, toks: seq<Token>): (r: Parsed<Field>)
    ensures r.Parsed? ==> |r.rest| < |toks|
    decreases |toks|, 2, 1
  {
    match slot
    case TypeSlot => (var a := LType(c, st, toks); if a.Bad? then Bad else Parsed(TypeRef(a.value), a.rest, a.st))
    case SymSlot => (var a := LSym(c, st, toks); if a.Bad? then Bad else Parsed(SymRef(a.value), a.rest, a.st))
    case TreeSlot => (var a := LNode(c, st, toks); if a.Bad? then Bad else Parsed(Tree(a.value), a.rest, a.st))
    case AnnexSlot => (var a := LAnnex(c, st, toks); if a.Bad? then Bad else Parsed(Annex(a.value), a.rest, a.st))
    case _ => if toks == [] || !Accepts(slot, toks[0]) then Bad else Parsed(Atom(toks[0]), toks[1..], st)
  }

  /** `loadAnnex`.  A tag other than `true` reads as false. */
  function LAnnex(c: Context, st: State, toks: seq<Token>): (r: Parsed<Option<Lib>>)
    ensures r.Parsed? ==> |r.rest| < |toks|
    decreases |toks|, 2, 0
  {
    if toks == [] then Bad
    else if toks[0].Dot? then Parsed(None, toks[1..], st)
    else if |toks| < 6 || !toks[0].ParLe? || !toks[0].tag.LibTag? || !toks[1].ParLe? || !toks[2].ParRi? || !toks[3].ParLe?
      || !toks[4].ParRi? || !toks[5].StrLit? then Bad
    else
      var p := LNode(c, st, toks[6..]);
      if p.Bad? || p.rest == [] || !p.rest[0].ParRi? then Bad
      else Parsed(Some(Lib(toks[0].tag.lib, toks[1].tag == BoolTag(true), toks[3].tag == BoolTag(true), toks[5].str, p.value)),
                  p.rest[1..], p.st)
  }

  /** `withNode` up to the body: flags and type. */
  function LHead(c: Context, st: State, toks: seq<Token>): (r: Parsed<(string, Option<TypeId>)>)
    ensures r.Parsed? ==> |r.rest| < |toks|
    decreases |toks|, 1, 1
  {
    if toks == [] || !Accepts(FlagSlot, toks[0]) then Bad
    else
      var t := LType(c, st, toks[1..]);
      if t.Bad? then Bad else Parsed((FlagsOf(toks[0]), t.value), t.rest, t.st)
  }

  function LNode(c: Context, st: State, toks: seq<Token>): (r: Parsed<Node>)
    ensures r.Parsed? ==> |r.rest| < |toks|
    decreases |toks|, 2, 0
  {
    if toks == [] then Bad
    else match toks[0]
      case Dot => Parsed(NilNode, toks[1..], st)
      case Symbol(x) => if x.Sym? then AsNode(c, Stub(c, st, x.id, toks[1..])) else Bad
      case ParLe(Ht) => LHidden(c, st, toks)
      case ParLe(Sd) => LDefNode(c, st, toks)
      case ParLe(KindTag(kind)) => LKind(c, st, kind, toks[1..])
      case _ => Bad
  }

  /** The type of a symbol node without a hidden type: that of a local symbol is copied as it is at the moment, that of
      another is looked up lazily. */
  function NodeTyp(c: Context, st: State, s: SymId): Option<TypeId>
  {
    if s in st.locals then st.locals[s] else c.lazyTyp(s)
  }

  function AsNode(c: Context, r: Parsed<Option<SymId>>): (n: Parsed<Node>)
    ensures n.Parsed? ==> r.Parsed? && n.rest == r.rest
  {
    if r.Bad? || r.value.None? then Bad else Parsed(SymNode(r.value.value, NodeTyp(c, r.st, r.value.value)), r.rest, r.st)
  }

  function LHidden(c: Context, st: State, toks: seq<Token>): (r: Parsed<Node>)
    requires toks != []
    ensures r.Parsed? ==> |r.rest| < |toks|
    decreases |toks|, 1, 1
  {
    var t := LType(c, st, toks[1..]);
    if t.Bad? then Bad
    else
      var s := LSym(c, t.st, t.rest);
      if s.Bad? || s.value.None? || s.rest == [] || !s.rest[0].ParRi? then Bad
      else Parsed(SymNode(s.value.value, t.value), s.rest[1..], s.st)
  }

  /** An inlined symbol definition in node position: local symbols are loaded here, others are skipped. */
  function LDefNode(c: Context, st: State, toks: seq<Token>): (r: Parsed<Node>)
    requires toks != []
    ensures r.Parsed? ==> |r.rest| < |toks|
    decreases |toks|, 1, 1
  {
    if !StartsDef(toks, Sd) || !toks[1].def.Sym? then Bad
    else
      var s := toks[1].def.id;
      if c.isLocal(s) then
        var b := LSymBody(c, Registered(st, s), s, toks[2..]);
        if b.Bad? then Bad else Parsed(SymNode(s, NodeTyp(c, b.st, s)), b.rest, b.st)
      else Parsed(SymNode(s, c.lazyTyp(s)), Skip(toks, 0), st)
  }

  predicate IsLeafKind(kind: NodeKind)
  {
    !kind.NkEmpty? && !kind.NkOther?
  }

  /** The literal or identifier of a leaf node. */
  function LPayload(kind: NodeKind, toks: seq<Token>): Option<(Payload, seq<Token>)>
    requires IsLeafKind(kind)
  {
    if kind.NkNilLit? then Some((PNil, toks))
    else if toks == [] then None
    else match (kind, toks[0])
      case (NkIdent, Ident(s)) => Some((PIdent(s), toks[1..]))
      case (NkCharLit, CharLit(ch)) => Some((PChar(ch), toks[1..]))
      case (NkIntLit(w), IntLit(i)) => Some((PInt(w, i), toks[1..]))
      case (NkUIntLit(w), UIntLit(u)) => Some((PUInt(w, u), toks[1..]))
      case (NkStrLit(f), StrLit(s)) => Some((PStr(f, s), toks[1..]))
      case _ => None
  }

  /** A node after its kind tag. */
  function LKind(c: Context, st: State, kind: NodeKind, toks: seq<Token>): (r: Parsed<Node>)
    ensures r.Parsed? ==> |r.rest| < |toks|
    decreases |toks|, 3, 0
  {
    if kind.NkEmpty? && toks != [] && toks[0].ParRi? then Parsed(Empty, toks[1..], st)
    else
      var h := LHead(c, st, toks);
      if h.Bad? then Bad
      else if kind.NkOther? then
        var ss := LNodes(c, h.st, h.rest);
        if ss.Bad? then Bad else Parsed(Inner(kind.tag, h.value.0, h.value.1, ss.value), ss.rest, ss.st)
      else if kind.NkEmpty? then
        if h.rest == [] || !h.rest[0].ParRi? then Bad
        else Parsed(if h.value.1.Some? then TypedEmpty(h.value.0, h.value.1.value) else Empty, h.rest[1..], h.st)
      else
        var p := LPayload(kind, h.rest);
        if p.None? || p.value.1 == [] || !p.value.1[0].ParRi? then Bad
        else Parsed(Atomic(p.value.0, h.value.0, h.value.1), p.value.1[1..], h.st)
  }

  /** Sons up to and including the closing parenthesis. */
  function LNodes(c: Context, st: State, toks: seq<Token>): (r: Parsed<seq<Node>>)
    ensures r.Parsed? ==> |r.rest| < |toks|
    decreases |toks|, 3, 0
  {
    if toks == [] then Bad
    else if toks[0].ParRi? then Parsed([], toks[1..], st)
    else
      var a := LNode(c, st, toks);
      if a.Bad? then Bad
      else
        var b := LNodes(c, a.st, a.rest);
        if b.Bad? then Bad else Parsed([a.value] + b.value, b.rest, b.st)
  }
}
