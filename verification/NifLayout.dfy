/** How the output of the NIF writer begins for a definition: the tokens themselves, in their order. */
module NifLayout {
  import opened Wrappers
  import opened NifWriter
  import opened NifWriting

  /** Atoms come out as they are, then the rest. */
  lemma AtomsFirst(g: Graph, sealed: set<Item>, ts: seq<Token>, rest: seq<Field>)
    ensures WFields(g, sealed, Atoms(ts) + rest).toks == ts + WFields(g, sealed, rest).toks
  {
    AtomsWritten(g, sealed, ts);
    FieldsConcat(g, sealed, Atoms(ts), rest);
  }

  lemma DefStarts(g: Graph, sealed: set<Item>, x: Item, front: seq<Token>)
    requires InGraph(g, x) && front <= WFields(g, sealed, Body(g, x)).toks
    ensures [ParLe(DefTag(x)), SymbolDef(x)] + front <= WDef(g, sealed, x).toks
  {
  }

  /** The definition of a type: its tag and name, a dot, and its plain fields; an empty flag set is a dot. */
  lemma TypeLayout(g: Graph, sealed: set<Item>, t: TypeId)
    requires t in g.types
    ensures var r := g.types[t].data;
      [ParLe(Td), SymbolDef(Typ(t))]
      + [Dot, if r.flags == "" then Dot else Ident(r.flags), Ident(r.callConv), IntLit(r.size), IntLit(r.align), IntLit(r.padding),
         IntLit(r.nonUniqueId)]
      <= WDef(g, sealed, Typ(t)).toks
  {
    var r := g.types[t].data;
    var plain := [Dot, Flags(r.flags), Ident(r.callConv), IntLit(r.size), IntLit(r.align), IntLit(r.padding), IntLit(r.nonUniqueId)];
    var rest := [TypeRef(r.typeInst), Tree(r.n), SymRef(r.owner), SymRef(r.sym)] + LocFields(r.loc) + SonFields(r.sons);
    assert Body(g, Typ(t)) == Atoms(plain) + rest;
    AtomsFirst(g, sealed, plain, rest);
    DefStarts(g, sealed, Typ(t), plain);
  }

  /** What a symbol has between its kind and its own plain fields: the guard of variables, fields and loop variables. */
  ghost function GuardTokens(g: Graph, sealed: set<Item>, r: SymData): seq<Token>
  {
    if r.kind.SkLet? || r.kind.SkVar? || r.kind.SkField? || r.kind.SkForVar?
      then WRef(g, sealed, SymItem(r.guard)).toks + [IntLit(r.bitsize), IntLit(r.alignment)]
    else []
  }

  lemma GuardWritten(g: Graph, sealed: set<Item>, r: SymData)
    ensures WFields(g, sealed, GuardFields(r)).toks == GuardTokens(g, sealed, r)
  {
    if Guarded(r.kind) {
      var ints := [IntLit(r.bitsize), IntLit(r.alignment)];
      var ref := WRef(g, sealed, SymItem(r.guard));
      assert GuardFields(r)[1..] == Atoms(ints);
      AtomsWritten(g, ref.sealed, ints);
      assert WField(g, sealed, GuardFields(r)[0]) == ref;
    }
  }

  /** What is plain in a symbol after its kind: empty sets are dots, a module has no position and variables have none to keep. */
  function PlainTokens(r: SymData): seq<Token>
  {
    [ParRi, if r.magic == "" then Dot else Ident(r.magic), if r.flags == {} then Dot else FlagSet(r.flags),
     if r.options == "" then Dot else Ident(r.options), IntLit(r.offset),
     match r.kind
     case SkModule => Dot
     case SkVar => IntLit(0)
     case SkLet => IntLit(0)
     case SkForVar => IntLit(0)
     case SkResult => IntLit(0)
     case _ => IntLit(r.position)]
  }

  /** The definition of a symbol: its tag and name, the mark of one that is exported and was not made from a generic symbol, its
      kind with its guard, and its plain fields. */
  lemma SymLayout(g: Graph, sealed: set<Item>, s: SymId)
    requires s in g.syms
    ensures var r := g.syms[s].data;
      [ParLe(Sd), SymbolDef(Sym(s))]
      + ([if SfExported in r.flags && SfFromGeneric !in r.flags then Ident("x") else Dot, ParLe(SymKindTag(r.kind))]
         + (GuardTokens(g, sealed, r) + PlainTokens(r)))
      <= WDef(g, sealed, Sym(s)).toks
  {
    var r := g.syms[s].data;
    var opening := [ExportMarker(r), ParLe(SymKindTag(r.kind))];
    var after := [Annex(r.annex), TypeRef(r.typ)] + SymTail(r);
    var guarded := WFields(g, sealed, GuardFields(r));
    assert HeadAtoms(r) == PlainTokens(r);
    SymFieldsGrouped(r);
    assert Body(g, Sym(s)) == Atoms(opening) + (GuardFields(r) + (Atoms(HeadAtoms(r)) + after));
    AtomsFirst(g, sealed, opening, GuardFields(r) + (Atoms(HeadAtoms(r)) + after));
    FieldsConcat(g, sealed, GuardFields(r), Atoms(HeadAtoms(r)) + after);
    AtomsFirst(g, guarded.sealed, HeadAtoms(r), after);
    GuardWritten(g, sealed, r);
    PrefixOf(opening, guarded.toks, HeadAtoms(r), WFields(g, guarded.sealed, after).toks);
    DefStarts(g, sealed, Sym(s), opening + (guarded.toks + HeadAtoms(r)));
  }

  lemma SymFieldsGrouped(r: SymData)
    ensures [Atom(ExportMarker(r)), Atom(ParLe(SymKindTag(r.kind)))] + SymHead(r) + SymTail(r)
         == Atoms([ExportMarker(r), ParLe(SymKindTag(r.kind))])
            + (GuardFields(r) + (Atoms(HeadAtoms(r)) + ([Annex(r.annex), TypeRef(r.typ)] + SymTail(r))))
  {
  }

  lemma PrefixOf(a: seq<Token>, b: seq<Token>, c: seq<Token>, d: seq<Token>)
    ensures a + (b + c) <= a + (b + (c + d))
  {
    assert a + (b + (c + d)) == a + (b + c) + d;
  }
}
