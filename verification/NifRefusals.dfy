/** What the NIF loader refuses: the first tokens that each of its steps needs. */
module NifRefusals {
  import opened Wrappers
  import opened NifWriter
  import opened NifLoader

  predicate Opens(toks: seq<Token>, tag: Tag)
  {
    |toks| >= 2 && toks[0] == ParLe(tag) && toks[1].SymbolDef?
  }

  /** A type is a dot, a name or a definition of a type. */
  lemma TypeNeeds(c: Context, st: State, toks: seq<Token>)
    requires LType(c, st, toks).Parsed?
    ensures toks != [] &&
      (toks[0] == Dot || (toks[0].Symbol? && toks[0].use.Typ?) || (Opens(toks, Td) && toks[1].def.Typ?))
  {
  }

  /** A symbol is a dot, a name or a definition of a symbol; a local one must have been registered. */
  lemma SymNeeds(c: Context, st: State, toks: seq<Token>)
    requires LSym(c, st, toks).Parsed?
    ensures toks != [] &&
      (toks[0] == Dot || (toks[0].Symbol? && toks[0].use.Sym?) || (Opens(toks, Sd) && toks[1].def.Sym?))
    ensures LSym(c, st, toks).value.Some? && c.isLocal(LSym(c, st, toks).value.value) ==> LSym(c, st, toks).value.value in st.locals
  {
  }

  /** A plain field is refused unless its token is of the kind it should be. */
  lemma FieldNeeds(c: Context, st: State, t: Token, rest: seq<Token>)
    ensures LField(c, st, FlagSlot, [t] + rest).Parsed? <==> t == Dot || t.Ident?
    ensures LField(c, st, SymFlagSlot, [t] + rest).Parsed? <==> t == Dot || t.FlagSet?
    ensures LField(c, st, IntSlot, [t] + rest).Parsed? <==> t.IntLit?
    ensures LField(c, st, StrSlot, [t] + rest).Parsed? <==> t.StrLit?
    ensures LField(c, st, DotSlot, [t] + rest).Parsed? <==> t == Dot
    ensures LField(c, st, CloseSlot, [t] + rest).Parsed? <==> t == ParRi
  {
  }

  /** After the name of a symbol there must be a dot or the mark of an exported symbol, and the tag of a kind. */
  lemma SymBodyNeeds(c: Context, st: State, s: SymId, toks: seq<Token>)
    requires LSymBody(c, st, s, toks).Parsed?
    ensures |toks| >= 2 && (toks[0] == Dot || toks[0] == Ident("x")) && toks[1].ParLe? && toks[1].tag.SymKindTag?
  {
  }

  /** A library is a dot, or its kind, two booleans and a name. */
  lemma AnnexNeeds(c: Context, st: State, toks: seq<Token>)
    requires LAnnex(c, st, toks).Parsed?
    ensures toks != [] && (toks[0] == Dot || (
      && |toks| >= 6 && toks[0].ParLe? && toks[0].tag.LibTag? && toks[1].ParLe? && toks[2] == ParRi
      && toks[3].ParLe? && toks[4] == ParRi && toks[5].StrLit?))
  {
  }

  /** A tree is a dot, the name of a symbol, or opens a hidden type, a definition of a symbol or a node. */
  lemma NodeNeeds(c: Context, st: State, toks: seq<Token>)
    requires LNode(c, st, toks).Parsed?
    ensures toks != [] && (
      || toks[0] == Dot || (toks[0].Symbol? && toks[0].use.Sym?) || toks[0] == ParLe(Ht)
      || (Opens(toks, Sd) && toks[1].def.Sym?) || (toks[0].ParLe? && toks[0].tag.KindTag?))
  {
  }

  /** A leaf needs the literal of its kind. */
  lemma PayloadNeeds(kind: NodeKind, t: Token, rest: seq<Token>)
    requires IsLeafKind(kind) && !kind.NkNilLit?
    ensures LPayload(kind, [t] + rest).Some? <==>
      match kind
      case NkIdent => t.Ident?
      case NkCharLit => t.CharLit?
      case NkIntLit(_) => t.IntLit?
      case NkUIntLit(_) => t.UIntLit?
      case NkStrLit(_) => t.StrLit?
      case _ => false
    ensures LPayload(kind, []).None?
  {
  }
}
