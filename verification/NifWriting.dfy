/** The NIF writer as it runs: a buffer that grows and item states that change from `Complete` to `Sealed`. */
module NifWriting {
  import opened Wrappers
  import opened NifWriter

  function Atoms(ts: seq<Token>): (fs: seq<Field>)
    ensures |fs| == |ts| && forall i :: 0 <= i < |ts| ==> fs[i] == Atom(ts[i])
  {
    seq(|ts|, i requires 0 <= i < |ts| => Atom(ts[i]))
  }

  lemma {:induction false} AtomsWritten(g: Graph, sealed: set<Item>, ts: seq<Token>)
    ensures WFields(g, sealed, Atoms(ts)) == Out(ts, sealed)
  {
    if ts != [] {
      assert Atoms(ts)[1..] == Atoms(ts[1..]);
      AtomsWritten(g, sealed, ts[1..]);
      assert WField(g, sealed, Atoms(ts)[0]) == Out([ts[0]], sealed);
      assert [ts[0]] + ts[1..] == ts;
    }
  }

  /** A field list one field longer. */
  lemma Snoc(g: Graph, sealed: set<Item>, done: seq<Field>, f: Field)
    ensures var x := WFields(g, sealed, done);
      var y := WField(g, x.sealed, f);
      WFields(g, sealed, done + [f]) == Out(x.toks + y.toks, y.sealed)
  {
    var x := WFields(g, sealed, done);
    FieldsConcat(g, sealed, done, [f]);
    assert [f][1..] == [];
    assert WField(g, x.sealed, f).toks + [] == WField(g, x.sealed, f).toks;
  }

  /** What follows the guard, up to the library. */
  function HeadAtoms(r: SymData): seq<Token>
  {
    [ParRi, Flags(r.magic), SymFlags(r.flags), Flags(r.options), IntLit(r.offset), PositionToken(r)]
  }

  function LocAtoms(loc: Loc): seq<Token>
  {
    [Ident(loc.k), Ident(loc.storage), Flags(loc.flags), StrLit(loc.snippet)]
  }

  lemma HeadGrouped(r: SymData, before: seq<Field>)
    ensures before + GuardFields(r) + Atoms(HeadAtoms(r)) + [Annex(r.annex)] + [TypeRef(r.typ)] == before + SymHead(r)
  {
  }

  lemma SymBodyGrouped(g: Graph, s: SymId)
    requires InGraph(g, Sym(s))
    ensures var r := g.syms[s].data;
      Atoms([ExportMarker(r), ParLe(SymKindTag(r.kind))]) + SymHead(r) + SymTail(r) == Body(g, Sym(s))
  {
    var r := g.syms[s].data;
    assert Atoms([ExportMarker(r), ParLe(SymKindTag(r.kind))]) == [Atom(ExportMarker(r)), Atom(ParLe(SymKindTag(r.kind)))];
  }

  /** A definition is its opening, its fields and the closing parenthesis. */
  lemma DefWritten(g: Graph, sealed: set<Item>, x: Item, start: seq<Token>)
    requires InGraph(g, x)
    ensures var o := WFields(g, sealed, Body(g, x));
      start + [ParLe(DefTag(x)), SymbolDef(x)] + o.toks + [ParRi] == start + WDef(g, sealed, x).toks
  {
    Regroup3(start, [ParLe(DefTag(x)), SymbolDef(x)], WFields(g, sealed, Body(g, x)).toks, [ParRi]);
  }

  lemma TailGrouped(r: SymData, before: seq<Field>)
    ensures before + [SymRef(r.owner)] + [Tree(r.ast)] + Atoms(LocAtoms(r.loc)) + [Tree(r.constraint)] + [SymRef(r.instantiatedFrom)]
         == before + SymTail(r)
  {
  }

  lemma TypeBodyParts(r: TypeData)
    ensures TypeFields(r) == []
      + Atoms([Dot, Flags(r.flags), Ident(r.callConv), IntLit(r.size), IntLit(r.align), IntLit(r.padding), IntLit(r.nonUniqueId)])
      + [TypeRef(r.typeInst)] + [Tree(r.n)] + [SymRef(r.owner)] + [SymRef(r.sym)]
      + Atoms(LocAtoms(r.loc))
  {
  }

  lemma SonsSnoc(sons: seq<Option<TypeId>>, i: nat, done: seq<Field>)
    requires i < |sons|
    ensures done + SonFields(sons[..i + 1]) == done + SonFields(sons[..i]) + [TypeRef(sons[i])]
  {
  }

  lemma Regroup3(a: seq<Token>, b: seq<Token>, c: seq<Token>, d: seq<Token>)
    ensures a + b + c + d == a + (b + c + d)
  {
  }

  lemma Regroup4(a: seq<Token>, b: seq<Token>, c: seq<Token>, d: seq<Token>, e: seq<Token>)
    ensures a + b + c + d + e == a + (b + c + d + e)
  {
  }

  lemma LeafWritten(g: Graph, sealed: set<Item>, value: Payload, flags: string, t: Option<TypeId>, start: seq<Token>)
    ensures var h, o := WHead(g, sealed, KindOf(value), flags, t), WNode(g, sealed, Atomic(value, flags, t));
      start + h.toks + (PayloadTokens(value) + [ParRi]) == start + o.toks && h.sealed == o.sealed
  {
    Regroup3(start, WHead(g, sealed, KindOf(value), flags, t).toks, PayloadTokens(value), [ParRi]);
  }

  lemma InnerWritten(g: Graph, sealed: set<Item>, n: Node, start: seq<Token>)
    requires n.Inner?
    ensures var h := WHead(g, sealed, NkOther(n.tag), n.flags, n.typ);
      var ss, o := WNodes(g, h.sealed, n.sons), WNode(g, sealed, n);
      start + h.toks + ss.toks + [ParRi] == start + o.toks && ss.sealed == o.sealed
  {
    var h := WHead(g, sealed, NkOther(n.tag), n.flags, n.typ);
    Regroup3(start, h.toks, WNodes(g, h.sealed, n.sons).toks, [ParRi]);
  }

  class Writer {
    const g: Graph
    /** The items whose state is `Sealed`. */
    var sealed: set<Item>
    var dest: seq<Token>

    constructor (g: Graph)
      ensures this.g == g && sealed == {} && dest == []
    {
      this.g := g;
      sealed, dest := {}, [];
    }

    /** The state after appending `o` to `start`. */
    ghost predicate Wrote(start: seq<Token>, o: Out)
      reads this
    {
      dest == start + o.toks && sealed == o.sealed
    }

    /** Room left for the recursion. */
    ghost function Room(): nat
      reads this
    {
      Unsealed(g, sealed)
    }

    // ---------------------------------------------------------------- references

    method WriteType(t: Option<TypeId>)
      modifies this
      ensures Wrote(old(dest), WRef(g, old(sealed), TypItem(t)))
      ensures Room() <= old(Room())
      decreases Room(), 1, 0
    {
      MoreSealed(g, sealed, WRef(g, sealed, TypItem(t)).sealed);
      if t.None? {
        dest := dest + [Dot];
      } else if Definable(g, Typ(t.value)) && Typ(t.value) !in sealed {
        SealShrinks(g, sealed, Typ(t.value));
        sealed := sealed + {Typ(t.value)};
        WriteTypeDef(t.value);
      } else {
        dest := dest + [Symbol(Typ(t.value))];
      }
    }

    method WriteSym(s: Option<SymId>)
      modifies this
      ensures Wrote(old(dest), WRef(g, old(sealed), SymItem(s)))
      ensures Room() <= old(Room())
      decreases Room(), 1, 0
    {
      MoreSealed(g, sealed, WRef(g, sealed, SymItem(s)).sealed);
      if s.None? {
        dest := dest + [Dot];
      } else if Definable(g, Sym(s.value)) && Sym(s.value) !in sealed {
        SealShrinks(g, sealed, Sym(s.value));
        sealed := sealed + {Sym(s.value)};
        WriteSymDef(s.value);
      } else {
        dest := dest + [Symbol(Sym(s.value))];
      }
    }

    // ---------------------------------------------------------------- definitions

    /** After `start`, exactly the fields `done` have been written; the definition began in the state `s0`. */
    ghost predicate At(start: seq<Token>, s0: set<Item>, done: seq<Field>)
      reads this
    {
      Wrote(start, WFields(g, s0, done)) && s0 <= sealed
    }

    lemma RoomLeft(s0: set<Item>)
      requires s0 <= sealed
      ensures Room() <= Unsealed(g, s0)
    {
      MoreSealed(g, s0, sealed);
    }

    method PutAtoms(ts: seq<Token>, ghost start: seq<Token>, ghost s0: set<Item>, ghost done: seq<Field>)
      requires At(start, s0, done)
      modifies this`dest
      ensures At(start, s0, done + Atoms(ts))
    {
      AtomsWritten(g, sealed, ts);
      FieldsConcat(g, s0, done, Atoms(ts));
      Regroup(start, WFields(g, s0, done).toks, ts);
      dest := dest + ts;
    }

    method PutType(t: Option<TypeId>, ghost start: seq<Token>, ghost s0: set<Item>, ghost done: seq<Field>)
      requires At(start, s0, done)
      modifies this
      ensures At(start, s0, done + [TypeRef(t)]) && Room() <= old(Room())
      decreases Room(), 3, 0
    {
      Regroup(start, WFields(g, s0, done).toks, WRef(g, sealed, TypItem(t)).toks);
      Snoc(g, s0, done, TypeRef(t));
      WriteType(t);
    }

    method PutSym(s: Option<SymId>, ghost start: seq<Token>, ghost s0: set<Item>, ghost done: seq<Field>)
      requires At(start, s0, done)
      modifies this
      ensures At(start, s0, done + [SymRef(s)]) && Room() <= old(Room())
      decreases Room(), 3, 0
    {
      Regroup(start, WFields(g, s0, done).toks, WRef(g, sealed, SymItem(s)).toks);
      Snoc(g, s0, done, SymRef(s));
      WriteSym(s);
    }

    method PutTree(n: Node, ghost start: seq<Token>, ghost s0: set<Item>, ghost done: seq<Field>)
      requires At(start, s0, done)
      modifies this
      ensures At(start, s0, done + [Tree(n)]) && Room() <= old(Room())
      decreases Room(), 3, 0
    {
      Regroup(start, WFields(g, s0, done).toks, WNode(g, sealed, n).toks);
      Snoc(g, s0, done, Tree(n));
      WriteNode(n);
    }

    /** `writeLib`. */
    method WriteAnnex(lib: Option<Lib>)
      modifies this
      ensures Wrote(old(dest), WAnnex(g, old(sealed), lib)) && Room() <= old(Room())
      decreases Room(), 2
    {
      if lib.None? {
        dest := dest + [Dot];
      } else {
        ghost var path := WNode(g, sealed, lib.value.path);
        dest := dest + LibHead(lib.value);
        WriteNode(lib.value.path);
        dest := dest + [ParRi];
        Regroup3(old(dest), LibHead(lib.value), path.toks, [ParRi]);
      }
    }

    method PutAnnex(lib: Option<Lib>, ghost start: seq<Token>, ghost s0: set<Item>, ghost done: seq<Field>)
      requires At(start, s0, done)
      modifies this
      ensures At(start, s0, done + [Annex(lib)]) && Room() <= old(Room())
      decreases Room(), 3, 0
    {
      Regroup(start, WFields(g, s0, done).toks, WAnnex(g, sealed, lib).toks);
      Snoc(g, s0, done, Annex(lib));
      WriteAnnex(lib);
    }

    method WriteTypeDef(t: TypeId)
      requires InGraph(g, Typ(t))
      modifies this
      ensures Wrote(old(dest), WDef(g, old(sealed), Typ(t))) && Room() <= old(Room())
      decreases Room(), 4
    {
      dest := dest + [ParLe(Td), SymbolDef(Typ(t))];
      ghost var start := dest;
      ghost var done := WriteTypeFields(g.types[t].data, dest, sealed);
      WriteSons(g.types[t].data.sons, start, old(sealed), done);
      RoomLeft(old(sealed));
      dest := dest + [ParRi];
      DefWritten(g, old(sealed), Typ(t), old(dest));
    }

    method WriteTypeFields(r: TypeData, ghost start: seq<Token>, ghost s0: set<Item>) returns (ghost done: seq<Field>)
      requires dest == start && sealed == s0
      modifies this
      ensures At(start, s0, done) && done == TypeFields(r) && Room() <= old(Room())
      decreases Room(), 3, 2
    {
      var atoms := [Dot, Flags(r.flags), Ident(r.callConv), IntLit(r.size), IntLit(r.align), IntLit(r.padding), IntLit(r.nonUniqueId)];
      Begin(start, s0);
      PutAtoms(atoms, start, s0, []);
      done := [] + Atoms(atoms);
      PutType(r.typeInst, start, s0, done);
      done := done + [TypeRef(r.typeInst)];
      PutTree(r.n, start, s0, done);
      done := done + [Tree(r.n)];
      PutSym(r.owner, start, s0, done);
      done := done + [SymRef(r.owner)];
      PutSym(r.sym, start, s0, done);
      done := done + [SymRef(r.sym)];
      PutAtoms(LocAtoms(r.loc), start, s0, done);
      done := done + Atoms(LocAtoms(r.loc));
      TypeBodyParts(r);
      assert done == TypeFields(r);
    }

    lemma Begin(start: seq<Token>, s0: set<Item>)
      requires dest == start && sealed == s0
      ensures At(start, s0, [])
    {
    }

    method WriteSons(sons: seq<Option<TypeId>>, ghost start: seq<Token>, ghost s0: set<Item>, ghost done: seq<Field>)
      requires At(start, s0, done)
      modifies this
      ensures At(start, s0, done + SonFields(sons)) && Room() <= old(Room())
      decreases Room(), 3, 1
    {
      assert done + SonFields(sons[..0]) == done;
      for i := 0 to |sons|
        invariant At(start, s0, done + SonFields(sons[..i])) && Room() <= old(Room())
      {
        PutType(sons[i], start, s0, done + SonFields(sons[..i]));
        SonsSnoc(sons, i, done);
      }
      assert sons[..|sons|] == sons;
    }

    method WriteSymDef(s: SymId)
      requires InGraph(g, Sym(s))
      modifies this
      ensures Wrote(old(dest), WDef(g, old(sealed), Sym(s))) && Room() <= old(Room())
      decreases Room(), 4
    {
      var r := g.syms[s].data;
      dest := dest + [ParLe(Sd), SymbolDef(Sym(s))];
      ghost var start, kind := dest, Atoms([ExportMarker(r), ParLe(SymKindTag(r.kind))]);
      Begin(start, sealed);
      PutAtoms([ExportMarker(r), ParLe(SymKindTag(r.kind))], start, old(sealed), []);
      assert [] + kind == kind;
      WriteSymHead(r, start, old(sealed), kind);
      WriteSymTail(r, start, old(sealed), kind + SymHead(r));
      SymBodyGrouped(g, s);
      RoomLeft(old(sealed));
      dest := dest + [ParRi];
      DefWritten(g, old(sealed), Sym(s), old(dest));
    }

    /** From the guard to the type. */
    method WriteSymHead(r: SymData, ghost start: seq<Token>, ghost s0: set<Item>, ghost before: seq<Field>)
      requires At(start, s0, before)
      modifies this
      ensures At(start, s0, before + SymHead(r)) && Room() <= old(Room())
      decreases Room(), 3, 2
    {
      WriteGuard(r, start, s0, before);
      ghost var done := before + GuardFields(r);
      PutAtoms(HeadAtoms(r), start, s0, done);
      done := done + Atoms(HeadAtoms(r));
      PutAnnex(r.annex, start, s0, done);
      done := done + [Annex(r.annex)];
      PutType(r.typ, start, s0, done);
      HeadGrouped(r, before);
    }

    method WriteGuard(r: SymData, ghost start: seq<Token>, ghost s0: set<Item>, ghost before: seq<Field>)
      requires At(start, s0, before)
      modifies this
      ensures At(start, s0, before + GuardFields(r)) && Room() <= old(Room())
      decreases Room(), 3, 1
    {
      assert before + [] == before;
      if Guarded(r.kind) {
        PutSym(r.guard, start, s0, before);
        PutAtoms([IntLit(r.bitsize), IntLit(r.alignment)], start, s0, before + [SymRef(r.guard)]);
        assert before + GuardFields(r) == before + [SymRef(r.guard)] + Atoms([IntLit(r.bitsize), IntLit(r.alignment)]);
      }
    }

    /** From the owner on. */
    method WriteSymTail(r: SymData, ghost start: seq<Token>, ghost s0: set<Item>, ghost before: seq<Field>)
      requires At(start, s0, before)
      modifies this
      ensures At(start, s0, before + SymTail(r)) && Room() <= old(Room())
      decreases Room(), 3, 2
    {
      PutSym(r.owner, start, s0, before);
      ghost var done := before + [SymRef(r.owner)];
      PutTree(r.ast, start, s0, done);
      done := done + [Tree(r.ast)];
      PutAtoms(LocAtoms(r.loc), start, s0, done);
      done := done + Atoms(LocAtoms(r.loc));
      PutTree(r.constraint, start, s0, done);
      done := done + [Tree(r.constraint)];
      PutSym(r.instantiatedFrom, start, s0, done);
      TailGrouped(r, before);
    }

    // ---------------------------------------------------------------- trees

    /** `withNode` up to its body. */
    method WriteHead(kind: NodeKind, flags: string, typ: Option<TypeId>)
      modifies this
      ensures Wrote(old(dest), WHead(g, old(sealed), kind, flags, typ)) && Room() <= old(Room())
      decreases Room(), 1, 1
    {
      Regroup(dest, [ParLe(KindTag(kind)), Flags(flags)], WRef(g, sealed, TypItem(typ)).toks);
      dest := dest + [ParLe(KindTag(kind)), Flags(flags)];
      WriteType(typ);
    }

    method WriteNode(n: Node)
      modifies this
      ensures Wrote(old(dest), WNode(g, old(sealed), n)) && Room() <= old(Room())
      decreases Room(), 2, n, 1
    {
      match n
      case NilNode => dest := dest + [Dot];
      case Empty => dest := dest + [ParLe(KindTag(NkEmpty)), ParRi];
      case TypedEmpty(flags, t) =>
        Regroup(dest, WHead(g, sealed, NkEmpty, flags, Some(t)).toks, [ParRi]);
        WriteHead(NkEmpty, flags, Some(t));
        dest := dest + [ParRi];
      case SymNode(s, t) => WriteSymNode(s, t);
      case Atomic(value, flags, t) =>
        LeafWritten(g, sealed, value, flags, t, dest);
        WriteHead(KindOf(value), flags, t);
        dest := dest + (PayloadTokens(value) + [ParRi]);
      case Inner(tag, flags, t, sons) =>
        InnerWritten(g, sealed, n, dest);
        WriteHead(NkOther(tag), flags, t);
        WriteNodes(sons);
        dest := dest + [ParRi];
    }

    method WriteNodes(sons: seq<Node>)
      modifies this
      ensures Wrote(old(dest), WNodes(g, old(sealed), sons)) && Room() <= old(Room())
      decreases Room(), 2, sons, 0
    {
      ghost var all := WNodes(g, sealed, sons);
      for i := 0 to |sons|
        invariant Room() <= old(Room())
        invariant dest + WNodes(g, sealed, sons[i..]).toks == old(dest) + all.toks
        invariant WNodes(g, sealed, sons[i..]).sealed == all.sealed
      {
        assert sons[i..][0] == sons[i] && sons[i..][1..] == sons[i + 1..];
        ghost var d, rest := dest, WNodes(g, WNode(g, sealed, sons[i]).sealed, sons[i + 1..]).toks;
        Regroup(d, WNode(g, sealed, sons[i]).toks, rest);
        WriteNode(sons[i]);
      }
      assert dest + [] == dest;
    }

    method WriteSymNode(s: SymId, t: Option<TypeId>)
      modifies this
      ensures Wrote(old(dest), WSymNode(g, old(sealed), s, t)) && Room() <= old(Room())
      decreases Room(), 1, 2
    {
      MoreSealed(g, sealed, WSymNode(g, sealed, s, t).sealed);
      if Definable(g, Sym(s)) && Sym(s) !in sealed {
        SealShrinks(g, sealed, Sym(s));
        sealed := sealed + {Sym(s)};
        if t != SymTyp(g, s) {
          WriteHiddenDef(s, t);
        } else {
          WriteSymDef(s);
        }
      } else if t != SymTyp(g, s) {
        WriteHiddenUse(s, t);
      } else {
        dest := dest + [Symbol(Sym(s))];
      }
    }

    /** A first occurrence under the hidden-type tag. */
    method WriteHiddenDef(s: SymId, t: Option<TypeId>)
      requires InGraph(g, Sym(s))
      modifies this
      ensures var a := WRef(g, old(sealed), TypItem(t));
        var b := WDef(g, a.sealed, Sym(s));
        Wrote(old(dest), Out([ParLe(Ht)] + a.toks + b.toks + [ParRi], b.sealed))
      decreases Room(), 5
    {
      ghost var start := dest;
      dest := dest + [ParLe(Ht)];
      WriteType(t);
      ghost var a := WRef(g, old(sealed), TypItem(t));
      WriteSymDef(s);
      dest := dest + [ParRi];
      Regroup4(start, [ParLe(Ht)], a.toks, WDef(g, a.sealed, Sym(s)).toks, [ParRi]);
    }

    /** A later occurrence under the hidden-type tag. */
    method WriteHiddenUse(s: SymId, t: Option<TypeId>)
      modifies this
      ensures var a := WRef(g, old(sealed), TypItem(t));
        Wrote(old(dest), Out([ParLe(Ht)] + a.toks + [Symbol(Sym(s))] + [ParRi], a.sealed))
      ensures Room() <= old(Room())
      decreases Room(), 1, 1
    {
      Regroup4(dest, [ParLe(Ht)], WRef(g, sealed, TypItem(t)).toks, [Symbol(Sym(s))], [ParRi]);
      dest := dest + [ParLe(Ht)];
      WriteType(t);
      dest := dest + [Symbol(Sym(s))] + [ParRi];
    }
  }
}
