/** Writer output is balanced: skipping one tree steps over exactly what one call wrote. */
module NifBalance {
  import opened Wrappers
  import opened NifWriter
  import opened NifLoader

  /** How an atom changes the nesting depth. */
  ghost function AtomDepth(t: Token, d: nat): nat
  {
    if t.ParLe? then d + 1 else if t.ParRi? && d > 0 then d - 1 else d
  }

  ghost function DepthAfter(fs: seq<Field>, d: nat): nat
  {
    if fs == [] then d else DepthAfter(fs[1..], if fs[0].Atom? then AtomDepth(fs[0].t, d) else d)
  }

  /** The fields never close more than they and the context have opened. */
  ghost predicate Nested(fs: seq<Field>, d: nat)
  {
    d >= 1 && (fs == [] || (
      && (fs[0] == Atom(ParRi) ==> d >= 2)
      && Nested(fs[1..], if fs[0].Atom? then AtomDepth(fs[0].t, d) else d)))
  }

  ghost predicate NoParens(fs: seq<Field>)
  {
    forall i :: 0 <= i < |fs| && fs[i].Atom? ==> !fs[i].t.ParLe? && !fs[i].t.ParRi?
  }

  lemma {:induction false} FlatFields(fs: seq<Field>, more: seq<Field>, d: nat)
    requires NoParens(fs) && Nested(more, d)
    ensures Nested(fs + more, d) && DepthAfter(fs + more, d) == DepthAfter(more, d)
  {
    if fs == [] {
      assert fs + more == more;
    } else {
      assert (fs + more)[1..] == fs[1..] + more;
      FlatFields(fs[1..], more, d);
    }
  }

  lemma BodyNested(g: Graph, x: Item)
    requires InGraph(g, x)
    ensures Nested(Body(g, x), 1) && DepthAfter(Body(g, x), 1) == 1
  {
    match x
    case Typ(t) =>
      FlatFields(Body(g, x), [], 1);
      assert Body(g, x) + [] == Body(g, x);
    case Sym(s) => SymBodyNested(g.syms[s].data);
  }

  lemma OpenNested(tag: Tag, more: seq<Field>, d: nat)
    requires Nested(more, d + 1) && d >= 1
    ensures Nested([Atom(ParLe(tag))] + more, d) && DepthAfter([Atom(ParLe(tag))] + more, d) == DepthAfter(more, d + 1)
  {
    assert ([Atom(ParLe(tag))] + more)[1..] == more;
  }

  lemma CloseNested(more: seq<Field>, d: nat)
    requires Nested(more, d)
    ensures Nested([Atom(ParRi)] + more, d + 1) && DepthAfter([Atom(ParRi)] + more, d + 1) == DepthAfter(more, d)
  {
    assert ([Atom(ParRi)] + more)[1..] == more;
  }

  /** What follows the closing parenthesis of the kind. */
  ghost function AfterKind(r: SymData): (fs: seq<Field>)
    ensures NoParens(fs)
  {
    [Atom(Flags(r.magic)), Atom(SymFlags(r.flags)), Atom(Flags(r.options)), Atom(IntLit(r.offset)), Atom(PositionToken(r)),
     Annex(r.annex), TypeRef(r.typ)] + SymTail(r)
  }

  lemma SymBodyParts(r: SymData)
    ensures [Atom(ExportMarker(r)), Atom(ParLe(SymKindTag(r.kind)))] + SymHead(r) + SymTail(r)
         == [Atom(ExportMarker(r))] + ([Atom(ParLe(SymKindTag(r.kind)))] + (GuardFields(r) + ([Atom(ParRi)] + AfterKind(r))))
  {
  }

  lemma SymBodyNested(r: SymData)
    ensures var fs := [Atom(ExportMarker(r)), Atom(ParLe(SymKindTag(r.kind)))] + SymHead(r) + SymTail(r);
      Nested(fs, 1) && DepthAfter(fs, 1) == 1
  {
    SymBodyParts(r);
    var closed := [Atom(ParRi)] + AfterKind(r);
    FlatFields(AfterKind(r), [], 1);
    assert AfterKind(r) + [] == AfterKind(r);
    CloseNested(AfterKind(r), 1);
    FlatFields(GuardFields(r), closed, 2);
    OpenNested(SymKindTag(r.kind), GuardFields(r) + closed, 1);
    FlatFields([Atom(ExportMarker(r))], [Atom(ParLe(SymKindTag(r.kind)))] + (GuardFields(r) + closed), 1);
  }

  lemma SkipOne(t: Token, rest: seq<Token>, d: nat)
    requires !t.ParLe? && !t.ParRi? && d >= 1
    ensures Skip([t] + rest, d) == Skip(rest, d)
  {
  }

  lemma SkipOpen(t: Tag, rest: seq<Token>, d: nat)
    ensures Skip([ParLe(t)] + rest, d) == Skip(rest, d + 1)
  {
  }

  lemma SkipClose(rest: seq<Token>, d: nat)
    ensures Skip([ParRi] + rest, d + 1) == if d == 0 then rest else Skip(rest, d)
  {
  }

  /** From inside `d` open nodes, `toks` leads back to the same depth. */
  ghost predicate Passes(toks: seq<Token>, rest: seq<Token>, d: nat)
  {
    Skip(toks + rest, d) == Skip(rest, d)
  }

  /** `(tag body)` is skipped as one tree. */
  lemma SkipGroup(tag: Tag, body: seq<Token>, rest: seq<Token>, d: nat)
    requires Passes(body, [ParRi] + rest, d + 1)
    ensures Skip([ParLe(tag)] + body + [ParRi] + rest, d) == if d == 0 then rest else Skip(rest, d)
  {
    assert [ParLe(tag)] + body + [ParRi] + rest == [ParLe(tag)] + (body + ([ParRi] + rest));
    SkipOpen(tag, body + ([ParRi] + rest), d);
    SkipClose(rest, d);
  }

  lemma PassesThen(a: seq<Token>, b: seq<Token>, rest: seq<Token>, d: nat)
    requires Passes(a, b + rest, d) && Passes(b, rest, d)
    ensures Passes(a + b, rest, d)
  {
    Regroup(a, b, rest);
  }

  lemma {:induction false} DefSkips(g: Graph, sealed: set<Item>, x: Item, rest: seq<Token>, d: nat)
    requires InGraph(g, x)
    ensures Skip(WDef(g, sealed, x).toks + rest, d) == if d == 0 then rest else Skip(rest, d)
    decreases Unsealed(g, sealed), 4
  {
    var o := WFields(g, sealed, Body(g, x));
    BodyNested(g, x);
    NestedDeeper(Body(g, x), 1, d);
    FieldsSkip(g, sealed, Body(g, x), [ParRi] + rest, d + 1);
    NamedGroup(DefTag(x), x, o.toks, rest, d);
  }

  /** A definition is its tag, its name and what is skipped with them. */
  lemma NamedGroup(tag: Tag, x: Item, body: seq<Token>, rest: seq<Token>, d: nat)
    requires Passes(body, [ParRi] + rest, d + 1)
    ensures Skip([ParLe(tag), SymbolDef(x)] + body + [ParRi] + rest, d) == if d == 0 then rest else Skip(rest, d)
  {
    SkipOne(SymbolDef(x), body + ([ParRi] + rest), d + 1);
    Regroup([SymbolDef(x)], body, [ParRi] + rest);
    SkipGroup(tag, [SymbolDef(x)] + body, rest, d);
    assert [ParLe(tag), SymbolDef(x)] + body == [ParLe(tag)] + ([SymbolDef(x)] + body);
  }

  lemma {:induction false} NestedDeeper(fs: seq<Field>, d: nat, extra: nat)
    requires Nested(fs, d)
    ensures Nested(fs, d + extra) && DepthAfter(fs, d + extra) == DepthAfter(fs, d) + extra
  {
    if fs != [] { NestedDeeper(fs[1..], if fs[0].Atom? then AtomDepth(fs[0].t, d) else d, extra); }
  }

  lemma {:induction false} RefSkips(g: Graph, sealed: set<Item>, x: Option<Item>, rest: seq<Token>, d: nat)
    requires d >= 1
    ensures Passes(WRef(g, sealed, x).toks, rest, d)
    decreases Unsealed(g, sealed), 1, 0
  {
    if x.Some? && Definable(g, x.value) && x.value !in sealed {
      SealShrinks(g, sealed, x.value);
      DefSkips(g, sealed + {x.value}, x.value, rest, d);
    } else {
      SkipOne(if x.None? then Dot else Symbol(x.value), rest, d);
    }
  }

  lemma {:induction false} FieldsSkip(g: Graph, sealed: set<Item>, fs: seq<Field>, rest: seq<Token>, d: nat)
    requires Nested(fs, d)
    ensures Skip(WFields(g, sealed, fs).toks + rest, d) == Skip(rest, DepthAfter(fs, d))
    decreases Unsealed(g, sealed), 3, |fs|
  {
    if fs == [] {
      assert WFields(g, sealed, fs).toks + rest == rest;
    } else {
      var a := WField(g, sealed, fs[0]);
      var b := WFields(g, a.sealed, fs[1..]);
      MoreSealed(g, sealed, a.sealed);
      Regroup(a.toks, b.toks, rest);
      FieldSkips(g, sealed, fs[0], b.toks + rest, d);
      FieldsSkip(g, a.sealed, fs[1..], rest, if fs[0].Atom? then AtomDepth(fs[0].t, d) else d);
    }
  }

  lemma {:induction false} FieldSkips(g: Graph, sealed: set<Item>, f: Field, rest: seq<Token>, d: nat)
    requires d >= 1 && (f == Atom(ParRi) ==> d >= 2)
    ensures Skip(WField(g, sealed, f).toks + rest, d) == Skip(rest, if f.Atom? then AtomDepth(f.t, d) else d)
    decreases Unsealed(g, sealed), 3, 0
  {
    match f
    case Atom(t) =>
      if t.ParLe? { SkipOpen(t.tag, rest, d); } else if t.ParRi? { SkipClose(rest, d - 1); } else { SkipOne(t, rest, d); }
    case TypeRef(t) => RefSkips(g, sealed, TypItem(t), rest, d);
    case SymRef(s) => RefSkips(g, sealed, SymItem(s), rest, d);
    case Tree(n) => NodeSkips(g, sealed, n, rest, d);
    case Annex(lib) => AnnexSkips(g, sealed, lib, rest, d);
  }

  lemma BoolSkips(tag: Tag, rest: seq<Token>, d: nat)
    requires d >= 1
    ensures Skip([ParLe(tag)] + ([ParRi] + rest), d) == Skip(rest, d)
  {
    SkipOpen(tag, [ParRi] + rest, d);
    SkipClose(rest, d);
  }

  lemma LibHeadShape(l: Lib, rest: seq<Token>)
    ensures var named := [StrLit(l.name)] + rest;
      LibHead(l) + rest == [ParLe(LibTag(l.kind))] + ([ParLe(BoolTag(l.generated))] + ([ParRi] + ([ParLe(BoolTag(l.overridden))] + ([ParRi] + named))))
  {
  }

  lemma LibHeadSkips(l: Lib, rest: seq<Token>, d: nat)
    requires d >= 1
    ensures Skip(LibHead(l) + rest, d) == Skip(rest, d + 1)
  {
    var named := [StrLit(l.name)] + rest;
    var overridden := [ParLe(BoolTag(l.overridden))] + ([ParRi] + named);
    LibHeadShape(l, rest);
    SkipOpen(LibTag(l.kind), [ParLe(BoolTag(l.generated))] + ([ParRi] + overridden), d);
    BoolSkips(BoolTag(l.generated), overridden, d + 1);
    BoolSkips(BoolTag(l.overridden), named, d + 1);
    SkipOne(StrLit(l.name), rest, d + 1);
  }

  lemma {:induction false} AnnexSkips(g: Graph, sealed: set<Item>, lib: Option<Lib>, rest: seq<Token>, d: nat)
    requires d >= 1
    ensures Passes(WAnnex(g, sealed, lib).toks, rest, d)
    decreases Unsealed(g, sealed), 2
  {
    if lib.None? {
      SkipOne(Dot, rest, d);
    } else {
      var p := WNode(g, sealed, lib.value.path).toks;
      NodeSkips(g, sealed, lib.value.path, [ParRi] + rest, d + 1);
      LibHeadSkips(lib.value, p + ([ParRi] + rest), d);
      SkipClose(rest, d);
      assert LibHead(lib.value) + p + [ParRi] + rest == LibHead(lib.value) + (p + ([ParRi] + rest));
    }
  }

  /** What follows the kind tag in `withNode`. */
  lemma {:induction false} HeadSkips(g: Graph, sealed: set<Item>, flags: string, typ: Option<TypeId>, rest: seq<Token>, d: nat)
    requires d >= 1
    ensures Passes([Flags(flags)] + WRef(g, sealed, TypItem(typ)).toks, rest, d)
    decreases Unsealed(g, sealed), 1, 1
  {
    RefSkips(g, sealed, TypItem(typ), rest, d);
    SkipOne(Flags(flags), WRef(g, sealed, TypItem(typ)).toks + rest, d);
    PassesThen([Flags(flags)], WRef(g, sealed, TypItem(typ)).toks, rest, d);
  }

  lemma {:induction false} NodeSkips(g: Graph, sealed: set<Item>, n: Node, rest: seq<Token>, d: nat)
    requires d >= 1
    ensures Passes(WNode(g, sealed, n).toks, rest, d)
    decreases Unsealed(g, sealed), 2, n, 1
  {
    match n
    case NilNode => SkipOne(Dot, rest, d);
    case Empty =>
      assert [] + ([ParRi] + rest) == [ParRi] + rest;
      SkipGroup(KindTag(NkEmpty), [], rest, d);
      assert [ParLe(KindTag(NkEmpty))] + [] + [ParRi] == [ParLe(KindTag(NkEmpty)), ParRi];
    case SymNode(s, t) => SymNodeSkips(g, sealed, s, t, rest, d);
    case TypedEmpty(flags, t) =>
      LeafSkips(g, sealed, NkEmpty, flags, Some(t), [], rest, d);
      assert WHead(g, sealed, NkEmpty, flags, Some(t)).toks + [] == WHead(g, sealed, NkEmpty, flags, Some(t)).toks;
    case Atomic(value, flags, t) => LeafSkips(g, sealed, KindOf(value), flags, t, PayloadTokens(value), rest, d);
    case Inner(tag, flags, t, sons) => InnerSkips(g, sealed, tag, flags, t, sons, rest, d);
  }

  lemma HeadShape(g: Graph, sealed: set<Item>, kind: NodeKind, flags: string, typ: Option<TypeId>)
    ensures WHead(g, sealed, kind, flags, typ).toks == [ParLe(KindTag(kind))] + ([Flags(flags)] + WRef(g, sealed, TypItem(typ)).toks)
  {
  }

  lemma {:induction false} LeafSkips(g: Graph, sealed: set<Item>, kind: NodeKind, flags: string, typ: Option<TypeId>,
                                     payload: seq<Token>, rest: seq<Token>, d: nat)
    requires d >= 1 && |payload| <= 1 && (payload != [] ==> !payload[0].ParLe? && !payload[0].ParRi?)
    ensures Passes(WHead(g, sealed, kind, flags, typ).toks + payload + [ParRi], rest, d)
    decreases Unsealed(g, sealed), 1, 2
  {
    HeadSkips(g, sealed, flags, typ, payload + ([ParRi] + rest), d + 1);
    if payload == [] {
      assert payload + ([ParRi] + rest) == [ParRi] + rest;
    } else {
      assert payload == [payload[0]];
      SkipOne(payload[0], [ParRi] + rest, d + 1);
    }
    HeadShape(g, sealed, kind, flags, typ);
    GroupSkips(KindTag(kind), [Flags(flags)] + WRef(g, sealed, TypItem(typ)).toks, payload, rest, d);
  }

  lemma {:induction false} InnerSkips(g: Graph, sealed: set<Item>, tag: int, flags: string, t: Option<TypeId>, sons: seq<Node>,
                                      rest: seq<Token>, d: nat)
    requires d >= 1
    ensures Passes(WNode(g, sealed, Inner(tag, flags, t, sons)).toks, rest, d)
    decreases Unsealed(g, sealed), 2, sons, 1
  {
    var h := WHead(g, sealed, NkOther(tag), flags, t);
    var ss := WNodes(g, h.sealed, sons);
    MoreSealed(g, sealed, h.sealed);
    HeadSkips(g, sealed, flags, t, ss.toks + ([ParRi] + rest), d + 1);
    NodesSkip(g, h.sealed, sons, [ParRi] + rest, d + 1);
    HeadShape(g, sealed, NkOther(tag), flags, t);
    GroupSkips(KindTag(NkOther(tag)), [Flags(flags)] + WRef(g, sealed, TypItem(t)).toks, ss.toks, rest, d);
  }

  lemma GroupSkips(tag: Tag, head: seq<Token>, body: seq<Token>, rest: seq<Token>, d: nat)
    requires d >= 1 && Passes(head, body + ([ParRi] + rest), d + 1) && Passes(body, [ParRi] + rest, d + 1)
    ensures Passes([ParLe(tag)] + head + body + [ParRi], rest, d)
  {
    PassesThen(head, body, [ParRi] + rest, d + 1);
    SkipGroup(tag, head + body, rest, d);
    assert [ParLe(tag)] + (head + body) + [ParRi] == [ParLe(tag)] + head + body + [ParRi];
  }

  lemma {:induction false} NodesSkip(g: Graph, sealed: set<Item>, ns: seq<Node>, rest: seq<Token>, d: nat)
    requires d >= 1
    ensures Passes(WNodes(g, sealed, ns).toks, rest, d)
    decreases Unsealed(g, sealed), 2, ns, 0
  {
    if ns == [] {
      assert WNodes(g, sealed, ns).toks + rest == rest;
    } else {
      var a := WNode(g, sealed, ns[0]);
      var b := WNodes(g, a.sealed, ns[1..]);
      NodeSkips(g, sealed, ns[0], b.toks + rest, d);
      MoreSealed(g, sealed, a.sealed);
      NodesSkip(g, a.sealed, ns[1..], rest, d);
      PassesThen(a.toks, b.toks, rest, d);
    }
  }

  lemma {:induction false} SymNodeSkips(g: Graph, sealed: set<Item>, s: SymId, t: Option<TypeId>, rest: seq<Token>, d: nat)
    requires d >= 1
    ensures Passes(WSymNode(g, sealed, s, t).toks, rest, d)
    decreases Unsealed(g, sealed), 1, 2
  {
    var x := Sym(s);
    if Definable(g, x) && x !in sealed {
      SealShrinks(g, sealed, x);
      if t == SymTyp(g, s) {
        DefSkips(g, sealed + {x}, x, rest, d);
      } else {
        HiddenDefSkips(g, sealed + {x}, x, t, rest, d);
      }
    } else if t == SymTyp(g, s) {
      SkipOne(Symbol(x), rest, d);
    } else {
      RefSkips(g, sealed, TypItem(t), [Symbol(x)] + ([ParRi] + rest), d + 1);
      SkipOne(Symbol(x), [ParRi] + rest, d + 1);
      GroupSkips(Ht, WRef(g, sealed, TypItem(t)).toks, [Symbol(x)], rest, d);
    }
  }

  lemma {:induction false} HiddenDefSkips(g: Graph, sealed: set<Item>, x: Item, t: Option<TypeId>, rest: seq<Token>, d: nat)
    requires d >= 1 && InGraph(g, x)
    ensures var a := WRef(g, sealed, TypItem(t));
      Passes([ParLe(Ht)] + a.toks + WDef(g, a.sealed, x).toks + [ParRi], rest, d)
    decreases Unsealed(g, sealed), 5
  {
    var a := WRef(g, sealed, TypItem(t));
    var b := WDef(g, a.sealed, x);
    MoreSealed(g, sealed, a.sealed);
    RefSkips(g, sealed, TypItem(t), b.toks + ([ParRi] + rest), d + 1);
    DefSkips(g, a.sealed, x, [ParRi] + rest, d + 1);
    GroupSkips(Ht, a.toks, b.toks, rest, d);
  }
}
