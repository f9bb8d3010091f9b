/** Loading what was written.  For every graph, tree and state of writer and loader: exactly when loading succeeds, that it
    stops right after what was written, and exactly when it gives the same trees and definitions back. */
module NifRoundTrip {
  import opened Wrappers
  import opened NifWriter
  import opened NifLoader
  import opened NifOrder
  import opened NifBalance
  import opened NifDecoding

  /** Symbols whose names have a module suffix have the types of the graph when they are themselves loaded. */
  ghost predicate Fits(g: Graph, c: Context)
  {
    forall s :: !c.isLocal(s) ==> c.lazyTyp(s) == SymTyp(g, s)
  }

  /** The loader has come as far as the walk: its table is the same, and a loaded definition is what the format stores of
      the graph's exactly if it is not blurred. */
  ghost predicate Mirrors(g: Graph, c: Context, st: State, w: Walk)
  {
    && st.started == w.started && st.locals == w.locals && Keyed(w)
    && (forall s :: s in st.syms ==> InGraph(g, Sym(s)) && (st.syms[s] == Stored(c, g.syms[s].data) <==> Sym(s) !in w.blurred))
    && (forall t :: t in st.types ==> InGraph(g, Typ(t)) && (st.types[t] == g.types[t].data <==> Typ(t) !in w.blurred))
  }

  /** Besides, every lookup so far has succeeded. */
  ghost predicate Sound(g: Graph, c: Context, st: State, w: Walk)
  {
    Mirrors(g, c, st, w) && InOrder(w.events)
  }

  /** Types whose loading has begun but not ended. */
  ghost function Pending(st: State): set<TypeId>
  {
    set t | t in st.started && t !in st.types
  }

  /** The step from `st` to `st'` follows the walk to `w'` and finishes every type that it begins. */
  ghost predicate Reaches(g: Graph, c: Context, st: State, st': State, w': Walk)
  {
    Sound(g, c, st', w') && Pending(st') == Pending(st)
  }

  /** Loading fails exactly if a local symbol is looked up too early; otherwise it stops at `rest`. */
  ghost predicate Follows<T>(g: Graph, c: Context, st: State, p: Parsed<T>, rest: seq<Token>, w': Walk)
  {
    if InOrder(w'.events) then p.Parsed? && p.rest == rest && Reaches(g, c, st, p.st, w') else p.Bad?
  }

  /** If something is looked up too early on the way, then also at the end. */
  lemma OrderSoFar(c: Context, a: Walk, b: Walk)
    requires Grows(c, a, b) && InOrder(b.events)
    ensures InOrder(a.events)
  {
    OrderOfPrefix(a.events, b.events);
  }

  lemma OutOfOrder(c: Context, a: Walk, b: Walk)
    requires Grows(c, a, b) && !InOrder(a.events)
    ensures !InOrder(b.events)
  {
    if InOrder(b.events) {
      OrderSoFar(c, a, b);
    }
  }

  // ---------------------------------------------------------------- the scan

  /** The scan comes from `toks` to `rest`, or meets a definition that cannot be loaded. */
  ghost predicate Scans(g: Graph, c: Context, st: State, toks: seq<Token>, d: nat, st': State, rest: seq<Token>, d': nat, w': Walk)
  {
    if InOrder(w'.events) then Reaches(g, c, st, st', w') && LScan(c, st, toks, d) == LScan(c, st', rest, d')
    else LScan(c, st, toks, d).None?
  }

  lemma ScanFlat(c: Context, st: State, t: Token, rest: seq<Token>, d: nat)
    requires !t.ParLe? && !t.ParRi?
    ensures LScan(c, st, [t] + rest, d) == LScan(c, st, rest, d)
  {
    assert ([t] + rest)[1..] == rest;
  }

  lemma ScanOpen(c: Context, st: State, tag: Tag, rest: seq<Token>, d: nat)
    requires !tag.Sd?
    ensures LScan(c, st, [ParLe(tag)] + rest, d) == LScan(c, st, rest, d + 1)
  {
    assert ([ParLe(tag)] + rest)[1..] == rest;
  }

  lemma ScanClose(c: Context, st: State, rest: seq<Token>, d: nat)
    requires d >= 1
    ensures LScan(c, st, [ParRi] + rest, d + 1) == LScan(c, st, rest, d)
    ensures LScan(c, st, [ParRi] + rest, 1) == Some(st)
  {
    assert ([ParRi] + rest)[1..] == rest;
  }

  /** One scan after the other; the second only if the first comes through. */
  lemma ScansThen(g: Graph, c: Context, a: State, toks: seq<Token>, d: nat, b: State, mid: seq<Token>, d': nat, v: Walk,
                  st': State, rest: seq<Token>, d'': nat, w': Walk)
    requires Scans(g, c, a, toks, d, b, mid, d', v) && Grows(c, v, w')
    requires InOrder(v.events) ==> Scans(g, c, b, mid, d', st', rest, d'', w')
    ensures Scans(g, c, a, toks, d, st', rest, d'', w')
  {
    if InOrder(w'.events) {
      OrderSoFar(c, v, w');
    }
  }

  /** A node of which everything but the parentheses has been scanned. */
  lemma ScansGroup(g: Graph, c: Context, st: State, tag: Tag, body: seq<Token>, st': State, rest: seq<Token>, d: nat, w': Walk)
    requires d >= 1 && !tag.Sd? && Scans(g, c, st, body, d + 1, st', [ParRi] + rest, d + 1, w')
    ensures Scans(g, c, st, [ParLe(tag)] + body, d, st', rest, d, w')
  {
    ScanOpen(c, st, tag, body, d);
    ScanClose(c, st', rest, d);
  }

  /** No atom opens a symbol definition. */
  ghost predicate Steppable(fs: seq<Field>)
  {
    forall i :: 0 <= i < |fs| && fs[i].Atom? ==> fs[i].t != ParLe(Sd)
  }

  lemma BodySteppable(g: Graph, x: Item)
    requires InGraph(g, x)
    ensures Steppable(Body(g, x))
  {
    match x
    case Typ(t) =>
    case Sym(s) =>
      var r := g.syms[s].data;
      SymBodyParts(r);
      SteppableBoth(GuardFields(r), [Atom(ParRi)] + AfterKind(r));
      SteppableBoth([Atom(ParLe(SymKindTag(r.kind)))], GuardFields(r) + ([Atom(ParRi)] + AfterKind(r)));
      SteppableBoth([Atom(ExportMarker(r))], [Atom(ParLe(SymKindTag(r.kind)))] + (GuardFields(r) + ([Atom(ParRi)] + AfterKind(r))));
  }

  lemma SteppableBoth(a: seq<Field>, b: seq<Field>)
    requires Steppable(a) && Steppable(b)
    ensures Steppable(a + b)
  {
  }

  lemma {:induction false} FieldsScan(g: Graph, sealed: set<Item>, fs: seq<Field>, c: Context, st: State, w: Walk, rest: seq<Token>, d: nat)
    returns (st': State)
    requires Fits(g, c) && Sound(g, c, st, w) && Nested(fs, d) && Steppable(fs)
    ensures Scans(g, c, st, WFields(g, sealed, fs).toks + rest, d, st', rest, DepthAfter(fs, d), SFields(g, c, sealed, w, fs))
    decreases Unsealed(g, sealed), 3, |fs|
  {
    if fs == [] {
      st' := st;
      assert WFields(g, sealed, fs).toks + rest == rest;
    } else {
      var a := WField(g, sealed, fs[0]);
      var b := WFields(g, a.sealed, fs[1..]);
      var v, d' := SField(g, c, sealed, w, fs[0]), if fs[0].Atom? then AtomDepth(fs[0].t, d) else d;
      MoreSealed(g, sealed, a.sealed);
      Regroup(a.toks, b.toks, rest);
      var mid := FieldScans(g, sealed, fs[0], c, st, w, b.toks + rest, d);
      var toks := a.toks + (b.toks + rest);
      st' := mid;
      if InOrder(v.events) {
        st' := FieldsScan(g, a.sealed, fs[1..], c, mid, v, rest, d');
      }
      ScansThen(g, c, st, toks, d, mid, b.toks + rest, d', v, st', rest, DepthAfter(fs, d), SFields(g, c, sealed, w, fs));
    }
  }

  lemma {:induction false} FieldScans(g: Graph, sealed: set<Item>, f: Field, c: Context, st: State, w: Walk, rest: seq<Token>, d: nat)
    returns (st': State)
    requires Fits(g, c) && Sound(g, c, st, w) && d >= 1 && (f == Atom(ParRi) ==> d >= 2) && f != Atom(ParLe(Sd))
    ensures Scans(g, c, st, WField(g, sealed, f).toks + rest, d, st', rest, if f.Atom? then AtomDepth(f.t, d) else d,
                  SField(g, c, sealed, w, f))
    decreases Unsealed(g, sealed), 3, 0
  {
    match f
    case Atom(t) =>
      st' := st;
      if t.ParLe? { ScanOpen(c, st, t.tag, rest, d); } else if t.ParRi? { ScanClose(c, st, rest, d - 1); } else { ScanFlat(c, st, t, rest, d); }
    case TypeRef(t) => st' := RefScans(g, sealed, TypItem(t), c, st, w, rest, d);
    case SymRef(s) => st' := RefScans(g, sealed, SymItem(s), c, st, w, rest, d);
    case Tree(n) => st' := NodeScans(g, sealed, n, c, st, w, rest, d);
    case Annex(lib) => st' := AnnexScans(g, sealed, lib, c, st, w, rest, d);
  }

  lemma LibHeadScans(c: Context, st: State, l: Lib, rest: seq<Token>, d: nat)
    requires d >= 1
    ensures LScan(c, st, LibHead(l) + rest, d) == LScan(c, st, rest, d + 1)
  {
    var toks := LibHead(l) + rest;
    assert toks[1..][2..] == toks[3..] && toks[3..][2..] == toks[5..] && toks[5..][1..] == toks[6..] == rest;
    BoolScans(c, st, l.generated, toks[1..], d);
    BoolScans(c, st, l.overridden, toks[3..], d);
  }

  lemma BoolScans(c: Context, st: State, b: bool, toks: seq<Token>, d: nat)
    requires d >= 1 && |toks| >= 2 && toks[0] == ParLe(BoolTag(b)) && toks[1] == ParRi
    ensures LScan(c, st, toks, d + 1) == LScan(c, st, toks[2..], d + 1)
  {
    assert toks[1..][1..] == toks[2..];
  }

  lemma {:induction false} AnnexScans(g: Graph, sealed: set<Item>, lib: Option<Lib>, c: Context, st: State, w: Walk, rest: seq<Token>, d: nat)
    returns (st': State)
    requires Fits(g, c) && Sound(g, c, st, w) && d >= 1
    ensures Scans(g, c, st, WAnnex(g, sealed, lib).toks + rest, d, st', rest, d, SField(g, c, sealed, w, Annex(lib)))
    decreases Unsealed(g, sealed), 2
  {
    if lib.None? {
      st' := st;
      ScanFlat(c, st, Dot, rest, d);
    } else {
      var p := WNode(g, sealed, lib.value.path).toks;
      st' := NodeScans(g, sealed, lib.value.path, c, st, w, [ParRi] + rest, d + 1);
      AnnexScanned(g, c, st, lib.value, p, st', rest, d, SField(g, c, sealed, w, Annex(lib)));
    }
  }

  lemma AnnexScanned(g: Graph, c: Context, st: State, l: Lib, p: seq<Token>, st': State, rest: seq<Token>, d: nat, w': Walk)
    requires d >= 1 && Scans(g, c, st, p + ([ParRi] + rest), d + 1, st', [ParRi] + rest, d + 1, w')
    ensures Scans(g, c, st, LibHead(l) + p + [ParRi] + rest, d, st', rest, d, w')
  {
    LibHeadScans(c, st, l, p + ([ParRi] + rest), d);
    ScanClose(c, st', rest, d);
    assert LibHead(l) + p + [ParRi] + rest == LibHead(l) + (p + ([ParRi] + rest));
  }

  lemma {:induction false} RefScans(g: Graph, sealed: set<Item>, x: Option<Item>, c: Context, st: State, w: Walk, rest: seq<Token>, d: nat)
    returns (st': State)
    requires Fits(g, c) && Sound(g, c, st, w) && d >= 1
    ensures Scans(g, c, st, WRef(g, sealed, x).toks + rest, d, st', rest, d, SRef(g, c, sealed, w, x))
    decreases Unsealed(g, sealed), 1, 0
  {
    if x.Some? && Definable(g, x.value) && x.value !in sealed {
      SealShrinks(g, sealed, x.value);
      st' := DefScans(g, sealed + {x.value}, x.value, c, st, w, rest, d);
    } else {
      st' := st;
      ScanFlat(c, st, if x.None? then Dot else Symbol(x.value), rest, d);
    }
  }

  lemma DefTokens(g: Graph, sealed: set<Item>, x: Item, rest: seq<Token>)
    requires InGraph(g, x)
    ensures var body := WFields(g, sealed, Body(g, x)).toks + ([ParRi] + rest);
      WDef(g, sealed, x).toks + rest == [ParLe(DefTag(x))] + ([SymbolDef(x)] + body)
    ensures var body := WFields(g, sealed, Body(g, x)).toks + ([ParRi] + rest);
      (WDef(g, sealed, x).toks + rest)[2..] == body
  {
    var o := WFields(g, sealed, Body(g, x)).toks;
    assert WDef(g, sealed, x).toks + rest == [ParLe(DefTag(x)), SymbolDef(x)] + (o + ([ParRi] + rest));
  }

  /** Entering a symbol in the table, on both sides. */
  lemma EnterSound(g: Graph, c: Context, st: State, w: Walk, s: SymId)
    requires Sound(g, c, st, w)
    ensures Sound(g, c, Registered(st, s), Enter(c, w, s)) && Pending(Registered(st, s)) == Pending(st)
  {
    OrderOfNext(w.events, Enters(s));
  }

  lemma {:induction false} DefScans(g: Graph, sealed: set<Item>, x: Item, c: Context, st: State, w: Walk, rest: seq<Token>, d: nat)
    returns (st': State)
    requires Fits(g, c) && Sound(g, c, st, w) && d >= 1 && InGraph(g, x)
    ensures Scans(g, c, st, WDef(g, sealed, x).toks + rest, d, st', rest, d, SDef(g, c, sealed, w, x))
    decreases Unsealed(g, sealed), 4, 3
  {
    var toks := WDef(g, sealed, x).toks + rest;
    DefTokens(g, sealed, x, rest);
    if x.Sym? && c.isLocal(x.id) && x.id !in w.locals {
      EnterSound(g, c, st, w, x.id);
      SymBodyTrip(g, sealed, x.id, c, Registered(st, x.id), Enter(c, w, x.id), rest);
      var p := LSymBody(c, Registered(st, x.id), x.id, toks[2..]);
      DefLoaded(c, st, x.id, toks, d);
      st' := if p.Parsed? then p.st else st;
    } else {
      var tail := [SymbolDef(x)] + (WFields(g, sealed, Body(g, x)).toks + ([ParRi] + rest));
      st' := StepsInto(g, sealed, x, c, st, w, rest, d);
      DefStepped(c, st, x, tail, d);
    }
  }

  lemma DefLoaded(c: Context, st: State, s: SymId, toks: seq<Token>, d: nat)
    requires |toks| >= 2 && toks[0] == ParLe(Sd) && toks[1] == SymbolDef(Sym(s)) && c.isLocal(s) && s !in st.locals
    ensures var b := LSymBody(c, Registered(st, s), s, toks[2..]);
      LScan(c, st, toks, d) == if b.Bad? then None else LScan(c, b.st, b.rest, d)
  {
  }

  lemma DefStepped(c: Context, st: State, x: Item, tail: seq<Token>, d: nat)
    requires tail != [] && tail[0] == SymbolDef(x) && !(x.Sym? && c.isLocal(x.id) && x.id !in st.locals)
    ensures LScan(c, st, [ParLe(DefTag(x))] + tail, d) == LScan(c, st, tail, d + 1)
  {
    assert ([ParLe(DefTag(x))] + tail)[1..] == tail;
  }

  /** From the name of a definition that is stepped into. */
  lemma {:induction false} StepsInto(g: Graph, sealed: set<Item>, x: Item, c: Context, st: State, w: Walk, rest: seq<Token>, d: nat)
    returns (st': State)
    requires Fits(g, c) && Sound(g, c, st, w) && d >= 1 && InGraph(g, x)
    ensures Scans(g, c, st, [SymbolDef(x)] + (WFields(g, sealed, Body(g, x)).toks + ([ParRi] + rest)), d + 1, st', rest, d,
                  SFields(g, c, sealed, w, Body(g, x)))
    decreases Unsealed(g, sealed), 4, 2
  {
    BodyNested(g, x);
    BodySteppable(g, x);
    NestedDeeper(Body(g, x), 1, d);
    st' := FieldsScan(g, sealed, Body(g, x), c, st, w, [ParRi] + rest, d + 1);
    NameScanned(g, c, st, x, WFields(g, sealed, Body(g, x)).toks + ([ParRi] + rest), st', rest, d, SFields(g, c, sealed, w, Body(g, x)));
  }

  lemma NameScanned(g: Graph, c: Context, st: State, x: Item, toks: seq<Token>, st': State, rest: seq<Token>, d: nat, w': Walk)
    requires d >= 1 && Scans(g, c, st, toks, d + 1, st', [ParRi] + rest, d + 1, w')
    ensures Scans(g, c, st, [SymbolDef(x)] + toks, d + 1, st', rest, d, w')
  {
    ScanFlat(c, st, SymbolDef(x), toks, d + 1);
    ScanClose(c, st', rest, d);
  }

  /** `(tag flags type body)`, where the body is scanned from after the type on. */
  lemma {:induction false} HeadScans(g: Graph, sealed: set<Item>, kind: NodeKind, flags: string, t: Option<TypeId>, c: Context, st: State,
                                     w: Walk, rest: seq<Token>, d: nat)
    returns (st': State)
    requires Fits(g, c) && Sound(g, c, st, w) && d >= 1
    ensures Scans(g, c, st, WHead(g, sealed, kind, flags, t).toks + rest, d, st', rest, d + 1, SRef(g, c, sealed, w, TypItem(t)))
    decreases Unsealed(g, sealed), 1, 1
  {
    var r := WRef(g, sealed, TypItem(t)).toks;
    st' := RefScans(g, sealed, TypItem(t), c, st, w, rest, d + 1);
    HeadScanned(c, st, kind, flags, r, rest, d);
    HeadShape(g, sealed, kind, flags, t);
  }

  lemma HeadScanned(c: Context, st: State, kind: NodeKind, flags: string, r: seq<Token>, rest: seq<Token>, d: nat)
    ensures LScan(c, st, [ParLe(KindTag(kind))] + ([Flags(flags)] + r) + rest, d) == LScan(c, st, r + rest, d + 1)
  {
    ScanFlat(c, st, Flags(flags), r + rest, d + 1);
    ScanOpen(c, st, KindTag(kind), [Flags(flags)] + (r + rest), d);
    assert [ParLe(KindTag(kind))] + ([Flags(flags)] + r) + rest == [ParLe(KindTag(kind))] + ([Flags(flags)] + (r + rest));
  }

  lemma {:induction false} LeafScans(g: Graph, sealed: set<Item>, kind: NodeKind, flags: string, t: Option<TypeId>, payload: seq<Token>,
                                     c: Context, st: State, w: Walk, rest: seq<Token>, d: nat)
    returns (st': State)
    requires Fits(g, c) && Sound(g, c, st, w) && d >= 1
    requires |payload| <= 1 && (payload != [] ==> !payload[0].ParLe? && !payload[0].ParRi?)
    ensures Scans(g, c, st, WHead(g, sealed, kind, flags, t).toks + payload + [ParRi] + rest, d, st', rest, d,
                  SRef(g, c, sealed, w, TypItem(t)))
    decreases Unsealed(g, sealed), 1, 2
  {
    var h := WHead(g, sealed, kind, flags, t).toks;
    st' := HeadScans(g, sealed, kind, flags, t, c, st, w, payload + ([ParRi] + rest), d);
    if payload != [] {
      assert payload == [payload[0]];
      ScanFlat(c, st', payload[0], [ParRi] + rest, d + 1);
    } else {
      assert payload + ([ParRi] + rest) == [ParRi] + rest;
    }
    ScanClose(c, st', rest, d);
    NodeShape(h, payload, rest);
  }

  lemma {:induction false} NodeScans(g: Graph, sealed: set<Item>, n: Node, c: Context, st: State, w: Walk, rest: seq<Token>, d: nat)
    returns (st': State)
    requires Fits(g, c) && Sound(g, c, st, w) && d >= 1
    ensures Scans(g, c, st, WNode(g, sealed, n).toks + rest, d, st', rest, d, SNode(g, c, sealed, w, n))
    decreases Unsealed(g, sealed), 2, n, 1
  {
    match n
    case NilNode =>
      st' := st;
      ScanFlat(c, st, Dot, rest, d);
    case Empty =>
      st' := st;
      ScanOpen(c, st, KindTag(NkEmpty), [ParRi] + rest, d);
      ScanClose(c, st, rest, d);
      assert [ParLe(KindTag(NkEmpty)), ParRi] + rest == [ParLe(KindTag(NkEmpty))] + ([ParRi] + rest);
    case TypedEmpty(flags, t) =>
      st' := LeafScans(g, sealed, NkEmpty, flags, Some(t), [], c, st, w, rest, d);
      assert WHead(g, sealed, NkEmpty, flags, Some(t)).toks + [] == WHead(g, sealed, NkEmpty, flags, Some(t)).toks;
    case SymNode(s, t) => st' := SymNodeScans(g, sealed, s, t, c, st, w, rest, d);
    case Atomic(value, flags, t) => st' := LeafScans(g, sealed, KindOf(value), flags, t, PayloadTokens(value), c, st, w, rest, d);
    case Inner(tag, flags, t, sons) =>
      st' := InnerScans(g, sealed, tag, flags, t, sons, c, st, w, rest, d);
      InnerScanned(g, sealed, tag, flags, t, sons, c, w);
  }

  lemma {:induction false} InnerScans(g: Graph, sealed: set<Item>, tag: int, flags: string, t: Option<TypeId>, sons: seq<Node>,
                                      c: Context, st: State, w: Walk, rest: seq<Token>, d: nat)
    returns (st': State)
    requires Fits(g, c) && Sound(g, c, st, w) && d >= 1
    ensures var h := WHead(g, sealed, NkOther(tag), flags, t);
      Scans(g, c, st, h.toks + WNodes(g, h.sealed, sons).toks + [ParRi] + rest, d, st', rest, d,
            SNodes(g, c, h.sealed, SRef(g, c, sealed, w, TypItem(t)), sons))
    decreases Unsealed(g, sealed), 2, sons, 2
  {
    var h := WHead(g, sealed, NkOther(tag), flags, t);
    MoreSealed(g, sealed, h.sealed);
    var mid := HeadScans(g, sealed, NkOther(tag), flags, t, c, st, w, WNodes(g, h.sealed, sons).toks + ([ParRi] + rest), d);
    st' := SonsRest(g, h.sealed, sons, h.toks, c, st, mid, SRef(g, c, sealed, w, TypItem(t)), rest, d);
  }

  lemma InnerScanned(g: Graph, sealed: set<Item>, tag: int, flags: string, t: Option<TypeId>, sons: seq<Node>, c: Context, w: Walk)
    ensures var n, h := Inner(tag, flags, t, sons), WHead(g, sealed, NkOther(tag), flags, t);
      && WNode(g, sealed, n).toks == h.toks + WNodes(g, h.sealed, sons).toks + [ParRi]
      && SNode(g, c, sealed, w, n) == SNodes(g, c, h.sealed, SRef(g, c, sealed, w, TypItem(t)), sons)
  {
  }

  /** The scan of the sons, after that of the head `h`. */
  lemma {:induction false} SonsRest(g: Graph, sealed: set<Item>, sons: seq<Node>, h: seq<Token>, c: Context, st: State, mid: State, v: Walk,
                                    rest: seq<Token>, d: nat)
    returns (st': State)
    requires Fits(g, c) && d >= 1
    requires var tail := WNodes(g, sealed, sons).toks + ([ParRi] + rest);
      Scans(g, c, st, h + tail, d, mid, tail, d + 1, v)
    ensures Scans(g, c, st, h + WNodes(g, sealed, sons).toks + [ParRi] + rest, d, st', rest, d, SNodes(g, c, sealed, v, sons))
    decreases Unsealed(g, sealed), 2, sons, 1
  {
    st' := mid;
    if InOrder(v.events) {
      st' := NodesScan(g, sealed, sons, c, mid, v, [ParRi] + rest, d + 1);
    }
    NodeScanned(g, c, st, h, WNodes(g, sealed, sons).toks, rest, d, mid, v, st', SNodes(g, c, sealed, v, sons));
  }

  /** The head and then the sons of a node have been scanned. */
  lemma NodeScanned(g: Graph, c: Context, st: State, h: seq<Token>, body: seq<Token>, rest: seq<Token>, d: nat, mid: State, v: Walk,
                    st': State, w': Walk)
    requires d >= 1 && Grows(c, v, w') && Scans(g, c, st, h + (body + ([ParRi] + rest)), d, mid, body + ([ParRi] + rest), d + 1, v)
    requires InOrder(v.events) ==> Scans(g, c, mid, body + ([ParRi] + rest), d + 1, st', [ParRi] + rest, d + 1, w')
    ensures Scans(g, c, st, h + body + [ParRi] + rest, d, st', rest, d, w')
  {
    var tail := body + ([ParRi] + rest);
    ScansThen(g, c, st, h + tail, d, mid, tail, d + 1, v, st', [ParRi] + rest, d + 1, w');
    ScansClosed(g, c, st, h + tail, d, st', rest, w');
    NodeShape(h, body, rest);
  }

  lemma ScansClosed(g: Graph, c: Context, st: State, toks: seq<Token>, d: nat, st': State, rest: seq<Token>, w': Walk)
    requires d >= 1 && Scans(g, c, st, toks, d, st', [ParRi] + rest, d + 1, w')
    ensures Scans(g, c, st, toks, d, st', rest, d, w')
  {
    ScanClose(c, st', rest, d);
  }

  lemma {:induction false} NodesScan(g: Graph, sealed: set<Item>, ns: seq<Node>, c: Context, st: State, w: Walk, rest: seq<Token>, d: nat)
    returns (st': State)
    requires Fits(g, c) && Sound(g, c, st, w) && d >= 1
    ensures Scans(g, c, st, WNodes(g, sealed, ns).toks + rest, d, st', rest, d, SNodes(g, c, sealed, w, ns))
    decreases Unsealed(g, sealed), 2, ns, 0
  {
    if ns == [] {
      st' := st;
      assert WNodes(g, sealed, ns).toks + rest == rest;
    } else {
      var a := WNode(g, sealed, ns[0]);
      var b := WNodes(g, a.sealed, ns[1..]);
      var v, w' := SNode(g, c, sealed, w, ns[0]), SNodes(g, c, sealed, w, ns);
      MoreSealed(g, sealed, a.sealed);
      Regroup(a.toks, b.toks, rest);
      var mid := NodeScans(g, sealed, ns[0], c, st, w, b.toks + rest, d);
      var toks := a.toks + (b.toks + rest);
      st' := mid;
      if InOrder(v.events) {
        st' := NodesScan(g, a.sealed, ns[1..], c, mid, v, rest, d);
      }
      ScansThen(g, c, st, toks, d, mid, b.toks + rest, d, v, st', rest, d, w');
    }
  }

  lemma {:induction false} SymNodeScans(g: Graph, sealed: set<Item>, s: SymId, t: Option<TypeId>, c: Context, st: State, w: Walk,
                                        rest: seq<Token>, d: nat)
    returns (st': State)
    requires Fits(g, c) && Sound(g, c, st, w) && d >= 1
    ensures Scans(g, c, st, WSymNode(g, sealed, s, t).toks + rest, d, st', rest, d, SSymNode(g, c, sealed, w, s, t))
    decreases Unsealed(g, sealed), 1, 2
  {
    var x := Sym(s);
    if Definable(g, x) && x !in sealed {
      SealShrinks(g, sealed, x);
      if t == SymTyp(g, s) {
        st' := DefScans(g, sealed + {x}, x, c, st, w, rest, d);
      } else {
        st' := HiddenDefScans(g, sealed + {x}, s, t, c, st, w, rest, d);
      }
    } else if t == SymTyp(g, s) {
      st' := st;
      ScanFlat(c, st, Symbol(x), rest, d);
    } else {
      var a := WRef(g, sealed, TypItem(t)).toks;
      st' := RefScans(g, sealed, TypItem(t), c, st, w, [Symbol(x)] + ([ParRi] + rest), d + 1);
      ScanFlat(c, st', Symbol(x), [ParRi] + rest, d + 1);
      ScansGroup(g, c, st, Ht, a + ([Symbol(x)] + ([ParRi] + rest)), st', rest, d, SRef(g, c, sealed, w, TypItem(t)));
      HiddenShape(a, [Symbol(x)], rest);
    }
  }

  lemma {:induction false} HiddenDefScans(g: Graph, sealed: set<Item>, s: SymId, t: Option<TypeId>, c: Context, st: State, w: Walk,
                                          rest: seq<Token>, d: nat)
    returns (st': State)
    requires Fits(g, c) && Sound(g, c, st, w) && d >= 1 && InGraph(g, Sym(s))
    ensures var a := WRef(g, sealed, TypItem(t));
      var b := WDef(g, a.sealed, Sym(s));
      Scans(g, c, st, [ParLe(Ht)] + a.toks + b.toks + [ParRi] + rest, d, st', rest, d,
            SDef(g, c, a.sealed, SRef(g, c, sealed, w, TypItem(t)), Sym(s)))
    decreases Unsealed(g, sealed), 5
  {
    var a := WRef(g, sealed, TypItem(t));
    MoreSealed(g, sealed, a.sealed);
    var mid := RefScans(g, sealed, TypItem(t), c, st, w, WDef(g, a.sealed, Sym(s)).toks + ([ParRi] + rest), d + 1);
    st' := HiddenRest(g, a.sealed, s, a.toks, c, st, mid, SRef(g, c, sealed, w, TypItem(t)), rest, d);
  }

  /** The scan of the definition, after that of the type `a`. */
  lemma {:induction false} HiddenRest(g: Graph, sealed: set<Item>, s: SymId, a: seq<Token>, c: Context, st: State, mid: State, v: Walk,
                                      rest: seq<Token>, d: nat)
    returns (st': State)
    requires Fits(g, c) && d >= 1 && InGraph(g, Sym(s))
    requires var inner := WDef(g, sealed, Sym(s)).toks + ([ParRi] + rest);
      Scans(g, c, st, a + inner, d + 1, mid, inner, d + 1, v)
    ensures Scans(g, c, st, [ParLe(Ht)] + a + WDef(g, sealed, Sym(s)).toks + [ParRi] + rest, d, st', rest, d, SDef(g, c, sealed, v, Sym(s)))
    decreases Unsealed(g, sealed), 4, 4
  {
    st' := mid;
    if InOrder(v.events) {
      st' := DefScans(g, sealed, Sym(s), c, mid, v, [ParRi] + rest, d + 1);
    }
    HiddenScanned(g, c, st, a, WDef(g, sealed, Sym(s)).toks, rest, d, mid, v, st', SDef(g, c, sealed, v, Sym(s)));
  }

  /** A type and then a definition have been scanned under the hidden-type tag. */
  lemma HiddenScanned(g: Graph, c: Context, st: State, a: seq<Token>, b: seq<Token>, rest: seq<Token>, d: nat, mid: State, v: Walk,
                      st': State, w': Walk)
    requires d >= 1 && Grows(c, v, w') && Scans(g, c, st, a + (b + ([ParRi] + rest)), d + 1, mid, b + ([ParRi] + rest), d + 1, v)
    requires InOrder(v.events) ==> Scans(g, c, mid, b + ([ParRi] + rest), d + 1, st', [ParRi] + rest, d + 1, w')
    ensures Scans(g, c, st, [ParLe(Ht)] + a + b + [ParRi] + rest, d, st', rest, d, w')
  {
    var inner := b + ([ParRi] + rest);
    ScansThen(g, c, st, a + inner, d + 1, mid, inner, d + 1, v, st', [ParRi] + rest, d + 1, w');
    HiddenClosed(g, c, st, a, b, rest, d, st', w');
  }

  lemma HiddenClosed(g: Graph, c: Context, st: State, a: seq<Token>, b: seq<Token>, rest: seq<Token>, d: nat, st': State, w': Walk)
    requires d >= 1 && Scans(g, c, st, a + (b + ([ParRi] + rest)), d + 1, st', [ParRi] + rest, d + 1, w')
    ensures Scans(g, c, st, [ParLe(Ht)] + a + b + [ParRi] + rest, d, st', rest, d, w')
  {
    ScansGroup(g, c, st, Ht, a + (b + ([ParRi] + rest)), st', rest, d, w');
    HiddenShape(a, b, rest);
  }

  lemma HiddenShape(a: seq<Token>, b: seq<Token>, rest: seq<Token>)
    ensures [ParLe(Ht)] + a + b + [ParRi] + rest == [ParLe(Ht)] + (a + (b + ([ParRi] + rest)))
  {
  }

  lemma NodeShape(h: seq<Token>, body: seq<Token>, rest: seq<Token>)
    ensures h + body + [ParRi] + rest == h + (body + ([ParRi] + rest))
  {
  }

  // ---------------------------------------------------------------- types

  lemma {:induction false} TypeTrip(g: Graph, sealed: set<Item>, t: Option<TypeId>, c: Context, st: State, w: Walk, rest: seq<Token>)
    requires Fits(g, c) && Sound(g, c, st, w)
    ensures var p := LType(c, st, WRef(g, sealed, TypItem(t)).toks + rest);
      Follows(g, c, st, p, rest, RType(g, c, sealed, w, t)) && (p.Parsed? ==> p.value == t)
    decreases Unsealed(g, sealed), 1, 0
  {
    var x := TypItem(t);
    if x.Some? && Definable(g, x.value) && x.value !in sealed {
      SealShrinks(g, sealed, x.value);
      TypeDefTrip(g, sealed + {x.value}, t.value, c, st, w, rest);
    } else {
      var tok := if x.None? then Dot else Symbol(x.value);
      assert ([tok] + rest)[1..] == rest;
    }
  }

  lemma {:induction false} TypeDefTrip(g: Graph, sealed: set<Item>, t: TypeId, c: Context, st: State, w: Walk, rest: seq<Token>)
    requires Fits(g, c) && Sound(g, c, st, w) && InGraph(g, Typ(t))
    ensures var p := LType(c, st, WDef(g, sealed, Typ(t)).toks + rest);
      (p.Parsed? ==> p.value == Some(t)) &&
      Follows(g, c, st, p, rest, if t in w.started then w else RTypeBody(g, c, sealed, w.(started := w.started + {t}), t))
    decreases Unsealed(g, sealed), 5
  {
    DefTokens(g, sealed, Typ(t), rest);
    if t in st.started {
      DefSkips(g, sealed, Typ(t), rest, 0);
    } else {
      TypeBodyTrip(g, sealed, t, c, Begun(st, t), w.(started := w.started + {t}), rest);
      TypeBegun(c, st, t, WDef(g, sealed, Typ(t)).toks + rest);
    }
  }

  function Begun(st: State, t: TypeId): State
  {
    st.(started := st.started + {t})
  }

  lemma TypeBegun(c: Context, st: State, t: TypeId, toks: seq<Token>)
    requires StartsDef(toks, Td) && toks[1] == SymbolDef(Typ(t)) && t !in st.started
    ensures Pending(Begun(st, t)) - {t} == Pending(st)
    ensures var b := LTypeBody(c, Begun(st, t), t, toks[2..]);
      LType(c, st, toks) == if b.Bad? then Bad else Parsed(Some(t), b.rest, b.st)
  {
  }

  /** A type's definition, read from just after its name: the scan for local symbols first, then the fields and sons.
      It is what `loadType` does at an indexed offset, and `loadTypeStub` in place. */
  lemma {:induction false} TypeBodyTrip(g: Graph, sealed: set<Item>, t: TypeId, c: Context, st: State, w: Walk, rest: seq<Token>)
    requires Fits(g, c) && Sound(g, c, st, w) && InGraph(g, Typ(t))
    ensures var p := LTypeBody(c, st, t, WFields(g, sealed, Body(g, Typ(t))).toks + ([ParRi] + rest));
      var w' := RTypeBody(g, c, sealed, w, t);
      if InOrder(w'.events) then
        p.Parsed? && p.rest == rest && Sound(g, c, p.st, w') && Pending(p.st) == Pending(st) - {t} && t in p.st.types
      else p.Bad?
    decreases Unsealed(g, sealed), 4, 1
  {
    var all, toks := Body(g, Typ(t)), WFields(g, sealed, Body(g, Typ(t))).toks + ([ParRi] + rest);
    BodyNested(g, Typ(t));
    BodySteppable(g, Typ(t));
    var scanned := FieldsScan(g, sealed, all, c, st, w, [ParRi] + rest, 1);
    ScanClose(c, scanned, rest, 1);
    var v := SFields(g, c, sealed, w, all);
    TypeBodyRead(c, st, t, toks);
    if InOrder(v.events) {
      TypePartsTrip(g, sealed, t, c, scanned, v, rest);
    } else {
      ScannedFirst(g, c, sealed, w, t);
      OutOfOrder(c, v, RTypeBody(g, c, sealed, w, t));
    }
  }

  lemma TypeBodyRead(c: Context, st: State, t: TypeId, toks: seq<Token>)
    ensures var scanned := LScan(c, st, toks, 1);
      scanned.None? ==> LTypeBody(c, st, t, toks).Bad?
    ensures var scanned := LScan(c, st, toks, 1);
      scanned.Some? ==>
        var f := LFields(c, scanned.value, TypeSchema(), toks);
        var all := LTypeBody(c, st, t, toks);
        if f.Bad? then all.Bad?
        else var s := LSons(c, f.st, f.rest);
          all == if s.Bad? then Bad else Parsed((), s.rest, s.st.(types := s.st.types[t := DecodeType(f.value, s.value)]))
  {
  }

  lemma ScannedFirst(g: Graph, c: Context, sealed: set<Item>, w: Walk, t: TypeId)
    requires InGraph(g, Typ(t))
    ensures Grows(c, SFields(g, c, sealed, w, Body(g, Typ(t))), RTypeBody(g, c, sealed, w, t))
  {
    var data := g.types[t].data;
    var v := SFields(g, c, sealed, w, Body(g, Typ(t)));
    var fields, mid := RFields(g, c, sealed, v, TypeFields(data)), WFields(g, sealed, TypeFields(data)).sealed;
    StepsThen(g, c, v, fields.w, RFields(g, c, mid, fields.w, SonFields(data.sons)).w);
  }

  /** Reading the fields and the sons, after the scan. */
  lemma {:induction false} TypePartsTrip(g: Graph, sealed: set<Item>, t: TypeId, c: Context, st: State, w: Walk, rest: seq<Token>)
    requires Fits(g, c) && Sound(g, c, st, w) && InGraph(g, Typ(t))
    ensures var toks := WFields(g, sealed, Body(g, Typ(t))).toks + ([ParRi] + rest);
      var data := g.types[t].data;
      var f := LFields(c, st, TypeSchema(), toks);
      var a := RFields(g, c, sealed, w, TypeFields(data));
      var b := RFields(g, c, WFields(g, sealed, TypeFields(data)).sealed, a.w, SonFields(data.sons));
      if !InOrder(b.w.events) then f.Bad? || LSons(c, f.st, f.rest).Bad?
      else f.Parsed? && var s := LSons(c, f.st, f.rest);
        s.Parsed? && s.rest == rest
        && var st' := s.st.(types := s.st.types[t := DecodeType(f.value, s.value)]);
          Sound(g, c, st', Loaded(g, c, b.w, Typ(t), a.exact)) && Pending(st') == Pending(st) - {t}
    decreases Unsealed(g, sealed), 4, 0
  {
    var data := g.types[t].data;
    var x := WFields(g, sealed, TypeFields(data));
    var y := WFields(g, x.sealed, SonFields(data.sons));
    FieldsConcat(g, sealed, TypeFields(data), SonFields(data.sons));
    TypeSchemaFits(data);
    Regroup(x.toks, y.toks, [ParRi] + rest);
    FieldsTrip(g, sealed, TypeFields(data), TypeSchema(), c, st, w, y.toks + ([ParRi] + rest));
    var f, a := LFields(c, st, TypeSchema(), x.toks + (y.toks + ([ParRi] + rest))), RFields(g, c, sealed, w, TypeFields(data));
    MoreSealed(g, sealed, x.sealed);
    if InOrder(a.w.events) {
      SonsTrip(g, x.sealed, data.sons, c, f.st, a.w, rest);
      TypeDiffers(data, f.value);
      var s, b := LSons(c, f.st, f.rest), RFields(g, c, x.sealed, a.w, SonFields(data.sons));
      if InOrder(b.w.events) {
        TypeRecorded(g, c, s.st, b.w, t, DecodeType(f.value, s.value), a.exact);
      }
    } else if InOrder(RFields(g, c, x.sealed, a.w, SonFields(data.sons)).w.events) {
      OrderSoFar(c, a.w, RFields(g, c, x.sealed, a.w, SonFields(data.sons)).w);
    }
  }

  lemma TypeRecorded(g: Graph, c: Context, st: State, w: Walk, t: TypeId, data: TypeData, exact: bool)
    requires Sound(g, c, st, w) && InGraph(g, Typ(t)) && (data == g.types[t].data <==> exact)
    ensures var st' := st.(types := st.types[t := data]);
      Sound(g, c, st', Loaded(g, c, w, Typ(t), exact)) && Pending(st') == Pending(st) - {t}
  {
  }

  lemma SymRecorded(g: Graph, c: Context, st: State, w: Walk, s: SymId, data: SymData, exact: bool)
    requires Sound(g, c, st, w) && InGraph(g, Sym(s)) && (data == Stored(c, g.syms[s].data) <==> exact)
    ensures var st' := st.(syms := st.syms[s := data]);
      Sound(g, c, st', Loaded(g, c, w, Sym(s), exact)) && Pending(st') == Pending(st)
  {
  }

  lemma {:induction false} SonsTrip(g: Graph, sealed: set<Item>, sons: seq<Option<TypeId>>, c: Context, st: State, w: Walk, rest: seq<Token>)
    requires Fits(g, c) && Sound(g, c, st, w)
    ensures var p := LSons(c, st, WFields(g, sealed, SonFields(sons)).toks + ([ParRi] + rest));
      Follows(g, c, st, p, rest, RFields(g, c, sealed, w, SonFields(sons)).w) && (p.Parsed? ==> p.value == sons)
    decreases Unsealed(g, sealed), 3, |sons|
  {
    if sons == [] {
      assert [] + ([ParRi] + rest) == [ParRi] + rest && ([ParRi] + rest)[1..] == rest;
    } else {
      var a := WRef(g, sealed, TypItem(sons[0]));
      var tail := WFields(g, a.sealed, SonFields(sons[1..])).toks + ([ParRi] + rest);
      var v := RType(g, c, sealed, w, sons[0]);
      MoreSealed(g, sealed, a.sealed);
      SonsCons(g, sealed, sons, a, rest);
      SonsWalk(g, c, sealed, w, sons);
      RefStartsTree(g, sealed, TypItem(sons[0]), tail);
      TypeTrip(g, sealed, sons[0], c, st, w, tail);
      if InOrder(v.events) {
        var p := LType(c, st, a.toks + tail);
        SonsTrip(g, a.sealed, sons[1..], c, p.st, v, rest);
        SonsFollow(c, st, sons, a.toks + tail, p);
      } else if InOrder(RFields(g, c, sealed, w, SonFields(sons)).w.events) {
        OrderSoFar(c, v, RFields(g, c, sealed, w, SonFields(sons)).w);
      }
    }
  }

  lemma SonsFollow(c: Context, st: State, sons: seq<Option<TypeId>>, toks: seq<Token>, p: Parsed<Option<TypeId>>)
    requires sons != [] && toks != [] && !toks[0].ParRi? && p == LType(c, st, toks) && p.Parsed? && p.value == sons[0]
    ensures var q := LSons(c, p.st, p.rest);
      LSons(c, st, toks) == if q.Bad? then Bad else Parsed([sons[0]] + q.value, q.rest, q.st)
    ensures [sons[0]] + sons[1..] == sons
  {
  }

  lemma SonsWalk(g: Graph, c: Context, sealed: set<Item>, w: Walk, sons: seq<Option<TypeId>>)
    requires sons != []
    ensures var mid := WRef(g, sealed, TypItem(sons[0])).sealed;
      var v := RType(g, c, sealed, w, sons[0]);
      RFields(g, c, sealed, w, SonFields(sons)).w == RFields(g, c, mid, v, SonFields(sons[1..])).w
  {
    assert SonFields(sons)[1..] == SonFields(sons[1..]);
  }

  lemma SonsCons(g: Graph, sealed: set<Item>, sons: seq<Option<TypeId>>, a: Out, rest: seq<Token>)
    requires sons != [] && a == WRef(g, sealed, TypItem(sons[0]))
    ensures WFields(g, sealed, SonFields(sons)).toks + ([ParRi] + rest)
         == a.toks + (WFields(g, a.sealed, SonFields(sons[1..])).toks + ([ParRi] + rest))
  {
    var fs := SonFields(sons);
    assert fs[1..] == SonFields(sons[1..]);
    assert WField(g, sealed, fs[0]) == a;
    Regroup(a.toks, WFields(g, a.sealed, fs[1..]).toks, [ParRi] + rest);
  }

  lemma RefStartsTree(g: Graph, sealed: set<Item>, x: Option<Item>, rest: seq<Token>)
    ensures var toks := WRef(g, sealed, x).toks + rest;
      toks != [] && !toks[0].ParRi?
  {
  }

  // ---------------------------------------------------------------- symbol references

  /** A lookup succeeds exactly if the symbol has been registered. */
  lemma Looks(g: Graph, c: Context, st: State, w: Walk, s: SymId, rest: seq<Token>)
    requires Sound(g, c, st, w)
    ensures var p := Stub(c, st, s, rest);
      Follows(g, c, st, p, rest, LookUp(g, c, w, s)) && (p.Parsed? ==> p.value == Some(s) && p.st == st)
  {
    OrderOfNext(w.events, LookedUp(s));
  }

  lemma SymTrip(g: Graph, sealed: set<Item>, s: Option<SymId>, c: Context, st: State, w: Walk, rest: seq<Token>)
    requires Fits(g, c) && Sound(g, c, st, w)
    ensures var p := LSym(c, st, WRef(g, sealed, SymItem(s)).toks + rest);
      Follows(g, c, st, p, rest, RSym(g, c, w, s)) && (p.Parsed? ==> p.value == s)
  {
    var x := SymItem(s);
    if x.Some? && Definable(g, x.value) && x.value !in sealed {
      SymDefTrip(g, sealed + {x.value}, s.value, c, st, w, rest);
    } else {
      var tok := if x.None? then Dot else Symbol(x.value);
      assert ([tok] + rest)[1..] == rest;
      if s.Some? {
        Looks(g, c, st, w, s.value, rest);
      }
    }
  }

  lemma SymDefTrip(g: Graph, sealed: set<Item>, s: SymId, c: Context, st: State, w: Walk, rest: seq<Token>)
    requires Fits(g, c) && Sound(g, c, st, w) && InGraph(g, Sym(s))
    ensures var p := LSym(c, st, WDef(g, sealed, Sym(s)).toks + rest);
      Follows(g, c, st, p, rest, LookUp(g, c, w, s)) && (p.Parsed? ==> p.value == Some(s))
  {
    DefTokens(g, sealed, Sym(s), rest);
    DefSkips(g, sealed, Sym(s), rest, 0);
    Looks(g, c, st, w, s, rest);
  }

  // ---------------------------------------------------------------- field lists

  ghost predicate Fills(slot: Slot, f: Field)
  {
    match f
    case Atom(t) => Accepts(slot, t)
    case TypeRef(_) => slot.TypeSlot?
    case SymRef(_) => slot.SymSlot?
    case Tree(_) => slot.TreeSlot?
    case Annex(_) => slot.AnnexSlot?
  }

  ghost predicate FillsAll(schema: seq<Slot>, fs: seq<Field>)
  {
    |schema| == |fs| && forall i :: 0 <= i < |fs| ==> Fills(schema[i], fs[i])
  }

  lemma FillsBoth(a: seq<Slot>, b: seq<Slot>, x: seq<Field>, y: seq<Field>)
    requires FillsAll(a, x) && FillsAll(b, y)
    ensures FillsAll(a + b, x + y)
  {
  }

  lemma SymSchemaFits(r: SymData)
    ensures FillsAll(SymHeadSchema(r.kind), SymHead(r)) && FillsAll(SymTailSchema(), SymTail(r))
  {
    FillsBoth(if Guarded(r.kind) then [SymSlot, IntSlot, IntSlot] else [],
              [CloseSlot, FlagSlot, SymFlagSlot, FlagSlot, IntSlot, if r.kind.SkModule? then DotSlot else IntSlot, AnnexSlot, TypeSlot],
              GuardFields(r),
              [Atom(ParRi), Atom(Flags(r.magic)), Atom(SymFlags(r.flags)), Atom(Flags(r.options)), Atom(IntLit(r.offset)),
               Atom(PositionToken(r)), Annex(r.annex), TypeRef(r.typ)]);
    FillsBoth([SymSlot, TreeSlot], LocSchema(), [SymRef(r.owner), Tree(r.ast)], LocFields(r.loc));
    FillsBoth([SymSlot, TreeSlot] + LocSchema(), [TreeSlot, SymSlot], [SymRef(r.owner), Tree(r.ast)] + LocFields(r.loc),
              [Tree(r.constraint), SymRef(r.instantiatedFrom)]);
  }

  lemma TypeSchemaFits(r: TypeData)
    ensures FillsAll(TypeSchema(), TypeFields(r))
  {
  }

  lemma {:induction false} FieldTrip(g: Graph, sealed: set<Item>, f: Field, slot: Slot, c: Context, st: State, w: Walk, rest: seq<Token>)
    requires Fits(g, c) && Sound(g, c, st, w) && Fills(slot, f)
    ensures var p := LField(c, st, slot, WField(g, sealed, f).toks + rest);
      var r := RField(g, c, sealed, w, f);
      Follows(g, c, st, p, rest, r.w) && (p.Parsed? ==> Alike(p.value, f) && (p.value == f <==> r.exact))
    decreases Unsealed(g, sealed), 3, 0
  {
    match f
    case Atom(t) => assert ([t] + rest)[1..] == rest;
    case TypeRef(t) => TypeTrip(g, sealed, t, c, st, w, rest);
    case SymRef(s) => SymTrip(g, sealed, s, c, st, w, rest);
    case Tree(n) => NodeTrip(g, sealed, n, c, st, w, rest);
    case Annex(lib) => AnnexTrip(g, sealed, lib, c, st, w, rest);
  }

  lemma {:induction false} AnnexTrip(g: Graph, sealed: set<Item>, lib: Option<Lib>, c: Context, st: State, w: Walk, rest: seq<Token>)
    requires Fits(g, c) && Sound(g, c, st, w)
    ensures var p := LAnnex(c, st, WAnnex(g, sealed, lib).toks + rest);
      var r := RField(g, c, sealed, w, Annex(lib));
      Follows(g, c, st, p, rest, r.w) && (p.Parsed? ==> Alike(Annex(p.value), Annex(lib)) && (p.value == lib <==> r.exact))
    decreases Unsealed(g, sealed), 2
  {
    if lib.None? {
      assert ([Dot] + rest)[1..] == rest;
    } else {
      var l, n := lib.value, WNode(g, sealed, lib.value.path).toks;
      NodeTrip(g, sealed, l.path, c, st, w, [ParRi] + rest);
      AnnexRead(c, st, l, n, rest);
      assert ([ParRi] + rest)[1..] == rest;
    }
  }

  lemma AnnexRead(c: Context, st: State, l: Lib, n: seq<Token>, rest: seq<Token>)
    ensures var p := LNode(c, st, n + ([ParRi] + rest));
      LAnnex(c, st, LibHead(l) + n + [ParRi] + rest)
        == if p.Bad? || p.rest == [] || !p.rest[0].ParRi? then Bad
           else Parsed(Some(Lib(l.kind, l.generated, l.overridden, l.name, p.value)), p.rest[1..], p.st)
  {
    var toks := LibHead(l) + (n + ([ParRi] + rest));
    assert LibHead(l) + n + [ParRi] + rest == toks;
    assert toks[6..] == n + ([ParRi] + rest);
    assert |toks| >= 6 && toks[0] == ParLe(LibTag(l.kind)) && toks[1] == ParLe(BoolTag(l.generated)) && toks[2] == ParRi
      && toks[3] == ParLe(BoolTag(l.overridden)) && toks[4] == ParRi && toks[5] == StrLit(l.name);
  }

  lemma {:induction false} FieldsTrip(g: Graph, sealed: set<Item>, fs: seq<Field>, schema: seq<Slot>, c: Context, st: State, w: Walk,
                                      rest: seq<Token>)
    requires Fits(g, c) && Sound(g, c, st, w) && FillsAll(schema, fs)
    ensures var p := LFields(c, st, schema, WFields(g, sealed, fs).toks + rest);
      var r := RFields(g, c, sealed, w, fs);
      Follows(g, c, st, p, rest, r.w) && (p.Parsed? ==> AllAlike(p.value, fs) && (p.value == fs <==> r.exact))
    decreases Unsealed(g, sealed), 3, 1 + |fs|
  {
    if fs == [] {
      assert [] + rest == rest;
    } else {
      var a := WField(g, sealed, fs[0]);
      var tail := WFields(g, a.sealed, fs[1..]).toks + rest;
      var r := RField(g, c, sealed, w, fs[0]);
      MoreSealed(g, sealed, a.sealed);
      FieldsCons(g, sealed, fs, rest);
      FillsRest(schema, fs);
      FieldTrip(g, sealed, fs[0], schema[0], c, st, w, tail);
      if InOrder(r.w.events) {
        var p := LField(c, st, schema[0], a.toks + tail);
        FieldsTrip(g, a.sealed, fs[1..], schema[1..], c, p.st, r.w, rest);
        FieldsRead(c, st, schema, a.toks + tail, fs, p);
        FieldsWalk(g, c, sealed, w, fs);
        FieldsFollow(g, c, st, p, LFields(c, p.st, schema[1..], p.rest), LFields(c, st, schema, a.toks + tail), fs, rest, r.exact,
                     RFields(g, c, a.sealed, r.w, fs[1..]));
      } else {
        FieldsStopped(g, sealed, fs, schema, c, st, w, a.toks + tail);
      }
    }
  }

  lemma FillsRest(schema: seq<Slot>, fs: seq<Field>)
    requires FillsAll(schema, fs) && fs != []
    ensures Fills(schema[0], fs[0]) && FillsAll(schema[1..], fs[1..])
  {
  }

  lemma FieldsCons(g: Graph, sealed: set<Item>, fs: seq<Field>, rest: seq<Token>)
    requires fs != []
    ensures var a := WField(g, sealed, fs[0]);
      WFields(g, sealed, fs).toks + rest == a.toks + (WFields(g, a.sealed, fs[1..]).toks + rest)
  {
    var a := WField(g, sealed, fs[0]);
    Regroup(a.toks, WFields(g, a.sealed, fs[1..]).toks, rest);
  }

  lemma FieldsStopped(g: Graph, sealed: set<Item>, fs: seq<Field>, schema: seq<Slot>, c: Context, st: State, w: Walk, toks: seq<Token>)
    requires fs != [] && schema != [] && LField(c, st, schema[0], toks).Bad? && !InOrder(RField(g, c, sealed, w, fs[0]).w.events)
    ensures LFields(c, st, schema, toks).Bad? && !InOrder(RFields(g, c, sealed, w, fs).w.events)
  {
    OutOfOrder(c, RField(g, c, sealed, w, fs[0]).w, RFields(g, c, sealed, w, fs).w);
  }

  /** The rest of a field list, after its first field has been read. */
  lemma FieldsFollow(g: Graph, c: Context, st: State, p: Parsed<Field>, q: Parsed<seq<Field>>, all: Parsed<seq<Field>>, fs: seq<Field>,
                     rest: seq<Token>, exact: bool, r: Pass)
    requires fs != [] && p.Parsed? && Pending(p.st) == Pending(st) && Alike(p.value, fs[0]) && (p.value == fs[0] <==> exact)
    requires Follows(g, c, p.st, q, rest, r.w) && (q.Parsed? ==> AllAlike(q.value, fs[1..]) && (q.value == fs[1..] <==> r.exact))
    requires if q.Bad? then all.Bad?
      else all == Parsed([p.value] + q.value, q.rest, q.st) && (all.value == fs <==> p.value == fs[0] && q.value == fs[1..])
    ensures Follows(g, c, st, all, rest, r.w) && (all.Parsed? ==> AllAlike(all.value, fs) && (all.value == fs <==> exact && r.exact))
  {
    if q.Parsed? {
      assert [fs[0]] + fs[1..] == fs;
      AlikeCons(p.value, q.value, fs[0], fs[1..]);
    }
  }

  lemma FieldsWalk(g: Graph, c: Context, sealed: set<Item>, w: Walk, fs: seq<Field>)
    requires fs != []
    ensures var a := RField(g, c, sealed, w, fs[0]);
      var b := RFields(g, c, WField(g, sealed, fs[0]).sealed, a.w, fs[1..]);
      RFields(g, c, sealed, w, fs) == Pass(b.w, a.exact && b.exact)
  {
  }

  lemma FieldsRead(c: Context, st: State, schema: seq<Slot>, toks: seq<Token>, fs: seq<Field>, p: Parsed<Field>)
    requires schema != [] && fs != [] && p == LField(c, st, schema[0], toks) && p.Parsed?
    ensures var q := LFields(c, p.st, schema[1..], p.rest);
      var all := LFields(c, st, schema, toks);
      if q.Bad? then all.Bad?
      else all == Parsed([p.value] + q.value, q.rest, q.st) && (all.value == fs <==> p.value == fs[0] && q.value == fs[1..])
  {
    var q := LFields(c, p.st, schema[1..], p.rest);
    if q.Parsed? {
      var all := [p.value] + q.value;
      assert all[0] == p.value && all[1..] == q.value;
      assert [fs[0]] + fs[1..] == fs;
    }
  }

  // ---------------------------------------------------------------- symbol definitions

  /** A symbol's definition, read from just after its name: what `loadSym` does at an indexed offset after its scan, and
      the scan and `loadNode` in place for a local symbol.  The symbol is decoded to what the format stores of it. */
  lemma {:induction false} SymBodyTrip(g: Graph, sealed: set<Item>, s: SymId, c: Context, st: State, w: Walk, rest: seq<Token>)
    requires Fits(g, c) && Sound(g, c, st, w) && InGraph(g, Sym(s))
    ensures var p := LSymBody(c, st, s, WFields(g, sealed, Body(g, Sym(s))).toks + ([ParRi] + rest));
      Follows(g, c, st, p, rest, RSymBody(g, c, sealed, w, s)) && (p.Parsed? ==> s in p.st.syms)
    decreases Unsealed(g, sealed), 4, 0
  {
    var r := g.syms[s].data;
    var x := WFields(g, sealed, SymHead(r));
    var y := WFields(g, x.sealed, SymTail(r)).toks + ([ParRi] + rest);
    var head := RFields(g, c, sealed, w, SymHead(r));
    var typed := Typed(g, c, head.w, s);
    var tail := RFields(g, c, x.sealed, typed, SymTail(r));
    SymSchemaFits(r);
    SymBodyShape(g, sealed, s, rest);
    FieldsTrip(g, sealed, SymHead(r), SymHeadSchema(r.kind), c, st, w, y);
    var p := LFields(c, st, SymHeadSchema(r.kind), x.toks + y);
    MoreSealed(g, sealed, x.sealed);
    if InOrder(head.w.events) {
      TypeIsRead(r, p.value);
      TypedSound(g, c, p.st, head.w, s);
      FieldsTrip(g, x.sealed, SymTail(r), SymTailSchema(), c, WithType(p.st, s, r.typ), typed, [ParRi] + rest);
      SymBodyRead(g, sealed, s, c, st, w, rest);
    } else if InOrder(tail.w.events) {
      StepsThen(g, c, head.w, typed, tail.w);
      OrderSoFar(c, head.w, tail.w);
    }
  }

  lemma TypeIsRead(r: SymData, head: seq<Field>)
    requires AllAlike(head, SymHead(r))
    ensures |head| > 0 && TypeIn(head[|head| - 1]) == r.typ
  {
    assert SymHead(r)[|head| - 1] == TypeRef(r.typ);
    assert Alike(head[|head| - 1], SymHead(r)[|head| - 1]);
  }

  lemma TypedSound(g: Graph, c: Context, st: State, w: Walk, s: SymId)
    requires Sound(g, c, st, w) && InGraph(g, Sym(s))
    ensures var st' := WithType(st, s, g.syms[s].data.typ);
      Sound(g, c, st', Typed(g, c, w, s)) && Pending(st') == Pending(st)
  {
  }

  lemma SymBodyShape(g: Graph, sealed: set<Item>, s: SymId, rest: seq<Token>)
    requires InGraph(g, Sym(s))
    ensures var r := g.syms[s].data;
      var x := WFields(g, sealed, SymHead(r));
      var y := WFields(g, x.sealed, SymTail(r)).toks + ([ParRi] + rest);
      var toks := WFields(g, sealed, Body(g, Sym(s))).toks + ([ParRi] + rest);
      |toks| >= 2 && toks[0] == ExportMarker(r) && toks[1] == ParLe(SymKindTag(r.kind)) && toks[2..] == x.toks + y
  {
    var r := g.syms[s].data;
    var opening := [Atom(ExportMarker(r)), Atom(ParLe(SymKindTag(r.kind)))];
    var x := WFields(g, sealed, SymHead(r));
    var y := WFields(g, x.sealed, SymTail(r));
    FieldsConcat(g, sealed, SymHead(r), SymTail(r));
    BodyHead(g, sealed, opening, SymHead(r) + SymTail(r));
    assert opening + (SymHead(r) + SymTail(r)) == Body(g, Sym(s));
    assert [opening[0].t, opening[1].t] + (x.toks + y.toks) + ([ParRi] + rest)
        == [opening[0].t, opening[1].t] + (x.toks + (y.toks + ([ParRi] + rest)));
  }

  lemma BodyHead(g: Graph, sealed: set<Item>, head: seq<Field>, fs: seq<Field>)
    requires |head| == 2 && head[0].Atom? && head[1].Atom?
    ensures WFields(g, sealed, head + fs).toks == [head[0].t, head[1].t] + WFields(g, sealed, fs).toks
  {
    assert (head + fs)[1..] == [head[1]] + fs && ([head[1]] + fs)[1..] == fs;
    var b := WFields(g, sealed, fs).toks;
    assert WFields(g, sealed, [head[1]] + fs).toks == [head[1].t] + b;
    assert WFields(g, sealed, head + fs).toks == [head[0].t] + ([head[1].t] + b);
  }

  lemma SymBodyFollow(c: Context, st: State, s: SymId, r: SymData, toks: seq<Token>, p: Parsed<seq<Field>>, q: Parsed<seq<Field>>)
    requires |toks| >= 2 && toks[0] == ExportMarker(r) && toks[1] == ParLe(SymKindTag(r.kind))
    requires p == LFields(c, st, SymHeadSchema(r.kind), toks[2..]) && p.Parsed? && |p.value| > 0 && TypeIn(p.value[|p.value| - 1]) == r.typ
    requires q == LFields(c, WithType(p.st, s, r.typ), SymTailSchema(), p.rest)
    requires q.Parsed? ==> q.rest != [] && q.rest[0].ParRi?
    ensures |p.value| == GuardLength(r.kind) + 8 && (q.Parsed? ==> |q.value| == 8)
    ensures LSymBody(c, st, s, toks)
         == if q.Bad? then Bad else Parsed((), q.rest[1..], q.st.(syms := q.st.syms[s := DecodeSym(c, r.kind, p.value, q.value)]))
  {
  }

  /** Both halves have been read; the symbol is recorded. */
  lemma SymBodyRead(g: Graph, sealed: set<Item>, s: SymId, c: Context, st: State, w: Walk, rest: seq<Token>)
    requires InGraph(g, Sym(s))
    requires var r := g.syms[s].data;
      var x := WFields(g, sealed, SymHead(r));
      var y := WFields(g, x.sealed, SymTail(r)).toks + ([ParRi] + rest);
      var head := RFields(g, c, sealed, w, SymHead(r));
      var tail := RFields(g, c, x.sealed, Typed(g, c, head.w, s), SymTail(r));
      var p := LFields(c, st, SymHeadSchema(r.kind), x.toks + y);
      && p.Parsed? && p.rest == y && Pending(p.st) == Pending(st)
      && AllAlike(p.value, SymHead(r)) && (p.value == SymHead(r) <==> head.exact)
      && |p.value| > 0 && TypeIn(p.value[|p.value| - 1]) == r.typ
      && var typed := WithType(p.st, s, r.typ);
        var q := LFields(c, typed, SymTailSchema(), y);
        && Pending(typed) == Pending(p.st)
        && Follows(g, c, typed, q, [ParRi] + rest, tail.w)
        && (q.Parsed? ==> AllAlike(q.value, SymTail(r)) && (q.value == SymTail(r) <==> tail.exact))
    ensures var p := LSymBody(c, st, s, WFields(g, sealed, Body(g, Sym(s))).toks + ([ParRi] + rest));
      Follows(g, c, st, p, rest, RSymBody(g, c, sealed, w, s)) && (p.Parsed? ==> s in p.st.syms)
  {
    var r := g.syms[s].data;
    var x := WFields(g, sealed, SymHead(r));
    var y := WFields(g, x.sealed, SymTail(r)).toks + ([ParRi] + rest);
    var head := RFields(g, c, sealed, w, SymHead(r));
    var tail := RFields(g, c, x.sealed, Typed(g, c, head.w, s), SymTail(r));
    var p := LFields(c, st, SymHeadSchema(r.kind), x.toks + y);
    var q := LFields(c, WithType(p.st, s, r.typ), SymTailSchema(), y);
    SymBodyShape(g, sealed, s, rest);
    SymBodyFollow(c, st, s, r, WFields(g, sealed, Body(g, Sym(s))).toks + ([ParRi] + rest), p, q);
    if InOrder(tail.w.events) {
      SymDiffers(c, r, p.value, q.value);
      SymRecorded(g, c, q.st, tail.w, s, DecodeSym(c, r.kind, p.value, q.value), head.exact && tail.exact);
      assert ([ParRi] + rest)[1..] == rest;
    }
  }

  // ---------------------------------------------------------------- trees

  /** Flags and type of a node, read from just after its kind tag. */
  lemma {:induction false} HeadTrip(g: Graph, sealed: set<Item>, flags: string, typ: Option<TypeId>, c: Context, st: State, w: Walk,
                                    rest: seq<Token>)
    requires Fits(g, c) && Sound(g, c, st, w)
    ensures var p := LHead(c, st, ([Flags(flags)] + WRef(g, sealed, TypItem(typ)).toks) + rest);
      Follows(g, c, st, p, rest, RType(g, c, sealed, w, typ)) && (p.Parsed? ==> p.value == (flags, typ))
    decreases Unsealed(g, sealed), 1, 1
  {
    var t := WRef(g, sealed, TypItem(typ)).toks;
    Regroup([Flags(flags)], t, rest);
    assert ([Flags(flags)] + (t + rest))[1..] == t + rest;
    TypeTrip(g, sealed, typ, c, st, w, rest);
  }

  lemma HeadNotClosed(g: Graph, sealed: set<Item>, flags: string, typ: Option<TypeId>, rest: seq<Token>)
    ensures var toks := ([Flags(flags)] + WRef(g, sealed, TypItem(typ)).toks) + rest;
      toks != [] && !toks[0].ParRi?
  {
  }

  /** A node written with `withNode` is read by the branch for its kind. */
  lemma GroupRead(c: Context, st: State, kind: NodeKind, head: seq<Token>, body: seq<Token>, rest: seq<Token>)
    ensures LNode(c, st, ([ParLe(KindTag(kind))] + head + body + [ParRi]) + rest) == LKind(c, st, kind, head + (body + ([ParRi] + rest)))
  {
    var toks := ([ParLe(KindTag(kind))] + head + body + [ParRi]) + rest;
    assert toks[1..] == head + (body + ([ParRi] + rest));
  }

  lemma {:induction false} LeafTrip(g: Graph, sealed: set<Item>, value: Payload, flags: string, typ: Option<TypeId>,
                                    c: Context, st: State, w: Walk, rest: seq<Token>)
    requires Fits(g, c) && Sound(g, c, st, w)
    ensures var p := LNode(c, st, WNode(g, sealed, Atomic(value, flags, typ)).toks + rest);
      Follows(g, c, st, p, rest, RType(g, c, sealed, w, typ)) && (p.Parsed? ==> p.value == Atomic(value, flags, typ))
    decreases Unsealed(g, sealed), 1, 2
  {
    var kind, head, tail := KindOf(value), [Flags(flags)] + WRef(g, sealed, TypItem(typ)).toks, PayloadTokens(value) + ([ParRi] + rest);
    HeadShape(g, sealed, kind, flags, typ);
    HeadTrip(g, sealed, flags, typ, c, st, w, tail);
    HeadNotClosed(g, sealed, flags, typ, tail);
    GroupRead(c, st, kind, head, PayloadTokens(value), rest);
    LeafRead(c, st, value, head + tail, rest);
  }

  lemma LeafRead(c: Context, st: State, value: Payload, toks: seq<Token>, rest: seq<Token>)
    requires toks != [] && !toks[0].ParRi?
    ensures var h := LHead(c, st, toks);
      && (h.Bad? ==> LKind(c, st, KindOf(value), toks).Bad?)
      && (h.Parsed? && h.rest == PayloadTokens(value) + ([ParRi] + rest)
          ==> LKind(c, st, KindOf(value), toks) == Parsed(Atomic(value, h.value.0, h.value.1), rest, h.st))
  {
    PayloadRead(value, [ParRi] + rest);
    assert ([ParRi] + rest)[1..] == rest;
  }

  lemma PayloadRead(value: Payload, rest: seq<Token>)
    ensures IsLeafKind(KindOf(value))
    ensures LPayload(KindOf(value), PayloadTokens(value) + rest) == Some((value, rest))
  {
    var body := PayloadTokens(value);
    assert (body + rest)[|body|..] == rest;
  }

  lemma {:induction false} EmptyTrip(g: Graph, sealed: set<Item>, flags: string, t: TypeId, c: Context, st: State, w: Walk, rest: seq<Token>)
    requires Fits(g, c) && Sound(g, c, st, w)
    ensures var p := LNode(c, st, WNode(g, sealed, TypedEmpty(flags, t)).toks + rest);
      Follows(g, c, st, p, rest, RType(g, c, sealed, w, Some(t))) && (p.Parsed? ==> p.value == TypedEmpty(flags, t))
    decreases Unsealed(g, sealed), 1, 2
  {
    var h := [Flags(flags)] + WRef(g, sealed, Some(Typ(t))).toks;
    HeadShape(g, sealed, NkEmpty, flags, Some(t));
    HeadTrip(g, sealed, flags, Some(t), c, st, w, [ParRi] + rest);
    HeadNotClosed(g, sealed, flags, Some(t), [ParRi] + rest);
    GroupRead(c, st, NkEmpty, h, [], rest);
    assert [ParLe(KindTag(NkEmpty))] + h + [] == [ParLe(KindTag(NkEmpty))] + h;
    assert [] + ([ParRi] + rest) == [ParRi] + rest;
    assert ([ParRi] + rest)[1..] == rest;
  }

  /** The sons have been read after the head. */
  lemma InnerFollow(g: Graph, c: Context, st: State, n: Node, toks: seq<Token>, rest: seq<Token>, r: Pass)
    requires n.Inner?
    requires var h := LHead(c, st, toks);
      && h.Parsed? && h.value == (n.flags, n.typ) && Pending(h.st) == Pending(st)
      && var p := LNodes(c, h.st, h.rest);
        Follows(g, c, h.st, p, rest, r.w) && (p.Parsed? ==> (p.value == n.sons <==> r.exact))
    ensures var q := LKind(c, st, NkOther(n.tag), toks);
      Follows(g, c, st, q, rest, r.w) && (q.Parsed? ==> (q.value == n <==> r.exact))
  {
  }

  lemma {:induction false} InnerTrip(g: Graph, sealed: set<Item>, tag: int, flags: string, t: Option<TypeId>, sons: seq<Node>,
                                     c: Context, st: State, w: Walk, rest: seq<Token>)
    requires Fits(g, c) && Sound(g, c, st, w)
    ensures var n := Inner(tag, flags, t, sons);
      var p := LNode(c, st, WNode(g, sealed, n).toks + rest);
      var r := RNode(g, c, sealed, w, n);
      Follows(g, c, st, p, rest, r.w) && (p.Parsed? ==> (p.value == n <==> r.exact))
    decreases Unsealed(g, sealed), 2, sons, 2
  {
    var ss := WNodes(g, WHead(g, sealed, NkOther(tag), flags, t).sealed, sons).toks;
    var head := [Flags(flags)] + WRef(g, sealed, TypItem(t)).toks;
    HeadShape(g, sealed, NkOther(tag), flags, t);
    GroupRead(c, st, NkOther(tag), head, ss, rest);
    InnerPartsTrip(g, sealed, Inner(tag, flags, t, sons), c, st, w, head + (ss + ([ParRi] + rest)), rest);
  }

  lemma {:induction false} InnerPartsTrip(g: Graph, sealed: set<Item>, n: Node, c: Context, st: State, w: Walk, toks: seq<Token>, rest: seq<Token>)
    requires Fits(g, c) && Sound(g, c, st, w) && n.Inner?
    requires var ss := WNodes(g, WHead(g, sealed, NkOther(n.tag), n.flags, n.typ).sealed, n.sons).toks;
      toks == ([Flags(n.flags)] + WRef(g, sealed, TypItem(n.typ)).toks) + (ss + ([ParRi] + rest))
    ensures var p := LKind(c, st, NkOther(n.tag), toks);
      var r := RNode(g, c, sealed, w, n);
      Follows(g, c, st, p, rest, r.w) && (p.Parsed? ==> (p.value == n <==> r.exact))
    decreases Unsealed(g, sealed), 2, n.sons, 1
  {
    var h := WHead(g, sealed, NkOther(n.tag), n.flags, n.typ);
    var tail := WNodes(g, h.sealed, n.sons).toks + ([ParRi] + rest);
    var v := RType(g, c, sealed, w, n.typ);
    var r := RNodes(g, c, h.sealed, v, n.sons);
    MoreSealed(g, sealed, h.sealed);
    InnerWalk(g, c, sealed, w, n);
    HeadTrip(g, sealed, n.flags, n.typ, c, st, w, tail);
    if InOrder(v.events) {
      NodesTrip(g, h.sealed, n.sons, c, LHead(c, st, toks).st, v, rest);
      InnerFollow(g, c, st, n, toks, rest, r);
    } else {
      InnerStopped(c, st, n.tag, toks);
      OutOfOrder(c, v, r.w);
    }
  }

  lemma InnerWalk(g: Graph, c: Context, sealed: set<Item>, w: Walk, n: Node)
    requires n.Inner?
    ensures var h := WHead(g, sealed, NkOther(n.tag), n.flags, n.typ).sealed;
      var v := RType(g, c, sealed, w, n.typ);
      RNode(g, c, sealed, w, n) == RNodes(g, c, h, v, n.sons) && Grows(c, v, RNodes(g, c, h, v, n.sons).w)
  {
  }

  lemma InnerStopped(c: Context, st: State, tag: int, toks: seq<Token>)
    requires LHead(c, st, toks).Bad?
    ensures LKind(c, st, NkOther(tag), toks).Bad?
  {
  }

  lemma {:induction false} NodesTrip(g: Graph, sealed: set<Item>, ns: seq<Node>, c: Context, st: State, w: Walk, rest: seq<Token>)
    requires Fits(g, c) && Sound(g, c, st, w)
    ensures var p := LNodes(c, st, WNodes(g, sealed, ns).toks + ([ParRi] + rest));
      var r := RNodes(g, c, sealed, w, ns);
      Follows(g, c, st, p, rest, r.w) && (p.Parsed? ==> (p.value == ns <==> r.exact))
    decreases Unsealed(g, sealed), 2, ns, 0
  {
    if ns == [] {
      assert [] + ([ParRi] + rest) == [ParRi] + rest && ([ParRi] + rest)[1..] == rest;
    } else {
      var a := WNode(g, sealed, ns[0]);
      var tail := WNodes(g, a.sealed, ns[1..]).toks + ([ParRi] + rest);
      var r := RNode(g, c, sealed, w, ns[0]);
      MoreSealed(g, sealed, a.sealed);
      NodesCons(g, sealed, ns, a, rest);
      NodeStarts(g, sealed, ns[0], tail);
      NodeTrip(g, sealed, ns[0], c, st, w, tail);
      if InOrder(r.w.events) {
        var p := LNode(c, st, a.toks + tail);
        NodesTrip(g, a.sealed, ns[1..], c, p.st, r.w, rest);
        NodesFollow(c, st, ns, a.toks + tail, p);
      } else if InOrder(RNodes(g, c, sealed, w, ns).w.events) {
        OrderSoFar(c, r.w, RNodes(g, c, sealed, w, ns).w);
      }
    }
  }

  lemma NodesFollow(c: Context, st: State, ns: seq<Node>, toks: seq<Token>, p: Parsed<Node>)
    requires ns != [] && toks != [] && !toks[0].ParRi? && p == LNode(c, st, toks) && p.Parsed?
    ensures var q := LNodes(c, p.st, p.rest);
      var all := LNodes(c, st, toks);
      if q.Bad? then all.Bad?
      else all.Parsed? && all.rest == q.rest && all.st == q.st && (all.value == ns <==> p.value == ns[0] && q.value == ns[1..])
  {
    var q := LNodes(c, p.st, p.rest);
    if q.Parsed? {
      var all := [p.value] + q.value;
      assert all[0] == p.value && all[1..] == q.value;
      assert [ns[0]] + ns[1..] == ns;
    }
  }

  lemma NodesCons(g: Graph, sealed: set<Item>, ns: seq<Node>, a: Out, rest: seq<Token>)
    requires ns != [] && a == WNode(g, sealed, ns[0])
    ensures WNodes(g, sealed, ns).toks + ([ParRi] + rest) == a.toks + (WNodes(g, a.sealed, ns[1..]).toks + ([ParRi] + rest))
  {
  }

  /** A tree never starts with a closing parenthesis. */
  lemma NodeStarts(g: Graph, sealed: set<Item>, n: Node, rest: seq<Token>)
    ensures var toks := WNode(g, sealed, n).toks + rest;
      toks != [] && !toks[0].ParRi?
  {
    match n
    case NilNode =>
    case Empty =>
    case TypedEmpty(flags, t) => HeadShape(g, sealed, NkEmpty, flags, Some(t));
    case SymNode(s, t) => SymNodeStarts(g, sealed, s, t);
    case Atomic(value, flags, t) => HeadShape(g, sealed, KindOf(value), flags, t);
    case Inner(tag, flags, t, sons) => HeadShape(g, sealed, NkOther(tag), flags, t);
  }

  lemma SymNodeStarts(g: Graph, sealed: set<Item>, s: SymId, t: Option<TypeId>)
    ensures WSymNode(g, sealed, s, t).toks != [] && !WSymNode(g, sealed, s, t).toks[0].ParRi?
  {
    if Definable(g, Sym(s)) && Sym(s) !in sealed && t == SymTyp(g, s) {
      DefTokens(g, sealed + {Sym(s)}, Sym(s), []);
      assert WDef(g, sealed + {Sym(s)}, Sym(s)).toks + [] == WDef(g, sealed + {Sym(s)}, Sym(s)).toks;
    }
  }

  /** An inlined symbol definition in node position. */
  lemma {:induction false} DefNodeTrip(g: Graph, sealed: set<Item>, s: SymId, c: Context, st: State, w: Walk, rest: seq<Token>)
    requires Fits(g, c) && Sound(g, c, st, w) && InGraph(g, Sym(s))
    ensures var p := LNode(c, st, WDef(g, sealed, Sym(s)).toks + rest);
      Follows(g, c, st, p, rest, if c.isLocal(s) then RSymBody(g, c, sealed, Enter(c, w, s), s) else w)
      && (p.Parsed? ==> p.value == SymNode(s, SymTyp(g, s)))
    decreases Unsealed(g, sealed), 5
  {
    DefTokens(g, sealed, Sym(s), rest);
    DefNodeRead(c, st, s, WDef(g, sealed, Sym(s)).toks + rest);
    if c.isLocal(s) {
      EnterSound(g, c, st, w, s);
      SymBodyTrip(g, sealed, s, c, Registered(st, s), Enter(c, w, s), rest);
    } else {
      DefSkips(g, sealed, Sym(s), rest, 0);
    }
  }

  lemma DefNodeRead(c: Context, st: State, s: SymId, toks: seq<Token>)
    requires |toks| >= 2 && toks[0] == ParLe(Sd) && toks[1] == SymbolDef(Sym(s))
    ensures !c.isLocal(s) ==> LNode(c, st, toks) == Parsed(SymNode(s, c.lazyTyp(s)), Skip(toks, 0), st)
    ensures var b := LSymBody(c, Registered(st, s), s, toks[2..]);
      c.isLocal(s) ==> LNode(c, st, toks) == if b.Bad? then Bad else Parsed(SymNode(s, NodeTyp(c, b.st, s)), b.rest, b.st)
  {
  }

  ghost predicate IsDef(g: Graph, s: SymId, b: seq<Token>)
  {
    exists sealed :: InGraph(g, Sym(s)) && b == WDef(g, sealed, Sym(s)).toks
  }

  /** A symbol under the hidden-type tag; `b` is its definition or its name. */
  lemma {:induction false} HiddenTrip(g: Graph, sealed: set<Item>, s: SymId, t: Option<TypeId>, b: seq<Token>, c: Context, st: State,
                                      w: Walk, rest: seq<Token>)
    requires Fits(g, c) && Sound(g, c, st, w)
    requires b == [Symbol(Sym(s))] || IsDef(g, s, b)
    ensures var p := LNode(c, st, ([ParLe(Ht)] + WRef(g, sealed, TypItem(t)).toks + b + [ParRi]) + rest);
      Follows(g, c, st, p, rest, Hidden(g, c, sealed, w, s, t)) && (p.Parsed? ==> p.value == SymNode(s, t))
    decreases Unsealed(g, sealed), 1, 1
  {
    var a := WRef(g, sealed, TypItem(t)).toks;
    var toks := a + (b + ([ParRi] + rest));
    var v := RType(g, c, sealed, w, t);
    HiddenShape(a, b, rest);
    TypeTrip(g, sealed, t, c, st, w, b + ([ParRi] + rest));
    var p := LType(c, st, toks);
    HiddenRead(c, st, toks);
    if InOrder(v.events) {
      HiddenSym(g, s, b, c, p.st, v, [ParRi] + rest);
      assert ([ParRi] + rest)[1..] == rest;
    } else if InOrder(LookUp(g, c, v, s).events) {
      OrderSoFar(c, v, LookUp(g, c, v, s));
    }
  }

  lemma HiddenRead(c: Context, st: State, toks: seq<Token>)
    ensures var t := LType(c, st, toks);
      var all := LNode(c, st, [ParLe(Ht)] + toks);
      if t.Bad? then all.Bad?
      else
        var s := LSym(c, t.st, t.rest);
        all == if s.Bad? || s.value.None? || s.rest == [] || !s.rest[0].ParRi? then Bad
               else Parsed(SymNode(s.value.value, t.value), s.rest[1..], s.st)
  {
    assert ([ParLe(Ht)] + toks)[1..] == toks;
  }

  lemma HiddenSym(g: Graph, s: SymId, b: seq<Token>, c: Context, st: State, w: Walk, rest: seq<Token>)
    requires Fits(g, c) && Sound(g, c, st, w)
    requires b == [Symbol(Sym(s))] || IsDef(g, s, b)
    ensures var p := LSym(c, st, b + rest);
      Follows(g, c, st, p, rest, LookUp(g, c, w, s)) && (p.Parsed? ==> p.value == Some(s))
  {
    if b == [Symbol(Sym(s))] {
      assert (b + rest)[1..] == rest;
      Looks(g, c, st, w, s, rest);
    } else {
      var sealed :| InGraph(g, Sym(s)) && b == WDef(g, sealed, Sym(s)).toks;
      SymDefTrip(g, sealed, s, c, st, w, rest);
    }
  }

  lemma NameTrip(g: Graph, s: SymId, c: Context, st: State, w: Walk, rest: seq<Token>)
    requires Fits(g, c) && Sound(g, c, st, w)
    ensures var p := LNode(c, st, [Symbol(Sym(s))] + rest);
      var r := ByName(g, c, w, s);
      Follows(g, c, st, p, rest, r.w) && (p.Parsed? ==> (p.value == SymNode(s, SymTyp(g, s)) <==> r.exact))
  {
    assert ([Symbol(Sym(s))] + rest)[1..] == rest;
    Looks(g, c, st, w, s, rest);
  }

  lemma {:induction false} SymNodeTrip(g: Graph, sealed: set<Item>, s: SymId, t: Option<TypeId>, c: Context, st: State, w: Walk, rest: seq<Token>)
    requires Fits(g, c) && Sound(g, c, st, w)
    ensures var p := LNode(c, st, WSymNode(g, sealed, s, t).toks + rest);
      var r := RSymNode(g, c, sealed, w, s, t);
      Follows(g, c, st, p, rest, r.w) && (p.Parsed? ==> (p.value == SymNode(s, t) <==> r.exact))
    decreases Unsealed(g, sealed), 1, 2
  {
    var x := Sym(s);
    if Definable(g, x) && x !in sealed {
      SealShrinks(g, sealed, x);
      if t == SymTyp(g, s) {
        DefNodeTrip(g, sealed + {x}, s, c, st, w, rest);
      } else {
        var a := WRef(g, sealed + {x}, TypItem(t));
        var b := WDef(g, a.sealed, Sym(s)).toks;
        assert IsDef(g, s, b);
        HiddenTrip(g, sealed + {x}, s, t, b, c, st, w, rest);
      }
    } else if t == SymTyp(g, s) {
      NameTrip(g, s, c, st, w, rest);
    } else {
      HiddenTrip(g, sealed, s, t, [Symbol(x)], c, st, w, rest);
    }
  }

  /** Loading the tokens of any tree, written in any state of the writer, into any state of the loader: it fails exactly if
      a local symbol is looked up before it is registered; otherwise the cursor is left exactly after the tree, the
      definitions on the way are those of the graph unless blurred, and the tree is the same exactly if no symbol node in
      it is met before its symbol has got its type. */
  lemma {:induction false} NodeTrip(g: Graph, sealed: set<Item>, n: Node, c: Context, st: State, w: Walk, rest: seq<Token>)
    requires Fits(g, c) && Sound(g, c, st, w)
    ensures var p := LNode(c, st, WNode(g, sealed, n).toks + rest);
      var r := RNode(g, c, sealed, w, n);
      Follows(g, c, st, p, rest, r.w) && (p.Parsed? ==> (p.value == n <==> r.exact))
    decreases Unsealed(g, sealed), 2, n, 1
  {
    match n
    case NilNode => assert ([Dot] + rest)[1..] == rest;
    case Empty =>
      assert ([ParLe(KindTag(NkEmpty)), ParRi] + rest)[1..] == [ParRi] + rest && ([ParRi] + rest)[1..] == rest;
    case TypedEmpty(flags, t) => EmptyTrip(g, sealed, flags, t, c, st, w, rest);
    case SymNode(s, t) => SymNodeTrip(g, sealed, s, t, c, st, w, rest);
    case Atomic(value, flags, t) => LeafTrip(g, sealed, value, flags, t, c, st, w, rest);
    case Inner(tag, flags, t, sons) => InnerTrip(g, sealed, tag, flags, t, sons, c, st, w, rest);
  }
}
