/** The NIF loader as it runs: a cursor that moves over the tokens and tables that fill. */
module NifLoading {
  import opened Wrappers
  import opened NifWriter
  import opened NifLoader

  class Loader {
    const toks: seq<Token>
    const c: Context
    /** The cursor. */
    var n: nat
    var started: set<TypeId>
    var types: map<TypeId, TypeData>
    var syms: map<SymId, SymData>
    var locals: map<SymId, Option<TypeId>>

    constructor (toks: seq<Token>, c: Context)
      ensures Valid() && Rest() == toks && St() == FRESH && this.c == c
    {
      this.toks, this.c := toks, c;
      n, started, types, syms, locals := 0, {}, map[], map[], map[];
    }

    ghost predicate Valid()
      reads this
    {
      n <= |toks|
    }

    ghost function Rest(): seq<Token>
      requires Valid()
      reads this
    {
      toks[n..]
    }

    ghost function St(): State
      reads this
    {
      State(started, types, syms, locals)
    }

    /** The step succeeded exactly if the specification does, with the same value, cursor and state. */
    ghost predicate Did<T>(p: Parsed<T>, r: Option<T>)
      requires Valid()
      reads this
    {
      if p.Bad? then r.None? else r.Some? && p == Parsed(r.value, Rest(), St())
    }

    method Inc()
      requires Valid() && Rest() != []
      modifies this`n
      ensures Valid() && Rest() == old(Rest())[1..] && n == old(n) + 1
    {
      n := n + 1;
    }

    /** Steps over one tree. */
    method SkipTree()
      requires Valid()
      modifies this`n
      ensures Valid() && Rest() == Skip(old(Rest()), 0) && n >= old(n)
    {
      var depth := 0;
      while n < |toks|
        invariant Valid() && n >= old(n) && depth >= 0
        invariant Skip(Rest(), depth) == Skip(old(Rest()), 0)
      {
        var t := toks[n];
        assert Rest()[0] == t;
        Inc();
        if t.ParLe? {
          depth := depth + 1;
        } else if t.ParRi? {
          if depth <= 1 {
            return;
          }
          depth := depth - 1;
        } else if depth == 0 {
          return;
        }
      }
    }

    /** Whether the cursor stands at a definition of the given kind. */
    method AtDef(tag: Tag) returns (b: bool)
      requires Valid()
      ensures b == StartsDef(Rest(), tag)
    {
      b := n + 1 < |toks| && toks[n] == ParLe(tag) && toks[n + 1].SymbolDef?;
    }

    // ---------------------------------------------------------------- types

    method LoadTypeStub() returns (r: Option<Option<TypeId>>)
      requires Valid()
      modifies this
      ensures Valid() && n >= old(n) && Did(LType(c, old(St()), old(Rest())), r)
      decreases |toks| - n, 1, 0
    {
      if n == |toks| {
        return None;
      }
      var t := toks[n];
      assert Rest()[0] == t;
      if t.Dot? {
        Inc();
        return Some(None);
      }
      if t.Symbol? && t.use.Typ? {
        Inc();
        return Some(Some(t.use.id));
      }
      var isDef := AtDef(Td);
      if !isDef || !toks[n + 1].def.Typ? {
        return None;
      }
      assert Rest()[1] == toks[n + 1];
      var id := toks[n + 1].def.id;
      if id in started {
        SkipTree();
        return Some(Some(id));
      }
      started := started + {id};
      assert Rest()[2..] == toks[n + 2..];
      n := n + 2;
      var ok := LoadTypeFromCursor(id);
      return if ok.Some? then Some(Some(id)) else None;
    }

    /** After the name. */
    method LoadTypeFromCursor(t: TypeId) returns (r: Option<()>)
      requires Valid()
      modifies this
      ensures Valid() && n >= old(n) && Did(LTypeBody(c, old(St()), t, old(Rest())), r)
      decreases |toks| - n, 5, 0
    {
      var start := n;
      var scanned := ExtractLocalSyms();
      if !scanned {
        return None;
      }
      n := start;
      var fields := LoadFields(TypeSchema());
      if fields.None? {
        return None;
      }
      var sons := LoadSons();
      if sons.None? {
        return None;
      }
      types := types[t := DecodeType(fields.value, sons.value)];
      return Some(());
    }

    method LoadSons() returns (r: Option<seq<Option<TypeId>>>)
      requires Valid()
      modifies this
      ensures Valid() && n >= old(n) && Did(LSons(c, old(St()), old(Rest())), r)
      decreases |toks| - n, 3, 0
    {
      var sons: seq<Option<TypeId>> := [];
      ghost var all := LSons(c, St(), Rest());
      PutNone(all);
      while true
        invariant Valid() && n >= old(n)
        invariant all == Put(sons, LSons(c, St(), Rest()))
        decreases |toks| - n
      {
        if n == |toks| {
          return None;
        }
        assert Rest()[0] == toks[n];
        if toks[n].ParRi? {
          Inc();
          assert sons + [] == sons;
          return Some(sons);
        }
        PutSonsStep(c, St(), Rest(), sons);
        var a := LoadTypeStub();
        if a.None? {
          return None;
        }
        sons := sons + [a.value];
      }
    }

    // ---------------------------------------------------------------- symbols

    method LoadSymStub() returns (r: Option<Option<SymId>>)
      requires Valid()
      modifies this`n
      ensures Valid() && n >= old(n) && Did(LSym(c, old(St()), old(Rest())), r)
    {
      if n == |toks| {
        return None;
      }
      var t := toks[n];
      assert Rest()[0] == t;
      if t.Dot? {
        Inc();
        return Some(None);
      }
      if t.Symbol? && t.use.Sym? {
        Inc();
        return if c.isLocal(t.use.id) && t.use.id !in locals then None else Some(Some(t.use.id));
      }
      var isDef := AtDef(Sd);
      if !isDef || !toks[n + 1].def.Sym? {
        return None;
      }
      assert Rest()[1] == toks[n + 1];
      var s := toks[n + 1].def.id;
      SkipTree();
      return if c.isLocal(s) && s !in locals then None else Some(Some(s));
    }

    /** After the name. */
    method LoadSymFromCursor(s: SymId) returns (r: Option<()>)
      requires Valid()
      modifies this
      ensures Valid() && n >= old(n) && Did(LSymBody(c, old(St()), s, old(Rest())), r)
      decreases |toks| - n, 4, 0
    {
      if |toks| - n < 2 {
        return None;
      }
      var marker, kind := toks[n], toks[n + 1];
      assert Rest()[0] == marker && Rest()[1] == kind && Rest()[2..] == toks[n + 2..];
      if !(marker.Dot? || marker == Ident("x")) || !kind.ParLe? || !kind.tag.SymKindTag? {
        return None;
      }
      n := n + 2;
      var head := LoadFields(SymHeadSchema(kind.tag.skind));
      if head.None? {
        return None;
      }
      if s in locals {
        locals := locals[s := TypeIn(head.value[|head.value| - 1])];
      }
      var tail := LoadFields(SymTailSchema());
      if tail.None? {
        return None;
      }
      if n == |toks| {
        return None;
      }
      assert Rest()[0] == toks[n];
      if !toks[n].ParRi? {
        return None;
      }
      Inc();
      syms := syms[s := DecodeSym(c, kind.tag.skind, head.value, tail.value)];
      return Some(());
    }

    /** The scan of a token that defines no symbol. */
    lemma PastToken(depth: nat)
      requires Valid() && n < |toks| && toks[n] != ParLe(Sd) && depth >= 1 && !(toks[n].ParRi? && depth == 1)
      ensures LScan(c, St(), Rest(), depth)
           == LScan(c, St(), toks[n + 1..], if toks[n].ParLe? then depth + 1 else if toks[n].ParRi? then depth - 1 else depth)
    {
      assert Rest()[0] == toks[n] && Rest()[1..] == toks[n + 1..];
    }

    /** `extractLocalSymsFromTree` from inside the tree: registers and loads the local symbols defined in it. */
    method ExtractLocalSyms() returns (ok: bool)
      requires Valid()
      modifies this
      ensures Valid() && n >= old(n)
      ensures var r := LScan(c, old(St()), old(Rest()), 1);
        ok == r.Some? && (ok ==> St() == r.value)
      decreases |toks| - n, 4, 1
    {
      var depth := 1;
      while true
        invariant Valid() && n >= old(n) && depth >= 1
        invariant LScan(c, St(), Rest(), depth) == LScan(c, old(St()), old(Rest()), 1)
        decreases |toks| - n
      {
        if n == |toks| {
          return false;
        }
        var t := toks[n];
        assert Rest()[0] == t;
        if t == ParLe(Sd) {
          var isDef := AtDef(Sd);
          if !isDef || !toks[n + 1].def.Sym? {
            assert n + 1 < |toks| ==> Rest()[1] == toks[n + 1];
            return false;
          }
          assert Rest()[1] == toks[n + 1];
          var s := toks[n + 1].def.id;
          if c.isLocal(s) && s !in locals {
            locals := locals[s := None];
            assert Rest()[2..] == toks[n + 2..];
            n := n + 2;
            var body := LoadSymFromCursor(s);
            if body.None? {
              return false;
            }
          } else {
            depth := depth + 1;
            Inc();
          }
        } else {
          if t.ParRi? && depth == 1 {
            return true;
          }
          PastToken(depth);
          depth := if t.ParLe? then depth + 1 else if t.ParRi? then depth - 1 else depth;
          Inc();
        }
      }
    }

    /** `loadSym` with the cursor at the indexed definition, after its name. */
    method LoadSym(s: SymId) returns (r: Option<()>)
      requires Valid()
      modifies this
      ensures Valid() && Did(LSymAt(c, old(St()), s, old(Rest())), r)
    {
      locals := map[];
      var start := n;
      var scanned := ExtractLocalSyms();
      if !scanned {
        return None;
      }
      n := start;
      r := LoadSymFromCursor(s);
    }

    /** `loadType` with the cursor at the indexed definition, after its name. */
    method LoadType(t: TypeId) returns (r: Option<()>)
      requires Valid()
      modifies this
      ensures Valid() && Did(LTypeAt(c, old(St()), t, old(Rest())), r)
    {
      started, locals := started + {t}, map[];
      r := LoadTypeFromCursor(t);
    }

    // ---------------------------------------------------------------- fields

    method LoadFields(schema: seq<Slot>) returns (r: Option<seq<Field>>)
      requires Valid()
      modifies this
      ensures Valid() && n >= old(n) && Did(LFields(c, old(St()), schema, old(Rest())), r)
      ensures r.Some? ==> |r.value| == |schema|
      decreases |toks| - n, 3, 1
    {
      var fields: seq<Field> := [];
      ghost var all := LFields(c, St(), schema, Rest());
      PutNone(all);
      assert schema[0..] == schema;
      for i := 0 to |schema|
        invariant Valid() && n >= old(n)
        invariant all == Put(fields, LFields(c, St(), schema[i..], Rest())) && |fields| == i
      {
        assert schema[i..][0] == schema[i] && schema[i..][1..] == schema[i + 1..];
        PutFieldsStep(c, St(), schema[i..], Rest(), fields);
        var a := LoadField(schema[i]);
        if a.None? {
          return None;
        }
        fields := fields + [a.value];
      }
      assert fields + [] == fields;
      return Some(fields);
    }

    method LoadField(slot: Slot) returns (r: Option<Field>)
      requires Valid()
      modifies this
      ensures Valid() && n >= old(n) && Did(LField(c, old(St()), slot, old(Rest())), r)
      decreases |toks| - n, 2, 1
    {
      match slot
      case TypeSlot =>
        var a := LoadTypeStub();
        return if a.Some? then Some(TypeRef(a.value)) else None;
      case SymSlot =>
        var a := LoadSymStub();
        return if a.Some? then Some(SymRef(a.value)) else None;
      case TreeSlot =>
        var a := LoadNode();
        return if a.Some? then Some(Tree(a.value)) else None;
      case AnnexSlot =>
        var a := LoadAnnex();
        return if a.Some? then Some(Annex(a.value)) else None;
      case _ =>
        if n == |toks| {
          return None;
        }
        var t := toks[n];
        assert Rest()[0] == t;
        if !Accepts(slot, t) {
          return None;
        }
        Inc();
        return Some(Atom(t));
    }

    method LoadAnnex() returns (r: Option<Option<Lib>>)
      requires Valid()
      modifies this
      ensures Valid() && n >= old(n) && Did(LAnnex(c, old(St()), old(Rest())), r)
      decreases |toks| - n, 2, 0
    {
      if n == |toks| {
        return None;
      }
      assert Rest()[0] == toks[n];
      if toks[n].Dot? {
        Inc();
        return Some(None);
      }
      if |toks| - n < 6 {
        return None;
      }
      var head := toks[n..n + 6];
      assert Rest()[..6] == head && Rest()[6..] == toks[n + 6..];
      if !head[0].ParLe? || !head[0].tag.LibTag? || !head[1].ParLe? || !head[2].ParRi? || !head[3].ParLe? || !head[4].ParRi?
        || !head[5].StrLit? {
        return None;
      }
      n := n + 6;
      var path := LoadNode();
      if path.None? || n == |toks| {
        return None;
      }
      assert Rest()[0] == toks[n];
      if !toks[n].ParRi? {
        return None;
      }
      Inc();
      return Some(Some(Lib(head[0].tag.lib, head[1].tag == BoolTag(true), head[3].tag == BoolTag(true), head[5].str, path.value)));
    }

    // ---------------------------------------------------------------- trees

    /** `withNode` up to its body. */
    method LoadHead() returns (r: Option<(string, Option<TypeId>)>)
      requires Valid()
      modifies this
      ensures Valid() && n >= old(n) && Did(LHead(c, old(St()), old(Rest())), r)
      decreases |toks| - n, 1, 1
    {
      if n == |toks| {
        return None;
      }
      var t := toks[n];
      assert Rest()[0] == t;
      if !Accepts(FlagSlot, t) {
        return None;
      }
      Inc();
      var typ := LoadTypeStub();
      return if typ.Some? then Some((FlagsOf(t), typ.value)) else None;
    }

    method LoadNode() returns (r: Option<Node>)
      requires Valid()
      modifies this
      ensures Valid() && n >= old(n) && Did(LNode(c, old(St()), old(Rest())), r)
      decreases |toks| - n, 2, 0
    {
      if n == |toks| {
        return None;
      }
      var t := toks[n];
      assert Rest()[0] == t;
      match t
      case Dot =>
        Inc();
        return Some(NilNode);
      case Symbol(x) =>
        if !x.Sym? {
          return None;
        }
        Inc();
        if c.isLocal(x.id) && x.id !in locals {
          return None;
        }
        return Some(SymNode(x.id, if x.id in locals then locals[x.id] else c.lazyTyp(x.id)));
      case ParLe(Ht) => r := LoadHidden();
      case ParLe(Sd) => r := LoadDefNode();
      case ParLe(KindTag(kind)) =>
        Inc();
        r := LoadKind(kind);
      case _ => return None;
    }

    method LoadHidden() returns (r: Option<Node>)
      requires Valid() && Rest() != []
      modifies this
      ensures Valid() && n >= old(n) && Did(LHidden(c, old(St()), old(Rest())), r)
      decreases |toks| - n, 1, 1
    {
      Inc();
      var typ := LoadTypeStub();
      if typ.None? {
        return None;
      }
      var s := LoadSymStub();
      if s.None? || s.value.None? || n == |toks| {
        return None;
      }
      assert Rest()[0] == toks[n];
      if !toks[n].ParRi? {
        return None;
      }
      Inc();
      return Some(SymNode(s.value.value, typ.value));
    }

    method LoadDefNode() returns (r: Option<Node>)
      requires Valid() && Rest() != []
      modifies this
      ensures Valid() && n >= old(n) && Did(LDefNode(c, old(St()), old(Rest())), r)
      decreases |toks| - n, 1, 1
    {
      var isDef := AtDef(Sd);
      if !isDef || !toks[n + 1].def.Sym? {
        return None;
      }
      assert Rest()[1] == toks[n + 1];
      var s := toks[n + 1].def.id;
      if c.isLocal(s) {
        if s !in locals {
          locals := locals[s := None];
        }
        assert Rest()[2..] == toks[n + 2..];
        n := n + 2;
        var ok := LoadSymFromCursor(s);
        return if ok.Some? then Some(SymNode(s, if s in locals then locals[s] else c.lazyTyp(s))) else None;
      }
      SkipTree();
      return Some(SymNode(s, c.lazyTyp(s)));
    }

    /** After the kind tag. */
    method LoadKind(kind: NodeKind) returns (r: Option<Node>)
      requires Valid()
      modifies this
      ensures Valid() && n >= old(n) && Did(LKind(c, old(St()), kind, old(Rest())), r)
      decreases |toks| - n, 3, 1
    {
      if kind.NkEmpty? && n < |toks| && toks[n].ParRi? {
        assert Rest()[0] == toks[n];
        Inc();
        return Some(Empty);
      }
      assert n < |toks| ==> Rest()[0] == toks[n];
      var h := LoadHead();
      if h.None? {
        return None;
      }
      if kind.NkOther? {
        var sons := LoadNodes();
        return if sons.Some? then Some(Inner(kind.tag, h.value.0, h.value.1, sons.value)) else None;
      }
      if kind.NkEmpty? {
        if n == |toks| || !toks[n].ParRi? {
          assert n < |toks| ==> Rest()[0] == toks[n];
          return None;
        }
        assert Rest()[0] == toks[n];
        Inc();
        return Some(if h.value.1.Some? then TypedEmpty(h.value.0, h.value.1.value) else Empty);
      }
      r := LoadLeaf(kind, h.value.0, h.value.1);
    }

    /** The body of a leaf, with its closing parenthesis. */
    method LoadLeaf(kind: NodeKind, flags: string, typ: Option<TypeId>) returns (r: Option<Node>)
      requires Valid() && IsLeafKind(kind)
      modifies this`n
      ensures Valid() && n >= old(n)
      ensures var p := LPayload(kind, old(Rest()));
        if p.None? || p.value.1 == [] || !p.value.1[0].ParRi? then r.None?
        else r == Some(Atomic(p.value.0, flags, typ)) && Rest() == p.value.1[1..]
    {
      var value := PNil;
      if !kind.NkNilLit? {
        if n == |toks| {
          return None;
        }
        assert Rest()[0] == toks[n];
        match (kind, toks[n]) {
          case (NkIdent, Ident(s)) => value := PIdent(s);
          case (NkCharLit, CharLit(ch)) => value := PChar(ch);
          case (NkIntLit(w), IntLit(i)) => value := PInt(w, i);
          case (NkUIntLit(w), UIntLit(u)) => value := PUInt(w, u);
          case (NkStrLit(f), StrLit(s)) => value := PStr(f, s);
          case _ => return None;
        }
        Inc();
      }
      if n == |toks| {
        return None;
      }
      assert Rest()[0] == toks[n];
      if !toks[n].ParRi? {
        return None;
      }
      Inc();
      return Some(Atomic(value, flags, typ));
    }

    method LoadNodes() returns (r: Option<seq<Node>>)
      requires Valid()
      modifies this
      ensures Valid() && n >= old(n) && Did(LNodes(c, old(St()), old(Rest())), r)
      decreases |toks| - n, 3, 0
    {
      var nodes: seq<Node> := [];
      ghost var all := LNodes(c, St(), Rest());
      PutNone(all);
      while true
        invariant Valid() && n >= old(n)
        invariant all == Put(nodes, LNodes(c, St(), Rest()))
        decreases |toks| - n
      {
        if n == |toks| {
          return None;
        }
        assert Rest()[0] == toks[n];
        if toks[n].ParRi? {
          Inc();
          assert nodes + [] == nodes;
          return Some(nodes);
        }
        PutNodesStep(c, St(), Rest(), nodes);
        var a := LoadNode();
        if a.None? {
          return None;
        }
        nodes := nodes + [a.value];
      }
    }
  }

  // ---------------------------------------------------------------- loops and their specifications

  /** A list of which the first part has been read before. */
  ghost function Put<T>(done: seq<T>, p: Parsed<seq<T>>): Parsed<seq<T>>
  {
    if p.Bad? then Bad else Parsed(done + p.value, p.rest, p.st)
  }

  lemma PutNone<T>(p: Parsed<seq<T>>)
    ensures Put([], p) == p
  {
    if p.Parsed? {
      assert [] + p.value == p.value;
    }
  }

  lemma PutSonsStep(c: Context, st: State, toks: seq<Token>, done: seq<Option<TypeId>>)
    requires toks != [] && !toks[0].ParRi?
    ensures var a := LType(c, st, toks);
      Put(done, LSons(c, st, toks)) == if a.Bad? then Bad else Put(done + [a.value], LSons(c, a.st, a.rest))
  {
    var a := LType(c, st, toks);
    if a.Parsed? {
      var b := LSons(c, a.st, a.rest);
      if b.Parsed? {
        assert done + ([a.value] + b.value) == (done + [a.value]) + b.value;
      }
    }
  }

  lemma PutFieldsStep(c: Context, st: State, schema: seq<Slot>, toks: seq<Token>, done: seq<Field>)
    requires schema != []
    ensures var a := LField(c, st, schema[0], toks);
      Put(done, LFields(c, st, schema, toks)) == if a.Bad? then Bad else Put(done + [a.value], LFields(c, a.st, schema[1..], a.rest))
  {
    var a := LField(c, st, schema[0], toks);
    if a.Parsed? {
      var b := LFields(c, a.st, schema[1..], a.rest);
      if b.Parsed? {
        assert done + ([a.value] + b.value) == (done + [a.value]) + b.value;
      }
    }
  }

  lemma PutNodesStep(c: Context, st: State, toks: seq<Token>, done: seq<Node>)
    requires toks != [] && !toks[0].ParRi?
    ensures var a := LNode(c, st, toks);
      Put(done, LNodes(c, st, toks)) == if a.Bad? then Bad else Put(done + [a.value], LNodes(c, a.st, a.rest))
  {
    var a := LNode(c, st, toks);
    if a.Parsed? {
      var b := LNodes(c, a.st, a.rest);
      if b.Parsed? {
        assert done + ([a.value] + b.value) == (done + [a.value]) + b.value;
      }
    }
  }
}
