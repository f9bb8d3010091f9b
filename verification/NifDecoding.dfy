/** What survives of a symbol and of a type when their fields are written and read: which fields the format loses. */
module NifDecoding {
  import opened Wrappers
  import opened NifWriter
  import opened NifLoader

  /** The symbol that a loader in the context `c` gets for `r`. */
  function Stored(c: Context, r: SymData): SymData
  {
    var guarded := Guarded(r.kind);
    r.(guard := if guarded then r.guard else None,
       bitsize := if guarded then r.bitsize else 0,
       alignment := if guarded then r.alignment else 0,
       flags := if r.kind.SkModule? then r.flags - {SfMainModule} else r.flags,
       position :=
         if r.kind.SkModule? then c.modulePos
         else if r.kind.SkVar? || r.kind.SkLet? || r.kind.SkForVar? || r.kind.SkResult? then 0
         else r.position)
  }

  /** The values that the format implies for the fields it does not store. */
  predicate Implied(c: Context, r: SymData)
  {
    && (r.kind.SkLet? || r.kind.SkVar? || r.kind.SkField? || r.kind.SkForVar? || (r.guard.None? && r.bitsize == 0 && r.alignment == 0))
    && (r.kind.SkModule? ==> r.position == c.modulePos && SfMainModule !in r.flags)
    && (r.kind.SkVar? || r.kind.SkLet? || r.kind.SkForVar? || r.kind.SkResult? ==> r.position == 0)
  }

  /** A flag set, stored as a dot when empty, comes back. */
  lemma FlagsBack(r: SymData)
    ensures SymFlagsOf(SymFlags(r.flags)) == r.flags && FlagsOf(Flags(r.magic)) == r.magic && FlagsOf(Flags(r.options)) == r.options
  {
  }

  lemma LocBack(loc: Loc, before: seq<Field>, after: seq<Field>)
    ensures LocIn(before + LocFields(loc) + after, |before|) == loc
  {
    var fs := before + LocFields(loc) + after;
    assert forall i :: 0 <= i < 4 ==> fs[|before| + i] == LocFields(loc)[i];
  }

  lemma HeadAt(r: SymData)
    ensures var k := GuardLength(r.kind);
      var fs := SymHead(r);
      && |fs| == k + 8
      && fs[k..] == [Atom(ParRi), Atom(Flags(r.magic)), Atom(SymFlags(r.flags)), Atom(Flags(r.options)), Atom(IntLit(r.offset)),
                     Atom(PositionToken(r)), Annex(r.annex), TypeRef(r.typ)]
      && fs[..k] == GuardFields(r)
  {
  }

  lemma TailAt(r: SymData)
    ensures var fs := SymTail(r);
      |fs| == 8 && fs[0] == SymRef(r.owner) && fs[1] == Tree(r.ast) && fs[6] == Tree(r.constraint) && fs[7] == SymRef(r.instantiatedFrom)
    ensures LocIn(SymTail(r), 2) == r.loc
  {
    LocBack(r.loc, [SymRef(r.owner), Tree(r.ast)], [Tree(r.constraint), SymRef(r.instantiatedFrom)]);
  }

  /** The fields of a symbol as written are decoded to the stored symbol. */
  lemma SymBack(c: Context, r: SymData)
    ensures |SymHead(r)| == GuardLength(r.kind) + 8 && |SymTail(r)| == 8
    ensures DecodeSym(c, r.kind, SymHead(r), SymTail(r)) == Stored(c, r)
  {
    var k, fs := GuardLength(r.kind), SymHead(r);
    HeadAt(r);
    TailAt(r);
    FlagsBack(r);
    assert forall i :: 0 <= i < 8 ==> fs[k + i] == fs[k..][i];
    assert forall i :: 0 <= i < k ==> fs[i] == fs[..k][i];
  }

  lemma TypeBack(r: TypeData)
    ensures |TypeFields(r)| == 15 && DecodeType(TypeFields(r), r.sons) == r
  {
    var front := [Atom(Dot), Atom(Flags(r.flags)), Atom(Ident(r.callConv)), Atom(IntLit(r.size)), Atom(IntLit(r.align)),
      Atom(IntLit(r.padding)), Atom(IntLit(r.nonUniqueId)), TypeRef(r.typeInst), Tree(r.n), SymRef(r.owner), SymRef(r.sym)];
    LocBack(r.loc, front, []);
    assert front + LocFields(r.loc) + [] == TypeFields(r);
    assert forall i :: 0 <= i < 11 ==> TypeFields(r)[i] == front[i];
  }

  // ---------------------------------------------------------------- trees that came back different

  /** The same field but for the types of symbol nodes in its tree. */
  predicate Alike(a: Field, b: Field)
  {
    || a == b
    || (a.Tree? && b.Tree?)
    || (a.Annex? && b.Annex? && a.lib.Some? && b.lib.Some? && a.lib.value.(path := b.lib.value.path) == b.lib.value)
  }

  predicate AllAlike(a: seq<Field>, b: seq<Field>)
  {
    |a| == |b| && forall i :: 0 <= i < |a| ==> Alike(a[i], b[i])
  }

  lemma AlikeCons(a: Field, as_: seq<Field>, b: Field, bs: seq<Field>)
    requires Alike(a, b) && AllAlike(as_, bs)
    ensures AllAlike([a] + as_, [b] + bs) && ([a] + as_ == [b] + bs <==> a == b && as_ == bs)
  {
    if [a] + as_ == [b] + bs {
      assert ([a] + as_)[1..] == as_ && ([b] + bs)[1..] == bs && ([a] + as_)[0] == a;
    }
  }

  /** The same symbol is decoded exactly if every tree came back. */
  lemma SymDiffers(c: Context, r: SymData, head: seq<Field>, tail: seq<Field>)
    requires AllAlike(head, SymHead(r)) && AllAlike(tail, SymTail(r))
    ensures |head| == GuardLength(r.kind) + 8 && |tail| == 8
    ensures DecodeSym(c, r.kind, head, tail) == Stored(c, r) <==> head == SymHead(r) && tail == SymTail(r)
  {
    SymBack(c, r);
    HeadDiffers(r, head);
    TailDiffers(r, tail);
  }

  lemma HeadDiffers(r: SymData, head: seq<Field>)
    requires AllAlike(head, SymHead(r))
    ensures var k := GuardLength(r.kind);
      && |head| == k + 8
      && (head == SymHead(r) <==> LibIn(head[k + 6]) == r.annex)
      && forall i :: 0 <= i < k + 8 && i != k + 6 ==> head[i] == SymHead(r)[i]
  {
    HeadAt(r);
    var k, fs := GuardLength(r.kind), SymHead(r);
    assert fs[k + 6] == fs[k..][6] == Annex(r.annex);
    forall i | 0 <= i < k + 8 && i != k + 6
      ensures head[i] == fs[i]
    {
      assert Alike(head[i], fs[i]);
      if i < k {
        assert fs[i] == GuardFields(r)[i];
      } else {
        assert fs[i] == fs[k..][i - k];
      }
    }
    assert Alike(head[k + 6], fs[k + 6]);
  }

  lemma TailDiffers(r: SymData, tail: seq<Field>)
    requires AllAlike(tail, SymTail(r))
    ensures |tail| == 8
    ensures tail == SymTail(r) <==> TreeIn(tail[1]) == r.ast && TreeIn(tail[6]) == r.constraint
    ensures SymIn(tail[0]) == r.owner && LocIn(tail, 2) == r.loc && SymIn(tail[7]) == r.instantiatedFrom
  {
    TailAt(r);
    var fs := SymTail(r);
    assert forall i :: 2 <= i < 6 ==> fs[i] == LocFields(r.loc)[i - 2];
    assert forall i :: 0 <= i < 8 ==> Alike(tail[i], fs[i]);
  }

  lemma TypeDiffers(r: TypeData, fs: seq<Field>)
    requires AllAlike(fs, TypeFields(r))
    ensures |fs| == 15 && (DecodeType(fs, r.sons) == r <==> fs == TypeFields(r))
  {
    TypeBack(r);
    var all := TypeFields(r);
    assert all[8] == Tree(r.n);
    assert forall i :: 0 <= i < 15 ==> Alike(fs[i], all[i]);
    assert forall i :: 0 <= i < 15 && i != 8 ==> !all[i].Tree? && !all[i].Annex?;
    assert forall i :: 0 <= i < 15 && i != 8 ==> fs[i] == all[i];
  }

  /** A symbol comes back unchanged exactly if the fields that are not stored have the values that the format implies:
      the position of variables is reset, that of a module is set by the loader, and no module stays the main one. */
  lemma StoredIffImplied(c: Context, r: SymData)
    ensures Stored(c, r) == r <==> Implied(c, r)
  {
    if r.kind.SkModule? && SfMainModule !in r.flags {
      assert r.flags - {SfMainModule} == r.flags;
    }
  }
}
