/** The flat storage: every section keeps a list of annotations, and merges rebase and copy it. */
module SeqStorage {
  import opened SourceMaps
  import opened Sections

  class SectionStorage {
    var annotations: seq<Annotation>

    constructor ()
      ensures annotations == []
    {
      annotations := [];
    }
  }

  class Builder {
    var buf: string
    var sourcemapStorage: SectionStorage?

    constructor ()
      ensures Shown() == Section("", []) && sourcemapStorage == null
    {
      buf, sourcemapStorage := "", null;
    }

    ghost function Foot(): set<object>
      reads this
    {
      {this} + if sourcemapStorage == null then {} else {sourcemapStorage}
    }

    ghost function Shown(): Section
      reads this, Foot()
    {
      Section(buf, if sourcemapStorage == null then [] else sourcemapStorage.annotations)
    }

    method GetOrCreateStorage() returns (storage: SectionStorage)
      modifies this`sourcemapStorage
      ensures sourcemapStorage == storage && Shown() == old(Shown())
      ensures old(sourcemapStorage) != null ==> storage == old(sourcemapStorage)
      ensures old(sourcemapStorage) == null ==> fresh(storage)
    {
      if sourcemapStorage == null {
        sourcemapStorage := new SectionStorage();
      }
      storage := sourcemapStorage;
    }

    /** `emitAt` and `emitRangeAt`. */
    method Emit(content: string, active: bool, info: LineInfo, endInfo: LineInfo)
      modifies this, sourcemapStorage
      ensures Shown() == Emitted(old(Shown()), content, active, info, endInfo)
      ensures fresh(Foot() - old(Foot()))
    {
      if active && info.fileIndex != INVALID_FILE_IDX && info.line > 0 {
        var startOff := |buf|;
        var storage := GetOrCreateStorage();
        storage.annotations := storage.annotations + [Annotation(startOff, startOff + |content|, info, endInfo)];
      }
      buf := buf + content;
    }

    /** `recordAt` and `recordRangeAt`: nothing is appended. */
    method Record(active: bool, info: LineInfo, endInfo: LineInfo)
      modifies this, sourcemapStorage
      ensures Shown() == Emitted(old(Shown()), "", active, info, endInfo)
      ensures fresh(Foot() - old(Foot()))
    {
      assert buf + "" == buf;
      if active && info.fileIndex != INVALID_FILE_IDX && info.line > 0 {
        var startOff := |buf|;
        var storage := GetOrCreateStorage();
        storage.annotations := storage.annotations + [Annotation(startOff, startOff, info, endInfo)];
      }
    }
  }

  method AddAll(storage: SectionStorage, anns: seq<Annotation>, shift: int)
    modifies storage
    ensures storage.annotations == old(storage.annotations) + Rebased(anns, shift)
  {
    for i := 0 to |anns|
      invariant storage.annotations == old(storage.annotations) + Rebased(anns[..i], shift)
    {
      storage.annotations := storage.annotations + [Rebase(anns[i], shift)];
      assert Rebased(anns[..i + 1], shift) == Rebased(anns[..i], shift) + [Rebase(anns[i], shift)];
    }
    assert anns[..|anns|] == anns;
  }

  method MergeAppendStorage(src: Builder, dst: Builder, dstTextLen: nat)
    requires src.Foot() !! dst.Foot()
    modifies dst`sourcemapStorage, dst.sourcemapStorage
    ensures dst.Shown() == Section(dst.buf, old(dst.Shown()).anns + Rebased(src.Shown().anns, dstTextLen))
    ensures fresh(dst.Foot() - old(dst.Foot()))
  {
    var srcStorage := src.sourcemapStorage;
    if srcStorage != null && |srcStorage.annotations| > 0 {
      var anns := srcStorage.annotations;
      var dstStorage := dst.GetOrCreateStorage();
      AddAll(dstStorage, anns, dstTextLen);
    } else {
      assert Rebased(src.Shown().anns, dstTextLen) == [];
    }
  }

  method MergeAppend(src: Builder, dst: Builder)
    requires src.Foot() !! dst.Foot()
    modifies dst, dst.sourcemapStorage
    ensures dst.Shown() == Joined(old(dst.Shown()), src.Shown())
    ensures fresh(dst.Foot() - old(dst.Foot()))
  {
    MergeAppendStorage(src, dst, |dst.buf|);
    dst.buf := dst.buf + src.buf;
  }

  method ShiftAll(storage: SectionStorage, shift: int)
    modifies storage
    ensures storage.annotations == Rebased(old(storage.annotations), shift)
  {
    var anns := storage.annotations;
    for i := 0 to |anns|
      invariant storage.annotations == Rebased(anns[..i], shift) + anns[i..]
    {
      assert storage.annotations[i] == anns[i];
      storage.annotations := storage.annotations[i := Rebase(storage.annotations[i], shift)];
      assert storage.annotations == Rebased(anns[..i + 1], shift) + anns[i + 1..];
    }
    assert anns[..|anns|] == anns;
  }

  method MergePrependStorage(src: Builder, dst: Builder, srcTextLen: nat)
    requires src.Foot() !! dst.Foot()
    modifies dst`sourcemapStorage, dst.sourcemapStorage
    ensures dst.Shown() == Section(dst.buf, src.Shown().anns + Rebased(old(dst.Shown()).anns, srcTextLen))
    ensures fresh(dst.Foot() - old(dst.Foot()))
  {
    var srcStorage, dstStorage := src.sourcemapStorage, dst.sourcemapStorage;
    ghost var was := dst.Shown().anns;
    if dstStorage != null {
      ShiftAll(dstStorage, srcTextLen);
    }
    assert dst.Shown().anns == Rebased(was, srcTextLen);
    if srcStorage != null && |srcStorage.annotations| > 0 {
      var dst2 := dst.GetOrCreateStorage();
      dst2.annotations := srcStorage.annotations + dst2.annotations;
    }
  }

  method MergePrepend(src: Builder, dst: Builder)
    requires src.Foot() !! dst.Foot()
    modifies dst, dst.sourcemapStorage
    ensures dst.Shown() == Joined(src.Shown(), old(dst.Shown()))
    ensures fresh(dst.Foot() - old(dst.Foot()))
  {
    MergePrependStorage(src, dst, |src.buf|);
    dst.buf := src.buf + dst.buf;
  }

  method FlattenAnnotations(b: Builder) returns (result: seq<Annotation>)
    ensures result == Deduped(b.Shown().anns)
  {
    if b.sourcemapStorage == null {
      return [];
    }
    result := Dedup(b.sourcemapStorage.annotations);
  }

  /** Any number of sections between which text is merged. */
  class Generator {
    const sections: seq<Builder>
    ghost var view: seq<Section>
    ghost var feet: seq<set<object>>
    ghost var repr: set<object>

    ghost predicate Holds(i: nat)
      requires i < |sections| && i < |view| && i < |feet|
      reads this, repr
    {
      feet[i] <= repr && sections[i] in repr && sections[i].Foot() == feet[i] && sections[i].Shown() == view[i]
    }

    ghost predicate Valid()
      reads this, repr
    {
      |view| == |sections| && |feet| == |sections| && this !in repr && Apart(feet) &&
      forall i :: 0 <= i < |sections| ==> Holds(i)
    }

    constructor (n: nat)
      ensures Valid() && fresh(repr) && view == seq(n, _ => Section("", []))
    {
      var built: seq<Builder> := [];
      for i := 0 to n
        invariant |built| == i
        invariant forall k :: 0 <= k < i ==> fresh(built[k]) && built[k].sourcemapStorage == null && built[k].buf == ""
        invariant forall j, k :: 0 <= j < k < i ==> built[j] != built[k]
      {
        var b := new Builder();
        built := built + [b];
      }
      sections := built;
      view := seq(n, _ => Section("", []));
      feet := seq(n, i requires 0 <= i < |built| => {built[i]});
      repr := set b | b in built;
    }

    method Apply(op: Op, ghost i: nat)
      requires Valid() && Applies(op, |sections|) && i == Target(op)
      modifies feet[i]
      ensures sections[i].Shown() == SeqStep(old(view), op)[i]
      ensures fresh(sections[i].Foot() - old(feet[i]))
    {
      assert Holds(i);
      if IsMerge(op) {
        assert Holds(op.src) && feet[op.src] !! feet[i];
      }
      match op
      case Emit(_, content, active, info, endInfo) => sections[op.sec].Emit(content, active, info, endInfo);
      case Record(_, active, info, endInfo) => sections[op.sec].Record(active, info, endInfo);
      case Append(s, d) => MergeAppend(sections[s], sections[d]);
      case Prepend(s, d) => MergePrepend(sections[s], sections[d]);
    }

    /** A step of the program keeps the sections apart and does to them what the flat list is specified to do. */
    method Perform(op: Op)
      requires Valid() && Applies(op, |sections|)
      modifies this, repr
      ensures Valid() && view == SeqStep(old(view), op) && fresh(repr - old(repr))
    {
      ghost var i := Target(op);
      assert Holds(i);
      Apply(op, i);
      ghost var foot := sections[i].Foot();
      forall k | 0 <= k < |sections| && k != i
        ensures sections[k].Foot() == feet[k] && sections[k].Shown() == view[k] && sections[k] in repr && feet[k] <= repr
        ensures feet[k] !! foot
      {
        assert old(Holds(k)) && feet[k] !! feet[i];
      }
      ApartUpdate(feet, i, foot);
      view := SeqStep(view, op);
      feet := feet[i := foot];
      repr := repr + foot;
      forall k | 0 <= k < |sections|
        ensures Holds(k)
      {
      }
    }

    method Run(ops: seq<Op>)
      requires Valid() && AllApply(ops, |sections|)
      modifies this, repr
      ensures Valid() && view == SeqRun(old(view), ops) && fresh(repr - old(repr))
    {
      for k := 0 to |ops|
        invariant Valid() && fresh(repr - old(repr))
        invariant SeqRun(view, ops[k..]) == SeqRun(old(view), ops)
      {
        assert ops[k..][1..] == ops[k + 1..];
        Perform(ops[k]);
      }
    }
  }
}
