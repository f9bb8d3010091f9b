/** The tree storage: a section owns a tree of chunks, and a merge moves the source's root below the destination's. */
module TreeStorage {
  import opened SourceMaps
  import opened Sections

  class AnnotationNode {
    const isChunk: bool
    // of a leaf
    var offset: int
    var startInfo: LineInfo
    var endInfo: LineInfo
    var endOffsetDelta: int
    // of a chunk
    var length: int
    var childOffset: int
    var children: seq<AnnotationNode>

    constructor Leaf(offset: int, startInfo: LineInfo, endInfo: LineInfo, endOffsetDelta: int)
      ensures !isChunk && this.offset == offset && this.startInfo == startInfo && this.endInfo == endInfo
      ensures this.endOffsetDelta == endOffsetDelta
    {
      isChunk := false;
      this.offset, this.startInfo, this.endInfo, this.endOffsetDelta := offset, startInfo, endInfo, endOffsetDelta;
      length, childOffset, children := 0, 0, [];
    }

    constructor Chunk()
      ensures isChunk && length == 0 && childOffset == 0 && children == []
    {
      isChunk := true;
      offset, endOffsetDelta, length, childOffset, children := 0, 0, 0, 0, [];
      startInfo, endInfo := LineInfo(0, 0, 0), LineInfo(0, 0, 0);
    }
  }

  // ---------------------------------------------------------------- the trees nodes stand for

  datatype Tree =
    | Leaf(node: AnnotationNode, offset: int, delta: int, startInfo: LineInfo, endInfo: LineInfo)
    | Chunk(node: AnnotationNode, length: int, childOffset: int, kids: seq<Tree>)

  ghost function Nodes(t: Tree): (r: set<object>)
    ensures t.node in r
  {
    match t
    case Leaf(n, _, _, _, _) => {n}
    case Chunk(n, _, _, kids) => {n} + AllNodes(kids)
  }

  ghost function AllNodes(ts: seq<Tree>): set<object>
  {
    if ts == [] then {} else Nodes(ts[0]) + AllNodes(ts[1..])
  }

  /** No node occurs twice. */
  ghost predicate Separate(t: Tree)
  {
    match t
    case Leaf(_, _, _, _, _) => true
    case Chunk(n, _, _, kids) => n !in AllNodes(kids) && AllSeparate(kids)
  }

  ghost predicate AllSeparate(ts: seq<Tree>)
  {
    ts == [] || (Separate(ts[0]) && Nodes(ts[0]) !! AllNodes(ts[1..]) && AllSeparate(ts[1..]))
  }

  function Refs(ts: seq<Tree>): (r: seq<AnnotationNode>)
    ensures |r| == |ts|
  {
    if ts == [] then [] else [ts[0].node] + Refs(ts[1..])
  }

  /** The nodes in the heap hold what the tree says. */
  ghost predicate Real(t: Tree)
    reads Nodes(t)
  {
    match t
    case Leaf(n, offset, delta, startInfo, endInfo) =>
      !n.isChunk && n.offset == offset && n.endOffsetDelta == delta && n.startInfo == startInfo && n.endInfo == endInfo
    case Chunk(n, length, childOffset, kids) =>
      n.isChunk && n.length == length && n.childOffset == childOffset && n.children == Refs(kids) && AllReal(kids)
  }

  ghost predicate AllReal(ts: seq<Tree>)
    reads AllNodes(ts)
  {
    ts == [] || (Real(ts[0]) && AllReal(ts[1..]))
  }

  /** The annotations of a tree, at absolute offsets and in the order of the walk. */
  ghost function Flat(t: Tree, base: int): seq<Annotation>
  {
    match t
    case Leaf(_, offset, delta, startInfo, endInfo) => [Annotation(base + offset, base + offset + delta, startInfo, endInfo)]
    case Chunk(_, _, childOffset, kids) => AllFlat(kids, base + childOffset)
  }

  ghost function AllFlat(ts: seq<Tree>, base: int): seq<Annotation>
  {
    if ts == [] then [] else Flat(ts[0], base) + AllFlat(ts[1..], base)
  }

  lemma {:induction false} SplitForest(a: seq<Tree>, b: seq<Tree>, base: int)
    ensures AllNodes(a + b) == AllNodes(a) + AllNodes(b)
    ensures Refs(a + b) == Refs(a) + Refs(b)
    ensures AllFlat(a + b, base) == AllFlat(a, base) + AllFlat(b, base)
  {
    if a == [] {
      assert a + b == b;
    } else {
      SplitForest(a[1..], b, base);
      assert (a + b)[1..] == a[1..] + b;
    }
  }

  lemma {:induction false} JoinSeparate(a: seq<Tree>, b: seq<Tree>)
    requires AllSeparate(a) && AllSeparate(b) && AllNodes(a) !! AllNodes(b)
    ensures AllSeparate(a + b)
  {
    if a == [] {
      assert a + b == b;
    } else {
      JoinSeparate(a[1..], b);
      SplitForest(a[1..], b, 0);
      assert (a + b)[1..] == a[1..] + b;
    }
  }

  lemma {:induction false} JoinReal(a: seq<Tree>, b: seq<Tree>)
    requires AllReal(a) && AllReal(b)
    ensures AllReal(a + b)
  {
    if a == [] {
      assert a + b == b;
    } else {
      JoinReal(a[1..], b);
      assert (a + b)[1..] == a[1..] + b;
    }
  }

  lemma SingleTree(t: Tree, base: int)
    ensures AllNodes([t]) == Nodes(t) && Refs([t]) == [t.node] && AllFlat([t], base) == Flat(t, base)
    ensures (AllSeparate([t]) <==> Separate(t)) && (AllReal([t]) <==> Real(t))
  {
    assert [t][1..] == [];
    assert Flat(t, base) + [] == Flat(t, base);
  }

  lemma PutLast(a: seq<Tree>, t: Tree)
    requires AllReal(a) && AllSeparate(a) && Real(t) && Separate(t) && AllNodes(a) !! Nodes(t)
    ensures AllReal(a + [t]) && AllSeparate(a + [t])
    ensures AllNodes(a + [t]) == AllNodes(a) + Nodes(t) && Refs(a + [t]) == Refs(a) + [t.node]
    ensures AllFlat(a + [t], 0) == AllFlat(a, 0) + Flat(t, 0)
  {
    SingleTree(t, 0);
    SplitForest(a, [t], 0);
    JoinSeparate(a, [t]);
    JoinReal(a, [t]);
  }

  lemma PutFirst(t: Tree, a: seq<Tree>)
    requires AllReal(a) && AllSeparate(a) && Real(t) && Separate(t) && AllNodes(a) !! Nodes(t)
    ensures AllReal([t] + a) && AllSeparate([t] + a)
    ensures AllNodes([t] + a) == Nodes(t) + AllNodes(a) && Refs([t] + a) == [t.node] + Refs(a)
    ensures AllFlat([t] + a, 0) == Flat(t, 0) + AllFlat(a, 0)
  {
    assert ([t] + a)[1..] == a;
  }

  lemma {:induction false} FlatShifts(t: Tree, base: int, shift: int)
    ensures Flat(t, base + shift) == Rebased(Flat(t, base), shift)
  {
    match t
    case Leaf(_, _, _, _, _) =>
    case Chunk(_, _, childOffset, kids) => AllFlatShifts(kids, base + childOffset, shift);
  }

  lemma {:induction false} AllFlatShifts(ts: seq<Tree>, base: int, shift: int)
    ensures AllFlat(ts, base + shift) == Rebased(AllFlat(ts, base), shift)
  {
    if ts != [] {
      FlatShifts(ts[0], base, shift);
      AllFlatShifts(ts[1..], base, shift);
    }
  }

  /** What prepending does to one child of the root. */
  function Shifted(t: Tree, shift: int): Tree
  {
    match t
    case Leaf(_, offset, _, _, _) => t.(offset := offset + shift)
    case Chunk(_, _, childOffset, _) => t.(childOffset := childOffset + shift)
  }

  function AllShifted(ts: seq<Tree>, shift: int): (r: seq<Tree>)
    ensures |r| == |ts|
  {
    if ts == [] then [] else [Shifted(ts[0], shift)] + AllShifted(ts[1..], shift)
  }

  lemma {:induction false} ShiftedForest(ts: seq<Tree>, shift: int)
    ensures AllNodes(AllShifted(ts, shift)) == AllNodes(ts) && Refs(AllShifted(ts, shift)) == Refs(ts)
    ensures AllSeparate(AllShifted(ts, shift)) <==> AllSeparate(ts)
    ensures AllFlat(AllShifted(ts, shift), 0) == Rebased(AllFlat(ts, 0), shift)
  {
    if ts != [] {
      ShiftedForest(ts[1..], shift);
      ShiftedTree(ts[0], shift);
    }
  }

  lemma ShiftedTree(t: Tree, shift: int)
    ensures Nodes(Shifted(t, shift)) == Nodes(t) && (Separate(Shifted(t, shift)) <==> Separate(t))
    ensures Flat(Shifted(t, shift), 0) == Rebased(Flat(t, 0), shift)
  {
    FlatShifts(t, 0, shift);
    match t
    case Leaf(_, _, _, _, _) =>
    case Chunk(_, _, childOffset, kids) => assert 0 + (childOffset + shift) == (0 + shift) + childOffset;
  }

  method ShiftChild(child: AnnotationNode, shift: int, ghost t: Tree)
    requires child == t.node && Real(t) && Separate(t)
    modifies child
    ensures Real(Shifted(t, shift))
  {
    if child.isChunk {
      child.childOffset := child.childOffset + shift;
    } else {
      child.offset := child.offset + shift;
    }
  }

  lemma AddShifted(done: seq<Tree>, t: Tree, rest: seq<Tree>, shift: int)
    requires AllReal(done) && Real(Shifted(t, shift))
    ensures AllReal(done + [Shifted(t, shift)])
    ensures AllNodes(done + [Shifted(t, shift)]) == AllNodes(done) + Nodes(t)
    ensures done + ([Shifted(t, shift)] + AllShifted(rest, shift)) == (done + [Shifted(t, shift)]) + AllShifted(rest, shift)
  {
    var t' := Shifted(t, shift);
    ShiftedTree(t, shift);
    SingleTree(t', 0);
    SplitForest(done, [t'], 0);
    JoinReal(done, [t']);
  }

  method ShiftAll(children: seq<AnnotationNode>, shift: int, ghost ts: seq<Tree>, ghost foot: set<object>)
    requires AllNodes(ts) <= foot
    requires children == Refs(ts) && AllReal(ts) && AllSeparate(ts)
    modifies AllNodes(ts)
    ensures AllReal(AllShifted(ts, shift))
  {
    ghost var done, todo: seq<Tree> := [], ts;
    for i := 0 to |children|
      invariant |todo| == |children| - i && children[i..] == Refs(todo)
      invariant AllReal(done) && AllReal(todo) && AllSeparate(todo) && AllNodes(done) !! AllNodes(todo)
      invariant AllNodes(done) + AllNodes(todo) == AllNodes(ts)
      invariant AllShifted(ts, shift) == done + AllShifted(todo, shift)
    {
      ghost var t, rest := todo[0], todo[1..];
      ghost var t' := Shifted(t, shift);
      assert children[i..][0] == children[i] && children[i..][1..] == children[i + 1..];
      assert AllReal(rest) && Nodes(t) !! AllNodes(rest);
      ShiftChild(children[i], shift, t);
      AddShifted(done, t, rest, shift);
      done, todo := done + [t'], rest;
    }
    assert done + [] == done;
  }

  // ---------------------------------------------------------------- sections

  class SectionStorage {
    var rootChunk: AnnotationNode

    constructor ()
      ensures fresh(rootChunk) && rootChunk.isChunk && rootChunk.length == 0 && rootChunk.children == []
    {
      rootChunk := new AnnotationNode.Chunk();
    }
  }

  class Builder {
    var buf: string
    var sourcemapStorage: SectionStorage?
    /** The children of the root chunk, and every object of this section. */
    ghost var kids: seq<Tree>
    ghost var foot: set<object>

    ghost predicate Valid()
      reads this, foot
    {
      this in foot && this !in AllNodes(kids) && AllNodes(kids) <= foot && AllSeparate(kids) && AllReal(kids) &&
      if sourcemapStorage == null then kids == []
      else
        sourcemapStorage in foot && sourcemapStorage !in AllNodes(kids) &&
        sourcemapStorage.rootChunk in foot && Rooted(sourcemapStorage.rootChunk)
    }

    ghost predicate Rooted(root: AnnotationNode)
      reads this, root
    {
      root !in AllNodes(kids) && root.isChunk && root.children == Refs(kids)
    }

    ghost function Shown(): Section
      reads this
    {
      Section(buf, AllFlat(kids, 0))
    }

    /** The text merged into this section since it has storage. */
    ghost function Merged(): int
      reads this, foot
      requires Valid()
    {
      if sourcemapStorage == null then 0 else sourcemapStorage.rootChunk.length
    }

    constructor ()
      ensures Valid() && Shown() == Section("", []) && foot == {this}
    {
      buf, sourcemapStorage, kids, foot := "", null, [], {this};
    }

    method GetOrCreateStorage() returns (storage: SectionStorage)
      requires Valid()
      modifies this
      ensures Valid() && sourcemapStorage == storage && kids == old(kids) && buf == old(buf) && Merged() == old(Merged())
      ensures old(sourcemapStorage) != null ==> foot == old(foot) && storage == old(sourcemapStorage)
      ensures fresh(foot - old(foot)) && old(foot) <= foot
    {
      if sourcemapStorage == null {
        sourcemapStorage := new SectionStorage();
        foot := foot + {sourcemapStorage, sourcemapStorage.rootChunk};
      }
      storage := sourcemapStorage;
    }

    /** `addRangeAnnotation` and, with an empty range, `addPointAnnotation`. */
    method AddAnnotation(startOffset: int, endOffset: int, startInfo: LineInfo, endInfo: LineInfo)
      requires Valid()
      modifies foot
      ensures Valid() && fresh(foot - old(foot)) && buf == old(buf)
      ensures Shown().anns == old(Shown()).anns + [Annotation(startOffset, endOffset, startInfo, endInfo)]
    {
      var storage := GetOrCreateStorage();
      var leaf := new AnnotationNode.Leaf(startOffset, startInfo, endInfo, endOffset - startOffset);
      storage.rootChunk.children := storage.rootChunk.children + [leaf];
      ghost var t := Leaf(leaf, startOffset, endOffset - startOffset, startInfo, endInfo);
      PutLast(kids, t);
      kids, foot := kids + [t], foot + {leaf};
    }

    /** `emitAt` and `emitRangeAt`. */
    method Emit(content: string, active: bool, info: LineInfo, endInfo: LineInfo)
      requires Valid()
      modifies foot
      ensures Valid() && fresh(foot - old(foot))
      ensures Shown() == Emitted(old(Shown()), content, active, info, endInfo)
    {
      if active && info.fileIndex != INVALID_FILE_IDX && info.line > 0 {
        var startOff := |buf|;
        AddAnnotation(startOff, startOff + |content|, info, endInfo);
      }
      buf := buf + content;
    }

    /** `recordAt` and `recordRangeAt`: nothing is appended. */
    method Record(active: bool, info: LineInfo, endInfo: LineInfo)
      requires Valid()
      modifies foot
      ensures Valid() && fresh(foot - old(foot))
      ensures Shown() == Emitted(old(Shown()), "", active, info, endInfo)
    {
      assert buf + "" == buf;
      if active && info.fileIndex != INVALID_FILE_IDX && info.line > 0 {
        var startOff := |buf|;
        AddAnnotation(startOff, startOff, info, endInfo);
      }
    }

    /** Counts text merged from elsewhere. */
    method Widen(srcTextLen: int)
      requires Valid()
      modifies foot
      ensures Valid() && foot == old(foot) && kids == old(kids) && buf == old(buf) && sourcemapStorage == old(sourcemapStorage)
      ensures sourcemapStorage != null ==> Merged() == old(Merged()) + srcTextLen
    {
      if sourcemapStorage != null {
        sourcemapStorage.rootChunk.length := sourcemapStorage.rootChunk.length + srcTextLen;
      }
    }

    /** Stores a reference to `chunk` after or before the other children. */
    method Adopt(chunk: AnnotationNode, ghost t: Tree, last: bool)
      requires Valid() && sourcemapStorage != null
      requires chunk == t.node && Real(t) && Separate(t) && Nodes(t) !! foot
      modifies foot
      ensures Valid() && foot == old(foot) + Nodes(t) && buf == old(buf) && sourcemapStorage == old(sourcemapStorage)
      ensures Shown().anns == if last then old(Shown()).anns + Flat(t, 0) else Flat(t, 0) + old(Shown()).anns
    {
      var root := sourcemapStorage.rootChunk;
      PutLast(kids, t);
      PutFirst(t, kids);
      if last {
        root.children := root.children + [chunk];
        kids := kids + [t];
      } else {
        root.children := [chunk] + root.children;
        kids := [t] + kids;
      }
      foot := foot + Nodes(t);
    }

    method ShiftChildren(shift: int)
      requires Valid()
      modifies AllNodes(kids), this`kids
      ensures Valid() && foot == old(foot) && buf == old(buf) && sourcemapStorage == old(sourcemapStorage)
      ensures Shown().anns == Rebased(old(Shown()).anns, shift)
    {
      if sourcemapStorage != null {
        ShiftAll(sourcemapStorage.rootChunk.children, shift, kids, foot);
      }
      ShiftedForest(kids, shift);
      kids := AllShifted(kids, shift);
    }

    /** Gives up the root chunk and starts with an empty one. */
    method Release(srcTextLen: int, childOffset: int) returns (root: AnnotationNode, ghost t: Tree)
      requires Valid() && sourcemapStorage != null
      modifies foot
      ensures Valid() && kids == [] && buf == old(buf) && sourcemapStorage == old(sourcemapStorage)
      ensures foot == {this, sourcemapStorage, sourcemapStorage.rootChunk} && fresh(sourcemapStorage.rootChunk)
      ensures root == old(sourcemapStorage.rootChunk) && t == Chunk(root, srcTextLen, childOffset, old(kids))
      ensures Real(t) && Separate(t) && Nodes(t) <= old(foot) - {this, sourcemapStorage}
    {
      root := sourcemapStorage.rootChunk;
      root.childOffset := childOffset;
      root.length := srcTextLen;
      t := Chunk(root, srcTextLen, childOffset, kids);
      sourcemapStorage.rootChunk := new AnnotationNode.Chunk();
      kids, foot := [], {this, sourcemapStorage, sourcemapStorage.rootChunk};
    }
  }

  /** Stores the root chunk of `src` in `dst`: its children are not copied. */
  method Transfer(src: Builder, dst: Builder, srcTextLen: int, childOffset: int, last: bool)
    requires src.Valid() && dst.Valid() && src.foot !! dst.foot && src.sourcemapStorage != null
    modifies src.foot, dst.foot
    ensures src.Valid() && dst.Valid() && src.foot !! dst.foot
    ensures fresh(src.foot + dst.foot - old(src.foot + dst.foot))
    ensures src.Shown() == Section(old(src.buf), []) && dst.buf == old(dst.buf)
    ensures var moved := AllFlat(old(src.kids), 0 + childOffset);
            dst.Shown().anns == if last then old(dst.Shown()).anns + moved else moved + old(dst.Shown()).anns
  {
    var dstStorage := dst.GetOrCreateStorage();
    var chunk, t := src.Release(srcTextLen, childOffset);
    assert src.foot !! dst.foot && Nodes(t) !! dst.foot + src.foot;
    dst.Adopt(chunk, t, last);
  }

  method MergeAppendStorage(src: Builder, dst: Builder, dstTextLen: int, srcTextLen: int)
    requires src.Valid() && dst.Valid() && src.foot !! dst.foot
    modifies src.foot, dst.foot
    ensures src.Valid() && dst.Valid() && src.foot !! dst.foot
    ensures fresh(src.foot + dst.foot - old(src.foot + dst.foot))
    ensures src.Shown() == Section(old(src.buf), [])
    ensures dst.Shown() == Section(old(dst.buf), old(dst.Shown()).anns + Rebased(old(src.Shown()).anns, dstTextLen))
  {
    var srcStorage := src.sourcemapStorage;
    if srcStorage != null && (|srcStorage.rootChunk.children| > 0 || srcStorage.rootChunk.length > 0) {
      AllFlatShifts(src.kids, 0, dstTextLen);
      Transfer(src, dst, srcTextLen, dstTextLen, true);
    } else {
      assert src.kids == [];
    }
    dst.Widen(srcTextLen);
  }

  method MergeAppend(src: Builder, dst: Builder)
    requires src.Valid() && dst.Valid() && src.foot !! dst.foot
    modifies src.foot, dst.foot
    ensures src.Valid() && dst.Valid() && src.foot !! dst.foot
    ensures fresh(src.foot + dst.foot - old(src.foot + dst.foot))
    ensures src.Shown() == Section(old(src.buf), [])
    ensures dst.Shown() == Joined(old(dst.Shown()), old(src.Shown()))
  {
    MergeAppendStorage(src, dst, |dst.buf|, |src.buf|);
    dst.buf := dst.buf + src.buf;
  }

  method MergePrependStorage(src: Builder, dst: Builder, srcTextLen: int)
    requires src.Valid() && dst.Valid() && src.foot !! dst.foot
    modifies src.foot, dst.foot
    ensures src.Valid() && dst.Valid() && src.foot !! dst.foot
    ensures fresh(src.foot + dst.foot - old(src.foot + dst.foot))
    ensures src.Shown() == Section(old(src.buf), [])
    ensures dst.Shown() == Section(old(dst.buf), old(src.Shown()).anns + Rebased(old(dst.Shown()).anns, srcTextLen))
  {
    dst.ShiftChildren(srcTextLen);
    var srcStorage := src.sourcemapStorage;
    if srcStorage != null && (|srcStorage.rootChunk.children| > 0 || srcStorage.rootChunk.length > 0) {
      Transfer(src, dst, srcTextLen, 0, false);
    } else {
      assert src.kids == [];
    }
    dst.Widen(srcTextLen);
  }

  method MergePrepend(src: Builder, dst: Builder)
    requires src.Valid() && dst.Valid() && src.foot !! dst.foot
    modifies src.foot, dst.foot
    ensures src.Valid() && dst.Valid() && src.foot !! dst.foot
    ensures fresh(src.foot + dst.foot - old(src.foot + dst.foot))
    ensures src.Shown() == Section(old(src.buf), [])
    ensures dst.Shown() == Joined(old(src.Shown()), old(dst.Shown()))
  {
    var srcText := src.buf;
    MergePrependStorage(src, dst, |srcText|);
    dst.buf := srcText + dst.buf;
  }

  // ---------------------------------------------------------------- flattening

  method WalkChunk(node: AnnotationNode, baseOffset: int, output: seq<Annotation>, ghost t: Tree, ghost foot: set<object>)
    returns (output': seq<Annotation>)
    requires Nodes(t) <= foot && Real(t) && t.node == node
    ensures output' == output + Flat(t, baseOffset)
    decreases t, 0
  {
    if !node.isChunk {
      var abs := baseOffset + node.offset;
      output' := output + [Annotation(abs, abs + node.endOffsetDelta, node.startInfo, node.endInfo)];
    } else {
      output' := WalkChildren(node.children, baseOffset + node.childOffset, output, t.kids, foot);
    }
  }

  method WalkChildren(children: seq<AnnotationNode>, baseOffset: int, output: seq<Annotation>, ghost ts: seq<Tree>, ghost foot: set<object>)
    returns (output': seq<Annotation>)
    requires AllNodes(ts) <= foot && AllReal(ts) && children == Refs(ts)
    ensures output' == output + AllFlat(ts, baseOffset)
    decreases ts, 1
  {
    output' := output;
    for i := 0 to |children|
      invariant AllNodes(ts[i..]) <= foot && children[i..] == Refs(ts[i..]) && AllReal(ts[i..])
      invariant output' + AllFlat(ts[i..], baseOffset) == output + AllFlat(ts, baseOffset)
    {
      ghost var t, rest := ts[i], ts[i + 1..];
      assert ts[i..][0] == t && ts[i..][1..] == rest;
      assert children[i..][0] == children[i] && children[i..][1..] == children[i + 1..];
      ghost var before := output';
      output' := WalkChunk(children[i], baseOffset, output', t, foot);
      assert (before + Flat(t, baseOffset)) + AllFlat(rest, baseOffset) == before + (Flat(t, baseOffset) + AllFlat(rest, baseOffset));
    }
    assert output' + [] == output';
  }

  method FlattenAnnotations(b: Builder) returns (result: seq<Annotation>)
    requires b.Valid()
    ensures result == Deduped(b.Shown().anns)
  {
    if b.sourcemapStorage == null || |b.sourcemapStorage.rootChunk.children| == 0 {
      assert b.kids == [];
      return [];
    }
    var raw := WalkChildren(b.sourcemapStorage.rootChunk.children, 0, [], b.kids, b.foot);
    assert [] + AllFlat(b.kids, 0) == AllFlat(b.kids, 0);
    result := Dedup(raw);
  }

  // ---------------------------------------------------------------- many sections

  /** Any number of sections between which text is merged. */
  /** What grew by new objects only is still apart from everything else. */
  lemma OthersApart(feet: seq<set<object>>, repr: set<object>, i: nat, foot: set<object>, s: nat, footS: set<object>, grown: set<object>)
    requires i < |feet| && s < |feet| && Apart(feet) && grown !! repr && foot + footS <= feet[i] + feet[s] + grown
    requires forall k :: 0 <= k < |feet| && k != i && k != s ==> feet[k] <= repr
    ensures forall k :: 0 <= k < |feet| && k != i && k != s ==> feet[k] !! foot && feet[k] !! footS
  {
    forall k | 0 <= k < |feet| && k != i && k != s
      ensures feet[k] !! foot && feet[k] !! footS
    {
      assert feet[k] !! feet[i] && feet[k] !! feet[s];
    }
  }

  class Generator {
    const sections: seq<Builder>
    ghost var view: seq<Section>
    ghost var feet: seq<set<object>>
    ghost var repr: set<object>

    static ghost predicate Fits(b: Builder, s: Section, foot: set<object>, repr: set<object>)
      reads repr
    {
      b in repr && foot <= repr && b.foot == foot && b.Valid() && b.Shown() == s
    }

    ghost predicate Valid()
      reads this, repr
    {
      |view| == |sections| && |feet| == |sections| && this !in repr && Apart(feet) &&
      forall i :: 0 <= i < |sections| ==> Fits(sections[i], view[i], feet[i], repr)
    }

    ghost method Settle(view': seq<Section>, feet': seq<set<object>>, repr': set<object>)
      requires |view'| == |sections| && |feet'| == |sections| && this !in repr' && Apart(feet')
      requires forall i :: 0 <= i < |sections| ==> Fits(sections[i], view'[i], feet'[i], repr')
      modifies this
      ensures Valid() && view == view' && repr == repr'
    {
      view, feet, repr := view', feet', repr';
    }

    /** `n` empty builders. */
    static method Builders(n: nat) returns (built: seq<Builder>)
      ensures |built| == n
      ensures forall k :: 0 <= k < n ==> fresh(built[k]) && built[k].Valid() && built[k].foot == {built[k]} && built[k].Shown() == Section("", [])
      ensures forall j, k :: 0 <= j < k < n ==> built[j] != built[k]
    {
      built := [];
      for i := 0 to n
        invariant |built| == i
        invariant forall k :: 0 <= k < i ==> fresh(built[k]) && built[k].Valid() && built[k].foot == {built[k]} && built[k].Shown() == Section("", [])
        invariant forall j, k :: 0 <= j < k < i ==> built[j] != built[k]
      {
        var b := new Builder();
        built := built + [b];
      }
    }

    constructor (n: nat)
      ensures Valid() && fresh(repr) && view == seq(n, _ => Section("", []))
    {
      var built := Builders(n);
      sections := built;
      view := seq(n, _ => Section("", []));
      feet := seq(n, i requires 0 <= i < |built| => {built[i]});
      repr := set b | b in built;
    }

    method Apply(op: Op, ghost i: nat, ghost s: nat)
      requires Valid() && Applies(op, |sections|) && i == Target(op) && s == if IsMerge(op) then op.src else i
      modifies feet[i], feet[s]
      ensures sections[i].Valid() && sections[s].Valid() && (i != s ==> sections[i].foot !! sections[s].foot)
      ensures sections[i].Shown() == TreeStep(old(view), op)[i] && sections[s].Shown() == TreeStep(old(view), op)[s]
      ensures fresh(sections[i].foot + sections[s].foot - old(feet[i] + feet[s]))
      ensures forall k :: 0 <= k < |sections| && k != i && k != s ==> Fits(sections[k], old(view[k]), old(feet[k]), old(repr))
    {
      assert Fits(sections[i], view[i], feet[i], repr) && Fits(sections[s], view[s], feet[s], repr) && (i != s ==> feet[i] !! feet[s]);
      match op {
        case Emit(_, content, active, info, endInfo) => sections[op.sec].Emit(content, active, info, endInfo);
        case Record(_, active, info, endInfo) => sections[op.sec].Record(active, info, endInfo);
        case Append(_, _) => MergeAppend(sections[op.src], sections[op.dst]);
        case Prepend(_, _) => MergePrepend(sections[op.src], sections[op.dst]);
      }
      forall k | 0 <= k < |sections| && k != i && k != s
        ensures Fits(sections[k], old(view[k]), old(feet[k]), old(repr))
      {
        assert old(Fits(sections[k], view[k], feet[k], repr)) && feet[k] !! feet[i] && feet[k] !! feet[s];
      }
    }

    /** A step of the program never makes two sections share a node, and does to them what the tree is specified to do. */
    method Perform(op: Op)
      requires Valid() && Applies(op, |sections|)
      modifies this, repr
      ensures Valid() && view == TreeStep(old(view), op) && fresh(repr - old(repr))
    {
      ghost var i := Target(op);
      ghost var s := if IsMerge(op) then op.src else i;
      assert Fits(sections[i], view[i], feet[i], repr) && Fits(sections[s], view[s], feet[s], repr);
      Apply(op, i, s);
      ghost var foot, footS := sections[i].foot, sections[s].foot;
      ghost var view', repr' := TreeStep(view, op), repr + foot + footS;
      ghost var feet' := feet[i := foot][s := footS];
      OthersApart(feet, repr, i, foot, s, footS, foot + footS - (feet[i] + feet[s]));
      ApartUpdates(feet, i, foot, s, footS);
      FitsAgain(view', feet', repr', i, s);
      Settle(view', feet', repr');
    }

    /** Only the two sections have changed. */
    lemma FitsAgain(view': seq<Section>, feet': seq<set<object>>, repr': set<object>, i: nat, s: nat)
      requires |view| == |feet| == |view'| == |feet'| == |sections| && i < |sections| && s < |sections| && repr <= repr'
      requires Fits(sections[i], view'[i], feet'[i], repr') && Fits(sections[s], view'[s], feet'[s], repr')
      requires forall k :: 0 <= k < |sections| && k != i && k != s ==> view'[k] == view[k] && feet'[k] == feet[k] && Fits(sections[k], view[k], feet[k], repr)
      ensures forall k :: 0 <= k < |sections| ==> Fits(sections[k], view'[k], feet'[k], repr')
    {
      forall k | 0 <= k < |sections| && k != i && k != s
        ensures Fits(sections[k], view'[k], feet'[k], repr')
      {
        assert Fits(sections[k], view[k], feet[k], repr);
      }
    }

    method Run(ops: seq<Op>)
      requires Valid() && AllApply(ops, |sections|)
      modifies this, repr
      ensures Valid() && view == TreeRun(old(view), ops) && fresh(repr - old(repr))
    {
      for k := 0 to |ops|
        invariant Valid() && fresh(repr - old(repr))
        invariant TreeRun(view, ops[k..]) == TreeRun(old(view), ops)
      {
        assert ops[k..][1..] == ops[k + 1..];
        Perform(ops[k]);
      }
    }
  }
}
