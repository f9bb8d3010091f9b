/** The two storage variants side by side. */
module StorageVariants {
  import opened SourceMaps
  import opened Sections
  import SeqStorage
  import TreeStorage

  method FlattenFlat(n: nat, ops: seq<Op>, i: nat) returns (anns: seq<Annotation>)
    requires AllApply(ops, n) && i < n
    ensures anns == Deduped(SeqRun(NoText(n), ops)[i].anns)
  {
    var flat := new SeqStorage.Generator(n);
    flat.Run(ops);
    assert flat.Holds(i);
    anns := SeqStorage.FlattenAnnotations(flat.sections[i]);
  }

  method FlattenTree(n: nat, ops: seq<Op>, i: nat) returns (anns: seq<Annotation>)
    requires AllApply(ops, n) && i < n
    ensures anns == Deduped(TreeRun(NoText(n), ops)[i].anns)
  {
    var tree := new TreeStorage.Generator(n);
    tree.Run(ops);
    assert TreeStorage.Generator.Fits(tree.sections[i], tree.view[i], tree.feet[i], tree.repr);
    anns := TreeStorage.FlattenAnnotations(tree.sections[i]);
  }

  /** The same run on both variants: a section that owes nothing flattens to the same list. */
  method FlattenBoth(n: nat, ops: seq<Op>, i: nat) returns (fromSeq: seq<Annotation>, fromTree: seq<Annotation>)
    requires AllApply(ops, n) && i < n
    ensures fromSeq == Deduped(SeqRun(NoText(n), ops)[i].anns)
    ensures fromTree == Deduped(TreeRun(NoText(n), ops)[i].anns)
    ensures Charged(NothingOwed(n), ops)[i].owed == 0 ==> fromSeq == fromTree
  {
    fromSeq := FlattenFlat(n, ops, i);
    fromTree := FlattenTree(n, ops, i);
    AgreeIffNothingOwed(n, ops, i);
  }
}
