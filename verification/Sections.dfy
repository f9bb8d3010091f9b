/** Sections of generated text with their annotations, as values: what the two storage variants have to agree on. */
module Sections {
  import opened StableSorts
  import opened SourceMaps
  import opened SourceMapBuilder

  datatype Section = Section(text: string, anns: seq<Annotation>)

  function Rebase(a: Annotation, shift: int): Annotation
  {
    a.(startOffset := a.startOffset + shift, endOffset := a.endOffset + shift)
  }

  function Rebased(anns: seq<Annotation>, shift: int): (r: seq<Annotation>)
    ensures |r| == |anns|
    ensures forall i :: 0 <= i < |anns| ==> r[i] == Rebase(anns[i], shift)
  {
    seq(|anns|, i requires 0 <= i < |anns| => Rebase(anns[i], shift))
  }

  /** `Emit` is `emitAt` and `emitRangeAt`, `Record` is `recordAt` and `recordRangeAt`; `active` says that the section's
      configuration has source maps switched on. */
  datatype Op =
    | Emit(sec: nat, content: string, active: bool, info: LineInfo, endInfo: LineInfo)
    | Record(sec: nat, active: bool, info: LineInfo, endInfo: LineInfo)
    | Append(src: nat, dst: nat)
    | Prepend(src: nat, dst: nat)

  predicate Recordable(active: bool, info: LineInfo)
  {
    active && info.fileIndex != INVALID_FILE_IDX && info.line > 0
  }

  predicate IsMerge(op: Op)
  {
    op.Append? || op.Prepend?
  }

  /** The section whose text an operation changes. */
  function Target(op: Op): nat
  {
    if IsMerge(op) then op.dst else op.sec
  }

  predicate Applies(op: Op, n: nat)
  {
    if IsMerge(op) then op.src < n && op.dst < n && op.src != op.dst else op.sec < n
  }

  function Emitted(s: Section, content: string, active: bool, info: LineInfo, endInfo: LineInfo): Section
  {
    Section(s.text + content,
            if Recordable(active, info) then s.anns + [Annotation(|s.text|, |s.text| + |content|, info, endInfo)] else s.anns)
  }

  function Joined(front: Section, back: Section): Section
  {
    Section(front.text + back.text, front.anns + Rebased(back.anns, |front.text|))
  }

  /** The flat list: a merge copies the source's annotations and leaves the source as it was. */
  function SeqStep(secs: seq<Section>, op: Op): (r: seq<Section>)
    requires Applies(op, |secs|)
    ensures |r| == |secs|
  {
    match op
    case Emit(i, content, active, info, endInfo) => secs[i := Emitted(secs[i], content, active, info, endInfo)]
    case Record(i, active, info, endInfo) => secs[i := Emitted(secs[i], "", active, info, endInfo)]
    case Append(s, d) => secs[d := Joined(secs[d], secs[s])]
    case Prepend(s, d) => secs[d := Joined(secs[s], secs[d])]
  }

  /** The tree: a merge moves the source's annotations. */
  function TreeStep(secs: seq<Section>, op: Op): (r: seq<Section>)
    requires Applies(op, |secs|)
    ensures |r| == |secs|
  {
    if IsMerge(op) then SeqStep(secs, op)[op.src := Section(secs[op.src].text, [])] else SeqStep(secs, op)
  }

  ghost predicate AllApply(ops: seq<Op>, n: nat)
  {
    forall i :: 0 <= i < |ops| ==> Applies(ops[i], n)
  }

  function SeqRun(secs: seq<Section>, ops: seq<Op>): (r: seq<Section>)
    requires AllApply(ops, |secs|)
    ensures |r| == |secs|
    decreases |ops|
  {
    if ops == [] then secs else SeqRun(SeqStep(secs, ops[0]), ops[1..])
  }

  function TreeRun(secs: seq<Section>, ops: seq<Op>): (r: seq<Section>)
    requires AllApply(ops, |secs|)
    ensures |r| == |secs|
    decreases |ops|
  {
    if ops == [] then secs else TreeRun(TreeStep(secs, ops[0]), ops[1..])
  }

  // ---------------------------------------------------------------- agreement of the two variants

  predicate Touches(op: Op, i: nat)
  {
    if IsMerge(op) then op.src == i || op.dst == i else op.sec == i
  }

  function Gone(ops: seq<Op>, gone: set<nat>): set<nat>
    decreases |ops|
  {
    if ops == [] then gone else Gone(ops[1..], if IsMerge(ops[0]) then gone + {ops[0].src} else gone)
  }

  /** No operation uses a section that was merged away before. */
  ghost predicate UsesOnce(ops: seq<Op>, gone: set<nat>)
    decreases |ops|
  {
    ops == [] || ((forall i :: i in gone ==> !Touches(ops[0], i)) &&
                  UsesOnce(ops[1..], if IsMerge(ops[0]) then gone + {ops[0].src} else gone))
  }

  ghost predicate AgreeBut(a: seq<Section>, b: seq<Section>, gone: set<nat>)
  {
    |a| == |b| && forall i :: 0 <= i < |a| && i !in gone ==> a[i] == b[i]
  }

  /** As long as no merged source is used again, both variants hold the same annotations in the same order in every
      section that is still in use. */
  lemma {:induction false} VariantsAgree(a: seq<Section>, b: seq<Section>, ops: seq<Op>, gone: set<nat>)
    requires AgreeBut(a, b, gone) && AllApply(ops, |a|) && UsesOnce(ops, gone)
    ensures AgreeBut(SeqRun(a, ops), TreeRun(b, ops), Gone(ops, gone))
    decreases |ops|
  {
    if ops != [] {
      var gone' := if IsMerge(ops[0]) then gone + {ops[0].src} else gone;
      StepsAgree(a, b, ops[0], gone);
      VariantsAgree(SeqStep(a, ops[0]), TreeStep(b, ops[0]), ops[1..], gone');
    }
  }

  lemma StepsAgree(a: seq<Section>, b: seq<Section>, op: Op, gone: set<nat>)
    requires AgreeBut(a, b, gone) && Applies(op, |a|) && forall i :: i in gone ==> !Touches(op, i)
    ensures AgreeBut(SeqStep(a, op), TreeStep(b, op), if IsMerge(op) then gone + {op.src} else gone)
  {
  }

  /** What the operations alone say about a section: how many annotations the flat list holds, and by how many the tree
      falls behind it. */
  datatype Account = Account(held: nat, owed: nat)

  /** A merge passes on what the source holds and owes; then the tree has none of the source's annotations left. */
  function Charge(accs: seq<Account>, op: Op): (r: seq<Account>)
    requires Applies(op, |accs|)
    ensures |r| == |accs|
  {
    if IsMerge(op) then
      var s, d := accs[op.src], accs[op.dst];
      accs[op.dst := Account(d.held + s.held, d.owed + s.owed)][op.src := Account(s.held, s.held)]
    else if Recordable(op.active, op.info) then accs[op.sec := accs[op.sec].(held := accs[op.sec].held + 1)]
    else accs
  }

  function Charged(accs: seq<Account>, ops: seq<Op>): (r: seq<Account>)
    requires AllApply(ops, |accs|)
    ensures |r| == |accs|
    decreases |ops|
  {
    if ops == [] then accs else Charged(Charge(accs, ops[0]), ops[1..])
  }

  function NoText(n: nat): (secs: seq<Section>)
    ensures |secs| == n && forall i :: 0 <= i < n ==> secs[i] == Section("", [])
  {
    seq(n, _ => Section("", []))
  }

  function NothingOwed(n: nat): (accs: seq<Account>)
    ensures |accs| == n && forall i :: 0 <= i < n ==> accs[i] == Account(0, 0)
  {
    seq(n, _ => Account(0, 0))
  }

  /** The same text, and `owed` annotations fewer in the tree; the same annotations if none are owed. */
  ghost predicate Owes(flat: Section, tree: Section, acc: Account)
  {
    && flat.text == tree.text
    && |flat.anns| == acc.held && |tree.anns| + acc.owed == acc.held
    && (acc.owed == 0 ==> flat.anns == tree.anns)
  }

  ghost predicate AllOwe(flat: seq<Section>, tree: seq<Section>, accs: seq<Account>)
  {
    |flat| == |tree| == |accs| && forall i :: 0 <= i < |accs| ==> Owes(flat[i], tree[i], accs[i])
  }

  lemma StepOwes(flat: seq<Section>, tree: seq<Section>, accs: seq<Account>, op: Op)
    requires AllOwe(flat, tree, accs) && Applies(op, |accs|)
    ensures AllOwe(SeqStep(flat, op), TreeStep(tree, op), Charge(accs, op))
  {
    if IsMerge(op) {
      var s, d := op.src, op.dst;
      JoinOwes(flat[d], tree[d], accs[d], flat[s], tree[s], accs[s]);
      JoinOwes(flat[s], tree[s], accs[s], flat[d], tree[d], accs[d]);
    }
  }

  lemma JoinOwes(f0: Section, t0: Section, a0: Account, f1: Section, t1: Section, a1: Account)
    requires Owes(f0, t0, a0) && Owes(f1, t1, a1)
    ensures Owes(Joined(f0, f1), Joined(t0, t1), Account(a0.held + a1.held, a0.owed + a1.owed))
  {
  }

  lemma {:induction false} RunOwes(flat: seq<Section>, tree: seq<Section>, accs: seq<Account>, ops: seq<Op>)
    requires AllOwe(flat, tree, accs) && AllApply(ops, |accs|)
    ensures AllOwe(SeqRun(flat, ops), TreeRun(tree, ops), Charged(accs, ops))
    decreases |ops|
  {
    if ops != [] {
      StepOwes(flat, tree, accs, ops[0]);
      RunOwes(SeqStep(flat, ops[0]), TreeStep(tree, ops[0]), Charge(accs, ops[0]), ops[1..]);
    }
  }

  /** After any run at all, both variants hold the same in a section exactly if the section owes nothing. */
  lemma AgreeIffNothingOwed(n: nat, ops: seq<Op>, i: nat)
    requires AllApply(ops, n) && i < n
    ensures SeqRun(NoText(n), ops)[i] == TreeRun(NoText(n), ops)[i] <==> Charged(NothingOwed(n), ops)[i].owed == 0
  {
    RunOwes(NoText(n), NoText(n), NothingOwed(n), ops);
    assert Owes(SeqRun(NoText(n), ops)[i], TreeRun(NoText(n), ops)[i], Charged(NothingOwed(n), ops)[i]);
  }

  /** Text that is added to a section after it was merged: the flat list then has two annotations, the tree one. */
  lemma EmitAfterMerge(x: string, y: string, info: LineInfo)
    requires Recordable(true, info)
    ensures var ops := [Emit(0, x, true, info, info), Append(0, 1), Emit(0, y, true, info, info)];
      && AllApply(ops, 2)
      && |SeqRun(NoText(2), ops)[0].anns| == 2 && |TreeRun(NoText(2), ops)[0].anns| == 1
      && SeqRun(NoText(2), ops)[1] == TreeRun(NoText(2), ops)[1]
  {
    var ops := [Emit(0, x, true, info, info), Append(0, 1), Emit(0, y, true, info, info)];
    assert ops[1..] == [Append(0, 1), Emit(0, y, true, info, info)] && ops[1..][1..] == [Emit(0, y, true, info, info)];
    assert ops[1..][1..][1..] == [];
    var accs := NothingOwed(2);
    var a1 := Charge(accs, ops[0]);
    var a2 := Charge(a1, ops[1]);
    assert a1 == [Account(1, 0), Account(0, 0)] && a2 == [Account(1, 1), Account(1, 0)];
    assert Charge(a2, ops[2]) == [Account(2, 1), Account(1, 0)];
    assert Charged(accs, ops) == Charged(a1, ops[1..]) == Charged(a2, ops[1..][1..]) == Charge(a2, ops[2]);
    RunOwes(NoText(2), NoText(2), accs, ops);
    AgreeIffNothingOwed(2, ops, 1);
  }

  // ---------------------------------------------------------------- what an annotation covers

  ghost predicate Covered(s: Section)
  {
    forall i :: 0 <= i < |s.anns| ==> 0 <= s.anns[i].startOffset <= s.anns[i].endOffset <= |s.text|
  }

  /** The characters an annotation selects, with the positions it gives them. */
  datatype Label = Label(chars: string, info: LineInfo, endInfo: LineInfo)

  function LabelOf(text: string, a: Annotation): Label
    requires 0 <= a.startOffset <= a.endOffset <= |text|
  {
    Label(text[a.startOffset..a.endOffset], a.info, a.endInfo)
  }

  function Labels(s: Section): (r: seq<Label>)
    requires Covered(s)
    ensures |r| == |s.anns|
  {
    seq(|s.anns|, i requires 0 <= i < |s.anns| => LabelOf(s.text, s.anns[i]))
  }

  lemma EmittedLabels(s: Section, content: string, active: bool, info: LineInfo, endInfo: LineInfo)
    requires Covered(s)
    ensures var s' := Emitted(s, content, active, info, endInfo);
            Covered(s') && Labels(s') == if Recordable(active, info) then Labels(s) + [Label(content, info, endInfo)] else Labels(s)
  {
    var s' := Emitted(s, content, active, info, endInfo);
    forall i | 0 <= i < |s.anns|
      ensures LabelOf(s'.text, s.anns[i]) == LabelOf(s.text, s.anns[i])
    {
    }
    assert (s.text + content)[|s.text|..|s.text| + |content|] == content;
  }

  /** Merged text keeps both lists of labels: every range selects the characters it covered when it was recorded. */
  lemma JoinedLabels(front: Section, back: Section)
    requires Covered(front) && Covered(back)
    ensures Covered(Joined(front, back))
    ensures Labels(Joined(front, back)) == Labels(front) + Labels(back)
  {
    var s := Joined(front, back);
    forall i | 0 <= i < |s.anns|
      ensures 0 <= s.anns[i].startOffset <= s.anns[i].endOffset <= |s.text|
      ensures LabelOf(s.text, s.anns[i]) == (Labels(front) + Labels(back))[i]
    {
      var a := s.anns[i];
      if i < |front.anns| {
        assert a == front.anns[i];
        assert s.text[a.startOffset..a.endOffset] == front.text[a.startOffset..a.endOffset];
      } else {
        var b := back.anns[i - |front.anns|];
        assert a == Rebase(b, |front.text|);
        assert s.text[a.startOffset..a.endOffset] == back.text[b.startOffset..b.endOffset];
      }
    }
  }

  ghost predicate AllCovered(secs: seq<Section>)
  {
    forall i :: 0 <= i < |secs| ==> Covered(secs[i])
  }

  ghost function Bag(s: Section): multiset<Label>
    requires Covered(s)
  {
    multiset(Labels(s))
  }

  ghost function Total(secs: seq<Section>): multiset<Label>
    requires AllCovered(secs)
  {
    if secs == [] then multiset{} else Bag(secs[0]) + Total(secs[1..])
  }

  function RecordedBy(op: Op): multiset<Label>
  {
    match op
    case Emit(_, content, active, info, endInfo) => if Recordable(active, info) then multiset{Label(content, info, endInfo)} else multiset{}
    case Record(_, active, info, endInfo) => if Recordable(active, info) then multiset{Label("", info, endInfo)} else multiset{}
    case _ => multiset{}
  }

  /** What a step does to the texts, in both storages: appending puts the source's behind the destination's, prepending in
      front of it. */
  lemma StepTexts(secs: seq<Section>, op: Op, i: nat)
    requires Applies(op, |secs|) && i < |secs|
    ensures SeqStep(secs, op)[i].text == TreeStep(secs, op)[i].text
    ensures SeqStep(secs, op)[i].text == (
      match op
      case Emit(k, content, _, _, _) => if i == k then secs[i].text + content else secs[i].text
      case Record(_, _, _, _) => secs[i].text
      case Append(src, dst) => if i == dst then secs[dst].text + secs[src].text else secs[i].text
      case Prepend(src, dst) => if i == dst then secs[src].text + secs[dst].text else secs[i].text)
  {
    if op.Record? {
      assert secs[op.sec].text + "" == secs[op.sec].text;
    }
  }

  /** A label is recorded exactly by steps with source maps on and a position with a file and a line. */
  lemma RecordedIff(op: Op, l: Label)
    ensures l in RecordedBy(op) <==>
      && (op.Emit? || op.Record?) && op.active && op.info.fileIndex != INVALID_FILE_IDX && op.info.line > 0
      && l == Label(if op.Emit? then op.content else "", op.info, op.endInfo)
  {
  }

  function Recorded(ops: seq<Op>): multiset<Label>
  {
    if ops == [] then multiset{} else RecordedBy(ops[0]) + Recorded(ops[1..])
  }

  lemma AddFirst(first: multiset<Label>, t: multiset<Label>, t': multiset<Label>, less: multiset<Label>, more: multiset<Label>)
    requires t' + less == t + more
    ensures (first + t') + less == (first + t) + more
  {
    assert (first + t') + less == first + (t' + less);
    assert (first + t) + more == first + (t + more);
  }

  lemma CancelAdded(t: multiset<Label>, t': multiset<Label>, bag: multiset<Label>, more: multiset<Label>)
    requires t' + bag == t + (bag + more)
    ensures t' == t + more
  {
    forall x: Label
      ensures t'[x] == (t + more)[x]
    {
      assert (t' + bag)[x] == (t + (bag + more))[x];
    }
  }

  lemma {:induction false} TotalUpdate(secs: seq<Section>, i: nat, s: Section)
    requires AllCovered(secs) && i < |secs| && Covered(s)
    ensures AllCovered(secs[i := s])
    ensures Total(secs[i := s]) + Bag(secs[i]) == Total(secs) + Bag(s)
  {
    var secs' := secs[i := s];
    assert AllCovered(secs[1..]);
    if i == 0 {
      assert secs'[1..] == secs[1..];
      Exchange(Bag(s), Total(secs[1..]), Bag(secs[0]));
    } else {
      TotalUpdate(secs[1..], i - 1, s);
      assert secs'[1..] == secs[1..][i - 1 := s];
      AddFirst(Bag(secs[0]), Total(secs[1..]), Total(secs'[1..]), Bag(secs[i]), Bag(s));
    }
  }

  lemma Exchange(a: multiset<Label>, b: multiset<Label>, c: multiset<Label>)
    ensures (a + b) + c == (c + b) + a
  {
  }

  lemma StepConserves(secs: seq<Section>, op: Op)
    requires AllCovered(secs) && Applies(op, |secs|)
    ensures AllCovered(TreeStep(secs, op))
    ensures Total(TreeStep(secs, op)) == Total(secs) + RecordedBy(op)
  {
    if IsMerge(op) {
      MergeConserves(secs, op);
    } else {
      EmitConserves(secs, op.sec, if op.Emit? then op.content else "", op.active, op.info, op.endInfo);
    }
  }

  lemma EmitConserves(secs: seq<Section>, i: nat, content: string, active: bool, info: LineInfo, endInfo: LineInfo)
    requires AllCovered(secs) && i < |secs|
    ensures var secs' := secs[i := Emitted(secs[i], content, active, info, endInfo)];
            AllCovered(secs') &&
            Total(secs') == Total(secs) + if Recordable(active, info) then multiset{Label(content, info, endInfo)} else multiset{}
  {
    var s' := Emitted(secs[i], content, active, info, endInfo);
    var more := if Recordable(active, info) then [Label(content, info, endInfo)] else [];
    EmittedLabels(secs[i], content, active, info, endInfo);
    assert Labels(s') == Labels(secs[i]) + more;
    TotalUpdate(secs, i, s');
    CancelAdded(Total(secs), Total(secs[i := s']), Bag(secs[i]), multiset(more));
  }

  lemma MergeConserves(secs: seq<Section>, op: Op)
    requires AllCovered(secs) && Applies(op, |secs|) && IsMerge(op)
    ensures AllCovered(TreeStep(secs, op)) && Total(TreeStep(secs, op)) == Total(secs)
  {
    var s, d := secs[op.src], secs[op.dst];
    var joined := if op.Append? then Joined(d, s) else Joined(s, d);
    JoinedBag(d, s);
    JoinedBag(s, d);
    NothingMore(Bag(joined), Bag(d) + Bag(s));
    TwoUpdates(secs, op.dst, op.src, joined, s.text, multiset{}, multiset{});
    NothingMore(Total(TreeStep(secs, op)), Total(secs));
  }

  lemma NothingMore(a: multiset<Label>, b: multiset<Label>)
    ensures a + multiset{} == b + multiset{} <==> a == b
  {
    assert a + multiset{} == a && b + multiset{} == b;
  }

  lemma JoinedBag(front: Section, back: Section)
    requires Covered(front) && Covered(back)
    ensures Covered(Joined(front, back))
    ensures Bag(Joined(front, back)) == Bag(front) + Bag(back) == Bag(back) + Bag(front)
  {
    JoinedLabels(front, back);
  }

  /** Over any run, the labels held by all sections are those they started with and those recorded since:
      a merge loses none, doubles none and moves none to other characters. */
  lemma {:induction false} RunConserves(secs: seq<Section>, ops: seq<Op>)
    requires AllCovered(secs) && AllApply(ops, |secs|)
    ensures AllCovered(TreeRun(secs, ops))
    ensures Total(TreeRun(secs, ops)) == Total(secs) + Recorded(ops)
    decreases |ops|
  {
    if ops != [] {
      StepConserves(secs, ops[0]);
      RunConserves(TreeStep(secs, ops[0]), ops[1..]);
    }
  }

  // ---------------------------------------------------------------- where labels come from

  /** Every annotation of every section selects the characters of a label in `m`. */
  ghost predicate AllFrom(secs: seq<Section>, m: multiset<Label>)
  {
    AllCovered(secs) && forall i :: 0 <= i < |secs| ==> From(secs[i], m)
  }

  ghost predicate From(s: Section, m: multiset<Label>)
    requires Covered(s)
  {
    forall k :: 0 <= k < |s.anns| ==> LabelOf(s.text, s.anns[k]) in m
  }

  lemma FromLabels(s: Section, m: multiset<Label>)
    requires Covered(s)
    ensures From(s, m) <==> forall l :: l in Labels(s) ==> l in m
  {
    if From(s, m) {
      forall l | l in Labels(s)
        ensures l in m
      {
        var k :| 0 <= k < |s.anns| && Labels(s)[k] == l;
      }
    } else {
      var k :| 0 <= k < |s.anns| && LabelOf(s.text, s.anns[k]) !in m;
      assert Labels(s)[k] in Labels(s);
    }
  }

  lemma JoinedFrom(front: Section, back: Section, m: multiset<Label>)
    requires Covered(front) && Covered(back) && From(front, m) && From(back, m)
    ensures Covered(Joined(front, back)) && From(Joined(front, back), m)
  {
    JoinedLabels(front, back);
    FromLabels(front, m);
    FromLabels(back, m);
    FromLabels(Joined(front, back), m);
  }

  lemma EmittedFrom(s: Section, content: string, active: bool, info: LineInfo, endInfo: LineInfo, m: multiset<Label>)
    requires Covered(s) && From(s, m) && (Recordable(active, info) ==> Label(content, info, endInfo) in m)
    ensures var s' := Emitted(s, content, active, info, endInfo); Covered(s') && From(s', m)
  {
    EmittedLabels(s, content, active, info, endInfo);
    FromLabels(s, m);
    FromLabels(Emitted(s, content, active, info, endInfo), m);
  }

  lemma StepFrom(secs: seq<Section>, op: Op, m: multiset<Label>)
    requires AllFrom(secs, m) && Applies(op, |secs|) && RecordedBy(op) <= m
    ensures AllFrom(SeqStep(secs, op), m)
  {
    if IsMerge(op) {
      assert From(secs[op.src], m) && From(secs[op.dst], m);
      JoinedFrom(secs[op.src], secs[op.dst], m);
      JoinedFrom(secs[op.dst], secs[op.src], m);
    } else {
      assert From(secs[op.sec], m);
      assert forall l :: l in RecordedBy(op) ==> l in m;
      EmittedFrom(secs[op.sec], if op.Emit? then op.content else "", op.active, op.info, op.endInfo, m);
    }
  }

  /** However sections are merged, an annotation selects in its section the characters that it covered when it was recorded. */
  lemma {:induction false} RunFrom(secs: seq<Section>, ops: seq<Op>, m: multiset<Label>)
    requires AllFrom(secs, m) && AllApply(ops, |secs|) && Recorded(ops) <= m
    ensures AllFrom(SeqRun(secs, ops), m)
    decreases |ops|
  {
    if ops != [] {
      assert forall l :: RecordedBy(ops[0])[l] <= Recorded(ops)[l] && Recorded(ops[1..])[l] <= Recorded(ops)[l];
      StepFrom(secs, ops[0], m);
      RunFrom(SeqStep(secs, ops[0]), ops[1..], m);
    }
  }

  // ---------------------------------------------------------------- conservation in the flat list

  /** The sections with those that were merged away taken as empty. */
  function Living(secs: seq<Section>, gone: set<nat>): (r: seq<Section>)
    ensures |r| == |secs|
    ensures forall i :: 0 <= i < |secs| ==> r[i] == if i in gone then Section(secs[i].text, []) else secs[i]
  {
    seq(|secs|, i requires 0 <= i < |secs| => if i in gone then Section(secs[i].text, []) else secs[i])
  }

  lemma LivingCovered(secs: seq<Section>, gone: set<nat>)
    requires AllCovered(secs)
    ensures AllCovered(Living(secs, gone))
  {
  }

  /** The labels in the sections still in use. */
  ghost function LiveTotal(secs: seq<Section>, gone: set<nat>): multiset<Label>
    requires AllCovered(secs)
  {
    LivingCovered(secs, gone);
    Total(Living(secs, gone))
  }

  /** The labels that the operations alone put into each section of the flat list. */
  function Hold(held: seq<multiset<Label>>, op: Op): (r: seq<multiset<Label>>)
    requires Applies(op, |held|)
    ensures |r| == |held|
  {
    held[Target(op) := held[Target(op)] + if IsMerge(op) then held[op.src] else RecordedBy(op)]
  }

  function Held(held: seq<multiset<Label>>, ops: seq<Op>): (r: seq<multiset<Label>>)
    requires AllApply(ops, |held|)
    ensures |r| == |held|
    decreases |ops|
  {
    if ops == [] then held else Held(Hold(held, ops[0]), ops[1..])
  }

  function NothingHeld(n: nat): (held: seq<multiset<Label>>)
    ensures |held| == n && forall i :: 0 <= i < n ==> held[i] == multiset{}
  {
    seq(n, _ => multiset{})
  }

  /** A section that was merged away is merged again into one in use: its labels are there twice. */
  function DoubledBy(held: seq<multiset<Label>>, op: Op, gone: set<nat>): multiset<Label>
    requires Applies(op, |held|)
  {
    if IsMerge(op) && op.src in gone && op.dst !in gone then held[op.src] else multiset{}
  }

  /** What is recorded in, or merged into, a section that was merged away. */
  function LostBy(held: seq<multiset<Label>>, op: Op, gone: set<nat>): multiset<Label>
    requires Applies(op, |held|)
  {
    if Target(op) !in gone then multiset{}
    else if !IsMerge(op) then RecordedBy(op)
    else if op.src in gone then multiset{}
    else held[op.src]
  }

  function NowGone(op: Op, gone: set<nat>): set<nat>
  {
    if IsMerge(op) then gone + {op.src} else gone
  }

  function Doubled(held: seq<multiset<Label>>, ops: seq<Op>, gone: set<nat>): multiset<Label>
    requires AllApply(ops, |held|)
    decreases |ops|
  {
    if ops == [] then multiset{}
    else DoubledBy(held, ops[0], gone) + Doubled(Hold(held, ops[0]), ops[1..], NowGone(ops[0], gone))
  }

  function Lost(held: seq<multiset<Label>>, ops: seq<Op>, gone: set<nat>): multiset<Label>
    requires AllApply(ops, |held|)
    decreases |ops|
  {
    if ops == [] then multiset{}
    else LostBy(held, ops[0], gone) + Lost(Hold(held, ops[0]), ops[1..], NowGone(ops[0], gone))
  }

  ghost predicate Holds(secs: seq<Section>, held: seq<multiset<Label>>)
  {
    AllCovered(secs) && |secs| == |held| && forall i :: 0 <= i < |secs| ==> Bag(secs[i]) == held[i]
  }

  /** The account is kept by every step. */
  lemma StepHolds(secs: seq<Section>, held: seq<multiset<Label>>, op: Op)
    requires Holds(secs, held) && Applies(op, |secs|)
    ensures Holds(SeqStep(secs, op), Hold(held, op))
  {
    FlatStepCovers(secs, op);
    if IsMerge(op) {
      JoinedBag(secs[op.dst], secs[op.src]);
      JoinedBag(secs[op.src], secs[op.dst]);
    } else {
      EmittedBag(secs[op.sec], op);
    }
  }

  lemma EmittedBag(s: Section, op: Op)
    requires Covered(s) && !IsMerge(op)
    ensures var s' := Emitted(s, if op.Emit? then op.content else "", op.active, op.info, op.endInfo);
      Covered(s') && Bag(s') == Bag(s) + RecordedBy(op)
  {
    EmittedLabels(s, if op.Emit? then op.content else "", op.active, op.info, op.endInfo);
  }

  lemma FlatStepCovers(secs: seq<Section>, op: Op)
    requires AllCovered(secs) && Applies(op, |secs|)
    ensures AllCovered(SeqStep(secs, op))
  {
    if IsMerge(op) {
      JoinedLabels(secs[op.dst], secs[op.src]);
      JoinedLabels(secs[op.src], secs[op.dst]);
    } else {
      EmittedLabels(secs[op.sec], if op.Emit? then op.content else "", op.active, op.info, op.endInfo);
    }
  }

  /** An update of one section, seen among those in use. */
  lemma LivingUpdate(secs: seq<Section>, gone: set<nat>, i: nat, s': Section)
    requires i < |secs|
    ensures Living(secs[i := s'], gone) == Living(secs, gone)[i := if i in gone then Section(s'.text, []) else s']
  {
  }

  lemma EmptyBag(text: string)
    ensures Covered(Section(text, [])) && Bag(Section(text, [])) == multiset{}
  {
    assert Labels(Section(text, [])) == [];
  }

  lemma GoneEmitConserves(live: seq<Section>, i: nat, text: string)
    requires AllCovered(live) && i < |live| && live[i].anns == []
    ensures AllCovered(live[i := Section(text, [])]) && Total(live[i := Section(text, [])]) == Total(live)
  {
    EmptyBag(text);
    EmptyBag(live[i].text);
    assert live[i] == Section(live[i].text, []);
    TotalUpdate(live, i, Section(text, []));
    var t, t' := Total(live), Total(live[i := Section(text, [])]);
    assert t + multiset{} == t && t' + multiset{} == t';
  }

  lemma FlatEmitConserves(secs: seq<Section>, held: seq<multiset<Label>>, op: Op, gone: set<nat>)
    requires Holds(secs, held) && Applies(op, |secs|) && !IsMerge(op)
    ensures AllCovered(SeqStep(secs, op))
    ensures LiveTotal(SeqStep(secs, op), gone) + LostBy(held, op, gone) == LiveTotal(secs, gone) + RecordedBy(op)
  {
    var i, content := op.sec, if op.Emit? then op.content else "";
    var s' := Emitted(secs[i], content, op.active, op.info, op.endInfo);
    FlatStepCovers(secs, op);
    LivingCovered(secs, gone);
    LivingUpdate(secs, gone, i, s');
    if i in gone {
      GoneEmitConserves(Living(secs, gone), i, s'.text);
    } else {
      EmitConserves(Living(secs, gone), i, content, op.active, op.info, op.endInfo);
    }
  }

  /** Two updates of the sections in use: the destination shows `shown`, the source nothing. */
  lemma TwoUpdates(live: seq<Section>, d: nat, s: nat, shown: Section, text: string, doubled: multiset<Label>, lost: multiset<Label>)
    requires AllCovered(live) && d < |live| && s < |live| && s != d && Covered(shown)
    requires Bag(shown) + lost == Bag(live[d]) + Bag(live[s]) + doubled
    ensures var live' := live[d := shown][s := Section(text, [])];
      AllCovered(live') && Total(live') + lost == Total(live) + doubled
  {
    EmptyBag(text);
    TotalUpdate(live, d, shown);
    TotalUpdate(live[d := shown], s, Section(text, []));
    MergeSum(Total(live), Total(live[d := shown]), Total(live[d := shown][s := Section(text, [])]), Bag(live[d]), Bag(live[s]),
             Bag(shown), doubled, lost);
  }

  /** The balance of a merge, section by section. */
  lemma MergeBalance(secs: seq<Section>, held: seq<multiset<Label>>, op: Op, gone: set<nat>)
    requires Holds(secs, held) && Applies(op, |secs|) && IsMerge(op)
    ensures AllCovered(SeqStep(secs, op)) && AllCovered(Living(secs, gone))
    ensures var live, joined := Living(secs, gone), SeqStep(secs, op)[op.dst];
      var shown := if op.dst in gone then Section(joined.text, []) else joined;
      Covered(shown) &&
      Bag(shown) + LostBy(held, op, gone) == Bag(live[op.dst]) + Bag(live[op.src]) + DoubledBy(held, op, gone)
  {
    var s, d := op.src, op.dst;
    FlatStepCovers(secs, op);
    LivingCovered(secs, gone);
    JoinedBag(secs[d], secs[s]);
    JoinedBag(secs[s], secs[d]);
    EmptyBag(SeqStep(secs, op)[d].text);
    EmptyBag(secs[d].text);
    EmptyBag(secs[s].text);
  }

  lemma FlatMergeConserves(secs: seq<Section>, held: seq<multiset<Label>>, op: Op, gone: set<nat>)
    requires Holds(secs, held) && Applies(op, |secs|) && IsMerge(op)
    ensures AllCovered(SeqStep(secs, op))
    ensures LiveTotal(SeqStep(secs, op), NowGone(op, gone)) + LostBy(held, op, gone) == LiveTotal(secs, gone) + DoubledBy(held, op, gone)
  {
    var s, d := op.src, op.dst;
    var live, joined := Living(secs, gone), SeqStep(secs, op)[d];
    MergeBalance(secs, held, op, gone);
    var shown := if d in gone then Section(joined.text, []) else joined;
    TwoUpdates(live, d, s, shown, secs[s].text, DoubledBy(held, op, gone), LostBy(held, op, gone));
    LivingMerged(secs, op, gone);
  }

  lemma FlatStepConserves(secs: seq<Section>, held: seq<multiset<Label>>, op: Op, gone: set<nat>)
    requires Holds(secs, held) && Applies(op, |secs|)
    ensures AllCovered(SeqStep(secs, op))
    ensures LiveTotal(SeqStep(secs, op), NowGone(op, gone)) + LostBy(held, op, gone)
         == LiveTotal(secs, gone) + RecordedBy(op) + DoubledBy(held, op, gone)
  {
    if IsMerge(op) {
      FlatMergeConserves(secs, held, op, gone);
    } else {
      FlatEmitConserves(secs, held, op, gone);
    }
  }

  lemma LivingMerged(secs: seq<Section>, op: Op, gone: set<nat>)
    requires Applies(op, |secs|) && IsMerge(op)
    ensures var joined := SeqStep(secs, op)[op.dst];
      Living(SeqStep(secs, op), NowGone(op, gone))
      == Living(secs, gone)[op.dst := if op.dst in gone then Section(joined.text, []) else joined][op.src := Section(secs[op.src].text, [])]
  {
  }

  lemma MergeSum(t0: multiset<Label>, t1: multiset<Label>, t2: multiset<Label>, d: multiset<Label>, s: multiset<Label>,
                 shown: multiset<Label>, doubled: multiset<Label>, lost: multiset<Label>)
    requires t1 + d == t0 + shown && t2 + s == t1 + multiset{} && shown + lost == d + s + doubled
    ensures t2 + lost == t0 + doubled
  {
    forall x: Label
      ensures (t2 + lost)[x] == (t0 + doubled)[x]
    {
      assert (t1 + d)[x] == (t0 + shown)[x];
      assert (t2 + s)[x] == (t1 + multiset{})[x];
      assert (shown + lost)[x] == (d + s + doubled)[x];
    }
  }

  /** Over any run of the flat list, the sections in use hold what they started with and what was recorded since; only what
      is merged again out of a merged section is there once more, and only what goes into one is missing. */
  lemma {:induction false} FlatRunConserves(secs: seq<Section>, held: seq<multiset<Label>>, ops: seq<Op>, gone: set<nat>)
    requires Holds(secs, held) && AllApply(ops, |secs|)
    ensures Holds(SeqRun(secs, ops), Held(held, ops))
    ensures LiveTotal(SeqRun(secs, ops), Gone(ops, gone)) + Lost(held, ops, gone)
         == LiveTotal(secs, gone) + Recorded(ops) + Doubled(held, ops, gone)
    decreases |ops|
  {
    if ops != [] {
      var op, secs', held', gone' := ops[0], SeqStep(secs, ops[0]), Hold(held, ops[0]), NowGone(ops[0], gone);
      StepHolds(secs, held, op);
      FlatStepConserves(secs, held, op, gone);
      FlatRunConserves(secs', held', ops[1..], gone');
      RunSum(LiveTotal(secs, gone), LiveTotal(secs', gone'), LiveTotal(SeqRun(secs, ops), Gone(ops, gone)),
             LostBy(held, op, gone), Lost(held', ops[1..], gone'), RecordedBy(op), Recorded(ops[1..]),
             DoubledBy(held, op, gone), Doubled(held', ops[1..], gone'));
    }
  }

  lemma RunSum(t0: multiset<Label>, t1: multiset<Label>, t2: multiset<Label>, l0: multiset<Label>, l1: multiset<Label>,
               r0: multiset<Label>, r1: multiset<Label>, d0: multiset<Label>, d1: multiset<Label>)
    requires t1 + l0 == t0 + r0 + d0 && t2 + l1 == t1 + r1 + d1
    ensures t2 + (l0 + l1) == t0 + (r0 + r1) + (d0 + d1)
  {
    forall x: Label
      ensures (t2 + (l0 + l1))[x] == (t0 + (r0 + r1) + (d0 + d1))[x]
    {
      assert (t1 + l0)[x] == (t0 + r0 + d0)[x];
      assert (t2 + l1)[x] == (t1 + r1 + d1)[x];
    }
  }

  lemma {:induction false} NothingDoubledOrLost(held: seq<multiset<Label>>, ops: seq<Op>, gone: set<nat>)
    requires AllApply(ops, |held|) && UsesOnce(ops, gone)
    ensures Doubled(held, ops, gone) == Lost(held, ops, gone) == multiset{}
    decreases |ops|
  {
    if ops != [] {
      assert Touches(ops[0], Target(ops[0]));
      NothingDoubledOrLost(Hold(held, ops[0]), ops[1..], NowGone(ops[0], gone));
    }
  }

  lemma {:induction false} NoLabels(secs: seq<Section>)
    requires AllCovered(secs) && forall i :: 0 <= i < |secs| ==> secs[i].anns == []
    ensures Total(secs) == multiset{}
  {
    if secs != [] {
      assert Labels(secs[0]) == [];
      NoLabels(secs[1..]);
    }
  }

  lemma Balanced(held: multiset<Label>, lost: multiset<Label>, recorded: multiset<Label>, doubled: multiset<Label>)
    requires held + lost == multiset{} + recorded + doubled
    ensures held == recorded <==> doubled == lost
  {
    assert forall x: Label :: (held + lost)[x] == (multiset{} + recorded + doubled)[x];
    if doubled == lost {
      forall x: Label
        ensures held[x] == recorded[x]
      {
        assert (held + lost)[x] == (multiset{} + recorded + doubled)[x];
      }
    } else if held == recorded {
      forall x: Label
        ensures doubled[x] == lost[x]
      {
        assert (held + lost)[x] == (multiset{} + recorded + doubled)[x];
      }
      assert false;
    }
  }

  /** After any run, every section holds the labels that the account kept from the operations gives it; and the sections in
      use hold exactly what was recorded, each annotation once, if and only if by that account the labels that merged sections
      give away a second time are those that they swallow; so in particular if no merged section is used again. */
  lemma FlatConserves(n: nat, ops: seq<Op>)
    requires AllApply(ops, n)
    ensures Holds(SeqRun(NoText(n), ops), Held(NothingHeld(n), ops))
    ensures LiveTotal(SeqRun(NoText(n), ops), Gone(ops, {})) == Recorded(ops)
       <==> Doubled(NothingHeld(n), ops, {}) == Lost(NothingHeld(n), ops, {})
    ensures UsesOnce(ops, {}) ==> LiveTotal(SeqRun(NoText(n), ops), Gone(ops, {})) == Recorded(ops)
  {
    var secs, held := NoText(n), NothingHeld(n);
    forall i | 0 <= i < n
      ensures Bag(secs[i]) == held[i]
    {
      EmptyBag("");
    }
    FlatRunConserves(secs, held, ops, {});
    NoLabels(Living(secs, {}));
    Balanced(LiveTotal(SeqRun(secs, ops), Gone(ops, {})), Lost(held, ops, {}), Recorded(ops), Doubled(held, ops, {}));
    if UsesOnce(ops, {}) {
      NothingDoubledOrLost(held, ops, {});
    }
  }

  // ---------------------------------------------------------------- flattening

  predicate SameKey(a: Annotation, b: Annotation)
  {
    a.startOffset == b.startOffset && a.info == b.info
  }

  /** Without the annotations that repeat the one before them. */
  function Deduped(raw: seq<Annotation>): (r: seq<Annotation>)
    ensures raw != [] ==> r != [] && SameKey(r[|r| - 1], raw[|raw| - 1])
  {
    if |raw| <= 1 then raw
    else
      var n := |raw| - 1;
      if SameKey(raw[n], raw[n - 1]) then Deduped(raw[..n]) else Deduped(raw[..n]) + [raw[n]]
  }

  method Dedup(raw: seq<Annotation>) returns (result: seq<Annotation>)
    ensures result == Deduped(raw)
  {
    result := [];
    if |raw| == 0 {
      return;
    }
    result := [raw[0]];
    assert raw[..1] == [raw[0]];
    for i := 1 to |raw|
      invariant result == Deduped(raw[..i]) && result != []
    {
      assert raw[..i + 1][..i] == raw[..i];
      var prev := result[|result| - 1];
      var cur := raw[i];
      if cur.startOffset == prev.startOffset && cur.info.line == prev.info.line &&
         cur.info.col == prev.info.col && cur.info.fileIndex == prev.info.fileIndex {
        continue;
      }
      result := result + [cur];
    }
    assert raw[..|raw|] == raw;
  }

  /** The `i`-th entry is the first of a run of entries with one start and one position. */
  predicate Leads(raw: seq<Annotation>, i: nat)
    requires i < |raw|
  {
    i == 0 || raw[i].startOffset != raw[i - 1].startOffset || raw[i].info != raw[i - 1].info
  }

  ghost function LeaderSet(raw: seq<Annotation>): set<nat>
  {
    set i: nat | i < |raw| && Leads(raw, i)
  }

  ghost function Members(at: seq<nat>): set<nat>
  {
    set i | i in at
  }

  lemma LeaderSetNext(raw: seq<Annotation>, n: nat)
    requires n + 1 == |raw|
    ensures LeaderSet(raw) == LeaderSet(raw[..n]) + if Leads(raw, n) then {n} else {}
  {
    assert forall i: nat :: i < n ==> (Leads(raw, i) <==> Leads(raw[..n], i));
  }

  lemma MembersNext(at: seq<nat>, n: nat)
    ensures Members(at + [n]) == Members(at) + {n}
  {
  }

  ghost predicate Picks(raw: seq<Annotation>, at: seq<nat>, r: seq<Annotation>)
  {
    |at| == |r| && forall j :: 0 <= j < |at| ==> at[j] < |raw| && r[j] == raw[at[j]]
  }

  ghost predicate Ascend(at: seq<nat>)
  {
    forall j, k :: 0 <= j < k < |at| ==> at[j] < at[k]
  }

  lemma PicksNext(raw: seq<Annotation>, n: nat, at: seq<nat>, r: seq<Annotation>)
    requires n + 1 == |raw| && Picks(raw[..n], at, r) && Ascend(at)
    ensures Picks(raw, at, r) && Picks(raw, at + [n], r + [raw[n]]) && Ascend(at + [n])
  {
  }

  lemma {:induction false} DedupedPicks(raw: seq<Annotation>) returns (at: seq<nat>)
    ensures Picks(raw, at, Deduped(raw)) && Ascend(at) && Members(at) == LeaderSet(raw)
  {
    if raw == [] {
      at := [];
    } else {
      var n := |raw| - 1;
      at := DedupedPicks(raw[..n]);
      PicksNext(raw, n, at, Deduped(raw[..n]));
      LeaderSetNext(raw, n);
      MembersNext(at, n);
      DedupedNext(raw, n);
      if Leads(raw, n) {
        at := at + [n];
      }
    }
  }

  lemma DedupedNext(raw: seq<Annotation>, n: nat)
    requires n + 1 == |raw|
    ensures Deduped(raw) == if Leads(raw, n) then Deduped(raw[..n]) + [raw[n]] else Deduped(raw[..n])
  {
    if n == 0 {
      assert raw[..0] == [];
    }
  }

  lemma {:induction false} NeighboursDiffer(raw: seq<Annotation>, j: nat)
    requires 0 < j < |Deduped(raw)|
    ensures Leads(Deduped(raw), j)
  {
    var n := |raw| - 1;
    DedupedNext(raw, n);
    if j < |Deduped(raw[..n])| {
      NeighboursDiffer(raw[..n], j);
    }
  }

  /** The list without repetitions: the entries of `raw`, in their order, that lead a run of one start and one position, and
      no others; so every entry that is left starts a run of its own. */
  lemma DedupedIs(raw: seq<Annotation>) returns (at: seq<nat>)
    ensures |at| == |Deduped(raw)| && forall j :: 0 <= j < |at| ==> at[j] < |raw| && Deduped(raw)[j] == raw[at[j]]
    ensures forall j, k :: 0 <= j < k < |at| ==> at[j] < at[k]
    ensures (set i | i in at) == (set i: nat | i < |raw| && Leads(raw, i))
    ensures forall j: nat :: j < |Deduped(raw)| ==> Leads(Deduped(raw), j)
  {
    at := DedupedPicks(raw);
    assert Members(at) == (set i | i in at);
    forall j: nat | j < |Deduped(raw)|
      ensures Leads(Deduped(raw), j)
    {
      if j > 0 { NeighboursDiffer(raw, j); }
    }
  }

  /** Every entry has one left that starts where it does, with the same position. */
  lemma {:induction false} DedupedCovers(raw: seq<Annotation>, a: Annotation)
    ensures a in Deduped(raw) ==> a in raw
    ensures a in raw ==> exists b :: b in Deduped(raw) && b.startOffset == a.startOffset && b.info == a.info
  {
    if |raw| > 1 {
      var n := |raw| - 1;
      DedupedCovers(raw[..n], a);
      assert raw == raw[..n] + [raw[n]];
      if a == raw[n] {
        var r := Deduped(raw);
        assert r[|r| - 1] in r && SameKey(r[|r| - 1], a);
      }
    }
  }

  /** A decoded mapping with the path its source index stands for. */
  datatype Spot = Spot(genLine: int, genCol: int, path: string, origLine: int, origCol: int)

  ghost predicate IsSpot(m: Mapping, sources: seq<string>, spot: Spot)
  {
    0 <= m.sourceIdx < |sources| && spot == Spot(m.genLine, m.genCol, sources[m.sourceIdx], m.origLine, m.origCol)
  }

  ghost predicate Maps(ms: seq<Mapping>, sources: seq<string>, spot: Spot)
  {
    exists m :: m in ms && IsSpot(m, sources, spot)
  }

  /** The spot of an annotation that is kept. */
  ghost predicate Spots(spot: Spot, a: Annotation, code: string, path: int -> string)
  {
    && a.info.fileIndex != INVALID_FILE_IDX && a.info.line >= 1 && path(a.info.fileIndex) != ""
    && OffsetStandsAt(code, a.startOffset, spot.genLine, spot.genCol)
    && spot.path == path(a.info.fileIndex) && spot.origLine == a.info.line - 1 && spot.origCol == a.info.col
  }

  ghost predicate SpotAmong(spot: Spot, anns: seq<Annotation>, code: string, path: int -> string)
  {
    exists a :: a in anns && Spots(spot, a, code, path)
  }

  lemma MarkIsSpot(m: Mapping, a: Annotation, code: string, sources: seq<string>, path: int -> string, spot: Spot)
    requires Marks(m, a, code, sources, path)
    ensures IsSpot(m, sources, spot) <==> Spots(spot, a, code, path)
  {
    OffsetStandsThere(code, a.startOffset, m.genLine, m.genCol);
    OffsetStandsThere(code, a.startOffset, spot.genLine, spot.genCol);
  }

  lemma MapsExactly(ms: seq<Mapping>, anns: seq<Annotation>, code: string, sources: seq<string>, path: int -> string, spot: Spot)
    requires MarksEach(ms, anns, code, sources, path)
    ensures Maps(ms, sources, spot) <==> SpotAmong(spot, anns, code, path)
  {
    if SpotAmong(spot, anns, code, path) {
      var a :| a in anns && Spots(spot, a, code, path);
      assert HasMark(ms, a, code, sources, path);
      var m :| m in ms && Marks(m, a, code, sources, path);
      MarkIsSpot(m, a, code, sources, path, spot);
    }
    if Maps(ms, sources, spot) {
      var m :| m in ms && IsSpot(m, sources, spot);
      assert IsMark(m, anns, code, sources, path);
      var a :| a in anns && Marks(m, a, code, sources, path);
      MarkIsSpot(m, a, code, sources, path, spot);
    }
  }

  lemma DedupKeepsSpots(raw: seq<Annotation>, code: string, path: int -> string, spot: Spot)
    ensures SpotAmong(spot, Deduped(raw), code, path) <==> SpotAmong(spot, raw, code, path)
  {
    if SpotAmong(spot, Deduped(raw), code, path) {
      var a :| a in Deduped(raw) && Spots(spot, a, code, path);
      DedupedCovers(raw, a);
    }
    if SpotAmong(spot, raw, code, path) {
      var a :| a in raw && Spots(spot, a, code, path);
      DedupedCovers(raw, a);
      var b :| b in Deduped(raw) && b.startOffset == a.startOffset && b.info == a.info;
      assert Spots(spot, b, code, path);
    }
  }

  /** Dropping repeated annotations changes the segments but not the set of decoded mappings. */
  lemma DedupKeepsMappings(raw: seq<Annotation>, code: string, path: int -> string,
                           ms: seq<Mapping>, sources: seq<string>, ms': seq<Mapping>, sources': seq<string>, spot: Spot)
    requires MarksEach(ms, raw, code, sources, path)
    requires MarksEach(ms', Deduped(raw), code, sources', path)
    ensures Maps(ms, sources, spot) <==> Maps(ms', sources', spot)
  {
    MapsExactly(ms, raw, code, sources, path, spot);
    MapsExactly(ms', Deduped(raw), code, sources', path, spot);
    DedupKeepsSpots(raw, code, path, spot);
  }

  // ---------------------------------------------------------------- footprints

  /** No object belongs to two sections. */
  ghost predicate Apart(feet: seq<set<object>>)
  {
    forall i, j :: 0 <= i < |feet| && 0 <= j < |feet| && i != j ==> feet[i] !! feet[j]
  }

  lemma ApartUpdate(feet: seq<set<object>>, i: nat, foot: set<object>)
    requires Apart(feet) && i < |feet|
    requires forall j :: 0 <= j < |feet| && j != i ==> feet[j] !! foot
    ensures Apart(feet[i := foot])
  {
  }

  lemma ApartUpdates(feet: seq<set<object>>, i: nat, foot: set<object>, s: nat, footS: set<object>)
    requires Apart(feet) && i < |feet| && s < |feet| && (if i == s then foot == footS else foot !! footS)
    requires forall j :: 0 <= j < |feet| && j != i && j != s ==> feet[j] !! foot && feet[j] !! footS
    ensures Apart(feet[i := foot][s := footS])
  {
  }
}
