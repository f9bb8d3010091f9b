/** The whole way of a module's source map: sections are filled and merged, the annotations of one of them flattened, its
    code post-processed, and the annotations resolved, encoded and decoded again. */
module ModuleMaps {
  import opened Wrappers
  import opened SourceMaps
  import opened SourceMapBuilder
  import opened Sections
  import Rebasing
  import SeqStorage

  /** An annotation moved to the bytes that its range has become. */
  function Moved(pieces: seq<Rebasing.Piece>, a: Annotation): Annotation
    requires 0 <= a.startOffset && 0 <= a.endOffset
  {
    a.(startOffset := Rebasing.Image(pieces, a.startOffset), endOffset := Rebasing.Image(pieces, a.endOffset))
  }

  ghost predicate AllMoved(pieces: seq<Rebasing.Piece>, anns: seq<Annotation>, moved: seq<Annotation>)
  {
    |moved| == |anns| && forall k :: 0 <= k < |anns| ==> 0 <= anns[k].startOffset && 0 <= anns[k].endOffset && moved[k] == Moved(pieces, anns[k])
  }

  /** The loop at the end of `postprocessCode`. */
  method MoveAnnotations(rewrites: seq<Rebasing.Rewrite>, anns: seq<Annotation>, ghost pieces: seq<Rebasing.Piece>) returns (moved: seq<Annotation>)
    requires Rebasing.RealDirectives(pieces) && rewrites == Rebasing.Rewrites(pieces, 0, 0)
    requires forall k :: 0 <= k < |anns| ==> 0 <= anns[k].startOffset && 0 <= anns[k].endOffset
    ensures AllMoved(pieces, anns, moved)
  {
    moved := [];
    Rebasing.RewritesInOrder(pieces, 0, 0);
    for k := 0 to |anns|
      invariant |moved| == k && forall j :: 0 <= j < k ==> moved[j] == Moved(pieces, anns[j])
    {
      Rebasing.RebasedAt(pieces, "", anns[k].startOffset);
      Rebasing.RebasedAt(pieces, "", anns[k].endOffset);
      var start := Rebasing.RebaseOffset(rewrites, anns[k].startOffset);
      var end := Rebasing.RebaseOffset(rewrites, anns[k].endOffset);
      moved := moved + [anns[k].(startOffset := start, endOffset := end)];
    }
  }

  /** Every annotation that is kept has a mapping for its start in the code after post-processing, and every mapping is that
      of one. */
  ghost predicate MapsAll(ms: seq<Mapping>, sources: seq<string>, anns: seq<Annotation>, pieces: seq<Rebasing.Piece>, code: string,
                          path: int -> string)
    requires forall a :: a in anns ==> 0 <= a.startOffset && 0 <= a.endOffset
  {
    && (forall a :: a in anns && a.info.fileIndex != INVALID_FILE_IDX && a.info.line >= 1 && path(a.info.fileIndex) != "" ==>
          HasMark(ms, Moved(pieces, a), code, sources, path))
    && (forall m :: m in ms ==> exists a :: a in anns && Marks(m, Moved(pieces, a), code, sources, path))
  }

  lemma SameMark(m: Mapping, a: Annotation, b: Annotation, code: string, sources: seq<string>, path: int -> string)
    requires Marks(m, a, code, sources, path) && b.startOffset == a.startOffset && b.info == a.info
    ensures Marks(m, b, code, sources, path)
  {
  }

  lemma MappedMarks(ms: seq<Mapping>, sources: seq<string>, raw: seq<Annotation>, moved: seq<Annotation>, pieces: seq<Rebasing.Piece>,
                    code: string, path: int -> string)
    requires forall a :: a in raw ==> 0 <= a.startOffset && 0 <= a.endOffset
    requires AllMoved(pieces, Deduped(raw), moved) && MarksEach(ms, moved, code, sources, path)
    ensures MapsAll(ms, sources, raw, pieces, code, path)
  {
    forall a | a in raw && a.info.fileIndex != INVALID_FILE_IDX && a.info.line >= 1 && path(a.info.fileIndex) != ""
      ensures HasMark(ms, Moved(pieces, a), code, sources, path)
    {
      DedupedCovers(raw, a);
      var b :| b in Deduped(raw) && b.startOffset == a.startOffset && b.info == a.info;
      var k :| 0 <= k < |moved| && Deduped(raw)[k] == b;
      assert moved[k] in moved && HasMark(ms, moved[k], code, sources, path);
      var m :| m in ms && Marks(m, moved[k], code, sources, path);
      SameMark(m, moved[k], Moved(pieces, a), code, sources, path);
    }
    forall m | m in ms
      ensures exists a :: a in raw && Marks(m, Moved(pieces, a), code, sources, path)
    {
      assert IsMark(m, moved, code, sources, path);
      var x :| x in moved && Marks(m, x, code, sources, path);
      var k :| 0 <= k < |moved| && moved[k] == x;
      DedupedCovers(raw, Deduped(raw)[k]);
    }
  }

  /** What is known of every annotation of a section: its range selects the characters that it covered when it was recorded,
      and its first byte, unless it lies in a directive, is found unchanged in the post-processed code. */
  ghost predicate Recovered(a: Annotation, text: string, code: string, pieces: seq<Rebasing.Piece>, recorded: multiset<Label>)
  {
    && 0 <= a.startOffset <= a.endOffset <= |text| && LabelOf(text, a) in recorded
    && (a.startOffset < a.endOffset && !Rebasing.InDirective(pieces, a.startOffset) ==>
          Rebasing.Image(pieces, a.startOffset) < |code| && code[Rebasing.Image(pieces, a.startOffset)] == text[a.startOffset])
  }

  lemma AllRecovered(secs: seq<Section>, i: nat, m: multiset<Label>, cut: Rebasing.Text)
    requires i < |secs| && AllFrom(secs, m) && Rebasing.RealDirectives(cut.pieces) && Rebasing.Before(cut.pieces, cut.tail) == secs[i].text
    ensures forall a :: a in secs[i].anns ==> Recovered(a, secs[i].text, Rebasing.After(cut.pieces, cut.tail), cut.pieces, m)
  {
    forall a | a in secs[i].anns
      ensures Recovered(a, secs[i].text, Rebasing.After(cut.pieces, cut.tail), cut.pieces, m)
    {
      assert Covered(secs[i]) && From(secs[i], m);
      var k :| 0 <= k < |secs[i].anns| && secs[i].anns[k] == a;
      Rebasing.RebasedAt(cut.pieces, cut.tail, a.startOffset);
    }
  }

  /** Any run of sections, then the source map of one of them.  It fails exactly if a directive in the code is not understood.
      Otherwise the emitted string decodes to one mapping for each annotation kept, at the line and column that the
      annotation's first byte has in the post-processed code. */
  method MapSection(n: nat, ops: seq<Op>, i: nat, calls: Rebasing.Calls, path: int -> string)
    returns (code: string, sm: V3Sourcemap, ok: bool)
    requires AllApply(ops, n) && i < n
    ensures ok == Rebasing.Cut(SeqRun(NoText(n), ops)[i].text, 0, "", calls).Some?
    ensures forall a :: a in SeqRun(NoText(n), ops)[i].anns ==> 0 <= a.startOffset && 0 <= a.endOffset
    ensures ok ==>
      var sec := SeqRun(NoText(n), ops)[i];
      var cut := Rebasing.Cut(sec.text, 0, "", calls).value;
      var mappings := Decode(sm.mappings, ORIGIN);
      && code == Rebasing.After(cut.pieces, cut.tail)
      && (forall a :: a in sec.anns ==> Recovered(a, sec.text, code, cut.pieces, Recorded(ops)))
      && mappings.Some? && MapsAll(mappings.value, sm.sources, sec.anns, cut.pieces, code, path)
  {
    var flat := new SeqStorage.Generator(n);
    flat.Run(ops);
    assert flat.Holds(i);
    ghost var secs := SeqRun(NoText(n), ops);
    RunFrom(NoText(n), ops, Recorded(ops));
    assert From(secs[i], Recorded(ops));
    InText(secs[i]);
    var raw := SeqStorage.FlattenAnnotations(flat.sections[i]);
    var rewrites;
    code, rewrites, ok := Rebasing.PostprocessCode(flat.sections[i].buf, calls);
    sm := new V3Sourcemap();
    if !ok {
      return;
    }
    ghost var cut := Rebasing.Cut(secs[i].text, 0, "", calls).value;
    Rebasing.CutIsText(secs[i].text, 0, "", calls);
    AllRecovered(secs, i, Recorded(ops), cut);
    var moved := MoveAnnotations(rewrites, raw, cut.pieces);
    ghost var mappings;
    sm, mappings := MapModule(code, moved, path);
    MappedMarks(mappings, sm.sources, secs[i].anns, moved, cut.pieces, code, path);
  }

  lemma InText(s: Section)
    requires Covered(s)
    ensures forall k :: 0 <= k < |Deduped(s.anns)| ==> 0 <= Deduped(s.anns)[k].startOffset && 0 <= Deduped(s.anns)[k].endOffset
    ensures forall a :: a in s.anns ==> 0 <= a.startOffset && 0 <= a.endOffset
  {
    forall k | 0 <= k < |Deduped(s.anns)|
      ensures 0 <= Deduped(s.anns)[k].startOffset && 0 <= Deduped(s.anns)[k].endOffset
    {
      DedupedCovers(s.anns, Deduped(s.anns)[k]);
    }
  }
}
