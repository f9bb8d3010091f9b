/** `V3Sourcemap`: resolving byte offsets of the generated code to lines and columns, and emitting the result. */
module SourceMapBuilder {
  import opened Wrappers
  import opened StableSorts
  import opened Vlq
  import opened SourceMaps

  // ---------------------------------------------------------------- positions in a text

  function Clamp(offset: int, n: nat): (p: nat)
    ensures p <= n
  {
    if offset <= 0 then 0 else if offset >= n then n else offset
  }

  /** The number of newlines before `p`. */
  function LineAt(code: string, p: nat): nat
    requires p <= |code|
  {
    if p == 0 then 0 else LineAt(code, p - 1) + if code[p - 1] == '\n' then 1 else 0
  }

  /** Where the line of `p` starts: just after the last newline before `p`. */
  function LineStart(code: string, p: nat): (q: nat)
    requires p <= |code|
    ensures q <= p
    ensures q == 0 || code[q - 1] == '\n'
    ensures forall i :: q <= i < p ==> code[i] != '\n'
  {
    if p == 0 || code[p - 1] == '\n' then p else LineStart(code, p - 1)
  }

  function ColAt(code: string, p: nat): nat
    requires p <= |code|
  {
    p - LineStart(code, p)
  }

  /** Line and column order positions as offsets do, and tell any two of them apart. */
  lemma {:induction false} PositionsAscend(code: string, p: nat, q: nat)
    requires p < q <= |code|
    ensures LineAt(code, p) < LineAt(code, q) || (LineAt(code, p) == LineAt(code, q) && ColAt(code, p) < ColAt(code, q))
    decreases q
  {
    if p < q - 1 {
      PositionsAscend(code, p, q - 1);
    }
  }

  ghost function NewlinesBefore(code: string, p: nat): set<nat>
    requires p <= |code|
  {
    set i: nat | i < p && code[i] == '\n'
  }

  /** `code[..p]` is `line` lines with their newlines and `col` characters of the next one. */
  ghost predicate StandsAt(code: string, p: nat, line: int, col: int)
    requires p <= |code|
  {
    && line == |NewlinesBefore(code, p)|
    && 0 <= col <= p && (col == p || code[p - col - 1] == '\n')
    && forall i :: p - col <= i < p ==> code[i] != '\n'
  }

  /** An offset outside the text counts as the nearer end. */
  ghost predicate OffsetStandsAt(code: string, offset: int, line: int, col: int)
  {
    if offset < 0 then StandsAt(code, 0, line, col)
    else if offset > |code| then StandsAt(code, |code|, line, col)
    else StandsAt(code, offset, line, col)
  }

  lemma OffsetStandsThere(code: string, offset: int, line: int, col: int)
    ensures var p := Clamp(offset, |code|); OffsetStandsAt(code, offset, line, col) <==> line == LineAt(code, p) && col == ColAt(code, p)
  {
    StandsThere(code, Clamp(offset, |code|), line, col);
  }

  lemma {:induction false} LineCounts(code: string, p: nat)
    requires p <= |code|
    ensures LineAt(code, p) == |NewlinesBefore(code, p)|
  {
    if p > 0 {
      LineCounts(code, p - 1);
      var before := NewlinesBefore(code, p - 1);
      assert NewlinesBefore(code, p) == if code[p - 1] == '\n' then before + {p - 1} else before;
    }
  }

  /** The line and the column counted are where the position stands, and it stands nowhere else. */
  lemma StandsThere(code: string, p: nat, line: int, col: int)
    requires p <= |code|
    ensures StandsAt(code, p, line, col) <==> line == LineAt(code, p) && col == ColAt(code, p)
  {
    LineCounts(code, p);
  }

  // ---------------------------------------------------------------- which annotations are kept

  /** An annotation with the offset it has in the whole text. */
  datatype Placed = Placed(offset: int, info: LineInfo)

  predicate ByOffset(a: Placed, b: Placed)
  {
    a.offset <= b.offset
  }

  lemma ByOffsetIsOrder()
    ensures TotalOrder(ByOffset)
  {
  }

  function PlacedAt(offsets: seq<int>, anns: seq<Annotation>): (r: seq<Placed>)
    requires |offsets| == |anns|
    ensures |r| == |anns|
    ensures forall i :: 0 <= i < |r| ==> r[i] == Placed(offsets[i], anns[i].info)
  {
    seq(|anns|, i requires 0 <= i < |anns| && |offsets| == |anns| => Placed(offsets[i], anns[i].info))
  }

  /** Dropped are: invalid files, line 0, and files without a path. */
  predicate IsKept(it: Placed, path: int -> string)
  {
    it.info.fileIndex != INVALID_FILE_IDX && it.info.line >= 1 && path(it.info.fileIndex) != ""
  }

  function Kept(items: seq<Placed>, path: int -> string): (r: seq<Placed>)
    ensures |r| <= |items|
  {
    if items == [] then []
    else
      var before := Kept(items[..|items| - 1], path);
      if IsKept(items[|items| - 1], path) then before + [items[|items| - 1]] else before
  }

  lemma KeptNext(items: seq<Placed>, k: nat, path: int -> string)
    requires k < |items|
    ensures IsKept(items[k], path) ==> Kept(items[..k + 1], path) == Kept(items[..k], path) + [items[k]]
    ensures !IsKept(items[k], path) ==> Kept(items[..k + 1], path) == Kept(items[..k], path)
  {
    assert items[..k + 1][..k] == items[..k];
  }

  lemma {:induction false} KeptAscends(items: seq<Placed>, path: int -> string)
    requires Ascending(items, ByOffset)
    ensures Ascending(Kept(items, path), ByOffset)
    ensures forall it :: it in Kept(items, path) <==> it in items && IsKept(it, path)
  {
    if items != [] {
      var n := |items| - 1;
      KeptAscends(items[..n], path);
      assert items == items[..n] + [items[n]];
      forall it | it in items[..n]
        ensures ByOffset(it, items[n])
      {
        var i :| 0 <= i < n && items[i] == it;
      }
    }
  }

  /** Each item is kept as often as it occurs. */
  lemma {:induction false} KeptCounts(items: seq<Placed>, path: int -> string, it: Placed)
    ensures multiset(Kept(items, path))[it] == if IsKept(it, path) then multiset(items)[it] else 0
  {
    if items != [] {
      var n := |items| - 1;
      KeptCounts(items[..n], path, it);
      assert items == items[..n] + [items[n]];
    }
  }

  lemma KeptOfRearranged(a: seq<Placed>, b: seq<Placed>, path: int -> string)
    requires multiset(a) == multiset(b)
    ensures |Kept(a, path)| == |Kept(b, path)|
  {
    forall it: Placed
      ensures multiset(Kept(a, path))[it] == multiset(Kept(b, path))[it]
    {
      KeptCounts(a, path, it);
      KeptCounts(b, path, it);
    }
    assert multiset(Kept(a, path)) == multiset(Kept(b, path));
    assert |multiset(Kept(a, path))| == |Kept(a, path)| && |multiset(Kept(b, path))| == |Kept(b, path)|;
  }

  // ---------------------------------------------------------------- the table of sources

  function Register(sources: seq<string>, p: string): seq<string>
  {
    if p in sources then sources else sources + [p]
  }

  /** Every kept path that is new is added when it is first met. */
  function RegisterAll(sources: seq<string>, kept: seq<Placed>, path: int -> string): seq<string>
  {
    if kept == [] then sources
    else Register(RegisterAll(sources, kept[..|kept| - 1], path), path(kept[|kept| - 1].info.fileIndex))
  }

  lemma RegisteredNext(sources: seq<string>, kept: seq<Placed>, it: Placed, path: int -> string)
    ensures RegisterAll(sources, kept + [it], path) == Register(RegisterAll(sources, kept, path), path(it.info.fileIndex))
  {
    assert (kept + [it])[..|kept|] == kept;
  }

  ghost predicate Numbered(sources: seq<string>, index: map<string, nat>)
  {
    (forall i :: 0 <= i < |sources| ==> sources[i] in index && index[sources[i]] == i) &&
    (forall p :: p in index ==> index[p] < |sources| && sources[index[p]] == p)
  }

  /** `m` is what the annotation resolves to, read off the text itself. */
  ghost predicate Locates(m: Mapping, it: Placed, code: string, sources: seq<string>, path: int -> string)
  {
    OffsetStandsAt(code, it.offset, m.genLine, m.genCol) &&
    0 <= m.sourceIdx < |sources| && sources[m.sourceIdx] == path(it.info.fileIndex) &&
    m.origLine == it.info.line - 1 && m.origCol == it.info.col
  }

  ghost predicate AllLocate(ms: seq<Mapping>, kept: seq<Placed>, code: string, sources: seq<string>, path: int -> string)
  {
    |ms| == |kept| && forall i :: 0 <= i < |ms| ==> Locates(ms[i], kept[i], code, sources, path)
  }

  lemma LocatesNext(ms: seq<Mapping>, kept: seq<Placed>, code: string, sources: seq<string>, path: int -> string,
                    m: Mapping, it: Placed, sources': seq<string>)
    requires AllLocate(ms, kept, code, sources, path)
    requires sources <= sources' && Locates(m, it, code, sources', path)
    ensures AllLocate(ms + [m], kept + [it], code, sources', path)
  {
  }

  /** The pass has dealt with the first `k` annotations. */
  ghost predicate Resolved(ms: seq<Mapping>, order: seq<Placed>, k: nat, code: string, before: seq<string>, sources: seq<string>,
                           path: int -> string)
    requires k <= |order|
  {
    AllLocate(ms, Kept(order[..k], path), code, sources, path) && sources == RegisterAll(before, Kept(order[..k], path), path)
  }

  /** The cursor stands at the offset of the annotation before the `k`-th. */
  ghost predicate CursorAt(code: string, order: seq<Placed>, k: nat, pos: nat, line: nat, col: nat)
    requires k <= |order|
  {
    pos == (if k == 0 then 0 else Clamp(order[k - 1].offset, |code|)) && line == LineAt(code, pos) && col == ColAt(code, pos)
  }

  lemma CursorNext(code: string, absStartOffsets: seq<int>, anns: seq<Annotation>, k: nat)
    requires |absStartOffsets| == |anns|
    requires k < |Sorted(PlacedAt(absStartOffsets, anns), ByOffset)|
    ensures var order := Sorted(PlacedAt(absStartOffsets, anns), ByOffset);
      k > 0 ==> Clamp(order[k - 1].offset, |code|) <= Clamp(order[k].offset, |code|)
  {
    var order := Sorted(PlacedAt(absStartOffsets, anns), ByOffset);
    ByOffsetIsOrder();
    SortedSorts(PlacedAt(absStartOffsets, anns), ByOffset);
    assert k > 0 ==> ByOffset(order[k - 1], order[k]);
  }

  lemma ResolvedNext(ms: seq<Mapping>, order: seq<Placed>, k: nat, code: string, before: seq<string>, sources: seq<string>,
                     path: int -> string)
    requires k < |order| && Resolved(ms, order, k, code, before, sources, path)
    ensures !IsKept(order[k], path) ==> Resolved(ms, order, k + 1, code, before, sources, path)
  {
    KeptNext(order, k, path);
  }

  lemma ResolvedKept(ms: seq<Mapping>, order: seq<Placed>, k: nat, code: string, before: seq<string>, sources: seq<string>,
                     sources': seq<string>, path: int -> string, m: Mapping)
    requires k < |order| && Resolved(ms, order, k, code, before, sources, path) && IsKept(order[k], path)
    requires sources' == Register(sources, path(order[k].info.fileIndex)) && Locates(m, order[k], code, sources', path)
    ensures Resolved(ms + [m], order, k + 1, code, before, sources', path)
  {
    var kept := Kept(order[..k], path);
    KeptNext(order, k, path);
    LocatesNext(ms, kept, code, sources, path, m, order[k], sources');
    RegisteredNext(before, kept, order[k], path);
  }

  /** Annotations come out of the pass in the order of their generated positions: sorting them again changes nothing. */
  lemma ResolvedAscend(ms: seq<Mapping>, kept: seq<Placed>, code: string, sources: seq<string>, path: int -> string)
    requires Ascending(kept, ByOffset) && AllLocate(ms, kept, code, sources, path)
    ensures Ascending(ms, ByPosition) && Sorted(ms, ByPosition) == ms
  {
    forall i, j | 0 <= i < j < |ms|
      ensures ByPosition(ms[i], ms[j])
    {
      assert ByOffset(kept[i], kept[j]);
      assert Locates(ms[i], kept[i], code, sources, path) && Locates(ms[j], kept[j], code, sources, path);
      OffsetStandsThere(code, kept[i].offset, ms[i].genLine, ms[i].genCol);
      OffsetStandsThere(code, kept[j].offset, ms[j].genLine, ms[j].genCol);
      var p, q := Clamp(kept[i].offset, |code|), Clamp(kept[j].offset, |code|);
      if p < q {
        PositionsAscend(code, p, q);
      }
    }
    AlreadySorted(ms, ByPosition);
  }

  /** Moves the cursor over `code` up to `target`. */
  method Advance(code: string, line: nat, col: nat, pos: nat, target: int) returns (line': nat, col': nat, pos': nat)
    requires pos <= Clamp(target, |code|)
    requires line == LineAt(code, pos) && col == ColAt(code, pos)
    ensures pos' == Clamp(target, |code|)
    ensures line' == LineAt(code, pos') && col' == ColAt(code, pos')
  {
    line', col', pos' := line, col, pos;
    while pos' < target && pos' < |code|
      invariant pos' <= Clamp(target, |code|)
      invariant line' == LineAt(code, pos') && col' == ColAt(code, pos')
    {
      if code[pos'] == '\n' {
        line' := line' + 1;
        col' := 0;
      } else {
        col' := col' + 1;
      }
      pos' := pos' + 1;
    }
  }

  lemma LineGrows(m: string, at: Mapping, anns: seq<Mapping>)
    requires anns != [] && at.genLine < anns[0].genLine
    ensures m + Tail(LineStarts(m), at, anns) == (m + ";") + Tail(LineStarts(m + ";"), NextLine(at), anns)
  {
  }

  lemma Regroup(a: string, b: string, c: string)
    ensures a + (b + c) == (a + b) + c
  {
  }

  lemma SegmentGrows(m: string, at: Mapping, anns: seq<Mapping>)
    requires anns != [] && at.genLine >= anns[0].genLine
    ensures var m' := (if LineStarts(m) then m else m + ",") + EncodedSegment(Delta(at, anns[0]));
            m + Tail(LineStarts(m), at, anns) == m' + Tail(LineStarts(m'), anns[0].(genLine := at.genLine), anns[1..])
  {
    var segment := EncodedSegment(Delta(at, anns[0]));
    var rest := Tail(false, anns[0].(genLine := at.genLine), anns[1..]);
    var sep := if LineStarts(m) then "" else ",";
    assert Tail(LineStarts(m), at, anns) == (sep + segment) + rest;
    Regroup(m, sep + segment, rest);
    Regroup(m, sep, segment);
    assert m + "" == m;
    SegmentEnds(m + sep, segment);
  }

  /** The field once the annotations from the `k`-th on have been emitted too. */
  ghost function Completed(m: string, at: Mapping, anns: seq<Mapping>, k: nat): string
    requires k <= |anns|
  {
    m + Tail(LineStarts(m), at, anns[k..])
  }

  lemma LineEmitted(m: string, at: Mapping, anns: seq<Mapping>, k: nat)
    requires k < |anns| && at.genLine < anns[k].genLine
    ensures Completed(m, at, anns, k) == Completed(m + ";", NextLine(at), anns, k)
  {
    LineGrows(m, at, anns[k..]);
  }

  lemma SegmentEmitted(m: string, at: Mapping, anns: seq<Mapping>, k: nat, m': string)
    requires k < |anns| && at.genLine >= anns[k].genLine
    requires m' == (if LineStarts(m) then m else m + ",") + EncodedSegment(Delta(at, anns[k]))
    ensures Completed(m, at, anns, k) == Completed(m', anns[k].(genLine := at.genLine), anns, k + 1)
  {
    SegmentGrows(m, at, anns[k..]);
    assert anns[k..][1..] == anns[k + 1..];
  }

  lemma AllEmitted(m: string, at: Mapping, anns: seq<Mapping>)
    ensures Completed(m, at, anns, |anns|) == m
    ensures Completed(m, at, anns, 0) == m + Tail(LineStarts(m), at, anns)
  {
    assert anns[0..] == anns;
  }

  lemma SegmentEnds(m: string, segment: string)
    requires segment != "" && segment[|segment| - 1] != ';'
    ensures !LineStarts(m + segment)
  {
  }

  class V3Sourcemap {
    var sources: seq<string>
    var sourceIndex: map<string, nat>
    var mappings: string

    ghost predicate Valid()
      reads this
    {
      Numbered(sources, sourceIndex)
    }

    constructor ()
      ensures Valid() && sources == [] && mappings == ""
    {
      sources, sourceIndex, mappings := [], map[], "";
    }

    method SourceIdx(path: string) returns (i: nat)
      requires Valid()
      modifies this`sources, this`sourceIndex
      ensures Valid()
      ensures sources == Register(old(sources), path)
      ensures i < |sources| && sources[i] == path
    {
      if path in sourceIndex {
        return sourceIndex[path];
      }
      i := |sources|;
      assert path !in sources;
      sources := sources + [path];
      sourceIndex := sourceIndex[path := i];
    }

    /** The mapping of an annotation met at `line` and `col`, if it is kept; its path is registered. */
    method ResolveOne(it: Placed, code: string, line: nat, col: nat, path: int -> string) returns (m: Option<Mapping>)
      requires Valid() && OffsetStandsAt(code, it.offset, line, col)
      modifies this`sources, this`sourceIndex
      ensures Valid() && (m.Some? <==> IsKept(it, path))
      ensures m.None? ==> sources == old(sources)
      ensures m.Some? ==> sources == Register(old(sources), path(it.info.fileIndex)) && Locates(m.value, it, code, sources, path)
    {
      var info := it.info;
      if info.fileIndex == INVALID_FILE_IDX {
        return None;
      }
      var origLine := info.line - 1;
      if origLine < 0 {
        return None;
      }
      var nimPath := path(info.fileIndex);
      if |nimPath| == 0 {
        return None;
      }
      var srcIdx := SourceIdx(nimPath);
      m := Some(Mapping(line, col, srcIdx, origLine, info.col));
    }

    /** One pass over `code` in the order of the offsets. */
    method ResolveAnnotations(code: string, absStartOffsets: seq<int>, anns: seq<Annotation>, path: int -> string) returns (result: seq<Mapping>)
      requires Valid() && |absStartOffsets| == |anns|
      modifies this`sources, this`sourceIndex
      ensures Valid()
      ensures var kept := Kept(Sorted(PlacedAt(absStartOffsets, anns), ByOffset), path);
              AllLocate(result, kept, code, sources, path) && sources == RegisterAll(old(sources), kept, path)
    {
      result := [];
      var order := Sorted(PlacedAt(absStartOffsets, anns), ByOffset);
      if anns == [] {
        return;
      }
      var line, col, pos := 0, 0, 0;
      for k := 0 to |order|
        invariant Valid() && CursorAt(code, order, k, pos, line, col)
        invariant Resolved(result, order, k, code, old(sources), sources, path)
      {
        CursorNext(code, absStartOffsets, anns, k);
        line, col, pos := Advance(code, line, col, pos, order[k].offset);
        OffsetStandsThere(code, order[k].offset, line, col);
        ResolvedNext(result, order, k, code, old(sources), sources, path);
        ghost var known := sources;
        var m := ResolveOne(order[k], code, line, col, path);
        if m.Some? {
          ResolvedKept(result, order, k, code, old(sources), known, sources, path, m.value);
          result := result + [m.value];
        }
      }
      assert order[..|order|] == order;
    }

    /** Appends one call's segments; `resolved` comes back sorted. */
    method EmitMappings(resolved: seq<Mapping>) returns (sorted: seq<Mapping>)
      modifies this`mappings
      ensures sorted == Sorted(resolved, ByPosition)
      ensures mappings == old(mappings) + Tail(LineStarts(old(mappings)), ORIGIN, sorted)
    {
      sorted := Sorted(resolved, ByPosition);
      AllEmitted(mappings, ORIGIN, sorted);
      if resolved == [] {
        return;
      }
      var prev := ORIGIN;
      var k := 0;
      ghost var whole := Completed(mappings, ORIGIN, sorted, 0);
      while k < |sorted|
        invariant 0 <= k <= |sorted|
        invariant whole == Completed(mappings, prev, sorted, k)
      {
        var ann := sorted[k];
        while prev.genLine < ann.genLine
          invariant whole == Completed(mappings, prev, sorted, k)
        {
          LineEmitted(mappings, prev, sorted, k);
          mappings := mappings + ";";
          prev := NextLine(prev);
        }
        ghost var before := mappings;
        if |mappings| > 0 && mappings[|mappings| - 1] != ';' {
          mappings := mappings + ",";
        }
        var s := EncodeSegment(Delta(prev, ann));
        mappings := mappings + s;
        SegmentEmitted(before, prev, sorted, k, mappings);
        prev := ann.(genLine := prev.genLine);
        k := k + 1;
      }
      AllEmitted(mappings, prev, sorted);
    }
  }

  /** `m` is the mapping of the annotation: it is kept, and `m` gives the position of its start in `code`, its path, and its
      line counted from 0. */
  ghost predicate Marks(m: Mapping, a: Annotation, code: string, sources: seq<string>, path: int -> string)
  {
    && a.info.fileIndex != INVALID_FILE_IDX && a.info.line >= 1 && path(a.info.fileIndex) != ""
    && OffsetStandsAt(code, a.startOffset, m.genLine, m.genCol)
    && 0 <= m.sourceIdx < |sources| && sources[m.sourceIdx] == path(a.info.fileIndex)
    && m.origLine == a.info.line - 1 && m.origCol == a.info.col
  }

  /** Every annotation with a valid file, a line and a path has a mapping, and every mapping is that of an annotation. */
  ghost predicate MarksEach(ms: seq<Mapping>, anns: seq<Annotation>, code: string, sources: seq<string>, path: int -> string)
  {
    && (forall a :: a in anns && a.info.fileIndex != INVALID_FILE_IDX && a.info.line >= 1 && path(a.info.fileIndex) != "" ==>
          HasMark(ms, a, code, sources, path))
    && (forall m :: m in ms ==> IsMark(m, anns, code, sources, path))
  }

  ghost predicate HasMark(ms: seq<Mapping>, a: Annotation, code: string, sources: seq<string>, path: int -> string)
  {
    exists m :: m in ms && Marks(m, a, code, sources, path)
  }

  ghost predicate IsMark(m: Mapping, anns: seq<Annotation>, code: string, sources: seq<string>, path: int -> string)
  {
    exists a :: a in anns && Marks(m, a, code, sources, path)
  }

  function StartsOf(anns: seq<Annotation>): (r: seq<int>)
    ensures |r| == |anns| && forall i :: 0 <= i < |r| ==> r[i] == anns[i].startOffset
  {
    seq(|anns|, i requires 0 <= i < |anns| => anns[i].startOffset)
  }

  ghost function KeptAll(anns: seq<Annotation>, path: int -> string): seq<Placed>
  {
    Kept(Sorted(PlacedAt(StartsOf(anns), anns), ByOffset), path)
  }

  /** Which annotations have a valid file, a line and a path. */
  ghost function Mappable(anns: seq<Annotation>, path: int -> string): set<nat>
  {
    set i: nat | i < |anns| && anns[i].info.fileIndex != INVALID_FILE_IDX && anns[i].info.line >= 1 && path(anns[i].info.fileIndex) != ""
  }

  lemma {:induction false} MappableCount(anns: seq<Annotation>, path: int -> string)
    ensures |Kept(PlacedAt(StartsOf(anns), anns), path)| == |Mappable(anns, path)|
  {
    if anns != [] {
      var n := |anns| - 1;
      MappableCount(anns[..n], path);
      MappableLast(anns, path);
      var placed := PlacedAt(StartsOf(anns), anns);
      assert placed[..n] == PlacedAt(StartsOf(anns[..n]), anns[..n]);
    }
  }

  lemma MappableLast(anns: seq<Annotation>, path: int -> string)
    requires anns != []
    ensures var n := |anns| - 1;
      Mappable(anns, path) == Mappable(anns[..n], path) + if IsKept(Placed(anns[n].startOffset, anns[n].info), path) then {n} else {}
  {
    var n := |anns| - 1;
    assert forall i: nat :: i < n ==> anns[..n][i] == anns[i];
  }

  lemma KeptAllSize(anns: seq<Annotation>, path: int -> string)
    ensures |KeptAll(anns, path)| == |Mappable(anns, path)|
  {
    var placed := PlacedAt(StartsOf(anns), anns);
    ByOffsetIsOrder();
    SortedSorts(placed, ByOffset);
    KeptOfRearranged(Sorted(placed, ByOffset), placed, path);
    MappableCount(anns, path);
  }

  lemma KeptAllMembers(anns: seq<Annotation>, path: int -> string, it: Placed)
    ensures Ascending(KeptAll(anns, path), ByOffset)
    ensures it in KeptAll(anns, path) <==> IsKept(it, path) && exists a :: a in anns && it == Placed(a.startOffset, a.info)
  {
    var placed := PlacedAt(StartsOf(anns), anns);
    ByOffsetIsOrder();
    SortedSorts(placed, ByOffset);
    KeptAscends(Sorted(placed, ByOffset), path);
    assert it in multiset(Sorted(placed, ByOffset)) <==> it in multiset(placed);
    if it in placed {
      var i :| 0 <= i < |placed| && placed[i] == it;
      assert anns[i] in anns;
    }
    if a :| a in anns && it == Placed(a.startOffset, a.info) {
      var i :| 0 <= i < |anns| && anns[i] == a;
      assert placed[i] == it;
    }
  }

  lemma LocatesMarks(m: Mapping, a: Annotation, code: string, sources: seq<string>, path: int -> string)
    ensures Marks(m, a, code, sources, path) <==>
      IsKept(Placed(a.startOffset, a.info), path) && Locates(m, Placed(a.startOffset, a.info), code, sources, path)
  {
  }

  lemma AllLocateMarks(ms: seq<Mapping>, anns: seq<Annotation>, code: string, sources: seq<string>, path: int -> string)
    requires AllLocate(ms, KeptAll(anns, path), code, sources, path)
    ensures MarksEach(ms, anns, code, sources, path)
  {
    var kept := KeptAll(anns, path);
    forall a | a in anns && a.info.fileIndex != INVALID_FILE_IDX && a.info.line >= 1 && path(a.info.fileIndex) != ""
      ensures HasMark(ms, a, code, sources, path)
    {
      var it := Placed(a.startOffset, a.info);
      KeptAllMembers(anns, path, it);
      assert IsKept(it, path) && it in kept;
      var i :| 0 <= i < |kept| && kept[i] == it;
      assert Locates(ms[i], kept[i], code, sources, path);
      LocatesMarks(ms[i], a, code, sources, path);
      assert ms[i] in ms;
    }
    forall m | m in ms
      ensures IsMark(m, anns, code, sources, path)
    {
      var i :| 0 <= i < |ms| && ms[i] == m;
      assert Locates(ms[i], kept[i], code, sources, path);
      assert kept[i] in kept;
      KeptAllMembers(anns, path, kept[i]);
      var a :| a in anns && kept[i] == Placed(a.startOffset, a.info);
      LocatesMarks(m, a, code, sources, path);
    }
  }

  lemma KeptResolved(ms: seq<Mapping>, anns: seq<Annotation>, code: string, sources: seq<string>, path: int -> string)
    requires AllLocate(ms, KeptAll(anns, path), code, sources, path)
    ensures MarksEach(ms, anns, code, sources, path) && Sorted(ms, ByPosition) == ms
    ensures forall i :: 0 <= i < |ms| ==> ms[i].genLine >= 0
  {
    AllLocateMarks(ms, anns, code, sources, path);
    KeptAllMembers(anns, path, Placed(0, LineInfo(0, 0, 0)));
    ResolvedAscend(ms, KeptAll(anns, path), code, sources, path);
    forall i | 0 <= i < |ms|
      ensures ms[i].genLine >= 0
    {
      assert Locates(ms[i], KeptAll(anns, path)[i], code, sources, path);
    }
  }

  /** The pipeline of a module's sidecar: whatever the annotations, decoding the emitted string gives one mapping for
      each kept annotation, at the line and column of its offset, in the order of the offsets. */
  method MapModule(code: string, anns: seq<Annotation>, path: int -> string) returns (sm: V3Sourcemap, ghost resolved: seq<Mapping>)
    ensures fresh(sm) && sm.Valid()
    ensures Decode(sm.mappings, ORIGIN) == Some(resolved)
    ensures AllLocate(resolved, KeptAll(anns, path), code, sm.sources, path)
    ensures MarksEach(resolved, anns, code, sm.sources, path) && |resolved| == |Mappable(anns, path)|
  {
    sm := new V3Sourcemap();
    var r := sm.ResolveAnnotations(code, StartsOf(anns), anns, path);
    KeptResolved(r, anns, code, sm.sources, path);
    KeptAllSize(anns, path);
    resolved := r;
    var s := sm.EmitMappings(r);
    EmittedDecodes(r);
    assert "" + Tail(true, ORIGIN, s) == Tail(true, ORIGIN, s);
  }
}
