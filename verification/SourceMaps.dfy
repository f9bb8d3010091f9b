/** From annotations on generated text to the `mappings` string of a source map, and back by the decoder's rule. */
module SourceMaps {
  import opened Wrappers
  import opened StableSorts
  import opened Vlq

  datatype LineInfo = LineInfo(fileIndex: int, line: nat, col: int)

  const INVALID_FILE_IDX := -1

  datatype Annotation = Annotation(startOffset: int, endOffset: int, info: LineInfo, endInfo: LineInfo)

  /** A resolved annotation; also a decoder's running position. */
  datatype Mapping = Mapping(genLine: int, genCol: int, sourceIdx: int, origLine: int, origCol: int)

  const ORIGIN := Mapping(0, 0, 0, 0, 0)

  predicate ByPosition(a: Mapping, b: Mapping)
  {
    a.genLine < b.genLine || (a.genLine == b.genLine && a.genCol <= b.genCol)
  }

  lemma ByPositionIsOrder()
    ensures TotalOrder(ByPosition)
  {
  }

  // ---------------------------------------------------------------- decoding

  function Moved(at: Mapping, g: Segment): Mapping
  {
    Mapping(at.genLine, at.genCol + g.generatedCol, at.sourceIdx + g.sourceIdx, at.origLine + g.originalLine, at.origCol + g.originalCol)
  }

  function NextLine(at: Mapping): Mapping
  {
    at.(genLine := at.genLine + 1, genCol := 0)
  }

  predicate Boundary(s: string)
  {
    s == "" || s[0] == ';' || s[0] == ','
  }

  /** ECMA-426, section "Mappings structure": `;` starts a generated line and resets the generated column, `,` separates
      segments, and every field of a segment is relative to its previous value. */
  function Decode(s: string, at: Mapping): (r: Option<seq<Mapping>>)
    decreases |s|
  {
    if s == "" then Some([])
    else if s[0] == ';' then Decode(s[1..], NextLine(at))
    else if s[0] == ',' then Decode(s[1..], at)
    else
      match DecodedSegment(s)
      case None => None
      case Some((g, rest)) =>
        if !Boundary(rest) then None
        else
          match Decode(rest, Moved(at, g))
          case None => None
          case Some(later) => Some([Moved(at, g)] + later)
  }

  // ---------------------------------------------------------------- encoding

  function Delta(at: Mapping, a: Mapping): Segment
  {
    Segment(a.genCol - at.genCol, a.sourceIdx - at.sourceIdx, a.origLine - at.origLine, a.origCol - at.origCol)
  }

  /** What `emitMappings` appends for `anns` when it stands at `at`; `open_` says that no segment precedes on this line. */
  function Tail(open_: bool, at: Mapping, anns: seq<Mapping>): (s: string)
    decreases |anns|, if anns == [] then 0 else anns[0].genLine - at.genLine
  {
    if anns == [] then ""
    else if at.genLine < anns[0].genLine then ";" + Tail(true, NextLine(at), anns)
    else
      (if open_ then "" else ",") + EncodedSegment(Delta(at, anns[0])) + Tail(false, anns[0].(genLine := at.genLine), anns[1..])
  }

  predicate LineStarts(mappings: string)
  {
    mappings == "" || mappings[|mappings| - 1] == ';'
  }

  lemma TailBoundary(at: Mapping, anns: seq<Mapping>)
    ensures Boundary(Tail(false, at, anns))
  {
  }

  ghost predicate LinesAscend(from: int, anns: seq<Mapping>)
    decreases |anns|
  {
    anns == [] || (from <= anns[0].genLine && LinesAscend(anns[0].genLine, anns[1..]))
  }

  lemma {:induction false} AscendingLines(anns: seq<Mapping>)
    requires Ascending(anns, ByPosition)
    ensures anns != [] ==> LinesAscend(anns[0].genLine, anns)
  {
    if |anns| > 1 {
      AscendingLines(anns[1..]);
      assert ByPosition(anns[0], anns[1]);
    }
  }

  lemma SegmentDecodes(at: Mapping, a: Mapping, rest: string, anns: seq<Mapping>)
    requires at.genLine == a.genLine && Boundary(rest) && Decode(rest, a) == Some(anns)
    ensures Decode(EncodedSegment(Delta(at, a)) + rest, at) == Some([a] + anns)
  {
    SegmentRoundTrip(Delta(at, a), rest);
    var s := EncodedSegment(Delta(at, a)) + rest;
    assert s[0] != ';' && s[0] != ',';
    assert Moved(at, Delta(at, a)) == a;
  }

  lemma SeparatorDecodes(s: string, at: Mapping)
    ensures Decode(";" + s, at) == Decode(s, NextLine(at))
    ensures Decode("," + s, at) == Decode(s, at)
  {
  }

  lemma TailSegment(open_: bool, at: Mapping, anns: seq<Mapping>)
    requires anns != [] && at.genLine == anns[0].genLine
    ensures var body := EncodedSegment(Delta(at, anns[0])) + Tail(false, anns[0], anns[1..]);
            Tail(open_, at, anns) == if open_ then body else "," + body
  {
  }

  lemma LineStep(open_: bool, at: Mapping, anns: seq<Mapping>)
    requires anns != [] && at.genLine < anns[0].genLine
    requires Decode(Tail(true, NextLine(at), anns), NextLine(at)) == Some(anns)
    ensures Decode(Tail(open_, at, anns), at) == Some(anns)
  {
  }

  lemma SegmentStep(open_: bool, at: Mapping, anns: seq<Mapping>)
    requires anns != [] && at.genLine == anns[0].genLine
    requires Decode(Tail(false, anns[0], anns[1..]), anns[0]) == Some(anns[1..])
    ensures Decode(Tail(open_, at, anns), at) == Some(anns)
  {
    var rest := Tail(false, anns[0], anns[1..]);
    TailBoundary(anns[0], anns[1..]);
    SegmentDecodes(at, anns[0], rest, anns[1..]);
    assert [anns[0]] + anns[1..] == anns;
    SeparatorDecodes(EncodedSegment(Delta(at, anns[0])) + rest, at);
    TailSegment(open_, at, anns);
  }

  /** What is emitted from a position is decoded, from that position, to the annotations themselves. */
  lemma {:induction false} TailDecodes(open_: bool, at: Mapping, anns: seq<Mapping>)
    requires LinesAscend(at.genLine, anns)
    ensures Decode(Tail(open_, at, anns), at) == Some(anns)
    decreases |anns|, if anns == [] then 0 else anns[0].genLine - at.genLine
  {
    if anns != [] {
      if at.genLine < anns[0].genLine {
        TailDecodes(true, NextLine(at), anns);
        LineStep(open_, at, anns);
      } else {
        TailDecodes(false, anns[0], anns[1..]);
        SegmentStep(open_, at, anns);
      }
    }
  }

  /** One call of `emitMappings` on an empty field: decoding gives back the annotations, sorted. */
  lemma EmittedDecodes(resolved: seq<Mapping>)
    requires forall i :: 0 <= i < |resolved| ==> resolved[i].genLine >= 0
    ensures Decode(Tail(true, ORIGIN, Sorted(resolved, ByPosition)), ORIGIN) == Some(Sorted(resolved, ByPosition))
    ensures var r := Sorted(resolved, ByPosition);
      && multiset(r) == multiset(resolved)
      && forall i, j :: 0 <= i < j < |r| ==>
        r[i].genLine < r[j].genLine || (r[i].genLine == r[j].genLine && r[i].genCol <= r[j].genCol)
  {
    ByPositionIsOrder();
    SortedSorts(resolved, ByPosition);
    var s := Sorted(resolved, ByPosition);
    if s != [] {
      assert s[0] in multiset(resolved);
      AscendingLines(s);
    }
    TailDecodes(true, ORIGIN, s);
  }

  // ---------------------------------------------------------------- a second call

  /** Where a decoder stands after `s`. */
  function After(s: string, at: Mapping): (r: Option<Mapping>)
    decreases |s|
  {
    if s == "" then Some(at)
    else if s[0] == ';' then After(s[1..], NextLine(at))
    else if s[0] == ',' then After(s[1..], at)
    else
      match DecodedSegment(s)
      case None => None
      case Some((g, rest)) => if Boundary(rest) then After(rest, Moved(at, g)) else None
  }

  function Plus(m: Mapping, d: Mapping): Mapping
  {
    Mapping(m.genLine + d.genLine, m.genCol + d.genCol, m.sourceIdx + d.sourceIdx, m.origLine + d.origLine, m.origCol + d.origCol)
  }

  /** `anns` as they come out of a decoder that started at `d` and not at the origin: every field is off by the
      start, the column only on the line it started on. */
  function Drifted(anns: seq<Mapping>, line: int, d: Mapping): (r: seq<Mapping>)
    ensures |r| == |anns|
  {
    if anns == [] then []
    else [Plus(anns[0], if anns[0].genLine == line then d else d.(genCol := 0))] + Drifted(anns[1..], line, d)
  }

  lemma {:induction false} DecodeEnds(s: string, at: Mapping)
    requires Decode(s, at).Some?
    ensures After(s, at).Some?
    decreases |s|
  {
    if s != "" {
      if s[0] == ';' {
        DecodeEnds(s[1..], NextLine(at));
      } else if s[0] == ',' {
        DecodeEnds(s[1..], at);
      } else {
        var (g, rest) := DecodedSegment(s).value;
        DecodeEnds(rest, Moved(at, g));
      }
    }
  }

  lemma {:induction false} DecodeSplits(s: string, x: string, at: Mapping)
    requires Decode(s, at).Some? && After(s, at).Some? && (LineStarts(s) || Boundary(x))
    ensures Decode(x, After(s, at).value).Some? ==>
              Decode(s + x, at) == Some(Decode(s, at).value + Decode(x, After(s, at).value).value)
    decreases |s|, 1
  {
    if s == "" {
      assert s + x == x;
      if Decode(x, at).Some? {
        assert [] + Decode(x, at).value == Decode(x, at).value;
      }
    } else {
      assert (s + x)[1..] == s[1..] + x;
      if s[0] == ';' {
        DecodeSplits(s[1..], x, NextLine(at));
      } else if s[0] == ',' {
        DecodeSplits(s[1..], x, at);
      } else {
        SegmentThenSplits(s, x, at);
      }
    }
  }

  lemma {:induction false} SegmentThenSplits(s: string, x: string, at: Mapping)
    requires s != "" && s[0] != ';' && s[0] != ','
    requires Decode(s, at).Some? && After(s, at).Some? && (LineStarts(s) || Boundary(x))
    ensures Decode(x, After(s, at).value).Some? ==>
              Decode(s + x, at) == Some(Decode(s, at).value + Decode(x, After(s, at).value).value)
    decreases |s|, 0
  {
    var (g, rest) := DecodedSegment(s).value;
    SegmentDecoded(s, at);
    RestBoundary(s, x, rest);
    DecodeSplits(rest, x, Moved(at, g));
    var next := Decode(x, After(rest, Moved(at, g)).value);
    if next.Some? {
      SegmentSplits(s, x, at, g, rest, next.value);
    }
  }

  lemma SegmentDecoded(s: string, at: Mapping)
    requires s != "" && s[0] != ';' && s[0] != ',' && Decode(s, at).Some?
    ensures DecodedSegment(s).Some?
    ensures var (g, rest) := DecodedSegment(s).value;
      && Boundary(rest) && Decode(rest, Moved(at, g)).Some? && After(s, at) == After(rest, Moved(at, g))
      && Decode(s, at).value == [Moved(at, g)] + Decode(rest, Moved(at, g)).value
  {
  }

  lemma RestBoundary(s: string, x: string, rest: string)
    requires DecodedSegment(s).Some? && rest == DecodedSegment(s).value.1 && Boundary(rest) && s != "" && (LineStarts(s) || Boundary(x))
    ensures Boundary(rest + x) && (LineStarts(rest) || Boundary(x))
  {
    SegmentLeaves(s);
    if rest == "" {
      assert rest + x == x;
    }
  }

  lemma SegmentReads(s: string, at: Mapping, g: Segment, rest: string, r: seq<Mapping>)
    requires s != "" && s[0] != ';' && s[0] != ',' && DecodedSegment(s) == Some((g, rest)) && Boundary(rest)
    requires Decode(rest, Moved(at, g)) == Some(r)
    ensures Decode(s, at) == Some([Moved(at, g)] + r)
  {
  }

  lemma SegmentSplits(s: string, x: string, at: Mapping, g: Segment, rest: string, r: seq<Mapping>)
    requires s != "" && s[0] != ';' && s[0] != ',' && Decode(s, at).Some? && DecodedSegment(s) == Some((g, rest))
    requires Boundary(rest + x) && Decode(rest + x, Moved(at, g)) == Some(Decode(rest, Moved(at, g)).value + r)
    ensures Decode(s + x, at) == Some(Decode(s, at).value + r)
  {
    SegmentExtends(s, x);
    SegmentDecoded(s, at);
    var now, l := Moved(at, g), Decode(rest, Moved(at, g)).value;
    SegmentReads(s + x, at, g, rest + x, l + r);
    Regrouped([now], l, r);
  }

  lemma Regrouped(a: seq<Mapping>, b: seq<Mapping>, c: seq<Mapping>)
    ensures (a + b) + c == a + (b + c)
  {
  }

  lemma {:induction false} DecodeStaysBelow(s: string, at: Mapping, i: nat)
    requires Decode(s, at).Some? && i < |Decode(s, at).value|
    ensures Decode(s, at).value[i].genLine >= at.genLine
    decreases |s|
  {
    if s[0] == ';' {
      DecodeStaysBelow(s[1..], NextLine(at), i);
    } else if s[0] == ',' {
      DecodeStaysBelow(s[1..], at, i);
    } else if i > 0 {
      var (g, rest) := DecodedSegment(s).value;
      DecodeStaysBelow(rest, Moved(at, g), i - 1);
    }
  }

  lemma {:induction false} DriftBelow(anns: seq<Mapping>, line: int, d: Mapping, other: int)
    requires forall i :: 0 <= i < |anns| ==> anns[i].genLine > line
    ensures Drifted(anns, line, d) == Drifted(anns, other, d.(genCol := 0))
  {
    if anns != [] {
      DriftBelow(anns[1..], line, d, other);
    }
  }

  lemma {:induction false} DecodeDrifts(s: string, at: Mapping, d: Mapping)
    requires Decode(s, at).Some?
    ensures Decode(s, Plus(at, d)) == Some(Drifted(Decode(s, at).value, at.genLine, d))
    decreases |s|
  {
    if s != "" {
      if s[0] == ';' {
        var below := d.(genCol := 0);
        assert NextLine(Plus(at, d)) == Plus(NextLine(at), below);
        DecodeDrifts(s[1..], NextLine(at), below);
        var anns := Decode(s, at).value;
        forall i | 0 <= i < |anns|
          ensures anns[i].genLine > at.genLine
        {
          DecodeStaysBelow(s[1..], NextLine(at), i);
        }
        DriftBelow(anns, at.genLine, d, NextLine(at).genLine);
      } else if s[0] == ',' {
        DecodeDrifts(s[1..], at, d);
      } else {
        var (g, rest) := DecodedSegment(s).value;
        assert Moved(Plus(at, d), g) == Plus(Moved(at, g), d);
        DecodeDrifts(rest, Moved(at, g), d);
        var later := Decode(rest, Moved(at, g)).value;
        assert ([Moved(at, g)] + later)[1..] == later;
      }
    }
  }

  /** `emitMappings` starts its deltas from zero on every call, while a decoder goes on from where `mappings` ended:
      annotations appended to a non-empty field come out displaced by that end. */
  lemma AppendedDrifts(mappings: string, anns: seq<Mapping>)
    requires Decode(mappings, ORIGIN).Some? && LinesAscend(0, anns)
    ensures After(mappings, ORIGIN).Some?
    ensures Decode(mappings + Tail(LineStarts(mappings), ORIGIN, anns), ORIGIN)
         == Some(Decode(mappings, ORIGIN).value + Drifted(anns, 0, After(mappings, ORIGIN).value))
  {
    var tail := Tail(LineStarts(mappings), ORIGIN, anns);
    TailDecodes(LineStarts(mappings), ORIGIN, anns);
    if !LineStarts(mappings) {
      TailBoundary(ORIGIN, anns);
    }
    DecodeEnds(mappings, ORIGIN);
    DecodeSplits(mappings, tail, ORIGIN);
    var end := After(mappings, ORIGIN).value;
    assert Plus(ORIGIN, end) == end;
    DecodeDrifts(tail, ORIGIN, end);
  }

  ghost predicate NothingPending(end: Mapping, anns: seq<Mapping>)
  {
    anns == [] || end == ORIGIN || (end.(genCol := 0) == ORIGIN && anns[0].genLine > 0)
  }

  lemma {:induction false} NoDrift(anns: seq<Mapping>, line: int, d: Mapping)
    requires d == ORIGIN || (d.(genCol := 0) == ORIGIN && LinesAscend(line + 1, anns))
    ensures Drifted(anns, line, d) == anns
  {
    if anns != [] {
      assert d == ORIGIN || LinesAscend(line + 1, anns[1..]) by {
        if d != ORIGIN {
          LinesRelax(line + 1, anns);
        }
      }
      NoDrift(anns[1..], line, d);
    }
  }

  lemma LinesRelax(from: int, anns: seq<Mapping>)
    requires anns != [] && LinesAscend(from, anns)
    ensures LinesAscend(from, anns[1..])
  {
  }

  /** A second call is decoded correctly exactly when the first one left nothing pending that it would have to undo. */
  lemma AppendedExact(mappings: string, anns: seq<Mapping>)
    requires Decode(mappings, ORIGIN).Some? && After(mappings, ORIGIN).Some? && LinesAscend(0, anns)
    ensures Decode(mappings + Tail(LineStarts(mappings), ORIGIN, anns), ORIGIN) == Some(Decode(mappings, ORIGIN).value + anns)
        <==> NothingPending(After(mappings, ORIGIN).value, anns)
  {
    AppendedDrifts(mappings, anns);
    var end := After(mappings, ORIGIN).value;
    var before := Decode(mappings, ORIGIN).value;
    if NothingPending(end, anns) {
      if anns != [] {
        NoDrift(anns, 0, end);
      }
    } else {
      var drifted := Drifted(anns, 0, end);
      assert drifted[0] != anns[0];
      assert (before + drifted)[|before|] != (before + anns)[|before|];
    }
  }
}
