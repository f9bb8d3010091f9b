/** How post-processed code is cut at its directives, told without the search that cuts it. */
module DirectiveCuts {
  import opened Wrappers
  import opened Rebasing

  /** The search finds the first occurrence, or the end. */
  lemma {:induction false} FindIs(s: string, c: char, from: nat)
    requires from <= |s|
    ensures var k := Find(s, c, from); c !in s[from..k] && (k < |s| ==> s[k] == c)
    decreases |s| - from
  {
    if from < |s| && s[from] != c {
      FindIs(s, c, from + 1);
      var k := Find(s, c, from + 1);
      assert s[from..k] == [s[from]] + s[from + 1..k];
    }
  }

  lemma {:induction false} FindSkips(s: string, c: char, from: nat, k: nat)
    requires from <= k <= |s| && c !in s[from..k] && (k < |s| ==> s[k] == c)
    ensures Find(s, c, from) == k
    decreases k - from
  {
    if from < k {
      assert s[from] == s[from..k][0] && s[from..k][1..] == s[from + 1..k];
      FindSkips(s, c, from + 1, k);
    }
  }

  /** A directive, with what is inside it. */
  function Directive(inside: string): string
  {
    [DIR_START] + inside + [DIR_END]
  }

  function Inside(p: Piece): string
  {
    if |p.directive| < 2 then "" else p.directive[1..|p.directive| - 1]
  }

  /** Plain code and a directive that ends at the first end character, with the call for what is inside, given the file of the
      directive before. */
  predicate WellCut(p: Piece, last: string, calls: Calls)
  {
    && DIR_START !in p.code && p.directive == Directive(Inside(p)) && DIR_END !in Inside(p)
    && Ask(Inside(p), last) in calls && p.call == calls[Ask(Inside(p), last)].code
  }

  predicate AllWellCut(pieces: seq<Piece>, last: string, calls: Calls)
  {
    pieces == [] || (WellCut(pieces[0], last, calls) && AllWellCut(pieces[1..], calls[Ask(Inside(pieces[0]), last)].file, calls))
  }

  lemma WellCutThen(piece: Piece, rest: seq<Piece>, last: string, calls: Calls)
    requires WellCut(piece, last, calls) && AllWellCut(rest, calls[Ask(Inside(piece), last)].file, calls)
    ensures AllWellCut([piece] + rest, last, calls)
  {
    assert ([piece] + rest)[1..] == rest;
  }

  /** The piece that the search cuts off is cut well. */
  lemma FoundPiece(s: string, p: nat, f: nat, e: nat)
    requires p <= |s| && f == Find(s, DIR_START, p) < |s| && e == Find(s, DIR_END, f + 1) < |s|
    ensures DIR_START !in s[p..f] && DIR_END !in s[f + 1..e] && s[f..e + 1] == Directive(s[f + 1..e])
  {
    FindIs(s, DIR_START, p);
    FindIs(s, DIR_END, f + 1);
  }

  lemma InsideDirective(code: string, inside: string, call: string)
    ensures Inside(Piece(code, Directive(inside), call)) == inside
  {
  }

  lemma {:induction false} CutIsWellCut(s: string, p: nat, last: string, calls: Calls)
    requires p <= |s| && Cut(s, p, last, calls).Some?
    ensures var cut := Cut(s, p, last, calls).value; AllWellCut(cut.pieces, last, calls) && DIR_START !in cut.tail
    decreases |s| - p
  {
    var f := Find(s, DIR_START, p);
    if f == |s| {
      FindIs(s, DIR_START, p);
      assert s[p..f] == s[p..];
    } else {
      var e := Find(s, DIR_END, f + 1);
      CutOnce(s, p, f, e, last, calls);
      var call := calls[Ask(s[f + 1..e], last)];
      CutIsWellCut(s, e + 1, call.file, calls);
      FoundWellCut(s, p, f, e, last, calls, Cut(s, e + 1, call.file, calls).value.pieces);
    }
  }

  lemma FoundWellCut(s: string, p: nat, f: nat, e: nat, last: string, calls: Calls, rest: seq<Piece>)
    requires p <= |s| && f == Find(s, DIR_START, p) < |s| && e == Find(s, DIR_END, f + 1) < |s| && Ask(s[f + 1..e], last) in calls
    requires AllWellCut(rest, calls[Ask(s[f + 1..e], last)].file, calls)
    ensures AllWellCut([Piece(s[p..f], s[f..e + 1], calls[Ask(s[f + 1..e], last)].code)] + rest, last, calls)
  {
    var call := calls[Ask(s[f + 1..e], last)];
    FoundPiece(s, p, f, e);
    InsideDirective(s[p..f], s[f + 1..e], call.code);
    WellCutThen(Piece(s[p..f], s[f..e + 1], call.code), rest, last, calls);
  }

  /** The code up to a directive, and the directive, are cut off. */
  lemma DirectiveAt(s: string, p: nat, f: nat, e: nat, last: string, calls: Calls)
    requires p <= f < e < |s| && s[f] == DIR_START && s[e] == DIR_END && DIR_START !in s[p..f] && DIR_END !in s[f + 1..e]
    requires Ask(s[f + 1..e], last) in calls
    ensures var call := calls[Ask(s[f + 1..e], last)];
      Cut(s, p, last, calls) == Behind([Piece(s[p..f], s[f..e + 1], call.code)], Cut(s, e + 1, call.file, calls))
  {
    FindSkips(s, DIR_START, p, f);
    FindSkips(s, DIR_END, f + 1, e);
    CutOnce(s, p, f, e, last, calls);
  }

  /** The pieces lie one after the other in `s` from `p` on, and the tail behind them. */
  ghost predicate LaidOut(s: string, p: nat, pieces: seq<Piece>, tail: string)
    requires p <= |s|
    decreases |pieces|
  {
    if pieces == [] then s[p..] == tail
    else
      var f, q := p + |pieces[0].code|, p + |pieces[0].code| + |pieces[0].directive|;
      q <= |s| && s[p..f] == pieces[0].code && s[f..q] == pieces[0].directive && LaidOut(s, q, pieces[1..], tail)
  }

  lemma Slices(s: string, p: nat, code: string, directive: string, more: string)
    requires p <= |s| && s[p..] == code + directive + more
    ensures var f, q := p + |code|, p + |code| + |directive|;
      q <= |s| && s[p..f] == code && s[f..q] == directive && s[q..] == more
  {
    var t := s[p..];
    assert t[..|code|] == code && t[|code|..|code| + |directive|] == directive && t[|code| + |directive|..] == more;
  }

  lemma {:induction false} BeforeLaidOut(s: string, p: nat, pieces: seq<Piece>, tail: string)
    requires p <= |s| && s[p..] == Before(pieces, tail)
    ensures LaidOut(s, p, pieces, tail)
    decreases |pieces|
  {
    if pieces != [] {
      Slices(s, p, pieces[0].code, pieces[0].directive, Before(pieces[1..], tail));
      BeforeLaidOut(s, p + |pieces[0].code| + |pieces[0].directive|, pieces[1..], tail);
    }
  }

  lemma DirectiveParts(d: string, inside: string)
    requires d == Directive(inside)
    ensures |d| == |inside| + 2 && d[0] == DIR_START && d[1..|d| - 1] == inside && d[|d| - 1] == DIR_END
  {
  }

  lemma DirectiveSlices(s: string, f: nat, q: nat, inside: string)
    requires f <= q <= |s| && s[f..q] == Directive(inside)
    ensures f + 1 <= q - 1 && s[f] == DIR_START && s[f + 1..q - 1] == inside && s[q - 1] == DIR_END
  {
    var d := s[f..q];
    DirectiveParts(d, inside);
    assert s[f] == d[0] && s[q - 1] == d[|d| - 1];
    SliceOfSlice(s, f, q, 1, q - f - 1);
  }

  lemma SliceOfSlice(s: string, f: nat, q: nat, i: nat, j: nat)
    requires f <= q <= |s| && i <= j <= q - f
    ensures s[f..q][i..j] == s[f + i..f + j]
  {
    var d := s[f..q];
    forall k | 0 <= k < j - i
      ensures d[i..j][k] == s[f + i..f + j][k]
    {
      assert d[i + k] == s[f + i + k];
    }
  }

  /** A text is cut after a piece that lies in it. */
  lemma PieceIsCut(s: string, p: nat, f: nat, q: nat, piece: Piece, last: string, calls: Calls)
    requires p <= f <= q <= |s| && s[p..f] == piece.code && s[f..q] == piece.directive && WellCut(piece, last, calls)
    ensures Cut(s, p, last, calls) == Behind([piece], Cut(s, q, calls[Ask(Inside(piece), last)].file, calls))
  {
    DirectiveSlices(s, f, q, Inside(piece));
    DirectiveAt(s, p, f, q - 1, last, calls);
  }

  lemma BehindFirst(pieces: seq<Piece>, tail: string)
    requires pieces != []
    ensures Behind([pieces[0]], Some(Text(pieces[1..], tail))) == Some(Text(pieces, tail))
  {
    assert [pieces[0]] + pieces[1..] == pieces;
  }

  lemma NothingToCut(s: string, p: nat, last: string, calls: Calls)
    requires p <= |s| && DIR_START !in s[p..]
    ensures Cut(s, p, last, calls) == Some(Text([], s[p..]))
  {
    assert s[p..|s|] == s[p..];
    FindSkips(s, DIR_START, p, |s|);
  }

  lemma {:induction false} WellCutIsCut(s: string, p: nat, last: string, calls: Calls, pieces: seq<Piece>, tail: string)
    requires p <= |s| && LaidOut(s, p, pieces, tail) && AllWellCut(pieces, last, calls) && DIR_START !in tail
    ensures Cut(s, p, last, calls) == Some(Text(pieces, tail))
    decreases |pieces|
  {
    if pieces == [] {
      NothingToCut(s, p, last, calls);
    } else {
      var piece := pieces[0];
      var f, q := p + |piece.code|, p + |piece.code| + |piece.directive|;
      PieceIsCut(s, p, f, q, piece, last, calls);
      WellCutIsCut(s, q, calls[Ask(Inside(piece), last)].file, calls, pieces[1..], tail);
      BehindFirst(pieces, tail);
    }
  }

  /** Code is understood exactly if it can be cut into plain code and directives, each from a start character to the first end
      character and with a call, and a tail without a start character; and it can in one way only. */
  lemma CutExact(s: string, last: string, calls: Calls, pieces: seq<Piece>, tail: string)
    ensures Cut(s, 0, last, calls) == Some(Text(pieces, tail)) <==>
      Before(pieces, tail) == s && AllWellCut(pieces, last, calls) && DIR_START !in tail
  {
    assert s[0..] == s;
    if Cut(s, 0, last, calls) == Some(Text(pieces, tail)) {
      CutIsText(s, 0, last, calls);
      CutIsWellCut(s, 0, last, calls);
    } else if Before(pieces, tail) == s && AllWellCut(pieces, last, calls) && DIR_START !in tail {
      BeforeLaidOut(s, 0, pieces, tail);
      WellCutIsCut(s, 0, last, calls, pieces, tail);
    }
  }
}
