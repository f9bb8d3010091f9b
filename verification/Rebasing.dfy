/** `postprocessCode`: directives in the generated code are replaced by calls of another length, and the offsets of
    annotations are moved to the same bytes. */
module Rebasing {
  import opened Wrappers

  /** Plain code followed by one directive and the call that replaces it. */
  datatype Piece = Piece(code: string, directive: string, call: string)

  datatype Rewrite = Rewrite(oldStart: nat, oldEnd: nat, newStart: nat, newEnd: nat)

  function Before(pieces: seq<Piece>, tail: string): string
  {
    if pieces == [] then tail else pieces[0].code + pieces[0].directive + Before(pieces[1..], tail)
  }

  function After(pieces: seq<Piece>, tail: string): string
  {
    if pieces == [] then tail else pieces[0].code + pieces[0].call + After(pieces[1..], tail)
  }

  /** The rewrites of pieces that start at `a` in the old text and at `b` in the new one. */
  function Rewrites(pieces: seq<Piece>, a: nat, b: nat): (r: seq<Rewrite>)
    ensures |r| == |pieces|
  {
    if pieces == [] then []
    else
      var p := pieces[0];
      var from, to := a + |p.code|, b + |p.code|;
      [Rewrite(from, from + |p.directive|, to, to + |p.call|)] + Rewrites(pieces[1..], from + |p.directive|, to + |p.call|)
  }

  // ---------------------------------------------------------------- finding the directives

  const DIR_START := 1 as char
  const DIR_END := 23 as char

  /** The first `c` from `from` on; the length if there is none. */
  function Find(s: string, c: char, from: nat): (k: nat)
    requires from <= |s|
    ensures from <= k <= |s|
    decreases |s| - from
  {
    if from == |s| || s[from] == c then from else Find(s, c, from + 1)
  }

  method FindFrom(r: string, c: char, from: nat) returns (k: nat)
    requires from <= |r|
    ensures k == Find(r, c, from)
  {
    k := from;
    while k < |r| && r[k] != c
      invariant from <= k <= |r| && Find(r, c, k) == Find(r, c, from)
    {
      k := k + 1;
    }
  }

  /** What is inside a directive, with the file of the directive before, which a call need not name again. */
  datatype Ask = Ask(inside: string, last: string)

  /** The code that stands for a directive, and the file that the directive names. */
  datatype Call = Call(code: string, file: string)

  /** The calls for directives; one without a call is not understood. */
  type Calls = map<Ask, Call>

  datatype Text = Text(pieces: seq<Piece>, tail: string)

  /** The code from `p` on, cut at its directives; none if a directive has no end or no call. */
  function Cut(s: string, p: nat, last: string, calls: Calls): Option<Text>
    requires p <= |s|
    decreases |s| - p
  {
    var f := Find(s, DIR_START, p);
    if f == |s| then Some(Text([], s[p..]))
    else
      var e := Find(s, DIR_END, f + 1);
      if e == |s| then None
      else
        var ask := Ask(s[f + 1..e], last);
        if ask !in calls then None
        else
          Behind([Piece(s[p..f], s[f..e + 1], calls[ask].code)], Cut(s, e + 1, calls[ask].file, calls))
  }

  function Behind(done: seq<Piece>, rest: Option<Text>): Option<Text>
  {
    if rest.None? then None else Some(Text(done + rest.value.pieces, rest.value.tail))
  }

  lemma BehindThen(a: seq<Piece>, b: seq<Piece>, rest: Option<Text>)
    ensures Behind(a, Behind(b, rest)) == Behind(a + b, rest)
  {
    if rest.Some? {
      assert a + (b + rest.value.pieces) == (a + b) + rest.value.pieces;
    }
  }

  /** The first directive from `p` on. */
  lemma CutOnce(s: string, p: nat, f: nat, e: nat, last: string, calls: Calls)
    requires p <= |s| && f == Find(s, DIR_START, p) < |s| && e == Find(s, DIR_END, f + 1) < |s|
    ensures var ask := Ask(s[f + 1..e], last);
      Cut(s, p, last, calls)
      == if ask !in calls then None
         else Behind([Piece(s[p..f], s[f..e + 1], calls[ask].code)], Cut(s, e + 1, calls[ask].file, calls))
  {
  }

  /** One directive more is done. */
  lemma CutMore(s: string, p: nat, f: nat, e: nat, last: string, calls: Calls, done: seq<Piece>)
    requires p <= |s| && f == Find(s, DIR_START, p) < |s| && e == Find(s, DIR_END, f + 1) < |s|
    ensures var ask := Ask(s[f + 1..e], last);
      Behind(done, Cut(s, p, last, calls))
      == if ask !in calls then None
         else Behind(done + [Piece(s[p..f], s[f..e + 1], calls[ask].code)], Cut(s, e + 1, calls[ask].file, calls))
  {
    var ask := Ask(s[f + 1..e], last);
    CutOnce(s, p, f, e, last, calls);
    if ask in calls {
      BehindThen(done, [Piece(s[p..f], s[f..e + 1], calls[ask].code)], Cut(s, e + 1, calls[ask].file, calls));
    }
  }

  /** Cutting loses nothing, and every directive takes up some text. */
  lemma {:induction false} CutIsText(s: string, p: nat, last: string, calls: Calls)
    requires p <= |s| && Cut(s, p, last, calls).Some?
    ensures var cut := Cut(s, p, last, calls).value;
      Before(cut.pieces, cut.tail) == s[p..] && RealDirectives(cut.pieces)
    decreases |s| - p
  {
    var f := Find(s, DIR_START, p);
    if f < |s| {
      var e := Find(s, DIR_END, f + 1);
      CutOnce(s, p, f, e, last, calls);
      var call := calls[Ask(s[f + 1..e], last)];
      CutIsText(s, e + 1, call.file, calls);
      PieceInFront(s, p, f, e + 1, call.code, Cut(s, e + 1, call.file, calls).value);
    }
  }

  lemma PieceInFront(s: string, p: nat, f: nat, q: nat, call: string, rest: Text)
    requires p <= f < q <= |s| && Before(rest.pieces, rest.tail) == s[q..] && RealDirectives(rest.pieces)
    ensures var pieces := [Piece(s[p..f], s[f..q], call)] + rest.pieces;
      Before(pieces, rest.tail) == s[p..] && RealDirectives(pieces)
  {
    var pieces := [Piece(s[p..f], s[f..q], call)] + rest.pieces;
    assert pieces[1..] == rest.pieces;
    SlicedFrom(s, p, f, q);
  }

  lemma SlicedFrom(s: string, p: nat, f: nat, q: nat)
    requires p <= f <= q <= |s|
    ensures s[p..f] + s[f..q] + s[q..] == s[p..]
  {
  }

  lemma {:induction false} BeforeMore(done: seq<Piece>, p: Piece)
    ensures Before(done + [p], "") == Before(done, "") + p.code + p.directive
  {
    if done == [] {
      assert [] + [p] == [p] && p.code + p.directive + "" == p.code + p.directive;
    } else {
      BeforeMore(done[1..], p);
      assert (done + [p])[1..] == done[1..] + [p];
      assert done[0].code + done[0].directive + (Before(done[1..], "") + p.code + p.directive)
          == (done[0].code + done[0].directive + Before(done[1..], "")) + p.code + p.directive;
    }
  }

  lemma {:induction false} AfterMore(done: seq<Piece>, p: Piece)
    ensures After(done + [p], "") == After(done, "") + p.code + p.call
  {
    if done == [] {
      assert [] + [p] == [p] && p.code + p.call + "" == p.code + p.call;
    } else {
      AfterMore(done[1..], p);
      assert (done + [p])[1..] == done[1..] + [p];
      assert done[0].code + done[0].call + (After(done[1..], "") + p.code + p.call)
          == (done[0].code + done[0].call + After(done[1..], "")) + p.code + p.call;
    }
  }

  lemma {:induction false} AfterTail(done: seq<Piece>, tail: string)
    ensures After(done, tail) == After(done, "") + tail
  {
    if done != [] {
      AfterTail(done[1..], tail);
      assert done[0].code + done[0].call + (After(done[1..], "") + tail) == (done[0].code + done[0].call + After(done[1..], "")) + tail;
    }
  }

  lemma {:induction false} RewritesMore(done: seq<Piece>, p: Piece, a: nat, b: nat)
    ensures var from, to := a + |Before(done, "")| + |p.code|, b + |After(done, "")| + |p.code|;
      Rewrites(done + [p], a, b) == Rewrites(done, a, b) + [Rewrite(from, from + |p.directive|, to, to + |p.call|)]
  {
    if done == [] {
      assert [] + [p] == [p];
    } else {
      var q := done[0];
      RewritesMore(done[1..], p, a + |q.code| + |q.directive|, b + |q.code| + |q.call|);
      assert (done + [p])[1..] == done[1..] + [p];
    }
  }

  lemma PieceDone(done: seq<Piece>, p: Piece, res: string, before: string)
    requires res == After(done, "") + p.code && before == Before(done, "")
    ensures res + p.call == After(done + [p], "") && before + p.code + p.directive == Before(done + [p], "")
    ensures Rewrites(done + [p], 0, 0) == Rewrites(done, 0, 0) +
      [Rewrite(|before + p.code|, |before + p.code| + |p.directive|, |res|, |res + p.call|)]
  {
    BeforeMore(done, p);
    AfterMore(done, p);
    RewritesMore(done, p, 0, 0);
  }

  /** The directives up to `p` have been replaced, and what follows is copied up to the next one at `f`. */
  ghost predicate Progress(r: string, calls: Calls, p: nat, f: nat, last: string, done: seq<Piece>, res: string, rewrites: seq<Rewrite>)
  {
    && p <= |r| && f == Find(r, DIR_START, p)
    && res == After(done, "") + r[p..f] && r[..p] == Before(done, "") && rewrites == Rewrites(done, 0, 0)
    && Cut(r, 0, "", calls) == Behind(done, Cut(r, p, last, calls))
  }

  lemma ProgressStarts(r: string, calls: Calls, f: nat)
    requires f == Find(r, DIR_START, 0)
    ensures Progress(r, calls, 0, f, "", [], r[..f], [])
  {
    var cut := Cut(r, 0, "", calls);
    if cut.Some? {
      assert [] + cut.value.pieces == cut.value.pieces;
    }
  }

  lemma ProgressStops(r: string, calls: Calls, p: nat, f: nat, e: nat, last: string, done: seq<Piece>, res: string, rewrites: seq<Rewrite>)
    requires Progress(r, calls, p, f, last, done, res, rewrites) && f < |r| && e == Find(r, DIR_END, f + 1)
    requires e < |r| ==> Ask(r[f + 1..e], last) !in calls
    ensures Cut(r, 0, "", calls).None?
  {
  }

  lemma ProgressEnds(r: string, calls: Calls, p: nat, last: string, done: seq<Piece>, res: string, rewrites: seq<Rewrite>)
    requires Progress(r, calls, p, |r|, last, done, res, rewrites)
    ensures Cut(r, 0, "", calls) == Some(Text(done, r[p..])) && res == After(done, r[p..]) && rewrites == Rewrites(done, 0, 0)
  {
    AfterTail(done, r[p..]);
    assert r[p..|r|] == r[p..];
    assert done + [] == done;
  }

  /** The call has gone in for the directive from `f` to `e`, and the code up to the next one is copied. */
  lemma ProgressNext(r: string, calls: Calls, p: nat, f: nat, e: nat, last: string, done: seq<Piece>, res: string, rewrites: seq<Rewrite>,
                     call: Call, f': nat)
    requires Progress(r, calls, p, f, last, done, res, rewrites) && f < |r| && e == Find(r, DIR_END, f + 1) < |r|
    requires Ask(r[f + 1..e], last) in calls && call == calls[Ask(r[f + 1..e], last)] && f' == Find(r, DIR_START, e + 1)
    ensures Progress(r, calls, e + 1, f', call.file, done + [Piece(r[p..f], r[f..e + 1], call.code)], res + call.code + r[e + 1..f'],
                     rewrites + [Rewrite(f, e + 1, |res|, |res + call.code|)])
  {
    var piece := Piece(r[p..f], r[f..e + 1], call.code);
    CutMore(r, p, f, e, last, calls, done);
    PieceDone(done, piece, res, r[..p]);
    Slices(r, p, f, e + 1);
  }

  lemma Slices(r: string, p: nat, f: nat, q: nat)
    requires p <= f <= q <= |r|
    ensures r[..p] + r[p..f] + r[f..q] == r[..q] && |r[..p] + r[p..f]| == f
  {
  }

  method PostprocessCode(r: string, calls: Calls) returns (res: string, rewrites: seq<Rewrite>, ok: bool)
    ensures var cut := Cut(r, 0, "", calls);
      ok == cut.Some? &&
      (ok ==> res == After(cut.value.pieces, cut.value.tail) && rewrites == Rewrites(cut.value.pieces, 0, 0))
  {
    rewrites, ok := [], false;
    var f := FindFrom(r, DIR_START, 0);
    if f == |r| {
      return r, rewrites, true;
    }
    var last := "";
    res := r[..f];
    ghost var p, done: seq<Piece> := 0, [];
    ProgressStarts(r, calls, f);
    while f < |r|
      invariant Progress(r, calls, p, f, last, done, res, rewrites)
      decreases |r| - f
    {
      var e := FindFrom(r, DIR_END, f + 1);
      if e == |r| {
        ProgressStops(r, calls, p, f, e, last, done, res, rewrites);
        return;
      }
      var ask := Ask(r[f + 1..e], last);
      if ask !in calls {
        ProgressStops(r, calls, p, f, e, last, done, res, rewrites);
        return;
      }
      var call := calls[ask];
      ghost var before, was := res, rewrites;
      rewrites := rewrites + [Rewrite(f, e + 1, |res|, |res + call.code|)];
      res := res + call.code;
      var f' := FindFrom(r, DIR_START, e + 1);
      res := res + r[e + 1..f'];
      ProgressNext(r, calls, p, f, e, last, done, before, was, call, f');
      done := done + [Piece(r[p..f], r[f..e + 1], call.code)];
      last, p, f := call.file, e + 1, f';
    }
    ProgressEnds(r, calls, p, last, done, res, rewrites);
    ok := true;
  }

  /** The rewrites are in input order and each takes up some of the old text. */
  ghost predicate InOrder(rewrites: seq<Rewrite>)
  {
    forall i, j :: 0 <= i < j < |rewrites| ==> rewrites[i].oldStart < rewrites[j].oldStart
  }

  /** How many rewrites start at or before `offset`. */
  function Started(rewrites: seq<Rewrite>, offset: int): (n: nat)
    ensures n <= |rewrites|
  {
    if rewrites == [] || rewrites[0].oldStart > offset then 0 else 1 + Started(rewrites[1..], offset)
  }

  lemma {:induction false} StartedIs(rewrites: seq<Rewrite>, offset: int, n: nat)
    requires n <= |rewrites| && InOrder(rewrites)
    requires (n > 0 ==> rewrites[n - 1].oldStart <= offset) && (n < |rewrites| ==> rewrites[n].oldStart > offset)
    ensures Started(rewrites, offset) == n
  {
    if n > 0 {
      assert n > 1 ==> rewrites[0].oldStart < rewrites[n - 1].oldStart;
      StartedIs(rewrites[1..], offset, n - 1);
    }
  }

  function Rebased(rewrites: seq<Rewrite>, offset: int): int
  {
    var n := Started(rewrites, offset);
    if n == 0 then offset
    else if offset < rewrites[n - 1].oldEnd then rewrites[n - 1].newStart
    else offset - rewrites[n - 1].oldEnd + rewrites[n - 1].newEnd
  }

  /** Binary search for the first rewrite that starts after `offset`. */
  method RebaseOffset(rewrites: seq<Rewrite>, offset: int) returns (r: int)
    requires InOrder(rewrites)
    ensures r == Rebased(rewrites, offset)
  {
    var lo, hi := 0, |rewrites|;
    while lo < hi
      invariant 0 <= lo <= hi <= |rewrites|
      invariant lo > 0 ==> rewrites[lo - 1].oldStart <= offset
      invariant hi < |rewrites| ==> rewrites[hi].oldStart > offset
    {
      var mid := (lo + hi) / 2;
      if rewrites[mid].oldStart <= offset {
        lo := mid + 1;
      } else {
        hi := mid;
      }
    }
    StartedIs(rewrites, offset, lo);
    if lo == 0 {
      return offset;
    }
    var last := rewrites[lo - 1];
    r := if offset < last.oldEnd then last.newStart else offset - last.oldEnd + last.newEnd;
  }

  // ---------------------------------------------------------------- what becomes of a byte

  predicate RealDirectives(pieces: seq<Piece>)
  {
    forall i :: 0 <= i < |pieces| ==> pieces[i].directive != ""
  }

  /** The offset in the new text of the byte at `o` of the old one; the start of the call for a byte of a directive. */
  function Image(pieces: seq<Piece>, o: nat): nat
  {
    if pieces == [] then o
    else
      var p := pieces[0];
      if o < |p.code| then o
      else if o < |p.code| + |p.directive| then |p.code|
      else |p.code| + |p.call| + Image(pieces[1..], o - |p.code| - |p.directive|)
  }

  predicate InDirective(pieces: seq<Piece>, o: nat)
  {
    if pieces == [] then false
    else
      var p := pieces[0];
      if o < |p.code| then false
      else if o < |p.code| + |p.directive| then true
      else InDirective(pieces[1..], o - |p.code| - |p.directive|)
  }

  lemma {:induction false} RewritesInOrder(pieces: seq<Piece>, a: nat, b: nat)
    requires RealDirectives(pieces)
    ensures InOrder(Rewrites(pieces, a, b))
    ensures forall i :: 0 <= i < |pieces| ==> a <= Rewrites(pieces, a, b)[i].oldStart
  {
    if pieces != [] {
      var p := pieces[0];
      var a', b' := a + |p.code| + |p.directive|, b + |p.code| + |p.call|;
      var rest, all := Rewrites(pieces[1..], a', b'), Rewrites(pieces, a, b);
      RewritesInOrder(pieces[1..], a', b');
      forall i, j | 0 <= i < j < |all|
        ensures all[i].oldStart < all[j].oldStart
      {
        assert all[j] == rest[j - 1];
        assert i > 0 ==> all[i] == rest[i - 1];
      }
      forall i | 0 <= i < |all|
        ensures a <= all[i].oldStart
      {
        assert i > 0 ==> all[i] == rest[i - 1];
      }
    }
  }

  lemma RebasedCons(w: Rewrite, rest: seq<Rewrite>, offset: int)
    requires w.oldStart <= offset
    ensures Started([w] + rest, offset) == 1 + Started(rest, offset)
    ensures Rebased([w] + rest, offset) ==
      if Started(rest, offset) > 0 then Rebased(rest, offset)
      else if offset < w.oldEnd then w.newStart else offset - w.oldEnd + w.newEnd
  {
    assert ([w] + rest)[1..] == rest;
  }

  /** Rebasing by the rewrites from `a` and `b` on gives the image, unless none of them has started: then the offset stays. */
  ghost predicate Agrees(pieces: seq<Piece>, a: nat, b: nat, o: nat)
  {
    var rewrites := Rewrites(pieces, a, b);
    && Rebased(rewrites, a + o) == (if Started(rewrites, a + o) == 0 then a + o else b + Image(pieces, o))
    && (Started(rewrites, a + o) == 0 ==> Image(pieces, o) == o)
  }

  lemma AgreesBeyond(pieces: seq<Piece>, a: nat, b: nat, o: nat)
    requires pieces != [] && o >= |pieces[0].code| + |pieces[0].directive|
    requires var p := pieces[0];
      Agrees(pieces[1..], a + |p.code| + |p.directive|, b + |p.code| + |p.call|, o - |p.code| - |p.directive|)
    ensures Agrees(pieces, a, b, o)
  {
    var p := pieces[0];
    RebasedCons(Rewrites(pieces, a, b)[0], Rewrites(pieces[1..], a + |p.code| + |p.directive|, b + |p.code| + |p.call|), a + o);
  }

  lemma AgreesInDirective(pieces: seq<Piece>, a: nat, b: nat, o: nat)
    requires pieces != [] && RealDirectives(pieces) && |pieces[0].code| <= o < |pieces[0].code| + |pieces[0].directive|
    ensures Agrees(pieces, a, b, o)
  {
    var p := pieces[0];
    var rest := Rewrites(pieces[1..], a + |p.code| + |p.directive|, b + |p.code| + |p.call|);
    RewritesInOrder(pieces[1..], a + |p.code| + |p.directive|, b + |p.code| + |p.call|);
    assert Started(rest, a + o) == 0;
    RebasedCons(Rewrites(pieces, a, b)[0], rest, a + o);
  }

  /** The binary search finds the image of every offset. */
  lemma {:induction false} RebasedIsImage(pieces: seq<Piece>, a: nat, b: nat, o: nat)
    requires RealDirectives(pieces)
    ensures Agrees(pieces, a, b, o)
  {
    if pieces != [] {
      var p := pieces[0];
      if o >= |p.code| + |p.directive| {
        RebasedIsImage(pieces[1..], a + |p.code| + |p.directive|, b + |p.code| + |p.call|, o - |p.code| - |p.directive|);
        AgreesBeyond(pieces, a, b, o);
      } else if o >= |p.code| {
        AgreesInDirective(pieces, a, b, o);
      }
    }
  }

  /** A byte of plain code is found again at the image of its offset. */
  lemma {:induction false} RebasePreserves(pieces: seq<Piece>, tail: string, o: nat)
    requires RealDirectives(pieces) && o < |Before(pieces, tail)| && !InDirective(pieces, o)
    ensures Image(pieces, o) < |After(pieces, tail)| && After(pieces, tail)[Image(pieces, o)] == Before(pieces, tail)[o]
  {
    if pieces != [] {
      var p := pieces[0];
      if o >= |p.code| + |p.directive| {
        RebasePreserves(pieces[1..], tail, o - |p.code| - |p.directive|);
      }
    }
  }

  /** A byte of the `k`-th directive is rebased to the start of the call that replaced it. */
  lemma {:induction false} DirectiveImage(pieces: seq<Piece>, k: nat, o: nat)
    requires k < |pieces|
    requires var at := |Before(pieces[..k], "")| + |pieces[k].code|; at <= o < at + |pieces[k].directive|
    ensures Image(pieces, o) == |After(pieces[..k], "")| + |pieces[k].code|
  {
    if k > 0 {
      var p := pieces[0];
      assert pieces[..k][1..] == pieces[1..][..k - 1] && pieces[..k][0] == p;
      DirectiveImage(pieces[1..], k - 1, o - |p.code| - |p.directive|);
    } else {
      assert pieces[..0] == [];
    }
  }

  /** The order of offsets is kept. */
  lemma {:induction false} ImageAscends(pieces: seq<Piece>, o: nat, q: nat)
    requires o <= q
    ensures Image(pieces, o) <= Image(pieces, q)
  {
    if pieces != [] {
      var p := pieces[0];
      if o >= |p.code| + |p.directive| {
        ImageAscends(pieces[1..], o - |p.code| - |p.directive|, q - |p.code| - |p.directive|);
      }
    }
  }

  /** Post-processing and rebasing one annotation's start together. */
  method RebaseAfterPostprocess(r: string, calls: Calls, o: nat) returns (res: string, o': int, ok: bool)
    requires o < |r|
    ensures var cut := Cut(r, 0, "", calls);
      ok == cut.Some? &&
      (ok ==> o' == Image(cut.value.pieces, o) && (!InDirective(cut.value.pieces, o) ==> 0 <= o' < |res| && res[o'] == r[o]))
  {
    var rewrites;
    res, rewrites, ok := PostprocessCode(r, calls);
    o' := o;
    if ok {
      ghost var cut := Cut(r, 0, "", calls).value;
      CutIsText(r, 0, "", calls);
      RewritesInOrder(cut.pieces, 0, 0);
      o' := RebaseOffset(rewrites, o);
      RebasedAt(cut.pieces, cut.tail, o);
    }
  }

  lemma RebasedAt(pieces: seq<Piece>, tail: string, o: nat)
    requires RealDirectives(pieces)
    ensures Rebased(Rewrites(pieces, 0, 0), o) == Image(pieces, o)
    ensures o < |Before(pieces, tail)| && !InDirective(pieces, o) ==>
      Image(pieces, o) < |After(pieces, tail)| && After(pieces, tail)[Image(pieces, o)] == Before(pieces, tail)[o]
  {
    RebasedIsImage(pieces, 0, 0, o);
    if o < |Before(pieces, tail)| && !InDirective(pieces, o) {
      RebasePreserves(pieces, tail, o);
    }
  }
}
