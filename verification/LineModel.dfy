/** The line editor as values: a text with a cursor, the history, and what every key does to them. */
module LineModel {

  const NUL: char := 0 as char
  const SPACE: char := ' '

  datatype Line = Line(text: string, cursor: nat)

  // ---------------------------------------------------------------- editing

  predicate InLine(l: Line)
  {
    l.cursor <= |l.text|
  }

  function Inserted(l: Line, c: char, buflen: nat): Line
    requires InLine(l)
  {
    if |l.text| < buflen then Line(l.text[..l.cursor] + [c] + l.text[l.cursor..], l.cursor + 1) else l
  }

  /** `text` without what lies between `from` and `to`, with the cursor in the gap. */
  function Cut(l: Line, from: nat, to: nat): Line
    requires from <= to <= |l.text|
  {
    Line(l.text[..from] + l.text[to..], from)
  }

  function DeletedRight(l: Line): Line
    requires InLine(l)
  {
    if l.cursor < |l.text| then Cut(l, l.cursor, l.cursor + 1) else l
  }

  function DeletedLeft(l: Line): Line
    requires InLine(l)
  {
    if l.cursor > 0 then Cut(l, l.cursor - 1, l.cursor) else l
  }

  function SkipBack(s: string, p: nat, spaces: bool): (q: nat)
    requires p <= |s|
    ensures q <= p && forall i :: q <= i < p ==> (s[i] == SPACE) == spaces
    ensures q == 0 || (s[q - 1] == SPACE) != spaces
  {
    if p > 0 && (s[p - 1] == SPACE) == spaces then SkipBack(s, p - 1, spaces) else p
  }

  /** The start of the word before the cursor: back over blanks, then back over the word. */
  function WordStart(s: string, p: nat): (q: nat)
    requires p <= |s|
    ensures q <= p
  {
    SkipBack(s, SkipBack(s, p, true), false)
  }

  /** What is skipped is one word and the blanks after it, and no more of either could be. */
  lemma WordStartIs(s: string, p: nat) returns (m: nat)
    requires p <= |s|
    ensures WordStart(s, p) <= m <= p
    ensures forall i :: m <= i < p ==> s[i] == SPACE
    ensures forall i :: WordStart(s, p) <= i < m ==> s[i] != SPACE
    ensures m == 0 || s[m - 1] != SPACE
    ensures WordStart(s, p) == 0 || s[WordStart(s, p) - 1] == SPACE
  {
    m := SkipBack(s, p, true);
  }

  function DeletedWord(l: Line): Line
    requires InLine(l)
  {
    Cut(l, WordStart(l.text, l.cursor), l.cursor)
  }

  function Swapped(l: Line): Line
    requires InLine(l)
  {
    if 0 < l.cursor < |l.text| then
      Line(l.text[..l.cursor - 1] + [l.text[l.cursor], l.text[l.cursor - 1]] + l.text[l.cursor + 1..],
           if l.cursor == |l.text| - 1 then l.cursor else l.cursor + 1)
    else l
  }

  // ---------------------------------------------------------------- history

  /** A C string read from a buffer: what precedes the first NUL. */
  function CString(s: string): (r: string)
    ensures r <= s && NUL !in r
    ensures r == s <==> NUL !in s
    ensures |r| < |s| ==> s[|r|] == NUL
  {
    if s == "" || s[0] == NUL then ""
    else
      assert s == [s[0]] + s[1..];
      [s[0]] + CString(s[1..])
  }

  /** Adding a line: nothing if it repeats the latest one; the oldest makes room. */
  function Remembered(entries: seq<string>, maxLen: nat, line: string): seq<string>
  {
    if maxLen == 0 || (entries != [] && entries[|entries| - 1] == line) then entries
    else if |entries| == maxLen then entries[1..] + [line]
    else entries + [line]
  }

  function Latest(entries: seq<string>, n: nat): seq<string>
  {
    if |entries| > n then entries[|entries| - n..] else entries
  }

  /** The new line comes last, once, after the latest of the others. */
  lemma RememberedKeeps(entries: seq<string>, maxLen: nat, line: string)
    requires 0 < maxLen && |entries| <= maxLen
    ensures var others := if entries != [] && entries[|entries| - 1] == line then entries[..|entries| - 1] else entries;
            Remembered(entries, maxLen, line) == Latest(others, maxLen - 1) + [line]
    ensures 0 < |Remembered(entries, maxLen, line)| <= maxLen
  {
  }

  /** The latest entries are the last ones in the list; a history without room remembers nothing. */
  lemma LatestIs(entries: seq<string>, n: nat, line: string)
    ensures var r := Latest(entries, n); |r| == (if n < |entries| then n else |entries|) && r == entries[|entries| - |r|..]
    ensures Remembered(entries, 0, line) == entries
  {
  }

  datatype State = State(line: Line, entries: seq<string>, index: nat)

  ghost predicate Sound(s: State, buflen: nat)
  {
    InLine(s.line) && |s.line.text| <= buflen && buflen >= 1 && s.index < |s.entries| &&
    forall i :: 0 <= i < |s.entries| ==> NUL !in s.entries[i]
  }

  /** What fits of a history entry: `strncpy` leaves the last place of the buffer for the terminator. */
  function Loaded(entry: string, buflen: nat): string
    requires buflen >= 1
  {
    if |entry| < buflen then entry else entry[..buflen - 1]
  }

  function Slot(s: State, index: nat): nat
    requires index < |s.entries|
  {
    |s.entries| - 1 - index
  }

  /** The edited line is saved in its entry before another entry is shown. */
  function Saved(s: State): seq<string>
    requires s.index < |s.entries|
  {
    s.entries[Slot(s, s.index) := CString(s.line.text)]
  }

  function Shown(s: State, entries: seq<string>, index: nat, buflen: nat): State
    requires index < |entries| && buflen >= 1
  {
    var text := Loaded(entries[|entries| - 1 - index], buflen);
    State(Line(text, |text|), entries, index)
  }

  function HistoryStep(s: State, older: bool, buflen: nat): State
    requires s.index < |s.entries| && buflen >= 1
  {
    if |s.entries| <= 1 then s
    else
      var entries := Saved(s);
      if older then
        if s.index + 1 < |entries| then Shown(s, entries, s.index + 1, buflen) else s.(entries := entries)
      else
        if s.index > 0 then Shown(s, entries, s.index - 1, buflen) else s.(entries := entries)
  }

  /** Going to the older entry and back gives the edited text again exactly when: there is no history to go to; or there is
      an older entry and the text holds no NUL and leaves a place of the buffer free; or there is none and the entry
      that is shown instead happens to be that text. */
  lemma OlderThenNewer(s: State, buflen: nat)
    requires Sound(s, buflen)
    ensures HistoryStep(s, true, buflen).index < |HistoryStep(s, true, buflen).entries|
    ensures HistoryStep(HistoryStep(s, true, buflen), false, buflen).line.text == s.line.text <==>
              if |s.entries| <= 1 then true
              else if s.index + 1 < |s.entries| then NUL !in s.line.text && |s.line.text| < buflen
              else Loaded(s.entries[Slot(s, s.index - 1)], buflen) == s.line.text
  {
    if |s.entries| > 1 {
      var t := HistoryStep(s, true, buflen);
      var u := HistoryStep(t, false, buflen);
      var saved := CString(s.line.text);
      if s.index + 1 < |s.entries| {
        assert u.line.text == Loaded(saved, buflen);
      } else {
        assert t.index == s.index && u.line.text == Loaded(s.entries[Slot(s, s.index - 1)], buflen);
      }
    }
  }

  /** The way back over an entry that is too long for the buffer shortens it. */
  lemma VisitShortens(s: State, buflen: nat)
    requires Sound(s, buflen) && s.index + 1 < |s.entries|
    ensures var u := HistoryStep(HistoryStep(s, true, buflen), false, buflen);
            |u.entries| == |s.entries| && u.index == s.index &&
            u.entries[Slot(s, s.index + 1)] == Loaded(s.entries[Slot(s, s.index + 1)], buflen) &&
            u.entries[Slot(s, s.index)] == CString(s.line.text)
  {
  }

  // ---------------------------------------------------------------- keys

  /** The keys of the editor, as they come out of the decoding of control characters and escape sequences. */
  datatype Key =
    | Insert(c: char) | MoveLeft | MoveRight | MoveHome | MoveEnd | Delete | Backspace | DeletePrevWord | Transpose
    | KillLine | KillToEnd | Older | Newer | Redraw
    | Enter | Interrupt | EndOfFile

  function EditLine(l: Line, key: Key, buflen: nat): Line
    requires InLine(l)
  {
    match key
    case Insert(c) => Inserted(l, c, buflen)
    case MoveLeft => if l.cursor > 0 then l.(cursor := l.cursor - 1) else l
    case MoveRight => if l.cursor < |l.text| then l.(cursor := l.cursor + 1) else l
    case MoveHome => l.(cursor := 0)
    case MoveEnd => l.(cursor := |l.text|)
    case Delete => DeletedRight(l)
    case EndOfFile => DeletedRight(l)
    case Backspace => DeletedLeft(l)
    case DeletePrevWord => DeletedWord(l)
    case Transpose => Swapped(l)
    case KillLine => Line("", 0)
    case KillToEnd => Line(l.text[..l.cursor], l.cursor)
    case _ => l
  }

  function KeyStep(s: State, key: Key, buflen: nat): State
    requires InLine(s.line) && s.index < |s.entries| && buflen >= 1
  {
    match key
    case Older => HistoryStep(s, true, buflen)
    case Newer => HistoryStep(s, false, buflen)
    case _ => s.(line := EditLine(s.line, key, buflen))
  }

  /** What each key does to a line whose cursor stands between `a` and `b`. */
  lemma EditHalves(a: string, b: string, key: Key, buflen: nat)
    ensures var r := EditLine(Line(a + b, |a|), key, buflen);
      match key
      case Insert(c) => r == if |a + b| < buflen then Line(a + [c] + b, |a| + 1) else Line(a + b, |a|)
      case MoveLeft => r == Line(a + b, if a == "" then 0 else |a| - 1)
      case MoveRight => r == Line(a + b, if b == "" then |a| else |a| + 1)
      case MoveHome => r == Line(a + b, 0)
      case MoveEnd => r == Line(a + b, |a + b|)
      case Delete => r == Line(a + if b == "" then "" else b[1..], |a|)
      case EndOfFile => r == Line(a + if b == "" then "" else b[1..], |a|)
      case Backspace => r == if a == "" then Line(b, 0) else Line(a[..|a| - 1] + b, |a| - 1)
      case KillLine => r == Line("", 0)
      case KillToEnd => r == Line(a, |a|)
      case Transpose =>
        && r.text == (if a == "" || b == "" then a + b else a[..|a| - 1] + [b[0]] + [a[|a| - 1]] + b[1..])
        && r.cursor == if a == "" || |b| <= 1 then |a| else |a| + 1
      case DeletePrevWord => exists w, blanks :: Word(w, blanks, a, r.cursor) && r == Line(a[..r.cursor] + b, r.cursor)
      case _ => r == Line(a + b, |a|)
  {
    var l := Line(a + b, |a|);
    assert l.text[..|a|] == a && l.text[|a|..] == b;
    match key
    case Delete => if b == "" { assert a + "" == a + b; }
    case EndOfFile => if b == "" { assert a + "" == a + b; }
    case DeletePrevWord => WordCut(a, b);
    case _ =>
  }

  /** `a` ends in the word `w` and then `blanks`, from `q` on, neither of which could be longer. */
  predicate Word(w: string, blanks: string, a: string, q: nat)
  {
    && q <= |a| && a[q..] == w + blanks && SPACE !in w && (forall c :: c in blanks ==> c == SPACE)
    && (q == 0 || a[q - 1] == SPACE) && (w == "" ==> q == 0)
  }

  lemma {:induction false} SkipBackIn(a: string, b: string, p: nat, spaces: bool)
    requires p <= |a|
    ensures SkipBack(a + b, p, spaces) == SkipBack(a, p, spaces)
  {
    if p > 0 && (a[p - 1] == SPACE) == spaces {
      SkipBackIn(a, b, p - 1, spaces);
    }
  }

  lemma WordCut(a: string, b: string)
    ensures var q := WordStart(a + b, |a|);
      && q <= |a| && DeletedWord(Line(a + b, |a|)) == Line(a[..q] + b, q)
      && exists w, blanks :: Word(w, blanks, a, q)
  {
    var m := SkipBack(a, |a|, true);
    var q := SkipBack(a, m, false);
    SkipBackIn(a, b, |a|, true);
    SkipBackIn(a, b, m, false);
    assert (a + b)[..q] == a[..q] && (a + b)[|a|..] == b;
    assert a[q..] == a[q..m] + a[m..];
    assert Word(a[q..m], a[m..], a, q);
  }

  /** What is left of an entry in a buffer for `buflen` characters with the terminator among them. */
  predicate Fits(text: string, entry: string, buflen: nat)
  {
    text <= entry && |text| == if |entry| < buflen then |entry| else buflen - 1
  }

  /** The key for older entries shows the entry before, the one for newer entries the entry after, with the cursor at the end;
      the edited line is stored in its own entry up to its first NUL.  Where there is none the line stays. */
  lemma HistoryKeys(s: State, key: Key, buflen: nat)
    requires Sound(s, buflen) && |s.entries| > 1 && (key == Older || key == Newer)
    ensures var r, n := KeyStep(s, key, buflen), |s.entries|;
      && |r.entries| == n
      && (forall i :: 0 <= i < n && i != n - 1 - s.index ==> r.entries[i] == s.entries[i])
      && r.entries[n - 1 - s.index] <= s.line.text && NUL !in r.entries[n - 1 - s.index]
      && (NUL !in s.line.text ==> r.entries[n - 1 - s.index] == s.line.text)
      && (key == Older && s.index + 1 < n ==>
            r.index == s.index + 1 && Fits(r.line.text, s.entries[n - 2 - s.index], buflen) && r.line.cursor == |r.line.text|)
      && (key == Newer && s.index > 0 ==>
            r.index == s.index - 1 && Fits(r.line.text, s.entries[n - s.index], buflen) && r.line.cursor == |r.line.text|)
      && ((if key == Older then s.index + 1 == n else s.index == 0) ==> r.index == s.index && r.line == s.line)
  {
  }

  lemma EditStaysSound(l: Line, key: Key, buflen: nat)
    requires InLine(l) && |l.text| <= buflen
    ensures InLine(EditLine(l, key, buflen)) && |EditLine(l, key, buflen).text| <= buflen
  {
  }

  lemma KeyStaysSound(s: State, key: Key, buflen: nat)
    requires Sound(s, buflen)
    ensures Sound(KeyStep(s, key, buflen), buflen)
    ensures |KeyStep(s, key, buflen).entries| == |s.entries|
  {
    EditStaysSound(s.line, key, buflen);
    var saved := Saved(s);
    forall i | 0 <= i < |saved|
      ensures NUL !in saved[i]
    {
      if i != Slot(s, s.index) {
        assert saved[i] == s.entries[i];
      }
    }
  }

  // ---------------------------------------------------------------- a whole line

  datatype Outcome = Accepted | Interrupted | Ended | InputGone

  datatype Result = Result(outcome: Outcome, text: string, entries: seq<string>)

  /** Until Enter, Ctrl-C, Ctrl-D on an empty line, or the end of the input.  Enter and Ctrl-D take the edited line's own
      entry out of the history again; the other two leave it there. */
  function Session(s: State, keys: seq<Key>, buflen: nat): Result
    requires Sound(s, buflen)
    decreases |keys|
  {
    if keys == [] then Result(InputGone, s.line.text, s.entries)
    else
      match keys[0]
      case Enter => Result(Accepted, s.line.text, s.entries[..|s.entries| - 1])
      case Interrupt => Result(Interrupted, s.line.text, s.entries)
      case key =>
        if key == EndOfFile && s.line.text == "" then Result(Ended, "", s.entries[..|s.entries| - 1])
        else
          KeyStaysSound(s, key, buflen);
          Session(KeyStep(s, key, buflen), keys[1..], buflen)
  }

  /** A line that was entered without visiting the history leaves it as it was, short of the oldest entry if it was full. */
  lemma {:induction false} PlainSessionKeepsHistory(s: State, keys: seq<Key>, buflen: nat)
    requires Sound(s, buflen) && Older !in keys && Newer !in keys
    ensures var r := Session(s, keys, buflen);
            r.entries == if r.outcome == Accepted || r.outcome == Ended then s.entries[..|s.entries| - 1] else s.entries
    decreases |keys|
  {
    if keys != [] && keys[0] != Enter && keys[0] != Interrupt && !(keys[0] == EndOfFile && s.line.text == "") {
      KeyStaysSound(s, keys[0], buflen);
      assert keys[0] in keys;
      PlainSessionKeepsHistory(KeyStep(s, keys[0], buflen), keys[1..], buflen);
    }
  }

  /** Typing `text` and Enter. */
  function Typed(text: string): seq<Key>
  {
    if text == "" then [Enter] else [Insert(text[0])] + Typed(text[1..])
  }

  /** Text that is typed at the end of a line and fits is accepted behind what was there, and the history is what it was
      before the line. */
  lemma {:induction false} TypedIsAccepted(s: State, text: string, buflen: nat)
    requires Sound(s, buflen) && s.line.cursor == |s.line.text| && |s.line.text| + |text| <= buflen
    ensures Session(s, Typed(text), buflen) == Result(Accepted, s.line.text + text, s.entries[..|s.entries| - 1])
    decreases text
  {
    if text == "" {
      assert s.line.text + text == s.line.text;
    } else {
      var c := text[0];
      KeyStaysSound(s, Insert(c), buflen);
      var t := KeyStep(s, Insert(c), buflen);
      assert t.line == Line(s.line.text + [c], |s.line.text| + 1);
      TypedIsAccepted(t, text[1..], buflen);
      assert s.line.text + [c] + text[1..] == s.line.text + text;
      assert Typed(text)[1..] == Typed(text[1..]);
    }
  }

  /** Ctrl-C gives the line as it stands and leaves its entry in the history, Ctrl-D ends an empty line and takes it out. */
  lemma StoppedLine(s: State, rest: seq<Key>, buflen: nat)
    requires Sound(s, buflen)
    ensures Session(s, [], buflen) == Result(InputGone, s.line.text, s.entries)
    ensures Session(s, [Interrupt] + rest, buflen) == Result(Interrupted, s.line.text, s.entries)
    ensures Session(s, [Enter] + rest, buflen) == Result(Accepted, s.line.text, s.entries[..|s.entries| - 1])
    ensures s.line.text == "" ==> Session(s, [EndOfFile] + rest, buflen) == Result(Ended, "", s.entries[..|s.entries| - 1])
  {
  }

  // ---------------------------------------------------------------- what edits undo

  /** Backspace takes back what was typed, delete takes back what was typed and stepped over, as long as it fitted. */
  lemma TypedThenErased(l: Line, c: char, buflen: nat)
    requires InLine(l) && |l.text| <= buflen
    ensures |l.text| < buflen ==> DeletedLeft(Inserted(l, c, buflen)) == l
    ensures |l.text| < buflen ==> DeletedRight(Inserted(l, c, buflen).(cursor := l.cursor)) == l
    ensures |l.text| == buflen ==> Inserted(l, c, buflen) == l
  {
  }

  /** Transposing only permutes the text, and at the end of the line it undoes itself. */
  lemma TransposeSwaps(l: Line)
    requires InLine(l)
    ensures multiset(Swapped(l).text) == multiset(l.text)
    ensures 0 < l.cursor == |l.text| - 1 ==> Swapped(Swapped(l)) == l
  {
    if 0 < l.cursor < |l.text| {
      var a, b, c, d := l.text[..l.cursor - 1], [l.text[l.cursor - 1]], [l.text[l.cursor]], l.text[l.cursor + 1..];
      SwappedParts(l);
      SameCharacters(a, b, c, d);
      if l.cursor == |l.text| - 1 {
        SwappedParts(Swapped(l));
      }
    }
  }

  lemma SwappedParts(l: Line)
    requires 0 < l.cursor < |l.text|
    ensures var a, b, c, d := l.text[..l.cursor - 1], [l.text[l.cursor - 1]], [l.text[l.cursor]], l.text[l.cursor + 1..];
      l.text == a + b + c + d && Swapped(l).text == a + c + b + d
    ensures var t := Swapped(l).text;
      && t[..l.cursor - 1] == l.text[..l.cursor - 1] && t[l.cursor - 1] == l.text[l.cursor]
      && t[l.cursor] == l.text[l.cursor - 1] && t[l.cursor + 1..] == l.text[l.cursor + 1..]
  {
  }

  lemma SameCharacters(a: string, b: string, c: string, d: string)
    ensures multiset(a + b + c + d) == multiset(a + c + b + d)
  {
  }
}
