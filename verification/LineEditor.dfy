/** The line editor on its character buffer: every operation does to the buffer what it does to the text. */
module LineEditor {
  import opened LineModel

  /** The history shared by all lines. */
  class History {
    var entries: seq<string>
    var maxLen: nat

    ghost predicate Valid()
      reads this
    {
      0 < maxLen && |entries| <= maxLen && forall i :: 0 <= i < |entries| ==> NUL !in entries[i]
    }

    constructor ()
      ensures Valid() && entries == [] && maxLen == 100
    {
      entries, maxLen := [], 100;
    }

    method Add(line: string) returns (added: bool)
      requires Valid() && NUL !in line
      modifies this`entries
      ensures Valid() && entries == Remembered(old(entries), maxLen, line)
      ensures added <==> (old(entries) == [] || old(entries)[|old(entries)| - 1] != line)
    {
      if maxLen == 0 {
        return false;
      }
      if |entries| > 0 && entries[|entries| - 1] == line {
        return false;
      }
      if |entries| == maxLen {
        entries := entries[1..];
      }
      entries := entries + [line];
      added := true;
    }

    method SetMaxLen(len: int) returns (ok: bool)
      requires Valid()
      modifies this
      ensures Valid() && (ok <==> len >= 1)
      ensures ok ==> maxLen == len && entries == Latest(old(entries), len)
      ensures !ok ==> maxLen == old(maxLen) && entries == old(entries)
    {
      if len < 1 {
        return false;
      }
      var tocopy := |entries|;
      if len < tocopy {
        tocopy := len;
      }
      entries := entries[|entries| - tocopy..];
      maxLen := len;
      ok := true;
    }
  }

  /** `memmove` within one buffer. */
  method Memmove(buf: array<char>, dst: nat, src: nat, n: nat)
    requires dst + n <= buf.Length && src + n <= buf.Length
    modifies buf
    ensures forall k :: 0 <= k < buf.Length ==>
              buf[k] == if dst <= k < dst + n then old(buf[src + (k - dst)]) else old(buf[k])
  {
    forall k | 0 <= k < n {
      buf[dst + k] := buf[src + k];
    }
  }

  /** `strncpy`: the rest of the `n` places is filled with NULs. */
  method Strncpy(buf: array<char>, s: string, n: nat)
    requires n <= buf.Length && NUL !in s
    modifies buf
    ensures forall k :: 0 <= k < buf.Length ==>
              buf[k] == if k < n then (if k < |s| then s[k] else NUL) else old(buf[k])
  {
    forall k | 0 <= k < n {
      buf[k] := if k < |s| then s[k] else NUL;
    }
  }

  lemma InsertedIs(text: string, p: nat, c: char, r: string)
    requires p <= |text| && |r| == |text| + 1 && r[p] == c
    requires forall k :: 0 <= k < p ==> r[k] == text[k]
    requires forall k :: p <= k < |text| ==> r[k + 1] == text[k]
    ensures r == text[..p] + [c] + text[p..]
  {
  }

  lemma CutIs(text: string, from: nat, to: nat, r: string)
    requires from <= to <= |text| && |r| == |text| - (to - from)
    requires forall k :: 0 <= k < from ==> r[k] == text[k]
    requires forall k :: from <= k < |r| ==> r[k] == text[k + (to - from)]
    ensures r == text[..from] + text[to..]
  {
  }

  /** Moves what follows the gap, with the terminator, to its start. */
  method CloseGap(buf: array<char>, len: nat, from: nat, to: nat)
    requires from <= to <= len < buf.Length
    modifies buf
    ensures buf[..len - (to - from)] == old(buf[..from] + buf[to..len])
    ensures buf[len - (to - from)] == old(buf[len])
  {
    ghost var text := buf[..len];
    Memmove(buf, from, to, len - to + 1);
    forall k | from <= k < len - (to - from)
      ensures buf[k] == text[k + (to - from)]
    {
      assert k + (to - from) == to + (k - from);
    }
    CutIs(text, from, to, buf[..len - (to - from)]);
    assert text[..from] == old(buf[..from]) && text[to..] == old(buf[to..len]);
  }

  /** Makes room for one character and puts it there. */
  method OpenGap(buf: array<char>, len: nat, pos: nat, c: char)
    requires pos <= len < buf.Length - 1
    modifies buf
    ensures buf[..len + 1] == old(buf[..pos]) + [c] + old(buf[pos..len])
  {
    ghost var text := buf[..len];
    Memmove(buf, pos + 1, pos, len - pos);
    buf[pos] := c;
    forall k | pos <= k < len
      ensures buf[k + 1] == text[k]
    {
      assert k + 1 == pos + 1 + (k - pos) && k == pos + (k - pos);
    }
    InsertedIs(text, pos, c, buf[..len + 1]);
    assert text[..pos] == old(buf[..pos]) && text[pos..] == old(buf[pos..len]);
  }

  /** Moves back over blanks, or over anything else. */
  method ScanBack(buf: array<char>, ghost len: nat, start: nat, spaces: bool) returns (pos: nat)
    requires start <= len <= buf.Length
    ensures pos == SkipBack(buf[..len], start, spaces)
  {
    pos := start;
    while pos > 0 && (buf[pos - 1] == ' ') == spaces
      invariant pos <= start && SkipBack(buf[..len], pos, spaces) == SkipBack(buf[..len], start, spaces)
    {
      assert buf[..len][pos - 1] == buf[pos - 1];
      pos := pos - 1;
    }
  }

  class Editor {
    const buf: array<char>
    const buflen: nat
    const history: History
    var len: nat
    var pos: nat
    var historyIndex: int

    ghost predicate Valid()
      reads this, buf, history
    {
      buflen >= 1 && buf.Length == buflen + 1 && pos <= len <= buflen && buf[len] == NUL &&
      history.Valid() && 0 <= historyIndex < |history.entries|
    }

    ghost function Text(): string
      requires len <= buf.Length
      reads this, buf
    {
      buf[..len]
    }

    ghost function Content(): State
      requires Valid()
      reads this, buf, history
    {
      State(Line(Text(), pos), history.entries, historyIndex)
    }

    /** A fresh line: `size` is the size of the buffer, one place of which is kept for the terminator. */
    constructor (size: nat, history: History)
      requires size >= 2 && history.Valid()
      modifies history`entries
      ensures Valid() && fresh(buf) && this.history == history && buflen == size - 1
      ensures Content() == State(Line("", 0), Remembered(old(history.entries), history.maxLen, ""), 0)
    {
      var b := new char[size](_ => NUL);
      buf := b;
      buflen := size - 1;
      this.history := history;
      len, pos, historyIndex := 0, 0, 0;
      new;
      RememberedKeeps(history.entries, history.maxLen, "");
      var _ := history.Add("");
    }

    method Insert(c: char)
      requires Valid()
      modifies this`len, this`pos, buf
      ensures Valid()
      ensures Line(Text(), pos) == Inserted(old(Content()).line, c, buflen)
    {
      ghost var text := Text();
      if len < buflen {
        if len == pos {
          buf[pos] := c;
          pos := pos + 1;
          len := len + 1;
          buf[len] := NUL;
          assert Text() == text + [c] && text[pos - 1..] == [];
        } else {
          OpenGap(buf, len, pos, c);
          len := len + 1;
          pos := pos + 1;
          buf[len] := NUL;
          assert text[..pos - 1] == old(buf[..pos]) && text[pos - 1..] == old(buf[pos..len]);
        }
      }
    }

    method MoveLeft()
      requires Valid()
      modifies this`pos
      ensures Valid() && pos == if old(pos) > 0 then old(pos) - 1 else 0
    {
      if pos > 0 {
        pos := pos - 1;
      }
    }

    method MoveRight()
      requires Valid()
      modifies this`pos
      ensures Valid() && pos == if old(pos) < len then old(pos) + 1 else len
    {
      if pos != len {
        pos := pos + 1;
      }
    }

    method MoveHome()
      requires Valid()
      modifies this`pos
      ensures Valid() && pos == 0
    {
      if pos != 0 {
        pos := 0;
      }
    }

    method MoveEnd()
      requires Valid()
      modifies this`pos
      ensures Valid() && pos == len
    {
      if pos != len {
        pos := len;
      }
    }

    /** Ctrl-U. */
    method KillLine()
      requires Valid()
      modifies this`pos, this`len, buf
      ensures Valid() && Text() == "" && pos == 0
    {
      buf[0] := NUL;
      pos, len := 0, 0;
    }

    /** Ctrl-K. */
    method KillToEnd()
      requires Valid()
      modifies this`len, buf
      ensures Valid() && Text() == old(Text())[..pos] && len == pos
    {
      buf[pos] := NUL;
      len := pos;
    }

    method Delete()
      requires Valid()
      modifies this`len, buf
      ensures Valid()
      ensures Line(Text(), pos) == DeletedRight(old(Content()).line)
    {
      if len > 0 && pos < len {
        Memmove(buf, pos, pos + 1, len - pos - 1);
        len := len - 1;
        buf[len] := NUL;
      }
    }

    method Backspace()
      requires Valid()
      modifies this`len, this`pos, buf
      ensures Valid()
      ensures Line(Text(), pos) == DeletedLeft(old(Content()).line)
    {
      if pos > 0 && len > 0 {
        Memmove(buf, pos - 1, pos, len - pos);
        pos := pos - 1;
        len := len - 1;
        buf[len] := NUL;
      }
    }

    method DeletePrevWord()
      requires Valid()
      modifies this`len, this`pos, buf
      ensures Valid()
      ensures Line(Text(), pos) == DeletedWord(old(Content()).line)
    {
      var oldPos := pos;
      ghost var text := Text();
      pos := ScanBack(buf, len, pos, true);
      pos := ScanBack(buf, len, pos, false);
      var diff := oldPos - pos;
      assert text[..pos] == buf[..pos] && text[oldPos..] == buf[oldPos..len];
      CloseGap(buf, len, pos, oldPos);
      len := len - diff;
    }

    method Transpose()
      requires Valid()
      modifies this`pos, buf
      ensures Valid()
      ensures Line(Text(), pos) == Swapped(old(Content()).line)
    {
      if pos > 0 && pos < len {
        var aux := buf[pos - 1];
        buf[pos - 1] := buf[pos];
        buf[pos] := aux;
        if pos != len - 1 {
          pos := pos + 1;
        }
      }
    }

    /** `strlen` and `strdup` of the buffer. */
    method BufferString() returns (s: string)
      requires Valid()
      ensures s == CString(Text())
    {
      var n := 0;
      while buf[n] != NUL
        invariant 0 <= n <= len && NUL !in buf[..n]
        decreases len - n
      {
        n := n + 1;
      }
      s := buf[..n];
      CStringIs(Text(), n);
    }

    method HistoryNext(older: bool)
      requires Valid()
      modifies this, buf, history`entries
      ensures Valid()
      ensures Content() == HistoryStep(old(Content()), older, buflen)
    {
      var entries := history.entries;
      if |entries| > 1 {
        var line := BufferString();
        entries := entries[|entries| - 1 - historyIndex := line];
        history.entries := entries;
        historyIndex := historyIndex + if older then 1 else -1;
        if historyIndex < 0 {
          historyIndex := 0;
          return;
        } else if historyIndex >= |entries| {
          historyIndex := |entries| - 1;
          return;
        }
        Load(entries[|entries| - 1 - historyIndex]);
      }
    }

    /** Shows a history entry, as far as it fits. */
    method Load(entry: string)
      requires buflen >= 1 && buf.Length == buflen + 1 && NUL !in entry
      modifies this`len, this`pos, buf
      ensures len <= buflen && buf[len] == NUL && pos == len
      ensures Text() == Loaded(entry, buflen)
    {
      Strncpy(buf, entry, buflen);
      buf[buflen - 1] := NUL;
      len := if |entry| < buflen then |entry| else buflen - 1;
      pos := len;
    }

    /** One key that does not end the line. */
    method Press(key: Key)
      requires Valid() && key != Enter && key != Interrupt
      modifies this, buf, history`entries
      ensures Valid() && Content() == KeyStep(old(Content()), key, buflen)
    {
      if key == Older {
        HistoryNext(true);
      } else if key == Newer {
        HistoryNext(false);
      } else {
        PressEdit(key);
      }
    }

    /** A key that changes the line at most. */
    method PressEdit(key: Key)
      requires Valid() && key != Enter && key != Interrupt && key != Older && key != Newer
      modifies this, buf
      ensures Valid() && Line(Text(), pos) == EditLine(old(Content()).line, key, buflen)
      ensures historyIndex == old(historyIndex)
    {
      match key
      case Insert(c) => Insert(c);
      case MoveLeft => MoveLeft();
      case MoveRight => MoveRight();
      case MoveHome => MoveHome();
      case MoveEnd => MoveEnd();
      case Delete => Delete();
      case EndOfFile => Delete();
      case Backspace => Backspace();
      case DeletePrevWord => DeletePrevWord();
      case Transpose => Transpose();
      case KillLine => KillLine();
      case KillToEnd => KillToEnd();
      case Redraw =>
    }
  }

  /** Edits one line in a buffer of `size` characters. */
  method EditOneLine(size: nat, history: History, keys: seq<Key>) returns (outcome: Outcome, text: string)
    requires size >= 2 && history.Valid()
    modifies history`entries
    ensures var start := State(Line("", 0), Remembered(old(history.entries), history.maxLen, ""), 0);
            Sound(start, size - 1) && Result(outcome, text, history.entries) == Session(start, keys, size - 1)
  {
    var l := new Editor(size, history);
    ghost var start := l.Content();
    for i := 0 to |keys|
      invariant l.Valid() && l.history == history && l.buflen == size - 1 && fresh(l) && fresh(l.buf)
      invariant Sound(l.Content(), size - 1) && Session(l.Content(), keys[i..], size - 1) == Session(start, keys, size - 1)
    {
      assert keys[i..][0] == keys[i] && keys[i..][1..] == keys[i + 1..];
      var key := keys[i];
      if key == Enter {
        history.entries := history.entries[..|history.entries| - 1];
        return Accepted, l.buf[..l.len];
      } else if key == Interrupt {
        return Interrupted, l.buf[..l.len];
      } else if key == EndOfFile && l.len == 0 {
        history.entries := history.entries[..|history.entries| - 1];
        return Ended, "";
      }
      KeyStaysSound(l.Content(), key, size - 1);
      l.Press(key);
    }
    return InputGone, l.buf[..l.len];
  }

  lemma {:induction false} CStringIs(s: string, n: nat)
    requires n <= |s| && NUL !in s[..n] && (n < |s| ==> s[n] == NUL)
    ensures CString(s) == s[..n]
  {
  }
}
