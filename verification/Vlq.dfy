/** Base64 variable-length quantities, as the `mappings` field of a source map uses them. */
module Vlq {
  import opened Wrappers

  /** The base64 alphabet: A-Z, a-z, 0-9, + and /. */
  function Base64Char(d: nat): (c: char)
    requires d < 64
    ensures c != ';' && c != ','
    ensures Base64Value(c) == d
  {
    if d < 26 then 'A' + d as char
    else if d < 52 then 'a' + (d - 26) as char
    else if d < 62 then '0' + (d - 52) as char
    else if d == 62 then '+'
    else '/'
  }

  /** The digit a character stands for; 64 for a character outside the alphabet. */
  function Base64Value(c: char): (v: nat)
    ensures v <= 64
  {
    if 'A' <= c <= 'Z' then (c - 'A') as nat
    else if 'a' <= c <= 'z' then (c - 'a') as nat + 26
    else if '0' <= c <= '9' then (c - '0') as nat + 52
    else if c == '+' then 62
    else if c == '/' then 63
    else 64
  }

  /** The magnitude with the sign in the lowest bit. */
  function SignLast(n: int): nat
  {
    if n < 0 then -n * 2 + 1 else n * 2
  }

  /** Five bits a digit, lowest first; every digit but the last has the continuation bit. */
  function Digits(value: nat): (s: string)
    ensures |s| > 0 && s[0] != ';' && s[0] != ','
    ensures s[|s| - 1] != ';' && s[|s| - 1] != ','
  {
    if value < 32 then [Base64Char(value)] else [Base64Char(value % 32 + 32)] + Digits(value / 32)
  }

  function Encoded(n: int): (s: string)
    ensures |s| > 0 && s[0] != ';' && s[0] != ','
    ensures s[|s| - 1] != ';' && s[|s| - 1] != ','
  {
    Digits(SignLast(n))
  }

  method EncodeVlq(n: int) returns (s: string)
    ensures s == Encoded(n)
  {
    s := "";
    var value: nat := if n < 0 then -n * 2 + 1 else n * 2;
    while true
      invariant s + Digits(value) == Encoded(n)
      decreases value
    {
      var digit := value % 32;
      ghost var whole := value;
      value := value / 32;
      if value > 0 {
        digit := digit + 32;
      }
      assert s + [Base64Char(digit)] + Digits(value) == s + ([Base64Char(digit)] + Digits(value));
      s := s + [Base64Char(digit)];
      if value == 0 {
        break;
      }
    }
  }

  /** What a consumer of source maps does: collect digits up to one without the continuation bit. */
  function Magnitude(s: string): (r: Option<(nat, string)>)
    ensures r.Some? ==> |r.value.1| < |s|
  {
    if s == "" || Base64Value(s[0]) >= 64 then None
    else if Base64Value(s[0]) < 32 then Some((Base64Value(s[0]), s[1..]))
    else
      match Magnitude(s[1..])
      case None => None
      case Some((v, rest)) => Some((v * 32 + (Base64Value(s[0]) - 32), rest))
  }

  function Decoded(s: string): (r: Option<(int, string)>)
    ensures r.Some? ==> |r.value.1| < |s|
  {
    match Magnitude(s)
    case None => None
    case Some((v, rest)) => Some((if v % 2 == 1 then -(v / 2) else v / 2, rest))
  }

  lemma MagnitudeStep(c: char, t: string, v: nat, rest: string)
    requires 32 <= Base64Value(c) < 64 && Magnitude(t) == Some((v, rest))
    ensures Magnitude([c] + t) == Some((v * 32 + (Base64Value(c) - 32), rest))
  {
  }

  lemma {:induction false} DigitsBack(value: nat, rest: string)
    ensures Magnitude(Digits(value) + rest) == Some((value, rest))
  {
    if value < 32 {
      assert (Digits(value) + rest)[1..] == rest;
    } else {
      var c := Base64Char(value % 32 + 32);
      var t := Digits(value / 32);
      DigitsBack(value / 32, rest);
      MagnitudeStep(c, t + rest, value / 32, rest);
      assert [c] + (t + rest) == ([c] + t) + rest;
    }
  }

  /** The code is read back, and tells by itself where it ends. */
  lemma VlqRoundTrip(n: int, rest: string)
    ensures Decoded(Encoded(n) + rest) == Some((n, rest))
  {
    DigitsBack(SignLast(n), rest);
  }

  /** The digits are those of RFC 4648, section 4: A to Z, a to z, 0 to 9, + and /. */
  lemma AlphabetIs(d: nat)
    requires d < 63
    ensures Base64Char(0) == 'A' && Base64Char(25) == 'Z' && Base64Char(26) == 'a' && Base64Char(51) == 'z'
    ensures Base64Char(52) == '0' && Base64Char(61) == '9' && Base64Char(62) == '+' && Base64Char(63) == '/'
    ensures d !in {25, 51, 61, 62} ==> Base64Char(d + 1) == Base64Char(d) + 1 as char
  {
  }

  /** `s` is the base64 digits of numbers below 32, lowest first, that sum up to `value`; 32 is added to all but the last. */
  ghost predicate Spells(s: string, value: nat)
  {
    exists d: nat :: d < 64 && s != "" && s[0] == Base64Char(d) &&
      if |s| == 1 then d == value else d >= 32 && exists higher: nat :: value == d - 32 + 32 * higher && Spells(s[1..], higher)
  }

  lemma {:induction false} DigitsSpell(value: nat)
    ensures Spells(Digits(value), value)
  {
    if value >= 32 {
      DigitsSpell(value / 32);
      var s := Digits(value);
      assert s[1..] == Digits(value / 32);
      assert value == value % 32 + 32 * (value / 32);
    }
  }

  /** The code of a number: its magnitude twice, and one more if it is negative, in base64 digits of five bits. */
  lemma EncodedSpells(n: int)
    ensures Spells(Encoded(n), if n < 0 then 2 * -n + 1 else 2 * n)
  {
    DigitsSpell(SignLast(n));
    assert SignLast(n) == if n < 0 then 2 * -n + 1 else 2 * n;
  }

  // ---------------------------------------------------------------- segments

  datatype Segment = Segment(generatedCol: int, sourceIdx: int, originalLine: int, originalCol: int)

  function EncodedSegment(g: Segment): (s: string)
    ensures |s| > 0 && s[0] != ';' && s[0] != ','
    ensures s[|s| - 1] != ';' && s[|s| - 1] != ','
  {
    Encoded(g.generatedCol) + Encoded(g.sourceIdx) + Encoded(g.originalLine) + Encoded(g.originalCol)
  }

  method EncodeSegment(g: Segment) returns (s: string)
    ensures s == EncodedSegment(g)
  {
    s := EncodeVlq(g.generatedCol);
    var t := EncodeVlq(g.sourceIdx);
    s := s + t;
    t := EncodeVlq(g.originalLine);
    s := s + t;
    t := EncodeVlq(g.originalCol);
    s := s + t;
  }

  function DecodedSegment(s: string): (r: Option<(Segment, string)>)
    ensures r.Some? ==> |r.value.1| < |s|
  {
    var a := Decoded(s);
    if a.None? then None else
    var b := Decoded(a.value.1);
    if b.None? then None else
    var c := Decoded(b.value.1);
    if c.None? then None else
    var d := Decoded(c.value.1);
    if d.None? then None else
    Some((Segment(a.value.0, b.value.0, c.value.0, d.value.0), d.value.1))
  }

  lemma Regroup(a: string, b: string, c: string, d: string, e: string)
    ensures a + b + c + d + e == a + (b + (c + (d + e)))
  {
  }

  lemma SegmentRoundTrip(g: Segment, rest: string)
    ensures DecodedSegment(EncodedSegment(g) + rest) == Some((g, rest))
  {
    var d := Encoded(g.originalCol) + rest;
    var c := Encoded(g.originalLine) + d;
    var b := Encoded(g.sourceIdx) + c;
    Regroup(Encoded(g.generatedCol), Encoded(g.sourceIdx), Encoded(g.originalLine), Encoded(g.originalCol), rest);
    VlqRoundTrip(g.generatedCol, b);
    VlqRoundTrip(g.sourceIdx, c);
    VlqRoundTrip(g.originalLine, d);
    VlqRoundTrip(g.originalCol, rest);
  }

  // ---------------------------------------------------------------- decoding a longer text

  /** `rest` is what is left of `s` after a non-empty piece that ends in a digit. */
  predicate Leaves(s: string, rest: string)
  {
    |rest| < |s| && rest == s[|s| - |rest|..] && Base64Value(s[|s| - |rest| - 1]) < 64
  }

  lemma {:induction false} MagnitudeExtends(s: string, x: string)
    requires Magnitude(s).Some?
    ensures var (v, rest) := Magnitude(s).value;
            Leaves(s, rest) && Magnitude(s + x) == Some((v, rest + x))
  {
    assert (s + x)[1..] == s[1..] + x;
    if Base64Value(s[0]) >= 32 {
      MagnitudeExtends(s[1..], x);
    }
  }

  lemma DecodedExtends(s: string, x: string)
    requires Decoded(s).Some?
    ensures Decoded(s + x) == Some((Decoded(s).value.0, Decoded(s).value.1 + x))
  {
    MagnitudeExtends(s, x);
  }

  lemma DecodedLeaves(s: string)
    requires Decoded(s).Some?
    ensures Leaves(s, Decoded(s).value.1)
  {
    MagnitudeExtends(s, "");
  }

  lemma LeavesTrans(s: string, t: string, u: string)
    requires Leaves(s, t) && Leaves(t, u)
    ensures Leaves(s, u)
  {
  }

  lemma SegmentExtends(s: string, x: string)
    requires DecodedSegment(s).Some?
    ensures DecodedSegment(s + x) == Some((DecodedSegment(s).value.0, DecodedSegment(s).value.1 + x))
  {
    var a := Decoded(s).value.1;
    var b := Decoded(a).value.1;
    var c := Decoded(b).value.1;
    DecodedExtends(s, x);
    DecodedExtends(a, x);
    DecodedExtends(b, x);
    DecodedExtends(c, x);
  }

  lemma SegmentLeaves(s: string)
    requires DecodedSegment(s).Some?
    ensures Leaves(s, DecodedSegment(s).value.1)
  {
    var a := Decoded(s).value.1;
    var b := Decoded(a).value.1;
    var c := Decoded(b).value.1;
    var d := Decoded(c).value.1;
    DecodedLeaves(s);
    DecodedLeaves(a);
    DecodedLeaves(b);
    DecodedLeaves(c);
    LeavesTrans(s, a, b);
    LeavesTrans(s, b, c);
    LeavesTrans(s, c, d);
  }
}
