/** NIF names of symbols and types, the scanners that take them apart, and the generator that keeps them distinct. */
module NifNames {

  predicate IsDigit(c: char)
  {
    '0' <= c <= '9'
  }

  function DigitChar(d: nat): (c: char)
    requires d < 10
    ensures IsDigit(c) && DigitValue(c) == d
  {
    '0' + d as char
  }

  function DigitValue(c: char): (d: nat)
    requires IsDigit(c)
    ensures d < 10
  {
    (c - '0') as nat
  }

  /** `addInt` of a non-negative number. */
  function Decimal(n: nat): (s: string)
    ensures |s| > 0 && forall i :: 0 <= i < |s| ==> IsDigit(s[i])
  {
    if n < 10 then [DigitChar(n)] else Decimal(n / 10) + [DigitChar(n % 10)]
  }

  /** Where the run of digits starting at `j` ends. */
  function RunEnd(s: string, j: nat): (e: nat)
    requires j <= |s|
    ensures j <= e <= |s|
    decreases |s| - j
  {
    if j < |s| && IsDigit(s[j]) then RunEnd(s, j + 1) else j
  }

  /** The number spelled by the digits from `j` to `e`. */
  function Spelled(s: string, j: nat, e: nat): nat
    requires j <= e <= |s|
    requires forall i :: j <= i < e ==> IsDigit(s[i])
  {
    if e == j then 0 else Spelled(s, j, e - 1) * 10 + DigitValue(s[e - 1])
  }

  lemma {:induction false} RunIsDigits(s: string, j: nat)
    requires j <= |s|
    ensures forall i :: j <= i < RunEnd(s, j) ==> IsDigit(s[i])
    ensures RunEnd(s, j) < |s| ==> !IsDigit(s[RunEnd(s, j)])
    decreases |s| - j
  {
    if j < |s| && IsDigit(s[j]) {
      RunIsDigits(s, j + 1);
    }
  }

  function NumberAt(s: string, j: nat): nat
    requires j <= |s|
  {
    RunIsDigits(s, j);
    Spelled(s, j, RunEnd(s, j))
  }

  lemma {:induction false} RunEndIs(s: string, j: nat, e: nat)
    requires j <= e <= |s|
    requires forall i :: j <= i < e ==> IsDigit(s[i])
    requires e < |s| ==> !IsDigit(s[e])
    ensures RunEnd(s, j) == e
    decreases e - j
  {
    if j < e {
      RunEndIs(s, j + 1, e);
    }
  }

  lemma {:induction false} SpelledDecimal(pre: string, n: nat, post: string)
    ensures forall i :: |pre| <= i < |pre| + |Decimal(n)| ==> IsDigit((pre + Decimal(n) + post)[i])
    ensures Spelled(pre + Decimal(n) + post, |pre|, |pre| + |Decimal(n)|) == n
  {
    if n >= 10 {
      var last := [DigitChar(n % 10)];
      SpelledDecimal(pre, n / 10, last + post);
      assert pre + Decimal(n) + post == pre + Decimal(n / 10) + (last + post);
    } else {
      assert (pre + Decimal(n) + post)[|pre|] == DigitChar(n);
      assert Spelled(pre + Decimal(n) + post, |pre|, |pre|) == 0;
    }
  }

  /** A number followed by something that is not a digit is read back. */
  lemma NumberBack(pre: string, n: nat, post: string)
    requires post == "" || !IsDigit(post[0])
    ensures NumberAt(pre + Decimal(n) + post, |pre|) == n
    ensures RunEnd(pre + Decimal(n) + post, |pre|) == |pre| + |Decimal(n)|
  {
    SpelledDecimal(pre, n, post);
    var s := pre + Decimal(n) + post;
    assert post != "" ==> s[|pre| + |Decimal(n)|] == post[0];
    RunEndIs(s, |pre|, |pre| + |Decimal(n)|);
  }

  /** The digit loop shared by the scanners. */
  method ReadNumber(s: string, start: nat) returns (count: nat, j: nat)
    requires start <= |s|
    ensures count == NumberAt(s, start) && j == RunEnd(s, start)
  {
    count, j := 0, start;
    RunIsDigits(s, start);
    while j < |s| && IsDigit(s[j])
      invariant start <= j <= RunEnd(s, start)
      invariant count == Spelled(s, start, j)
      decreases |s| - j
    {
      count := count * 10 + DigitValue(s[j]);
      j := j + 1;
    }
  }

  // ---------------------------------------------------------------- symbol names

  /** `ident.disamb` of a local symbol. */
  function LocalName(name: string, disamb: nat): string
  {
    name + "." + Decimal(disamb)
  }

  /** `ident.disamb.moduleSuffix` of any other symbol. */
  function GlobalName(name: string, disamb: nat, suffix: string): string
  {
    LocalName(name, disamb) + "." + suffix
  }

  datatype ParsedSymName = ParsedSymName(name: string, module_: string, count: nat)

  /** The last dot at or before `i`, not counting the first character; 0 if there is none. */
  function LastDot(s: string, i: int): (k: nat)
    requires i < |s|
    ensures k == 0 || (k <= i && s[k] == '.')
    ensures forall j :: k < j <= i ==> s[j] != '.'
    decreases i
  {
    if i <= 0 then 0 else if s[i] == '.' then i else LastDot(s, i - 1)
  }

  lemma {:induction false} LastDotIs(s: string, k: nat, i: int)
    requires 0 < k <= i < |s| && s[k] == '.'
    requires forall j :: k < j <= i ==> s[j] != '.'
    ensures LastDot(s, i) == k
  {
  }

  function Parsed(s: string): ParsedSymName
  {
    var i := LastDot(s, |s| - 2);
    if i == 0 then ParsedSymName(s, "", 0)
    else if IsDigit(s[i + 1]) then ParsedSymName(s[..i], "", NumberAt(s, i + 1))
    else
      var b := LastDot(s, i - 1);
      ParsedSymName(s[..b], s[i + 1..], NumberAt(s, b + 1))
  }

  method ParseSymName(s: string) returns (r: ParsedSymName)
    ensures r == Parsed(s)
  {
    var i := |s| - 2;
    while i > 0
      invariant -2 <= i < |s|
      invariant LastDot(s, i) == LastDot(s, |s| - 2)
    {
      if s[i] == '.' {
        if IsDigit(s[i + 1]) {
          var count, _ := ReadNumber(s, i + 1);
          return ParsedSymName(s[..i], "", count);
        } else {
          var b := i - 1;
          while b > 0 && s[b] != '.'
            invariant 0 <= b < i
            invariant LastDot(s, b) == LastDot(s, i - 1)
          {
            b := b - 1;
          }
          var count, _ := ReadNumber(s, b + 1);
          return ParsedSymName(s[..b], s[i + 1..], count);
        }
      }
      i := i - 1;
    }
    return ParsedSymName(s, "", 0);
  }

  /** A local name is parsed back exactly when the identifier is not empty, whatever dots and digits are in it. */
  lemma LocalRoundTrip(name: string, disamb: nat)
    ensures Parsed(LocalName(name, disamb)) == ParsedSymName(name, "", disamb) <==> name != ""
  {
    var s := LocalName(name, disamb);
    if name == "" {
      assert forall j :: 0 < j < |s| ==> IsDigit(s[j]);
      assert LastDot(s, |s| - 2) == 0;
    } else {
      assert forall j :: |name| < j < |s| ==> IsDigit(s[j]);
      LastDotIs(s, |name|, |s| - 2);
      assert s[..|name|] == name;
      NumberBack(name + ".", disamb, "");
      assert name + "." + Decimal(disamb) + "" == s;
    }
  }

  /** What `parseSymName` needs of a module suffix: no dot except possibly as its last character, and no leading digit;
      without a suffix the name is taken for a local one, so the identifier must not be empty. */
  predicate SuffixReadable(name: string, suffix: string)
  {
    (forall j :: 0 <= j < |suffix| - 1 ==> suffix[j] != '.') &&
    (if suffix == "" then name != "" else !IsDigit(suffix[0]))
  }

  lemma SuffixDot(left: string, suffix: string)
    requires left != "" && suffix != "" && forall j :: 0 <= j < |suffix| - 1 ==> suffix[j] != '.'
    ensures LastDot(left + "." + suffix, |left| + |suffix| - 1) == |left|
  {
    var s := left + "." + suffix;
    assert |s| - 2 == |left| + |suffix| - 1 && s[|left|] == '.';
    forall j | |left| < j <= |s| - 2
      ensures s[j] != '.'
    {
      assert s[j] == suffix[j - (|left| + 1)];
    }
    LastDotIs(s, |left|, |s| - 2);
  }

  lemma NameDot(name: string, disamb: nat, post: string)
    ensures LastDot(LocalName(name, disamb) + post, |LocalName(name, disamb)| - 1) == |name|
  {
    var s := LocalName(name, disamb) + post;
    assert forall j :: |name| < j < |LocalName(name, disamb)| ==> s[j] == Decimal(disamb)[j - |name| - 1];
    if name != "" {
      LastDotIs(s, |name|, |LocalName(name, disamb)| - 1);
    }
  }

  lemma GlobalShape(name: string, disamb: nat, suffix: string)
    ensures var left, s := LocalName(name, disamb), GlobalName(name, disamb, suffix);
      |s| == |left| + 1 + |suffix| && s[|left| + 1..] == suffix && s[..|name|] == name && |left| > |name|
  {
  }

  lemma GlobalNumber(name: string, disamb: nat, suffix: string)
    ensures NumberAt(GlobalName(name, disamb, suffix), |name| + 1) == disamb
  {
    NumberBack(name + ".", disamb, "." + suffix);
    assert name + "." + Decimal(disamb) + ("." + suffix) == GlobalName(name, disamb, suffix);
  }

  lemma GlobalDots(name: string, disamb: nat, suffix: string)
    requires SuffixReadable(name, suffix) && suffix != ""
    ensures var left, s := LocalName(name, disamb), GlobalName(name, disamb, suffix);
      LastDot(s, |s| - 2) == |left| && LastDot(s, |left| - 1) == |name|
  {
    var left, s := LocalName(name, disamb), GlobalName(name, disamb, suffix);
    GlobalShape(name, disamb, suffix);
    SuffixDot(left, suffix);
    NameDot(name, disamb, "." + suffix);
    assert s == left + ("." + suffix);
  }

  lemma GlobalBack(name: string, disamb: nat, suffix: string)
    requires SuffixReadable(name, suffix) && suffix != ""
    ensures Parsed(GlobalName(name, disamb, suffix)) == ParsedSymName(name, suffix, disamb)
  {
    GlobalShape(name, disamb, suffix);
    GlobalDots(name, disamb, suffix);
    GlobalNumber(name, disamb, suffix);
  }

  lemma UnreadableLost(name: string, disamb: nat, suffix: string)
    requires !SuffixReadable(name, suffix) && suffix != ""
    ensures Parsed(GlobalName(name, disamb, suffix)).module_ != suffix
  {
  }

  lemma UnsuffixedRoundTrip(name: string, disamb: nat)
    ensures Parsed(GlobalName(name, disamb, "")) == ParsedSymName(name, "", disamb) <==> name != ""
  {
    var s := GlobalName(name, disamb, "");
    assert s == LocalName(name, disamb) + ".";
    NameDot(name, disamb, ".");
    if name != "" {
      assert s[..|name|] == name;
      NumberBack(name + ".", disamb, ".");
    }
  }

  /** A global name is parsed back exactly when its suffix is readable. */
  lemma GlobalRoundTrip(name: string, disamb: nat, suffix: string)
    ensures Parsed(GlobalName(name, disamb, suffix)) == ParsedSymName(name, suffix, disamb) <==> SuffixReadable(name, suffix)
  {
    if suffix != "" {
      if SuffixReadable(name, suffix) {
        GlobalBack(name, disamb, suffix);
      } else {
        UnreadableLost(name, disamb, suffix);
      }
    } else {
      UnsuffixedRoundTrip(name, disamb);
    }
  }

  // ---------------------------------------------------------------- type names

  /** `` `t<kind>.<item>.<suffix> ``. */
  function TypeName(kind: nat, item: nat, suffix: string): string
  {
    "`t" + Decimal(kind) + "." + Decimal(item) + "." + suffix
  }

  datatype ParsedTypeName = ParsedTypeName(kind: nat, item: nat, suffix: string)

  function SkipDot(s: string, i: nat): (j: nat)
    requires i <= |s|
    ensures i <= j <= |s|
  {
    if i < |s| && s[i] == '.' then i + 1 else i
  }

  function ParsedType(s: string): ParsedTypeName
    requires |s| >= 2
  {
    var i := SkipDot(s, RunEnd(s, 2));
    ParsedTypeName(NumberAt(s, 2), NumberAt(s, i), s[SkipDot(s, RunEnd(s, i))..])
  }

  method ParseTypeName(s: string) returns (r: ParsedTypeName)
    requires "`t" <= s
    ensures r == ParsedType(s)
  {
    var k, i := ReadNumber(s, 2);
    if i < |s| && s[i] == '.' {
      i := i + 1;
    }
    var itemId, j := ReadNumber(s, i);
    if j < |s| && s[j] == '.' {
      j := j + 1;
    }
    return ParsedTypeName(k, itemId, s[j..]);
  }

  /** Type names are parsed back whatever the suffix is. */
  lemma TypeRoundTrip(kind: nat, item: nat, suffix: string)
    ensures ParsedType(TypeName(kind, item, suffix)) == ParsedTypeName(kind, item, suffix)
  {
    var s := TypeName(kind, item, suffix);
    NumberBack("`t", kind, "." + Decimal(item) + "." + suffix);
    assert "`t" + Decimal(kind) + ("." + Decimal(item) + "." + suffix) == s;
    var pre := "`t" + Decimal(kind) + ".";
    assert s[2 + |Decimal(kind)|] == '.';
    assert SkipDot(s, RunEnd(s, 2)) == |pre|;
    NumberBack(pre, item, "." + suffix);
    assert pre + Decimal(item) + ("." + suffix) == s;
    assert s[|pre| + |Decimal(item)|] == '.';
    assert s[|pre| + |Decimal(item)| + 1..] == suffix;
  }

  // ---------------------------------------------------------------- the generator

  datatype ItemId = ItemId(module_: int, item: int)

  /** A symbol as `newSym` makes it. */
  datatype Symbol = Symbol(id: ItemId, name: string, disamb: nat)

  /** Only a global symbol's NIF name gets the module suffix. */
  function SymName(s: Symbol, global: bool, suffix: string): string
  {
    if global then GlobalName(s.name, s.disamb, suffix) else LocalName(s.name, s.disamb)
  }

  /** The state of an `IdGenerator`: counters of symbols, and of the uses of each name. */
  datatype Gen = Gen(module_: int, symId: int, uses: map<string, nat>)
  {
    function Uses(name: string): nat
    {
      if name in uses then uses[name] else 0
    }

    function Bump(name: string): Gen
    {
      this.(uses := uses[name := Uses(name) + 1])
    }

    function Issued(name: string): Symbol
    {
      Symbol(ItemId(module_, symId + 1), name, Uses(name))
    }

    function Next(name: string): Gen
    {
      Bump(name).(symId := symId + 1)
    }
  }

  class IdGenerator {
    const module_: int
    var symId: int
    var isSealed: bool
    var disambTable: map<string, nat>

    ghost function State(): Gen
      reads this
    {
      Gen(module_, symId, disambTable)
    }

    constructor FromModule(module_: int, item: int, name: string)
      ensures !isSealed && State() == Gen(module_, item, map[name := 1])
    {
      this.module_, symId, isSealed := module_, item, false;
      disambTable := map[name := 1];
    }

    constructor ForPackage(nextIdWillBe: int)
      ensures !isSealed && State() == Gen(-3, nextIdWillBe - 1, map[])
    {
      module_, symId, isSealed := -3, nextIdWillBe - 1, false;
      disambTable := map[];
    }

    method NextSymId() returns (id: ItemId)
      requires !isSealed
      modifies this`symId
      ensures symId == old(symId) + 1
      ensures id == ItemId(module_, symId)
    {
      symId := symId + 1;
      id := ItemId(module_, symId);
    }

    method NewSym(name: string) returns (s: Symbol)
      requires !isSealed
      modifies this`symId, this`disambTable
      ensures s == old(State()).Issued(name)
      ensures s == Symbol(ItemId(module_, old(symId) + 1), name, if name in old(disambTable) then old(disambTable)[name] else 0)
      ensures State() == old(State()).Next(name)
    {
      var id := NextSymId();
      var count := if name in disambTable then disambTable[name] else 0;
      s := Symbol(id, name, count);
      disambTable := disambTable[name := count + 1];
    }
  }

  /** The symbols of a run that asks for `names` in this order. */
  function Run(g: Gen, names: seq<string>): (syms: seq<Symbol>)
    ensures |syms| == |names|
    decreases names
  {
    if names == [] then [] else [g.Issued(names[0])] + Run(g.Next(names[0]), names[1..])
  }

  lemma {:induction false} RunFacts(g: Gen, names: seq<string>, i: nat)
    requires i < |names|
    ensures Run(g, names)[i].id == ItemId(g.module_, g.symId + 1 + i)
    ensures Run(g, names)[i].name == names[i]
    ensures Run(g, names)[i].disamb >= g.Uses(names[i])
    decreases i
  {
    if i > 0 {
      RunFacts(g.Next(names[0]), names[1..], i - 1);
    }
  }

  /** The ids of a run count on from the generator's, and a symbol is told from the others of its name by how often the name was
      used before it. */
  lemma {:induction false} RunCounts(g: Gen, names: seq<string>, i: nat)
    requires i < |names|
    ensures Run(g, names)[i] == Symbol(ItemId(g.module_, g.symId + 1 + i), names[i],
                                       (if names[i] in g.uses then g.uses[names[i]] else 0) + multiset(names[..i])[names[i]])
    decreases i
  {
    if i > 0 {
      RunCounts(g.Next(names[0]), names[1..], i - 1);
      assert names[..i] == [names[0]] + names[1..][..i - 1];
    }
  }

  lemma {:induction false} RunDisambiguates(g: Gen, names: seq<string>, i: nat, j: nat)
    requires i < j < |names| && names[i] == names[j]
    ensures Run(g, names)[i].disamb < Run(g, names)[j].disamb
    decreases i
  {
    if i > 0 {
      RunDisambiguates(g.Next(names[0]), names[1..], i - 1, j - 1);
    } else {
      RunFacts(g.Next(names[0]), names[1..], j - 1);
    }
  }

  /** Names of one module clash only for equal identifiers and counters: a local and a global name never do. */
  lemma NamesInjective(s: Symbol, sGlobal: bool, t: Symbol, tGlobal: bool, suffix: string)
    requires s.name != "" && t.name != "" && suffix != "" && SuffixReadable(s.name, suffix)
    requires SymName(s, sGlobal, suffix) == SymName(t, tGlobal, suffix)
    ensures s.name == t.name && s.disamb == t.disamb && sGlobal == tGlobal
  {
    LocalRoundTrip(s.name, s.disamb);
    LocalRoundTrip(t.name, t.disamb);
    GlobalRoundTrip(s.name, s.disamb, suffix);
    GlobalRoundTrip(t.name, t.disamb, suffix);
  }

  /** Any two symbols of one generator have different ids and different NIF names, whichever of them are local. */
  lemma GeneratorNamesDistinct(g: Gen, names: seq<string>, i: nat, j: nat, iGlobal: bool, jGlobal: bool, suffix: string)
    requires i < j < |names| && names[i] != "" && names[j] != ""
    requires suffix != "" && SuffixReadable(names[i], suffix)
    ensures Run(g, names)[i].id != Run(g, names)[j].id
    ensures SymName(Run(g, names)[i], iGlobal, suffix) != SymName(Run(g, names)[j], jGlobal, suffix)
  {
    RunFacts(g, names, i);
    RunFacts(g, names, j);
    if SymName(Run(g, names)[i], iGlobal, suffix) == SymName(Run(g, names)[j], jGlobal, suffix) {
      NamesInjective(Run(g, names)[i], iGlobal, Run(g, names)[j], jGlobal, suffix);
      RunDisambiguates(g, names, i, j);
    }
  }

  /** Global symbols of different modules never share a name, given different suffixes. */
  lemma ModulesApart(s: Symbol, sSuffix: string, t: Symbol, tSuffix: string)
    requires sSuffix != "" && tSuffix != "" && SuffixReadable(s.name, sSuffix) && SuffixReadable(t.name, tSuffix)
    requires sSuffix != tSuffix
    ensures SymName(s, true, sSuffix) != SymName(t, true, tSuffix)
  {
    GlobalRoundTrip(s.name, s.disamb, sSuffix);
    GlobalRoundTrip(t.name, t.disamb, tSuffix);
  }
}
