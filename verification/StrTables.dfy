/** `TStrTable`, the symbol table, and `TIdentIter`, the iterator over all overloads of an identifier. */
module StrTables {
  import opened Wrappers
  import opened Probing
  import opened OpenAddressing

  /** A symbol: its identity and its identifier.  Identifiers are interned, so `identHash` of a
      table is a function of the identifier. */
  datatype Sym = Sym(uid: int, name: int)

  ghost function SlotOf(identHash: int -> int, s: Option<Sym>): Slot<Sym>
  {
    if s.None? then Free else Used(identHash(s.value.name), s.value)
  }

  ghost function View(identHash: int -> int, data: seq<Option<Sym>>): (slots: seq<Slot<Sym>>)
    ensures |slots| == |data|
  {
    seq(|data|, i requires 0 <= i < |data| => SlotOf(identHash, data[i]))
  }

  ghost predicate Mirrors(slots: seq<Slot<Sym>>, data: seq<Option<Sym>>)
  {
    |slots| == |data| && forall i :: 0 <= i < |data| ==> if data[i].None? then slots[i].Free? else slots[i].Used? && slots[i].item == data[i].value
  }

  lemma ViewUpdate(identHash: int -> int, data: seq<Option<Sym>>, h: nat, s: Option<Sym>)
    requires h < |data|
    ensures View(identHash, data[h := s]) == View(identHash, data)[h := SlotOf(identHash, s)]
  {
  }

  ghost predicate Stored(slots: seq<Slot<Sym>>, sym: Sym)
  {
    exists s :: 0 <= s < |slots| && slots[s].Used? && slots[s].item == sym
  }

  /** The slots hold exactly the symbols of `contents`, each once. */
  ghost predicate Lists(slots: seq<Slot<Sym>>, contents: set<Sym>)
  {
    && (forall s :: 0 <= s < |slots| && slots[s].Used? ==> slots[s].item in contents)
    && (forall s, t :: 0 <= s < |slots| && 0 <= t < |slots| && slots[s].Used? && slots[t].Used? && slots[s].item == slots[t].item ==> s == t)
    && (forall sym :: sym in contents ==> Stored(slots, sym))
  }

  ghost predicate Hashed(identHash: int -> int, slots: seq<Slot<Sym>>)
  {
    forall s :: 0 <= s < |slots| && slots[s].Used? ==> slots[s].start == identHash(slots[s].item.name)
  }

  ghost predicate SymTable(k: nat, slots: seq<Slot<Sym>>, contents: set<Sym>)
  {
    Chained(k, slots) && Lists(slots, contents) && UsedCount(slots) < |slots|
  }

  // ---------------------------------------------------------------------------
  // The overloads of an identifier, in the order in which its probe sequence meets them.

  ghost function OverloadsFrom(k: nat, slots: seq<Slot<Sym>>, h: int, name: int, n: nat): seq<Sym>
    requires |slots| == Pow2(k)
    decreases Pow2(k) - n
  {
    if n >= Pow2(k) || slots[Probe(k, h, n)].Free? then []
    else if slots[Probe(k, h, n)].item.name == name then [slots[Probe(k, h, n)].item] + OverloadsFrom(k, slots, h, name, n + 1)
    else OverloadsFrom(k, slots, h, name, n + 1)
  }

  ghost function Overloads(k: nat, slots: seq<Slot<Sym>>, identHash: int -> int, name: int): seq<Sym>
    requires |slots| == Pow2(k)
  {
    OverloadsFrom(k, slots, identHash(name), name, 0)
  }

  /** `seen` are the overloads met in the first `n` probes. */
  ghost predicate SeenBefore(k: nat, slots: seq<Slot<Sym>>, h: int, name: int, seen: seq<Sym>, n: nat)
    requires |slots| == Pow2(k)
  {
    OverloadsFrom(k, slots, h, name, 0) == seen + OverloadsFrom(k, slots, h, name, n)
  }

  lemma SeenStep(k: nat, slots: seq<Slot<Sym>>, h: int, name: int, seen: seq<Sym>, n: nat)
    requires |slots| == Pow2(k) && n < Pow2(k) && slots[Probe(k, h, n)].Used?
    requires SeenBefore(k, slots, h, name, seen, n)
    ensures slots[Probe(k, h, n)].item.name == name ==> SeenBefore(k, slots, h, name, seen + [slots[Probe(k, h, n)].item], n + 1)
    ensures slots[Probe(k, h, n)].item.name != name ==> SeenBefore(k, slots, h, name, seen, n + 1)
  {
  }

  lemma {:induction false} OverloadsFromSound(k: nat, slots: seq<Slot<Sym>>, h: int, name: int, n: nat, j: nat)
    returns (i: nat)
    requires |slots| == Pow2(k) && j < |OverloadsFrom(k, slots, h, name, n)|
    ensures n <= i < Pow2(k) && slots[Probe(k, h, i)].Used?
    ensures slots[Probe(k, h, i)].item == OverloadsFrom(k, slots, h, name, n)[j]
    ensures slots[Probe(k, h, i)].item.name == name
    decreases Pow2(k) - n
  {
    if slots[Probe(k, h, n)].item.name == name {
      if j == 0 {
        i := n;
      } else {
        i := OverloadsFromSound(k, slots, h, name, n + 1, j - 1);
      }
    } else {
      i := OverloadsFromSound(k, slots, h, name, n + 1, j);
    }
  }

  lemma {:induction false} OverloadsFromComplete(k: nat, slots: seq<Slot<Sym>>, h: int, name: int, n: nat, i: nat)
    requires |slots| == Pow2(k) && n <= i < Pow2(k)
    requires UsedPrefix(k, slots, h, i + 1) && slots[Probe(k, h, i)].item.name == name
    ensures slots[Probe(k, h, i)].item in OverloadsFrom(k, slots, h, name, n)
    decreases i - n
  {
    UsedPrefixAt(k, slots, h, i + 1, n);
    if n < i {
      OverloadsFromComplete(k, slots, h, name, n + 1, i);
    }
  }

  lemma {:induction false} OverloadsFromDistinct(k: nat, slots: seq<Slot<Sym>>, contents: set<Sym>, h: int, name: int, n: nat)
    requires |slots| == Pow2(k) && Lists(slots, contents)
    ensures forall a, b :: 0 <= a < b < |OverloadsFrom(k, slots, h, name, n)| ==>
      OverloadsFrom(k, slots, h, name, n)[a] != OverloadsFrom(k, slots, h, name, n)[b]
    decreases Pow2(k) - n
  {
    if n < Pow2(k) && slots[Probe(k, h, n)].Used? {
      var rest := OverloadsFrom(k, slots, h, name, n + 1);
      OverloadsFromDistinct(k, slots, contents, h, name, n + 1);
      forall b: nat | b < |rest|
        ensures rest[b] != slots[Probe(k, h, n)].item
      {
        var i := OverloadsFromSound(k, slots, h, name, n + 1, b);
        ProbeInjective(k, h, n, i);
      }
    }
  }

  /** The overload list of `name` has every symbol of that name once, and nothing else. */
  lemma OverloadsExact(k: nat, slots: seq<Slot<Sym>>, identHash: int -> int, contents: set<Sym>, name: int)
    requires SymTable(k, slots, contents) && Hashed(identHash, slots)
    ensures forall sym :: sym in Overloads(k, slots, identHash, name) <==> sym in contents && sym.name == name
    ensures forall a, b :: 0 <= a < b < |Overloads(k, slots, identHash, name)| ==>
      Overloads(k, slots, identHash, name)[a] != Overloads(k, slots, identHash, name)[b]
  {
    var h := identHash(name);
    var all := Overloads(k, slots, identHash, name);
    OverloadsFromDistinct(k, slots, contents, h, name, 0);
    forall sym
      ensures sym in all <==> sym in contents && sym.name == name
    {
      if sym in all {
        var j: nat :| j < |all| && all[j] == sym;
        var i := OverloadsFromSound(k, slots, h, name, 0, j);
      }
      if sym in contents && sym.name == name {
        assert Stored(slots, sym);
        var s: nat :| s < |slots| && slots[s].Used? && slots[s].item == sym;
        assert ChainAt(k, slots, s);
        var i := ReachedAt(k, slots, h, s);
        OverloadsFromComplete(k, slots, h, name, 0, i);
      }
    }
  }

  // ---------------------------------------------------------------------------
  // How one slot update changes the contents.

  lemma FillLists(k: nat, slots: seq<Slot<Sym>>, contents: set<Sym>, h: int, n: nat, sym: Sym)
    requires Chained(k, slots) && Lists(slots, contents) && n < Pow2(k) && sym !in contents
    requires UsedPrefix(k, slots, h, n) && slots[Probe(k, h, n)].Free?
    ensures Chained(k, slots[Probe(k, h, n) := Used(h, sym)])
    ensures Lists(slots[Probe(k, h, n) := Used(h, sym)], contents + {sym})
    ensures UsedCount(slots[Probe(k, h, n) := Used(h, sym)]) == UsedCount(slots) + 1
  {
    var p := Probe(k, h, n);
    var slots' := slots[p := Used(h, sym)];
    FillKeepsChains(k, slots, h, n, sym);
    UsedCountFill(slots, p, Used(h, sym));
    assert slots'[p].item == sym;
    forall x | x in contents
      ensures Stored(slots', x)
    {
      assert Stored(slots, x);
      var s :| 0 <= s < |slots| && slots[s].Used? && slots[s].item == x;
      assert slots'[s] == slots[s];
    }
  }

  lemma ReplaceLists(k: nat, slots: seq<Slot<Sym>>, contents: set<Sym>, p: nat, sym: Sym)
    requires Chained(k, slots) && Lists(slots, contents) && p < |slots| && slots[p].Used?
    ensures Chained(k, slots[p := Used(slots[p].start, sym)])
    ensures UsedCount(slots[p := Used(slots[p].start, sym)]) == UsedCount(slots)
    ensures sym !in contents || sym == slots[p].item ==>
      Lists(slots[p := Used(slots[p].start, sym)], contents - {slots[p].item} + {sym})
  {
    var slots' := slots[p := Used(slots[p].start, sym)];
    ReplaceKeepsChains(k, slots, p, sym);
    UsedCountReplace(slots, p, Used(slots[p].start, sym));
    if sym !in contents || sym == slots[p].item {
      assert slots'[p].item == sym;
      forall x | x in contents - {slots[p].item} + {sym}
        ensures Stored(slots', x)
      {
        if x != sym {
          assert Stored(slots, x);
          var s :| 0 <= s < |slots| && slots[s].Used? && slots[s].item == x;
          assert slots'[s] == slots[s];
        }
      }
    }
  }

  /** A symbol written over another one while it already has a slot of its own is then listed twice. */
  lemma ReplaceDuplicates(slots: seq<Slot<Sym>>, contents: set<Sym>, p: nat, sym: Sym, any: set<Sym>)
    requires Lists(slots, contents) && p < |slots| && slots[p].Used?
    requires sym in contents && sym != slots[p].item
    ensures !Lists(slots[p := Used(slots[p].start, sym)], any)
  {
    var slots' := slots[p := Used(slots[p].start, sym)];
    assert Stored(slots, sym);
    var s :| 0 <= s < |slots| && slots[s].Used? && slots[s].item == sym;
    assert slots'[s].item == slots'[p].item && s != p;
  }

  /** The first `n` slots probed from `h` are used by symbols other than `sym`. */
  ghost predicate MissedSym(k: nat, slots: seq<Slot<Sym>>, h: int, sym: Sym, n: nat)
    requires |slots| == Pow2(k)
  {
    n == 0 || (MissedSym(k, slots, h, sym, n - 1) && slots[Probe(k, h, n - 1)].Used? && slots[Probe(k, h, n - 1)].item != sym)
  }

  lemma {:induction false} MissedSymAt(k: nat, slots: seq<Slot<Sym>>, h: int, sym: Sym, n: nat)
    requires |slots| == Pow2(k) && MissedSym(k, slots, h, sym, n)
    ensures UsedPrefix(k, slots, h, n)
    ensures forall i: nat :: i < n ==> slots[Probe(k, h, i)].Used? && slots[Probe(k, h, i)].item != sym
  {
    if n > 0 { MissedSymAt(k, slots, h, sym, n - 1); }
  }

  lemma MissedSymEnds(k: nat, slots: seq<Slot<Sym>>, h: int, sym: Sym, n: nat)
    requires |slots| == Pow2(k) && UsedCount(slots) < |slots| && MissedSym(k, slots, h, sym, n)
    ensures n < Pow2(k) && UsedPrefix(k, slots, h, n)
  {
    MissedSymAt(k, slots, h, sym, n);
    ScanEnds(k, slots, h, n);
  }

  lemma AbsentSym(k: nat, slots: seq<Slot<Sym>>, identHash: int -> int, contents: set<Sym>, sym: Sym, n: nat)
    requires SymTable(k, slots, contents) && Hashed(identHash, slots)
    requires slots[Probe(k, identHash(sym.name), n)].Free? && MissedSym(k, slots, identHash(sym.name), sym, n)
    ensures sym !in contents
  {
    MissedSymAt(k, slots, identHash(sym.name), sym, n);
    if sym in contents {
      assert Stored(slots, sym);
      var s: nat :| s < |slots| && slots[s].Used? && slots[s].item == sym;
      var i := MetBefore(k, slots, s, n);
    }
  }

  // ---------------------------------------------------------------------------
  // Operations on the slot array.

  method RawInsert(identHash: int -> int, data: array<Option<Sym>>, sym: Sym, ghost k: nat, ghost contents: set<Sym>)
    requires SymTable(k, View(identHash, data[..]), contents) && Hashed(identHash, View(identHash, data[..]))
    modifies data
    ensures Chained(k, View(identHash, data[..])) && Hashed(identHash, View(identHash, data[..]))
    ensures Lists(View(identHash, data[..]), contents + {sym})
    ensures UsedCount(View(identHash, data[..])) == old(UsedCount(View(identHash, data[..]))) + if sym in contents then 0 else 1
  {
    ghost var slots := View(identHash, data[..]);
    var h, found, n := Find(identHash, data, sym, k, contents);
    if found {
      assert contents + {sym} == contents;
    } else {
      FillLists(k, slots, contents, identHash(sym.name), n, sym);
      ghost var before := data[..];
      data[h] := Some(sym);
      assert data[..] == before[h := Some(sym)];
      ViewUpdate(identHash, before, h, Some(sym));
    }
  }

  /** The probe loop of `strTableContains` and `strTableRawInsert`. */
  method Find(identHash: int -> int, data: array<Option<Sym>>, sym: Sym, ghost k: nat, ghost contents: set<Sym>)
    returns (h: nat, found: bool, ghost n: nat)
    requires SymTable(k, View(identHash, data[..]), contents) && Hashed(identHash, View(identHash, data[..]))
    ensures h < data.Length && found == (sym in contents)
    ensures data[h] == if found then Some(sym) else None
    ensures n < Pow2(k) && h == Probe(k, identHash(sym.name), n)
    ensures UsedPrefix(k, View(identHash, data[..]), identHash(sym.name), n)
  {
    ghost var slots := View(identHash, data[..]);
    ghost var h0 := identHash(sym.name);
    n := 0;
    h := StartSlot(identHash(sym.name), data.Length, k);
    while data[h].Some?
      invariant h == Probe(k, h0, n)
      invariant MissedSym(k, slots, h0, sym, n)
      decreases Pow2(k) - n
    {
      assert slots[h].Used?;
      if data[h].value == sym {
        MissedSymEnds(k, slots, h0, sym, n);
        return h, true, n;
      }
      MissedSymEnds(k, slots, h0, sym, n);
      h := NextSlot(h, data.Length, k);
      n := n + 1;
    }
    assert slots[h].Free?;
    MissedSymEnds(k, slots, h0, sym, n);
    AbsentSym(k, slots, identHash, contents, sym, n);
    found := false;
  }

  lemma FreshSlotsEmpty(identHash: int -> int, k: nat, slots: seq<Slot<Sym>>)
    requires |slots| == Pow2(k) && forall s :: 0 <= s < |slots| ==> slots[s].Free?
    ensures SymTable(k, slots, {}) && Hashed(identHash, slots) && UsedCount(slots) == 0
  {
    AllFreeCount(slots);
  }

  lemma PrefixStep(slots: seq<Slot<Sym>>, n: nat, whole: set<Sym>, part: set<Sym>)
    requires Lists(slots, whole) && n < |slots| && Lists(slots[..n], part)
    ensures slots[n].Used? ==> slots[n].item !in part && Lists(slots[..n + 1], part + {slots[n].item})
    ensures slots[n].Free? ==> Lists(slots[..n + 1], part)
    ensures UsedCount(slots[..n + 1]) == UsedCount(slots[..n]) + if slots[n].Used? then 1 else 0
  {
    var pre, pre' := slots[..n], slots[..n + 1];
    assert pre'[..n] == pre;
    var part' := if slots[n].Used? then part + {slots[n].item} else part;
    forall x | x in part'
      ensures Stored(pre', x)
    {
      if x in part {
        assert Stored(pre, x);
        var s :| 0 <= s < |pre| && pre[s].Used? && pre[s].item == x;
        assert pre'[s] == pre[s];
      } else {
        assert pre'[n].Used?;
      }
    }
  }

  lemma ListsUnique(slots: seq<Slot<Sym>>, a: set<Sym>, b: set<Sym>)
    requires Lists(slots, a) && Lists(slots, b)
    ensures a == b
  {
  }

  /** The new array while a rehash fills it: the symbols of the first `i` old slots are in it. */
  ghost predicate Refilled(identHash: int -> int, cells: seq<Option<Sym>>, k: nat, slots: seq<Slot<Sym>>, i: nat, part: set<Sym>)
    requires i <= |slots|
  {
    && SymTable(k, View(identHash, cells), part) && Hashed(identHash, View(identHash, cells))
    && Lists(slots[..i], part) && UsedCount(View(identHash, cells)) == UsedCount(slots[..i])
  }

  /** What `strTableEnlarge` does for one slot. */
  method Reinsert(identHash: int -> int, n: array<Option<Sym>>, slot: Option<Sym>, ghost k: nat, ghost slots: seq<Slot<Sym>>, ghost i: nat,
                  ghost whole: set<Sym>, ghost part: set<Sym>)
    returns (ghost part': set<Sym>)
    requires i < |slots| && Lists(slots, whole) && |slots| < n.Length && Refilled(identHash, n[..], k, slots, i, part)
    requires if slot.Some? then slots[i].Used? && slots[i].item == slot.value else slots[i].Free?
    modifies n
    ensures Refilled(identHash, n[..], k, slots, i + 1, part')
  {
    part' := part;
    PrefixStep(slots, i, whole, part);
    if slot.Some? {
      RawInsert(identHash, n, slot.value, k, part);
      part' := part + {slot.value};
    }
  }

  method Enlarge(identHash: int -> int, data: array<Option<Sym>>, ghost k: nat, ghost contents: set<Sym>)
    returns (n: array<Option<Sym>>)
    requires SymTable(k, View(identHash, data[..]), contents) && Hashed(identHash, View(identHash, data[..]))
    ensures fresh(n) && n.Length == 2 * data.Length
    ensures SymTable(k + 1, View(identHash, n[..]), contents) && Hashed(identHash, View(identHash, n[..]))
    ensures UsedCount(View(identHash, n[..])) == UsedCount(View(identHash, data[..]))
  {
    n := new Option<Sym>[data.Length * GROWTH_FACTOR](_ => None);
    FreshSlotsEmpty(identHash, k + 1, View(identHash, n[..]));
    Refill(identHash, data, n, k, contents);
  }

  /** Puts the symbols of `data` into the empty `n`. */
  method Refill(identHash: int -> int, data: array<Option<Sym>>, n: array<Option<Sym>>, ghost k: nat, ghost contents: set<Sym>)
    requires SymTable(k, View(identHash, data[..]), contents) && Hashed(identHash, View(identHash, data[..]))
    requires n != data && n.Length == 2 * data.Length
    requires SymTable(k + 1, View(identHash, n[..]), {}) && Hashed(identHash, View(identHash, n[..]))
    requires UsedCount(View(identHash, n[..])) == 0
    modifies n
    ensures SymTable(k + 1, View(identHash, n[..]), contents) && Hashed(identHash, View(identHash, n[..]))
    ensures UsedCount(View(identHash, n[..])) == UsedCount(View(identHash, data[..]))
  {
    ghost var slots := View(identHash, data[..]);
    ghost var part: set<Sym> := {};
    for i := 0 to data.Length
      invariant Refilled(identHash, n[..], k + 1, slots, i, part)
    {
      part := Reinsert(identHash, n, data[i], k + 1, slots, i, contents, part);
    }
    AllRefilled(identHash, n[..], k + 1, slots, contents, part);
  }

  lemma AllRefilled(identHash: int -> int, cells: seq<Option<Sym>>, k: nat, slots: seq<Slot<Sym>>, whole: set<Sym>, part: set<Sym>)
    requires Refilled(identHash, cells, k, slots, |slots|, part) && Lists(slots, whole)
    ensures part == whole && UsedCount(View(identHash, cells)) == UsedCount(slots)
  {
    assert slots[..|slots|] == slots;
    ListsUnique(slots, whole, part);
  }

  /** The scan of `strTableInclReportConflict`, which ends at slot `h`: whether `sym` itself is met there,
      and if not, the slot of the last symbol met with the same identifier. */
  method ScanConflict(data: array<Option<Sym>>, sym: Sym, hash: int, ghost slots: seq<Slot<Sym>>, ghost k: nat)
    returns (h: nat, replaceSlot: int, ghost n: nat, ghost seen: seq<Sym>)
    requires Mirrors(slots, data[..]) && |slots| == Pow2(k) && UsedCount(slots) < |slots|
    ensures h == Probe(k, hash, n) && (data[h].None? || data[h].value == sym)
    ensures MissedSym(k, slots, hash, sym, n)
    ensures replaceSlot < data.Length && (replaceSlot < 0 <==> seen == [])
    ensures replaceSlot >= 0 ==> data[replaceSlot] == Some(seen[|seen| - 1])
    ensures data[h].None? ==> seen == OverloadsFrom(k, slots, hash, sym.name, 0)
  {
    n := 0;
    seen := [];
    replaceSlot := -1;
    h := StartSlot(hash, data.Length, k);
    while data[h].Some?
      invariant h == Probe(k, hash, n)
      invariant MissedSym(k, slots, hash, sym, n)
      invariant SeenBefore(k, slots, hash, sym.name, seen, n)
      invariant replaceSlot < |slots| && (replaceSlot < 0 <==> seen == [])
      invariant replaceSlot >= 0 ==> data[replaceSlot] == Some(seen[|seen| - 1])
      decreases Pow2(k) - n
    {
      MissedSymEnds(k, slots, hash, sym, n);
      SeenStep(k, slots, hash, sym.name, seen, n);
      if data[h].value.name == sym.name {
        if data[h].value == sym {
          return;
        }
        replaceSlot, seen := h, seen + [data[h].value];
      }
      h := NextSlot(h, data.Length, k);
      n := n + 1;
    }
    assert seen + [] == seen;
  }

  method FindConflict(identHash: int -> int, data: array<Option<Sym>>, sym: Sym,
                      ghost slots: seq<Slot<Sym>>, ghost k: nat, ghost contents: set<Sym>)
    returns (same: bool, replaceSlot: int)
    requires Mirrors(slots, data[..]) && SymTable(k, slots, contents) && Hashed(identHash, slots)
    ensures same == (sym in contents) && replaceSlot < data.Length
    ensures !same ==> (replaceSlot < 0 <==> Overloads(k, slots, identHash, sym.name) == [])
    ensures !same && replaceSlot >= 0 ==>
      var seen := Overloads(k, slots, identHash, sym.name);
      data[replaceSlot] == Some(seen[|seen| - 1]) && seen[|seen| - 1] in contents && seen[|seen| - 1].name == sym.name
  {
    var h;
    ghost var n, seen;
    h, replaceSlot, n, seen := ScanConflict(data, sym, identHash(sym.name), slots, k);
    same := data[h].Some?;
    if !same {
      AbsentSym(k, slots, identHash, contents, sym, n);
      OverloadsExact(k, slots, identHash, contents, sym.name);
      assert seen != [] ==> seen[|seen| - 1] in seen;
    }
  }

  /** The probe loop of `strTableGet`. */
  method FirstMatch(data: array<Option<Sym>>, name: int, hash: int, ghost slots: seq<Slot<Sym>>, ghost k: nat) returns (p: Option<Sym>)
    requires Mirrors(slots, data[..]) && |slots| == Pow2(k) && UsedCount(slots) < |slots|
    ensures OverloadsFrom(k, slots, hash, name, 0) == [] ==> p == None
    ensures OverloadsFrom(k, slots, hash, name, 0) != [] ==> p == Some(OverloadsFrom(k, slots, hash, name, 0)[0])
  {
    ghost var n: nat := 0;
    var h := StartSlot(hash, data.Length, k);
    p := data[h];
    while p.Some?
      invariant h == Probe(k, hash, n) && p == data[h]
      invariant UsedPrefix(k, slots, hash, n)
      invariant OverloadsFrom(k, slots, hash, name, 0) == OverloadsFrom(k, slots, hash, name, n)
      decreases Pow2(k) - n
    {
      ScanEnds(k, slots, hash, n);
      if p.value.name == name { return; }
      h := NextSlot(h, data.Length, k);
      n := n + 1;
      p := data[h];
    }
  }

  method NextProbe(h: nat, length: nat, ghost k: nat, ghost h0: int, ghost i: nat) returns (r: nat)
    requires length == Pow2(k) && h == Probe(k, h0, i)
    ensures LowBits(k, r) == Probe(k, h0, i + 1)
  {
    r := NextSlot(h, length, k);
    LowBitsSmall(k, r);
  }

  /** The probe loop of `nextIdentIter`, from position `n0` of the probe sequence of `h0`. */
  method NextMatch(data: array<Option<Sym>>, start: nat, name: int,
                   ghost slots: seq<Slot<Sym>>, ghost k: nat, ghost h0: int, ghost n0: nat)
    returns (p: Option<Sym>, h: nat, ghost i: nat)
    requires Mirrors(slots, data[..]) && |slots| == Pow2(k) && UsedCount(slots) < |slots|
    requires start == Probe(k, h0, n0) && UsedPrefix(k, slots, h0, n0)
    ensures h == Probe(k, h0, i)
    ensures p.None? ==> OverloadsFrom(k, slots, h0, name, n0) == []
    ensures p.Some? ==> UsedPrefix(k, slots, h0, i + 1)
    ensures p.Some? ==> OverloadsFrom(k, slots, h0, name, n0) == [p.value] + OverloadsFrom(k, slots, h0, name, i + 1)
  {
    i := n0;
    h := start;
    p := data[h];
    ScanEnds(k, slots, h0, i);
    while p.Some?
      invariant n0 <= i < Pow2(k) && h == Probe(k, h0, i)
      invariant UsedPrefix(k, slots, h0, i)
      invariant p == data[h]
      invariant OverloadsFrom(k, slots, h0, name, n0) == OverloadsFrom(k, slots, h0, name, i)
      decreases Pow2(k) - i
    {
      if p.value.name == name { return; }
      h := NextSlot(h, data.Length, k);
      i := i + 1;
      ScanEnds(k, slots, h0, i);
      ProbeInjective(k, h0, n0, i);
      if h == start {
        p := None;
        break;
      }
      p := data[h];
    }
  }

  // ---------------------------------------------------------------------------

  class StrTable {
    var counter: nat
    var data: array<Option<Sym>>
    const identHash: int -> int
    ghost var k: nat
    ghost var contents: set<Sym>

    ghost function Slots(): (slots: seq<Slot<Sym>>)
      reads this, data
      ensures |slots| == data.Length
    {
      View(identHash, data[..])
    }

    ghost predicate Valid()
      reads this, data
    {
      && k >= 3
      && SymTable(k, Slots(), contents)
      && Hashed(identHash, Slots())
      && UsedCount(Slots()) <= counter < data.Length
    }

    /** The overloads of `name`, in iteration order. */
    ghost function OverloadsOf(name: int): seq<Sym>
      reads this, data
      requires Valid()
    {
      Overloads(k, Slots(), identHash, name)
    }

    constructor (identHash: int -> int)
      ensures Valid() && fresh(data) && contents == {} && counter == 0 && this.identHash == identHash
    {
      this.identHash := identHash;
      counter := 0;
      data := new Option<Sym>[START_SIZE](_ => None);
      k := 3;
      contents := {};
      new;
      FreshSlotsEmpty(identHash, 3, Slots());
    }

    method Contains(n: Sym) returns (result: bool)
      requires Valid()
      ensures result == (n in contents)
    {
      var h, found, _ := Find(identHash, data, n, k, contents);
      result := found;
    }

    method Add(n: Sym)
      requires Valid()
      modifies this, data
      ensures Valid() && (data == old(data) || fresh(data))
      ensures contents == old(contents) + {n} && counter == old(counter) + 1
      ensures data.Length == if 2 * old(data.Length) < 3 * old(counter) || old(data.Length) - old(counter) < 4 then 2 * old(data.Length) else old(data.Length)
    {
      if MustRehash(data.Length, counter) {
        data := Enlarge(identHash, data, k, contents);
        k := k + 1;
      }
      InsertCounted(n);
    }

    /** The raw insert and the counter step shared by `strTableAdd` and `strTableInclReportConflict`. */
    method InsertCounted(n: Sym)
      requires Valid() && counter + 1 < data.Length
      modifies this`contents, this`counter, data
      ensures Valid() && contents == old(contents) + {n} && counter == old(counter) + 1
    {
      RawInsert(identHash, data, n, k, contents);
      contents := contents + {n};
      counter := counter + 1;
    }

    /** `strTableGet`: the first overload. */
    method Get(name: int) returns (result: Option<Sym>)
      requires Valid()
      ensures result == if OverloadsOf(name) == [] then None else Some(OverloadsOf(name)[0])
    {
      result := FirstMatch(data, name, identHash(name), Slots(), k);
    }

    method WriteOver(slot: nat, sym: Sym)
      requires Valid() && slot < data.Length && data[slot].Some?
      requires identHash(sym.name) == identHash(data[slot].value.name)
      modifies this`contents, data
      ensures contents == old(contents) - {old(data[slot].value)} + {sym}
      ensures Chained(k, Slots()) && Hashed(identHash, Slots())
      ensures Valid() <==> sym !in old(contents) || sym == old(data[slot].value)
    {
      ghost var slots := Slots();
      ghost var before := data[..];
      ReplaceLists(k, slots, contents, slot, sym);
      if sym in contents && sym != data[slot].value {
        ReplaceDuplicates(slots, contents, slot, sym, contents - {data[slot].value} + {sym});
      }
      contents := contents - {data[slot].value} + {sym};
      data[slot] := Some(sym);
      assert data[..] == before[slot := Some(sym)];
      ViewUpdate(identHash, before, slot, Some(sym));
    }

    /** Inclusion with conflict report: the conflicting symbol is the last overload in iteration order. */
    method InclReportConflict(n: Sym, onConflictKeepOld: bool) returns (result: Option<Sym>)
      requires Valid()
      modifies this, data
      ensures Valid() && (data == old(data) || fresh(data))
      ensures n in old(contents) || old(OverloadsOf(n.name)) == [] ==>
        result == None && contents == old(contents) + {n}
      ensures n !in old(contents) && old(OverloadsOf(n.name)) != [] ==>
        result == Some(old(OverloadsOf(n.name)[|OverloadsOf(n.name)| - 1]))
      ensures n !in old(contents) && old(OverloadsOf(n.name)) != [] ==>
        contents == if onConflictKeepOld then old(contents) else old(contents) - {result.value} + {n}
      ensures counter == old(counter) + if contents == old(contents) + {n} && n !in old(contents) && result == None then 1 else 0
    {
      var same, replaceSlot := FindConflict(identHash, data, n, Slots(), k, contents);
      if same {
        assert contents + {n} == contents;
        result := None;
      } else if replaceSlot >= 0 {
        result := data[replaceSlot];
        if !onConflictKeepOld {
          WriteOver(replaceSlot, n);
        }
      } else {
        Add(n);
        result := None;
      }
    }

    /** `symTabReplace`.  The table stays a table of distinct symbols exactly when the new symbol had no slot of its own. */
    method Replace(prevSym: Sym, newSym: Sym)
      requires Valid() && prevSym in contents && identHash(prevSym.name) == identHash(newSym.name)
      modifies this`contents, data
      ensures contents == old(contents) - {prevSym} + {newSym}
      ensures Chained(k, Slots()) && Hashed(identHash, Slots())
      ensures Valid() <==> newSym !in old(contents) || newSym == prevSym
    {
      var h, found, _ := Find(identHash, data, prevSym, k, contents);
      WriteOver(h, newSym);
    }
  }

  // ---------------------------------------------------------------------------

  /** `TIdentIter`.  `n` counts the probes made so far. */
  class IdentIter {
    var h: int
    var name: int
    ghost var n: nat

    /** What the iterator has still to yield. */
    ghost function Rest(k: nat, slots: seq<Slot<Sym>>, identHash: int -> int): seq<Sym>
      reads this
      requires |slots| == Pow2(k)
    {
      OverloadsFrom(k, slots, identHash(name), name, n)
    }

    ghost predicate At(k: nat, slots: seq<Slot<Sym>>, identHash: int -> int)
      reads this
      requires |slots| == Pow2(k)
    {
      LowBits(k, h) == Probe(k, identHash(name), n) && UsedPrefix(k, slots, identHash(name), n)
    }

    constructor ()
    {
      h, name, n := 0, 0, 0;
    }

    method Next(tab: StrTable, ghost slots: seq<Slot<Sym>>) returns (result: Option<Sym>)
      requires Mirrors(slots, tab.data[..]) && |slots| == Pow2(tab.k) && UsedCount(slots) < |slots|
      requires At(tab.k, slots, tab.identHash)
      modifies this
      ensures name == old(name)
      ensures result.None? ==> old(Rest(tab.k, slots, tab.identHash)) == []
      ensures result.Some? ==> At(tab.k, slots, tab.identHash)
      ensures result.Some? ==> old(Rest(tab.k, slots, tab.identHash)) == [result.value] + Rest(tab.k, slots, tab.identHash)
    {
      var start := StartSlot(h, tab.data.Length, tab.k);
      var p, slot, i := NextMatch(tab.data, start, name, slots, tab.k, tab.identHash(name), n);
      var next := NextProbe(slot, tab.data.Length, tab.k, tab.identHash(name), i);
      h, n := next, i + 1;
      result := p;
    }

    method Init(tab: StrTable, s: int, ghost slots: seq<Slot<Sym>>) returns (result: Option<Sym>)
      requires tab.Valid() && slots == tab.Slots()
      modifies this
      ensures name == s
      ensures result.None? ==> Overloads(tab.k, slots, tab.identHash, s) == []
      ensures result.Some? ==> At(tab.k, slots, tab.identHash)
      ensures result.Some? ==> Overloads(tab.k, slots, tab.identHash, s) == [result.value] + Rest(tab.k, slots, tab.identHash)
    {
      h := tab.identHash(s);
      name := s;
      n := 0;
      if tab.counter == 0 {
        CountZero(tab.Slots());
        result := None;
      } else {
        result := Next(tab, slots);
      }
    }
  }

  lemma {:induction false} CountZero(slots: seq<Slot<Sym>>)
    requires UsedCount(slots) == 0
    ensures forall s :: 0 <= s < |slots| ==> slots[s].Free?
  {
    if slots != [] { CountZero(slots[..|slots| - 1]); }
  }

  /** Iterating until nil yields every symbol of the table with that identifier exactly once, and nothing else. */
  method AllOverloads(tab: StrTable, name: int) returns (syms: seq<Sym>)
    requires tab.Valid()
    ensures forall sym :: sym in syms <==> sym in tab.contents && sym.name == name
    ensures forall a, b :: 0 <= a < b < |syms| ==> syms[a] != syms[b]
  {
    ghost var k, slots, identHash := tab.k, tab.Slots(), tab.identHash;
    OverloadsExact(k, slots, identHash, tab.contents, name);
    syms := CollectOverloads(tab, name, slots);
  }

  lemma OneMore(all: seq<Sym>, syms: seq<Sym>, s: Sym, rest: seq<Sym>)
    requires all == syms + ([s] + rest)
    ensures all == (syms + [s]) + rest
  {
  }

  method CollectOverloads(tab: StrTable, name: int, ghost slots: seq<Slot<Sym>>) returns (syms: seq<Sym>)
    requires tab.Valid() && slots == tab.Slots()
    ensures syms == Overloads(tab.k, slots, tab.identHash, name)
  {
    var ti := new IdentIter();
    var s := ti.Init(tab, name, slots);
    syms := [];
    ghost var all := Overloads(tab.k, slots, tab.identHash, name);
    ghost var todo := all;
    while s.Some?
      invariant all == syms + todo
      invariant Mirrors(slots, tab.data[..])
      invariant s.None? ==> todo == []
      invariant s.Some? ==> ti.At(tab.k, slots, tab.identHash) && todo == [s.value] + ti.Rest(tab.k, slots, tab.identHash)
      decreases |todo|
    {
      OneMore(all, syms, s.value, ti.Rest(tab.k, slots, tab.identHash));
      syms, todo := syms + [s.value], ti.Rest(tab.k, slots, tab.identHash);
      s := ti.Next(tab, slots);
    }
  }
}
