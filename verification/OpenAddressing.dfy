/** What every insert-only table with the `nextTry` probe sequence keeps, whatever its slots hold. */
module OpenAddressing {
  import opened Probing

  /** A slot is free, or holds an item that was hashed to `start`. */
  datatype Slot<+T> = Free | Used(start: int, item: T)

  /** The first `n` slots probed from `h` are used. */
  ghost predicate UsedPrefix<T>(k: nat, slots: seq<Slot<T>>, h: int, n: nat)
    requires |slots| == Pow2(k)
  {
    n == 0 || (UsedPrefix(k, slots, h, n - 1) && slots[Probe(k, h, n - 1)].Used?)
  }

  lemma {:induction false} UsedPrefixAt<T>(k: nat, slots: seq<Slot<T>>, h: int, n: nat, i: nat)
    requires |slots| == Pow2(k) && UsedPrefix(k, slots, h, n) && i < n
    ensures slots[Probe(k, h, i)].Used?
  {
    if i < n - 1 { UsedPrefixAt(k, slots, h, n - 1, i); }
  }

  lemma {:induction false} UsedPrefixGrows<T>(k: nat, slots: seq<Slot<T>>, slots': seq<Slot<T>>, h: int, n: nat)
    requires |slots| == |slots'| == Pow2(k)
    requires forall i :: 0 <= i < |slots| && slots[i].Used? ==> slots'[i].Used?
    requires UsedPrefix(k, slots, h, n)
    ensures UsedPrefix(k, slots', h, n)
  {
    if n > 0 { UsedPrefixGrows(k, slots, slots', h, n - 1); }
  }

  /** Slot `s` is met on the probe sequence of `h` before any free slot. */
  ghost predicate Reached<T>(k: nat, slots: seq<Slot<T>>, h: int, s: nat)
    requires |slots| == Pow2(k)
  {
    exists n: nat :: n < Pow2(k) && Probe(k, h, n) == s && UsedPrefix(k, slots, h, n)
  }

  /** The probe-chain invariant. */
  ghost predicate Chained<T>(k: nat, slots: seq<Slot<T>>)
  {
    && |slots| == Pow2(k)
    && forall s: nat :: s < |slots| ==> ChainAt(k, slots, s)
  }

  ghost predicate ChainAt<T>(k: nat, slots: seq<Slot<T>>, s: nat)
    requires |slots| == Pow2(k) && s < |slots|
  {
    slots[s].Used? ==> Reached(k, slots, slots[s].start, s)
  }

  lemma ReachedAt<T>(k: nat, slots: seq<Slot<T>>, h: int, s: nat) returns (n: nat)
    requires |slots| == Pow2(k) && s < |slots| && slots[s].Used? && Reached(k, slots, h, s)
    ensures n < Pow2(k) && Probe(k, h, n) == s && UsedPrefix(k, slots, h, n + 1)
  {
    n :| n < Pow2(k) && Probe(k, h, n) == s && UsedPrefix(k, slots, h, n);
  }

  ghost function UsedCount<T>(slots: seq<Slot<T>>): (n: nat)
    ensures n <= |slots|
  {
    if slots == [] then 0
    else UsedCount(slots[..|slots| - 1]) + if slots[|slots| - 1].Used? then 1 else 0
  }

  lemma {:induction false} HasFree<T>(slots: seq<Slot<T>>) returns (s: nat)
    requires UsedCount(slots) < |slots|
    ensures s < |slots| && slots[s].Free?
  {
    if slots[|slots| - 1].Free? {
      s := |slots| - 1;
    } else {
      s := HasFree(slots[..|slots| - 1]);
    }
  }

  lemma {:induction false} UsedCountFill<T>(slots: seq<Slot<T>>, s: nat, e: Slot<T>)
    requires s < |slots| && slots[s].Free? && e.Used?
    ensures UsedCount(slots[s := e]) == UsedCount(slots) + 1
  {
    var n := |slots| - 1;
    if s < n {
      UsedCountFill(slots[..n], s, e);
      assert slots[s := e][..n] == slots[..n][s := e];
    } else {
      assert slots[s := e][..n] == slots[..n];
    }
  }

  lemma {:induction false} UsedCountReplace<T>(slots: seq<Slot<T>>, s: nat, e: Slot<T>)
    requires s < |slots| && slots[s].Used? && e.Used?
    ensures UsedCount(slots[s := e]) == UsedCount(slots)
  {
    var n := |slots| - 1;
    if s < n {
      UsedCountReplace(slots[..n], s, e);
      assert slots[s := e][..n] == slots[..n][s := e];
    } else {
      assert slots[s := e][..n] == slots[..n];
    }
  }

  lemma {:induction false} AllFreeCount<T>(slots: seq<Slot<T>>)
    requires forall s :: 0 <= s < |slots| ==> slots[s].Free?
    ensures UsedCount(slots) == 0
  {
    if slots != [] { AllFreeCount(slots[..|slots| - 1]); }
  }

  /** Why the unbounded probe loops end: a table that is not full cannot be walked for a whole period. */
  lemma ScanEnds<T>(k: nat, slots: seq<Slot<T>>, h: int, n: nat)
    requires |slots| == Pow2(k) && UsedCount(slots) < |slots|
    requires UsedPrefix(k, slots, h, n)
    ensures n < Pow2(k)
  {
    if n >= Pow2(k) {
      var s := HasFree(slots);
      var i := ProbeReaches(k, h, s);
      UsedPrefixAt(k, slots, h, n, i);
    }
  }

  /** A probe loop that stops at a free slot has passed every item hashed to its start. */
  lemma MetBefore<T>(k: nat, slots: seq<Slot<T>>, s: nat, n: nat) returns (m: nat)
    requires Chained(k, slots) && s < |slots| && slots[s].Used?
    requires slots[Probe(k, slots[s].start, n)].Free?
    ensures m < n && m < Pow2(k) && Probe(k, slots[s].start, m) == s
  {
    assert ChainAt(k, slots, s);
    m :| m < Pow2(k) && Probe(k, slots[s].start, m) == s && UsedPrefix(k, slots, slots[s].start, m);
    if n < m { UsedPrefixAt(k, slots, slots[s].start, m, n); }
  }

  lemma ReachedGrows<T>(k: nat, slots: seq<Slot<T>>, slots': seq<Slot<T>>, h: int, s: nat)
    requires |slots| == |slots'| == Pow2(k)
    requires forall i :: 0 <= i < |slots| && slots[i].Used? ==> slots'[i].Used?
    requires Reached(k, slots, h, s)
    ensures Reached(k, slots', h, s)
  {
    var n: nat :| n < Pow2(k) && Probe(k, h, n) == s && UsedPrefix(k, slots, h, n);
    UsedPrefixGrows(k, slots, slots', h, n);
  }

  /** Filling the free slot where a probe loop stopped keeps the chains. */
  lemma FillKeepsChains<T>(k: nat, slots: seq<Slot<T>>, h: int, n: nat, item: T)
    requires Chained(k, slots) && n < Pow2(k)
    requires UsedPrefix(k, slots, h, n) && slots[Probe(k, h, n)].Free?
    ensures Chained(k, slots[Probe(k, h, n) := Used(h, item)])
  {
    var p := Probe(k, h, n);
    var slots' := slots[p := Used(h, item)];
    UsedPrefixGrows(k, slots, slots', h, n);
    forall s: nat | s < |slots'|
      ensures ChainAt(k, slots', s)
    {
      assert ChainAt(k, slots, s);
      if s != p && slots[s].Used? { ReachedGrows(k, slots, slots', slots[s].start, s); }
    }
  }

  /** Overwriting an item by one with the same hash keeps the chains. */
  lemma ReplaceKeepsChains<T>(k: nat, slots: seq<Slot<T>>, p: nat, item: T)
    requires Chained(k, slots) && p < |slots| && slots[p].Used?
    ensures Chained(k, slots[p := Used(slots[p].start, item)])
  {
    var slots' := slots[p := Used(slots[p].start, item)];
    forall s: nat | s < |slots'|
      ensures ChainAt(k, slots', s)
    {
      assert ChainAt(k, slots, s);
      if slots[s].Used? { ReachedGrows(k, slots, slots', slots[s].start, s); }
    }
  }

  // ---------------------------------------------------------------------------
  // Tables whose hash is the key itself represent a map.

  ghost predicate Describes<V>(slots: seq<Slot<V>>, m: map<int, V>)
  {
    && (forall s :: 0 <= s < |slots| && slots[s].Used? ==> slots[s].start in m && m[slots[s].start] == slots[s].item)
    && (forall s, t :: 0 <= s < |slots| && 0 <= t < |slots| && slots[s].Used? && slots[t].Used? && slots[s].start == slots[t].start ==> s == t)
    && (forall id :: id in m ==> Holds(slots, id))
  }

  ghost predicate Holds<V>(slots: seq<Slot<V>>, id: int)
  {
    exists s :: 0 <= s < |slots| && slots[s].Used? && slots[s].start == id
  }

  /** The invariant of a map table: chains, contents, and `used <= counter < length`. */
  ghost predicate MapTable<V>(k: nat, slots: seq<Slot<V>>, counter: nat, m: map<int, V>)
  {
    && k >= 3
    && Chained(k, slots)
    && Describes(slots, m)
    && UsedCount(slots) <= counter < |slots|
  }

  /** The first `n` slots probed from `id` are used by other ids. */
  ghost predicate Missed<V>(k: nat, slots: seq<Slot<V>>, id: int, n: nat)
    requires |slots| == Pow2(k)
  {
    n == 0 || (Missed(k, slots, id, n - 1) && slots[Probe(k, id, n - 1)].Used? && slots[Probe(k, id, n - 1)].start != id)
  }

  lemma {:induction false} MissedAt<V>(k: nat, slots: seq<Slot<V>>, id: int, n: nat)
    requires |slots| == Pow2(k) && Missed(k, slots, id, n)
    ensures UsedPrefix(k, slots, id, n)
    ensures forall i: nat :: i < n ==> slots[Probe(k, id, i)].Used? && slots[Probe(k, id, i)].start != id
  {
    if n > 0 { MissedAt(k, slots, id, n - 1); }
  }

  /** A probe loop that has not met `id` yet has not run for a whole period. */
  lemma MissedEnds<V>(k: nat, slots: seq<Slot<V>>, id: int, n: nat)
    requires |slots| == Pow2(k) && UsedCount(slots) < |slots| && Missed(k, slots, id, n)
    ensures n < Pow2(k)
  {
    MissedAt(k, slots, id, n);
    ScanEnds(k, slots, id, n);
  }

  /** A probe loop that ended at a free slot without meeting `id` proves that `id` is absent. */
  lemma Absent<V>(k: nat, slots: seq<Slot<V>>, m: map<int, V>, id: int, n: nat)
    requires Chained(k, slots) && Describes(slots, m)
    requires slots[Probe(k, id, n)].Free? && Missed(k, slots, id, n)
    ensures id !in m
  {
    MissedAt(k, slots, id, n);
    if id in m {
      assert Holds(slots, id);
      var s: nat :| s < |slots| && slots[s].Used? && slots[s].start == id;
      var i := MetBefore(k, slots, s, n);
    }
  }

  lemma FillDescribes<V>(k: nat, slots: seq<Slot<V>>, m: map<int, V>, id: int, n: nat, val: V)
    requires Chained(k, slots) && Describes(slots, m) && n < Pow2(k) && id !in m
    requires UsedPrefix(k, slots, id, n) && slots[Probe(k, id, n)].Free?
    ensures Chained(k, slots[Probe(k, id, n) := Used(id, val)])
    ensures Describes(slots[Probe(k, id, n) := Used(id, val)], m[id := val])
    ensures UsedCount(slots[Probe(k, id, n) := Used(id, val)]) == UsedCount(slots) + 1
  {
    var p := Probe(k, id, n);
    var slots' := slots[p := Used(id, val)];
    FillKeepsChains(k, slots, id, n, val);
    UsedCountFill(slots, p, Used(id, val));
    assert slots'[p].Used? && slots'[p].start == id;
    forall x | x in m[id := val]
      ensures Holds(slots', x)
    {
      if x != id {
        assert Holds(slots, x);
        var s :| 0 <= s < |slots| && slots[s].Used? && slots[s].start == x;
        assert slots'[s] == slots[s];
      }
    }
  }

  lemma ReplaceDescribes<V>(k: nat, slots: seq<Slot<V>>, counter: nat, m: map<int, V>, p: nat, val: V)
    requires MapTable(k, slots, counter, m) && p < |slots| && slots[p].Used?
    ensures MapTable(k, slots[p := Used(slots[p].start, val)], counter, m[slots[p].start := val])
  {
    var id := slots[p].start;
    var slots' := slots[p := Used(id, val)];
    ReplaceKeepsChains(k, slots, p, val);
    UsedCountReplace(slots, p, Used(id, val));
    assert slots'[p].Used? && slots'[p].start == id;
    forall x | x in m[id := val]
      ensures Holds(slots', x)
    {
      if x != id {
        assert Holds(slots, x);
        var s :| 0 <= s < |slots| && slots[s].Used? && slots[s].start == x;
        assert slots'[s] == slots[s];
      }
    }
  }

  /** The part of a map that the first `n` slots hold. */
  ghost predicate DescribesPrefix<V>(slots: seq<Slot<V>>, n: nat, m: map<int, V>)
  {
    n <= |slots| && Describes(slots[..n], m)
  }

  lemma PrefixStep<V>(slots: seq<Slot<V>>, n: nat, whole: map<int, V>, m: map<int, V>)
    requires Describes(slots, whole) && n < |slots| && DescribesPrefix(slots, n, m)
    ensures slots[n].Used? ==> slots[n].start !in m
    ensures slots[n].Used? ==> DescribesPrefix(slots, n + 1, m[slots[n].start := slots[n].item])
    ensures slots[n].Free? ==> DescribesPrefix(slots, n + 1, m)
    ensures UsedCount(slots[..n + 1]) == UsedCount(slots[..n]) + if slots[n].Used? then 1 else 0
  {
    var pre, pre' := slots[..n], slots[..n + 1];
    assert pre'[..n] == pre;
    var m' := if slots[n].Used? then m[slots[n].start := slots[n].item] else m;
    forall x | x in m'
      ensures Holds(pre', x)
    {
      if x in m {
        assert Holds(pre, x);
        var s :| 0 <= s < |pre| && pre[s].Used? && pre[s].start == x;
        assert pre'[s] == pre[s];
      } else {
        assert pre'[n].Used?;
      }
    }
  }

  lemma {:induction false} DescribesUnique<V>(slots: seq<Slot<V>>, m: map<int, V>, m': map<int, V>)
    requires Describes(slots, m) && Describes(slots, m')
    ensures m == m'
  {
    forall x
      ensures x in m <==> x in m'
      ensures x in m ==> m[x] == m'[x]
    {
      if x in m || x in m' {
        assert Holds(slots, x);
        var s :| 0 <= s < |slots| && slots[s].Used? && slots[s].start == x;
      }
    }
  }
}
