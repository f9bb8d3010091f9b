/** `TIdTable` and `TIITable`: insert-only maps kept in arrays. */
module IdTables {
  import opened Probing
  import opened OpenAddressing

  const INVALID_KEY := -0x8000_0000_0000_0000

  datatype ItemId = ItemId(module_: int, item: int)

  const NIL_ID := ItemId(0, 0)

  /** `(module shl 24) + item`, on 64-bit platforms. */
  function ToId(a: ItemId): int
  {
    a.module_ * 0x100_0000 + a.item
  }

  /** Two ids are told apart by `toId` exactly when their items lie in one 24-bit range;
      a larger item runs into the id of another module. */
  lemma ToIdCollision(a: ItemId, b: ItemId)
    ensures ToId(a) == ToId(b) <==> b.item - a.item == 0x100_0000 * (a.module_ - b.module_)
    ensures 0 <= a.item < 0x100_0000 && 0 <= b.item < 0x100_0000 ==> (ToId(a) == ToId(b) <==> a == b)
    ensures ToId(ItemId(0, 0x100_0000)) == ToId(ItemId(1, 0))
  {
  }

  datatype Pair<K, V> = Pair(key: K, val: V)

  /** How a table reads its keys: which one marks a free slot, and the integer that is compared and hashed.
      `TIdTable` uses the nil id and `toId`; `TIITable` uses `InvalidKey` and the key itself. */
  datatype KeyKind<!K> = KeyKind(nil: K, toId: K -> int)

  const ITEM_IDS := KeyKind(NIL_ID, ToId)
  const PLAIN_INTS := KeyKind(INVALID_KEY, (i: int) => i)

  ghost function SlotOf<K, V>(kind: KeyKind<K>, p: Pair<K, V>): Slot<V>
  {
    if p.key == kind.nil then Free else Used(kind.toId(p.key), p.val)
  }

  ghost function View<K, V>(kind: KeyKind<K>, pairs: seq<Pair<K, V>>): (slots: seq<Slot<V>>)
    ensures |slots| == |pairs|
  {
    seq(|pairs|, i requires 0 <= i < |pairs| => SlotOf(kind, pairs[i]))
  }

  lemma ViewUpdate<K, V>(kind: KeyKind<K>, pairs: seq<Pair<K, V>>, h: nat, p: Pair<K, V>)
    requires h < |pairs|
    ensures View(kind, pairs[h := p]) == View(kind, pairs)[h := SlotOf(kind, p)]
  {
  }

  method RawGet<K(==), V>(kind: KeyKind<K>, data: array<Pair<K, V>>, key: int, ghost k: nat, ghost counter: nat, ghost m: map<int, V>) returns (index: int)
    requires MapTable(k, View(kind, data[..]), counter, m)
    ensures index >= 0 ==> index < data.Length && data[index].key != kind.nil && kind.toId(data[index].key) == key
    ensures index < 0 ==> key !in m
    ensures index >= 0 ==> key in m && m[key] == data[index].val
  {
    ghost var slots := View(kind, data[..]);
    ghost var n: nat := 0;
    var h := StartSlot(key, data.Length, k);
    while data[h].key != kind.nil
      invariant h == Probe(k, key, n)
      invariant Missed(k, slots, key, n)
      decreases Pow2(k) - n
    {
      if kind.toId(data[h].key) == key {
        assert slots[h].Used?;
        return h;
      }
      MissedEnds(k, slots, key, n);
      h := NextSlot(h, data.Length, k);
      n := n + 1;
    }
    Absent(k, slots, m, key, n);
    index := -1;
  }

  /** Chains and contents without the counter: what holds of the new array while a rehash fills it. */
  ghost predicate Partial<V>(k: nat, slots: seq<Slot<V>>, m: map<int, V>)
  {
    Chained(k, slots) && Describes(slots, m) && UsedCount(slots) < |slots|
  }

  /** The probe loop of `idTableRawInsert`. */
  method FindFree<K(==), V>(kind: KeyKind<K>, data: array<Pair<K, V>>, keyId: int, ghost k: nat, ghost m: map<int, V>) returns (h: nat, ghost n: nat)
    requires Partial(k, View(kind, data[..]), m) && keyId !in m
    ensures n < Pow2(k) && h == Probe(k, keyId, n) && h < data.Length
    ensures View(kind, data[..])[h].Free? && UsedPrefix(k, View(kind, data[..]), keyId, n)
  {
    ghost var slots := View(kind, data[..]);
    n := 0;
    h := StartSlot(keyId, data.Length, k);
    while data[h].key != kind.nil
      invariant h == Probe(k, keyId, n)
      invariant UsedPrefix(k, slots, keyId, n)
      decreases Pow2(k) - n
    {
      assert slots[h].Used?;
      assert kind.toId(data[h].key) != keyId;
      ScanEnds(k, slots, keyId, n);
      h := NextSlot(h, data.Length, k);
      n := n + 1;
    }
    assert slots[h].Free?;
    ScanEnds(k, slots, keyId, n);
  }

  method RawInsert<K(==), V>(kind: KeyKind<K>, data: array<Pair<K, V>>, key: K, val: V, ghost k: nat, ghost m: map<int, V>)
    requires Partial(k, View(kind, data[..]), m) && kind.toId(key) !in m
    modifies data
    ensures key == kind.nil ==> View(kind, data[..]) == old(View(kind, data[..]))
    ensures key != kind.nil ==> Chained(k, View(kind, data[..])) && Describes(View(kind, data[..]), m[kind.toId(key) := val])
    ensures key != kind.nil ==> UsedCount(View(kind, data[..])) == old(UsedCount(View(kind, data[..]))) + 1
  {
    ghost var slots := View(kind, data[..]);
    var h, n := FindFree(kind, data, kind.toId(key), k, m);
    ghost var before := data[..];
    data[h] := Pair(key, val);
    assert data[..] == before[h := Pair(key, val)];
    ViewUpdate(kind, before, h, Pair(key, val));
    if key != kind.nil {
      FillDescribes(k, slots, m, kind.toId(key), n, val);
    } else {
      assert slots[h := Free] == slots;
    }
  }

  method HasEmptySlot<K(==), V>(kind: KeyKind<K>, data: array<Pair<K, V>>) returns (result: bool)
    ensures result <==> exists h :: 0 <= h < data.Length && data[h].key == kind.nil
  {
    for h := 0 to data.Length
      invariant forall j :: 0 <= j < h ==> data[j].key != kind.nil
    {
      if data[h].key == kind.nil {
        return true;
      }
    }
    result := false;
  }

  /** The rehash loop of `[]=`: a table of twice the size with the same contents. */
  method Enlarge<K(==), V>(kind: KeyKind<K>, data: array<Pair<K, V>>, default: V, ghost k: nat, ghost counter: nat, ghost m: map<int, V>)
    returns (n: array<Pair<K, V>>)
    requires MapTable(k, View(kind, data[..]), counter, m)
    ensures fresh(n) && n.Length == 2 * data.Length
    ensures MapTable(k + 1, View(kind, n[..]), counter, m)
  {
    ghost var slots := View(kind, data[..]);
    n := new Pair<K, V>[data.Length * GROWTH_FACTOR](_ => Pair(kind.nil, default));
    ghost var part: map<int, V> := map[];
    AllFreeCount(View(kind, n[..]));
    for i := 0 to data.Length
      invariant Partial(k + 1, View(kind, n[..]), part)
      invariant DescribesPrefix(slots, i, part)
      invariant UsedCount(View(kind, n[..])) == UsedCount(slots[..i])
      invariant data[..] == old(data[..])
    {
      PrefixStep(slots, i, m, part);
      if data[i].key != kind.nil {
        RawInsert(kind, n, data[i].key, data[i].val, k + 1, part);
        part := part[kind.toId(data[i].key) := data[i].val];
      }
    }
    assert slots[..data.Length] == slots;
    DescribesUnique(slots, m, part);
    var ok := HasEmptySlot(kind, n);
    ghost var s := HasFree(View(kind, n[..]));
    assert n[s].key == kind.nil;
    assert ok;
  }

  /** Both map tables.  `contents` is keyed by the integers the table compares. */
  class Table<K(==), V> {
    var counter: nat
    var data: array<Pair<K, V>>
    const kind: KeyKind<K>
    const default: V
    ghost var k: nat
    ghost var contents: map<int, V>

    ghost predicate Valid()
      reads this, data
    {
      MapTable(k, View(kind, data[..]), counter, contents)
    }

    constructor (kind: KeyKind<K>, default: V)
      ensures Valid() && fresh(data) && contents == map[] && counter == 0
      ensures this.kind == kind && this.default == default
    {
      this.kind := kind;
      this.default := default;
      counter := 0;
      data := new Pair<K, V>[START_SIZE](_ => Pair(kind.nil, default));
      k := 3;
      contents := map[];
      new;
      AllFreeCount(View(kind, data[..]));
    }

    method GetOrDefault(key: K) returns (result: V)
      requires Valid()
      ensures result == if kind.toId(key) in contents then contents[kind.toId(key)] else default
    {
      var index := RawGet(kind, data, kind.toId(key), k, counter, contents);
      if index >= 0 {
        result := data[index].val;
      } else {
        result := default;
      }
    }

    /** `t[key] = val`.  A nil key never becomes visible: the slot it is written to still reads as free. */
    method Put(key: K, val: V)
      requires Valid()
      modifies this, data
      ensures Valid() && (data == old(data) || fresh(data))
      ensures contents == if key == kind.nil && kind.toId(key) !in old(contents) then old(contents) else old(contents)[kind.toId(key) := val]
      ensures counter == old(counter) + if kind.toId(key) in old(contents) then 0 else 1
      ensures if kind.toId(key) in old(contents) then data.Length == old(data.Length)
              else data.Length == if 2 * old(data.Length) < 3 * old(counter) || old(data.Length) - old(counter) < 4 then 2 * old(data.Length) else old(data.Length)
    {
      var index := RawGet(kind, data, kind.toId(key), k, counter, contents);
      if index >= 0 {
        Overwrite(index, val);
      } else {
        MakeRoom();
        Insert(key, val);
      }
    }

    method MakeRoom()
      requires Valid()
      modifies this`data, this`k
      ensures Valid() && (data == old(data) || fresh(data))
      ensures counter + 1 < data.Length
      ensures data.Length == if 2 * old(data.Length) < 3 * counter || old(data.Length) - counter < 4 then 2 * old(data.Length) else old(data.Length)
    {
      if MustRehash(data.Length, counter) {
        data := Enlarge(kind, data, default, k, counter, contents);
        k := k + 1;
      }
    }

    method Insert(key: K, val: V)
      requires Valid() && kind.toId(key) !in contents && counter + 1 < data.Length
      modifies this`contents, this`counter, data
      ensures Valid() && counter == old(counter) + 1
      ensures contents == if key == kind.nil then old(contents) else old(contents)[kind.toId(key) := val]
    {
      RawInsert(kind, data, key, val, k, contents);
      if key != kind.nil {
        contents := contents[kind.toId(key) := val];
      }
      counter := counter + 1;
    }

    method Overwrite(index: int, val: V)
      requires Valid() && 0 <= index < data.Length && data[index].key != kind.nil
      modifies this`contents, data
      ensures Valid() && contents == old(contents)[old(kind.toId(data[index].key)) := val]
    {
      ghost var slots := View(kind, data[..]);
      ReplaceDescribes(k, slots, counter, contents, index, val);
      data[index] := Pair(data[index].key, val);
      contents := contents[kind.toId(data[index].key) := val];
      assert View(kind, data[..]) == slots[index := Used(slots[index].start, val)];
    }
  }

  /** `TIdTable`: of two items put one after the other the first is found again unless their ids collide. */
  method PutTwoIds<V>(t: Table<ItemId, V>, a: ItemId, x: V, b: ItemId, y: V) returns (result: V)
    requires t.Valid() && t.kind == ITEM_IDS && a != NIL_ID && b != NIL_ID
    modifies t, t.data
    ensures t.Valid() && t.contents == old(t.contents)[ToId(a) := x][ToId(b) := y]
    ensures result == if b.item - a.item == 0x100_0000 * (a.module_ - b.module_) then y else x
  {
    t.Put(a, x);
    t.Put(b, y);
    ToIdCollision(a, b);
    result := t.GetOrDefault(a);
  }

  /** `TIITable`: `InvalidKey` is answered for a key without a value, and cannot itself be given one. */
  method PutInt(t: Table<int, int>, key: int, val: int, other: int) returns (result: int)
    requires t.Valid() && t.kind == PLAIN_INTS && t.default == INVALID_KEY && INVALID_KEY !in t.contents
    modifies t, t.data
    ensures t.Valid() && INVALID_KEY !in t.contents
    ensures result == if other == key != INVALID_KEY then val
                      else if other in old(t.contents) then old(t.contents)[other]
                      else INVALID_KEY
  {
    t.Put(key, val);
    result := t.GetOrDefault(other);
  }
}
