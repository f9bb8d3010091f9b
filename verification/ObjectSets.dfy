/** `TObjectSet`: an insert-only set of references, hashed by address. */
module ObjectSets {
  import opened Wrappers
  import opened Probing
  import opened OpenAddressing
  import opened StrTables

  /** A reference; what it is hashed by is its address. */
  function Ref(address: int): (r: Sym)
    ensures r.uid == r.name == address
  {
    Sym(address, address)
  }

  class ObjectSet {
    var counter: nat
    var data: array<Option<Sym>>
    const hashNode: int -> int
    ghost var k: nat
    ghost var contents: set<Sym>

    ghost predicate Valid()
      reads this, data
    {
      k >= 3 && SymTable(k, View(hashNode, data[..]), contents) && Hashed(hashNode, View(hashNode, data[..])) &&
      UsedCount(View(hashNode, data[..])) == counter < data.Length
    }

    constructor (hashNode: int -> int)
      ensures Valid() && fresh(data) && contents == {} && counter == 0 && this.hashNode == hashNode
    {
      this.hashNode := hashNode;
      counter := 0;
      data := new Option<Sym>[START_SIZE](_ => None);
      k := 3;
      contents := {};
      new;
      FreshSlotsEmpty(hashNode, 3, View(hashNode, data[..]));
    }

    method Contains(address: int) returns (result: bool)
      requires Valid()
      ensures result == (Ref(address) in contents)
    {
      var h, found, _ := Find(hashNode, data, Ref(address), k, contents);
      result := found;
    }

    /** `objectSetIncl`: the caller promises that the object is new. */
    method Incl(address: int)
      requires Valid() && Ref(address) !in contents
      modifies this, data
      ensures Valid() && (data == old(data) || fresh(data))
      ensures contents == old(contents) + {Ref(address)} && counter == |old(contents)| + 1 == |contents|
      ensures data.Length == if 2 * old(data.Length) < 3 * old(counter) || old(data.Length) - old(counter) < 4 then 2 * old(data.Length) else old(data.Length)
    {
      ghost var before := contents;
      if MustRehash(data.Length, counter) {
        data := Enlarge(hashNode, data, k, contents);
        k := k + 1;
      }
      RawInsert(hashNode, data, Ref(address), k, contents);
      contents := contents + {Ref(address)};
      counter := counter + 1;
      CountIsSize(View(hashNode, data[..]), contents);
    }

    /** `objectSetContainsOrIncl`: afterwards the object is in the set, and the answer says whether it was before. */
    method ContainsOrIncl(address: int) returns (present: bool)
      requires Valid()
      modifies this, data
      ensures Valid() && (data == old(data) || fresh(data))
      ensures present == (Ref(address) in old(contents)) && contents == old(contents) + {Ref(address)}
      ensures counter == |contents|
    {
      var h, found, n := Find(hashNode, data, Ref(address), k, contents);
      if found {
        assert contents + {Ref(address)} == contents;
        CountIsSize(View(hashNode, data[..]), contents);
        return true;
      }
      Incl(address);
      present := false;
    }
  }

  /** The used slots of a table of distinct items are as many as the items. */
  lemma {:induction false} CountIsSize(slots: seq<Slot<Sym>>, contents: set<Sym>)
    requires Lists(slots, contents)
    ensures UsedCount(slots) == |contents|
  {
    if slots == [] {
      assert forall x :: x in contents ==> Stored(slots, x);
      assert contents == {};
    } else {
      var n := |slots| - 1;
      if slots[n].Free? {
        FreeLast(slots, contents);
        CountIsSize(slots[..n], contents);
      } else {
        UsedLast(slots, contents);
        CountIsSize(slots[..n], contents - {slots[n].item});
      }
    }
  }

  lemma FreeLast(slots: seq<Slot<Sym>>, contents: set<Sym>)
    requires Lists(slots, contents) && slots != [] && slots[|slots| - 1].Free?
    ensures Lists(slots[..|slots| - 1], contents)
  {
  }

  lemma UsedLast(slots: seq<Slot<Sym>>, contents: set<Sym>)
    requires Lists(slots, contents) && slots != [] && slots[|slots| - 1].Used?
    ensures Lists(slots[..|slots| - 1], contents - {slots[|slots| - 1].item}) && slots[|slots| - 1].item in contents
  {
  }
}
