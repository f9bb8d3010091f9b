/** The probe sequence shared by the compiler's open-addressing tables.
    A table has 2^k slots; `and (2^k - 1)` on a two's complement integer is the remainder modulo 2^k. */
module Probing {

  const GROWTH_FACTOR := 2
  const START_SIZE := 8

  function Pow2(k: nat): (p: nat)
    ensures p > 0
  {
    if k == 0 then 1 else 2 * Pow2(k - 1)
  }

  /** `x and (2^k - 1)`: the `k` low bits of a two's complement integer. */
  function LowBits(k: nat, x: int): (r: nat)
    ensures r < Pow2(k)
  {
    if k == 0 then 0 else 2 * LowBits(k - 1, x / 2) + x % 2
  }

  /** `((5 * h) + 1) and maxHash`, with `maxHash == 2^k - 1`. */
  function NextTry(k: nat, h: int): (r: nat)
    ensures r < Pow2(k)
  {
    LowBits(k, 5 * h + 1)
  }

  /** The slot looked at after `i` steps in a table of `2^k` slots, starting from the hash `h`. */
  function Probe(k: nat, h: int, i: nat): (slot: nat)
    ensures slot < Pow2(k)
  {
    if i == 0 then LowBits(k, h) else NextTry(k, Probe(k, h, i - 1))
  }

  predicate MustRehash(length: nat, counter: nat)
    requires counter < length
  {
    length * 2 < counter * 3 || length - counter < 4
  }

  // ---------------------------------------------------------------------------
  // Congruence modulo a power of two.

  /** `2^k` divides `x`. */
  ghost predicate Divides(k: nat, x: int)
  {
    k == 0 || (x % 2 == 0 && Divides(k - 1, x / 2))
  }

  lemma {:induction false} CongruentIffDivides(k: nat, x: int, y: int)
    ensures LowBits(k, x) == LowBits(k, y) <==> Divides(k, x - y)
  {
    if k > 0 {
      CongruentIffDivides(k - 1, x / 2, y / 2);
      if x % 2 == y % 2 {
        assert (x - y) / 2 == x / 2 - y / 2;
      }
    }
  }

  lemma {:induction false} LowBitsSmall(k: nat, x: nat)
    requires x < Pow2(k)
    ensures LowBits(k, x) == x
  {
    if k > 0 { LowBitsSmall(k - 1, x / 2); }
  }

  /** `LowBits` is the remainder modulo `2^k`. */
  lemma LowBitsIsRemainder(k: nat, x: int, q: int, r: nat)
    requires r < Pow2(k) && x == q * Pow2(k) + r
    ensures LowBits(k, x) == r
    decreases k
  {
    if k > 0 {
      assert q * Pow2(k) == 2 * (q * Pow2(k - 1));
      LowBitsIsRemainder(k - 1, x / 2, q, r / 2);
    }
  }

  /** `key and high(data)` on a table of `2^k` slots. */
  method StartSlot(key: int, length: nat, ghost k: nat) returns (h: nat)
    requires length == Pow2(k)
    ensures h == Probe(k, key, 0)
  {
    LowBitsIsRemainder(k, key, key / length, key % length);
    h := key % length;
  }

  method NextSlot(h: nat, length: nat, ghost k: nat) returns (r: nat)
    requires length == Pow2(k)
    ensures r == NextTry(k, h)
  {
    r := StartSlot(5 * h + 1, length, k);
  }

  lemma OddProduct(x: int, odd: int, m: int)
    requires odd == 2 * m + 1
    ensures x * odd == 2 * (x * m) + x
    ensures x % 2 == 0 ==> x * odd == 2 * (x / 2 * odd)
  {
    if x % 2 == 0 {
      var y := x / 2;
      assert x == y + y;
      assert (y + y) * odd == y * odd + y * odd;
    }
  }

  /** An odd factor does not change which powers of two divide a number. */
  lemma {:induction false} OddFactor(k: nat, x: int, odd: int, product: int)
    requires odd % 2 == 1 && product == x * odd
    ensures Divides(k, product) <==> Divides(k, x)
  {
    if k > 0 {
      OddProduct(x, odd, odd / 2);
      if x % 2 == 0 {
        OddFactor(k - 1, x / 2, odd, product / 2);
      }
    }
  }

  // ---------------------------------------------------------------------------
  // Full period.  Without the mask, `i` steps take `h` to `h + Offset(i) * (4 * h + 1)`,
  // so everything depends on which powers of two divide `Offset(i)`.

  ghost function Offset(i: nat): nat
  {
    if i == 0 then 0 else 5 * Offset(i - 1) + 1
  }

  lemma OffsetSumStep(a: int, b: int)
    ensures 5 * (a + b + 4 * (a * b)) + 1 == (5 * a + 1) + b + 4 * ((5 * a + 1) * b)
  {
    assert (5 * a + 1) * b == 5 * (a * b) + b;
  }

  lemma {:induction false} OffsetSum(i: nat, j: nat)
    ensures Offset(i + j) == Offset(i) + Offset(j) + 4 * (Offset(i) * Offset(j))
  {
    if i > 0 {
      OffsetSum(i - 1, j);
      OffsetSumStep(Offset(i - 1), Offset(j));
      assert Offset(i + j) == 5 * Offset(i - 1 + j) + 1;
    } else {
      assert Offset(0) * Offset(j) == 0;
    }
  }

  lemma {:induction false} OffsetParity(i: nat)
    ensures Offset(i) % 2 == i % 2
  {
    if i > 0 { OffsetParity(i - 1); }
  }

  lemma OffsetDouble(j: nat) returns (half: int, odd: int)
    ensures Offset(2 * j) == 2 * half && half == Offset(j) * odd && odd % 2 == 1
  {
    var b := Offset(j);
    OffsetSum(j, j);
    odd := 1 + 2 * b;
    half := b * odd;
    assert half == b + 2 * (b * b);
  }

  lemma OffsetDoubleDivides(k: nat, j: nat)
    requires k > 0
    ensures Divides(k, Offset(2 * j)) <==> Divides(k - 1, Offset(j))
  {
    var half, odd := OffsetDouble(j);
    OddFactor(k - 1, Offset(j), odd, half);
  }

  /** `Offset(i)` is divisible by exactly the powers of two that divide `i`. */
  lemma {:induction false} OffsetDivides(k: nat, i: nat)
    ensures Divides(k, Offset(i)) <==> Divides(k, i)
  {
    OffsetParity(i);
    if k > 0 && i % 2 == 0 {
      OffsetDoubleDivides(k, i / 2);
      OffsetDivides(k - 1, i / 2);
    }
  }

  lemma {:induction false} DividesSmall(k: nat, i: nat)
    requires i < Pow2(k)
    ensures Divides(k, i) <==> i == 0
  {
    if k > 0 { DividesSmall(k - 1, i / 2); }
  }

  lemma {:induction false} DividesPow2(k: nat)
    ensures Divides(k, Pow2(k))
  {
    if k > 0 {
      assert Pow2(k) == 2 * Pow2(k - 1);
      DividesPow2(k - 1);
    }
  }

  /** `i` probe steps without the mask. */
  ghost function Unmasked(h: int, i: nat): int
  {
    if i == 0 then h else 5 * Unmasked(h, i - 1) + 1
  }

  lemma UnmaskedStep(h: int, o: int, c: int)
    requires c == 4 * h + 1
    ensures 5 * (h + o * c) + 1 == h + (5 * o + 1) * c
  {
    assert (5 * o + 1) * c == 5 * (o * c) + c;
  }

  lemma {:induction false} UnmaskedForm(h: int, i: nat, c: int)
    requires c == 4 * h + 1
    ensures Unmasked(h, i) == h + Offset(i) * c
  {
    if i > 0 {
      UnmaskedForm(h, i - 1, c);
      UnmaskedStep(h, Offset(i - 1), c);
    }
  }

  lemma {:induction false} ProbeClosedForm(k: nat, h: int, i: nat)
    ensures Probe(k, h, i) == LowBits(k, Unmasked(h, i))
  {
    if i > 0 {
      ProbeClosedForm(k, h, i - 1);
      StepRespectsMask(k, Unmasked(h, i - 1));
    }
  }

  lemma StepRespectsMask(k: nat, x: int)
    ensures LowBits(k, 5 * LowBits(k, x) + 1) == LowBits(k, 5 * x + 1)
  {
    var y := LowBits(k, x);
    LowBitsSmall(k, y);
    CongruentIffDivides(k, x, y);
    OddFactor(k, x - y, 5, 5 * (x - y));
    CongruentIffDivides(k, 5 * x + 1, 5 * y + 1);
    assert 5 * (x - y) == (5 * x + 1) - (5 * y + 1);
  }

  lemma {:induction false} ProbeCompose(k: nat, h: int, i: nat, j: nat)
    ensures Probe(k, h, i + j) == Probe(k, Probe(k, h, i), j)
  {
    if j == 0 {
      LowBitsSmall(k, Probe(k, h, i));
    } else {
      ProbeCompose(k, h, i, j - 1);
    }
  }

  lemma FactorOf(k: nat, h: int, o: int, moved: int)
    requires moved == h + o * (4 * h + 1)
    ensures Divides(k, moved - h) <==> Divides(k, o)
  {
    OddFactor(k, o, 4 * h + 1, moved - h);
  }

  lemma UnmaskedDivides(k: nat, h: int, i: nat)
    ensures Divides(k, Unmasked(h, i) - h) <==> Divides(k, Offset(i))
  {
    UnmaskedForm(h, i, 4 * h + 1);
    FactorOf(k, h, Offset(i), Unmasked(h, i));
  }

  /** The probe sequence returns to its start exactly at the multiples of the table size. */
  lemma ProbeReturns(k: nat, h: int, i: nat)
    ensures Probe(k, h, i) == Probe(k, h, 0) <==> Divides(k, i)
  {
    ProbeClosedForm(k, h, i);
    CongruentIffDivides(k, Unmasked(h, i), h);
    UnmaskedDivides(k, h, i);
    OffsetDivides(k, i);
  }

  lemma ProbeInjective(k: nat, h: int, i: nat, j: nat)
    requires i < j < Pow2(k)
    ensures Probe(k, h, i) != Probe(k, h, j)
  {
    var x := Probe(k, h, i);
    ProbeCompose(k, h, i, j - i);
    ProbeReturns(k, x, j - i);
    DividesSmall(k, j - i);
    LowBitsSmall(k, x);
  }

  ghost function Range(n: nat): (s: set<nat>)
    ensures |s| == n
    ensures forall x: nat :: x in s <==> x < n
  {
    if n == 0 then {} else Range(n - 1) + {n - 1}
  }

  ghost function Visited(k: nat, h: int, n: nat): set<nat>
  {
    set i: nat | i < n :: Probe(k, h, i)
  }

  lemma VisitedGrows(k: nat, h: int, n: nat)
    requires n < Pow2(k)
    ensures Visited(k, h, n + 1) == Visited(k, h, n) + {Probe(k, h, n)}
    ensures Probe(k, h, n) !in Visited(k, h, n)
  {
    forall i: nat | i < n
      ensures Probe(k, h, i) != Probe(k, h, n)
    {
      ProbeInjective(k, h, i, n);
    }
  }

  lemma {:induction false} VisitedSize(k: nat, h: int, n: nat)
    requires n <= Pow2(k)
    ensures |Visited(k, h, n)| == n
  {
    if n > 0 {
      VisitedGrows(k, h, n - 1);
      VisitedSize(k, h, n - 1);
    }
  }

  lemma SubsetOfSameSize(a: set<nat>, b: set<nat>)
    requires a <= b && |a| == |b|
    ensures a == b
  {
    if x :| x in b && x !in a {
      assert a <= b - {x};
      SubsetSize(a, b - {x});
    }
  }

  lemma {:induction false} SubsetSize(a: set<nat>, b: set<nat>)
    requires a <= b
    ensures |a| <= |b|
  {
    if x :| x in a {
      SubsetSize(a - {x}, b - {x});
    }
  }

  /** Every slot is on the probe sequence, within one period. */
  lemma ProbeReaches(k: nat, h: int, slot: nat) returns (i: nat)
    requires slot < Pow2(k)
    ensures i < Pow2(k) && Probe(k, h, i) == slot
  {
    VisitedSize(k, h, Pow2(k));
    assert Visited(k, h, Pow2(k)) <= Range(Pow2(k));
    SubsetOfSameSize(Visited(k, h, Pow2(k)), Range(Pow2(k)));
    assert slot in Visited(k, h, Pow2(k));
    i :| i < Pow2(k) && Probe(k, h, i) == slot;
  }

  /** `slot` is on the probe sequence of `h`, within one period. */
  ghost predicate OnCycle(k: nat, h: int, slot: nat)
  {
    exists i: nat :: i < Pow2(k) && Probe(k, h, i) == slot
  }

  /** The claim the source makes in a comment and leaves to the literature: repeating `nextTry`
      `2^k` times from any start visits each slot exactly once and then returns to the start. */
  lemma FullPeriod(k: nat, h: int)
    ensures Probe(k, h, Pow2(k)) == Probe(k, h, 0)
    ensures forall i: nat, j: nat :: i < j < Pow2(k) ==> Probe(k, h, i) != Probe(k, h, j)
    ensures forall slot: nat :: slot < Pow2(k) ==> OnCycle(k, h, slot)
  {
    DividesPow2(k);
    ProbeReturns(k, h, Pow2(k));
    forall i: nat, j: nat | i < j < Pow2(k)
      ensures Probe(k, h, i) != Probe(k, h, j)
    {
      ProbeInjective(k, h, i, j);
    }
    forall slot: nat | slot < Pow2(k)
      ensures OnCycle(k, h, slot)
    {
      var i := ProbeReaches(k, h, slot);
    }
  }
}
