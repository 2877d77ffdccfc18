/** The index arithmetic of include/LockFreeQueue.h: masking with Capacity - 1 on size_t. */
module Mask {
  import opened Types

  /** Bitwise and. */
  function And(x: nat, y: nat): nat {
    if x == 0 || y == 0 then 0
    else 2 * And(x / 2, y / 2) + if x % 2 == 1 && y % 2 == 1 then 1 else 0
  }

  function Pow2(k: nat): (p: nat)
    ensures p > 0
  {
    if k == 0 then 1 else 2 * Pow2(k - 1)
  }

  lemma {:induction false} AndSelf(x: nat)
    ensures And(x, x) == x
  {
    if x > 0 { AndSelf(x / 2); }
  }

  lemma OddCapacity(cap: nat)
    requires cap > 1
    ensures cap % 2 == 1 ==> And(cap, cap - 1) > 0
  {
    if cap % 2 == 1 {
      AndSelf(cap / 2);
      assert (cap - 1) / 2 == cap / 2;
    }
  }

  /** A positive capacity with no bit in common with its predecessor is a power of two. */
  lemma {:induction false} AssertMeansPowerOfTwo(cap: nat) returns (k: nat)
    requires cap > 0 && And(cap, cap - 1) == 0
    ensures cap == Pow2(k)
  {
    if cap == 1 {
      k := 0;
    } else {
      OddCapacity(cap);
      assert (cap - 1) / 2 == cap / 2 - 1;
      k := AssertMeansPowerOfTwo(cap / 2);
      k := k + 1;
    }
  }

  lemma {:induction false} MaskIsMod(x: nat, k: nat)
    ensures And(x, Pow2(k) - 1) == x % Pow2(k)
  {
    if x == 0 {
      assert 0 % Pow2(k) == 0;
    } else if k > 0 {
      var p := Pow2(k - 1);
      assert (2 * p - 1) / 2 == p - 1 && (2 * p - 1) % 2 == 1;
      MaskIsMod(x / 2, k - 1);
      HalfMod(x, p);
    }
  }

  lemma HalfMod(x: nat, p: nat)
    requires p > 0
    ensures x % (2 * p) == 2 * ((x / 2) % p) + x % 2
  {
    var h := x / 2;
    var d, r := h / p, h % p;
    assert h == d * p + r;
    assert x == d * (2 * p) + (2 * r + x % 2) by {
      assert x == 2 * h + x % 2;
      assert 2 * (d * p) == d * (2 * p);
    }
    ModUnique(x, 2 * p, d, 2 * r + x % 2);
  }

  lemma ModUnique(x: int, m: nat, d: int, r: int)
    requires m > 0 && x == d * m + r && 0 <= r < m
    ensures x % m == r
  {
    var e, s := x / m, x % m;
    assert x == e * m + s;
    assert (d - e) * m == s - r;
    Multiple(d - e, m);
  }

  lemma Multiple(k: int, m: nat)
    requires m > 0
    ensures k * m == 0 || k * m >= m || k * m + m <= 0
    ensures k * m == 0 <==> k == 0
  {
    if k >= 1 {
      assert (k - 1) * m >= 0;
    } else if k <= -1 {
      assert (-k - 1) * m >= 0;
    }
  }

  /** A queue exists for a capacity that passes the static_assert and is a size_t. */
  ghost predicate Capacity(cap: nat) {
    0 < cap < TWO_64 && And(cap, cap - 1) == 0
  }

  /** The static_assert, (Capacity & (Capacity - 1)) == 0, on size_t: the subtraction wraps. */
  predicate StaticAssert(cap: nat) {
    And(cap, (cap - 1) % 0x1_0000_0000_0000_0000) == 0
  }

  lemma PowersPass(k: nat)
    ensures And(Pow2(k), Pow2(k) - 1) == 0
  {
    MaskIsMod(Pow2(k), k);
    ModUnique(Pow2(k), Pow2(k), 1, 0);
  }

  /** The capacities of a queue are exactly the powers of two that fit in a size_t. */
  lemma CapacityIff(cap: nat)
    ensures Capacity(cap) <==> exists k: nat :: k < 64 && cap == Pow2(k)
  {
    hide And, Pow2;
    if Capacity(cap) {
      var k := AssertMeansPowerOfTwo(cap);
      if k >= 64 {
        Pow2Mono(64, k);
        Pow2At64();
      }
    }
    if k: nat :| k < 64 && cap == Pow2(k) {
      PowersPass(k);
      Pow2Below64(k);
    }
  }

  lemma Pow2Below64(k: nat)
    requires k < 64
    ensures 0 < Pow2(k) < TWO_64
  {
    hide Pow2;
    Pow2At64();
    Pow2Mono(k + 1, 64);
    Pow2Doubles(k);
  }

  lemma Pow2Doubles(k: nat)
    ensures Pow2(k + 1) == 2 * Pow2(k)
  {
  }

  /** What the static_assert lets through: the powers of two, and zero, for which the arithmetic
      wraps and no queue can be built. */
  lemma StaticAssertIff(cap: nat)
    requires cap < TWO_64
    ensures StaticAssert(cap) <==> cap == 0 || exists k: nat :: k < 64 && cap == Pow2(k)
  {
    CapacityIff(cap);
    hide Pow2;
    if cap > 0 {
      assert (cap - 1) % 0x1_0000_0000_0000_0000 == cap - 1;
    }
  }

  /** The capacities the exchange uses. */
  lemma QueueSizesAreCapacities()
    ensures Capacity(65536) && Capacity(16384)
  {
    assert Pow2(8) == 256;
    assert Pow2(14) == 16384;
    assert Pow2(16) == 65536;
    CapacityIff(65536);
    CapacityIff(16384);
  }

  lemma MaskCapacity(x: nat, cap: nat)
    requires Capacity(cap)
    ensures And(x, cap - 1) == x % cap
  {
    var k := AssertMeansPowerOfTwo(cap);
    MaskIsMod(x, k);
  }

  /** (i + 1) & (Capacity - 1) */
  function Next(i: nat, cap: nat): nat
    requires cap > 0
  {
    And(i + 1, cap - 1)
  }

  /** size(): (tail - head + Capacity) & (Capacity - 1), wrapping at 64 bits twice. */
  function SizeOf(head: nat, tail: nat, cap: nat): nat
    requires cap > 0
  {
    And(((tail - head) % 0x1_0000_0000_0000_0000 + cap) % 0x1_0000_0000_0000_0000, cap - 1)
  }

  lemma NextOf(n: nat, cap: nat)
    requires Capacity(cap)
    ensures Next(n % cap, cap) == (n + 1) % cap
  {
    hide And;
    MaskCapacity(n % cap + 1, cap);
    SuccMod(n, cap);
  }

  lemma SuccMod(n: nat, cap: nat)
    requires cap > 0
    ensures (n % cap + 1) % cap == (n + 1) % cap
  {
    var d, r := n / cap, n % cap;
    assert n == d * cap + r;
    if r + 1 < cap {
      ModUnique(n + 1, cap, d, r + 1);
      ModUnique(r + 1, cap, 0, r + 1);
    } else {
      assert n + 1 == (d + 1) * cap + 0;
      ModUnique(n + 1, cap, d + 1, 0);
      ModUnique(r + 1, cap, 1, 0);
    }
  }

  /** Two counters less than a lap apart share a slot only if they are equal. */
  lemma SameSlot(a: nat, b: nat, cap: nat)
    requires cap > 0 && a <= b < a + cap
    ensures a % cap == b % cap <==> a == b
  {
    if a % cap == b % cap {
      var da, db := a / cap, b / cap;
      assert a == da * cap + a % cap && b == db * cap + b % cap;
      assert b - a == (db - da) * cap;
      Multiple(db - da, cap);
    }
  }

  lemma WrapTwice(a: nat, b: nat, cap: nat)
    requires a < cap && b < cap && 2 * cap <= 0x1_0000_0000_0000_0000
    ensures ((b - a) % 0x1_0000_0000_0000_0000 + cap) % 0x1_0000_0000_0000_0000 == b - a + cap
  {
    if b < a {
      assert (b - a) % 0x1_0000_0000_0000_0000 == b - a + 0x1_0000_0000_0000_0000;
    }
  }

  /** The masked, wrapping size is the true count, from the two indices alone. */
  lemma SizeIsCount(h: nat, t: nat, cap: nat)
    requires Capacity(cap) && h <= t < h + cap
    ensures SizeOf(h % cap, t % cap, cap) == t - h
  {
    hide SizeOf, And;
    ApartMod(h, t, cap);
    SizeMasked(h % cap, t % cap, cap);
  }

  lemma SizeMasked(a: nat, b: nat, cap: nat)
    requires Capacity(cap) && a < cap && b < cap
    ensures SizeOf(a, b, cap) == (b - a + cap) % cap
  {
    hide And, Pow2;
    var k := AssertMeansPowerOfTwo(cap);
    CapacityBound(cap, k);
    WrapTwice(a, b, cap);
    MaskCapacity(b - a + cap, cap);
  }

  lemma ApartMod(h: nat, t: nat, cap: nat)
    requires cap > 0 && h <= t < h + cap
    ensures (t % cap - h % cap + cap) % cap == t - h
  {
    var dh, dt := h / cap, t / cap;
    assert h == dh * cap + h % cap && t == dt * cap + t % cap;
    var x := t % cap - h % cap + cap;
    assert x == (1 - (dt - dh)) * cap + (t - h);
    ModUnique(x, cap, 1 - (dt - dh), t - h);
  }

  lemma {:induction false} Pow2Mono(j: nat, k: nat)
    requires j <= k
    ensures Pow2(j) <= Pow2(k)
  {
    if j < k { Pow2Mono(j, k - 1); }
  }

  lemma CapacityBound(cap: nat, k: nat)
    requires cap == Pow2(k) && cap < TWO_64
    ensures 2 * cap <= TWO_64
  {
    if k >= 64 {
      Pow2Mono(64, k);
      assert Pow2(64) == TWO_64 by { Pow2At64(); }
    } else {
      Pow2Mono(k + 1, 64);
      Pow2At64();
    }
  }

  lemma Pow2At64()
    ensures Pow2(64) == TWO_64
  {
    assert Pow2(8) == 0x100;
    assert Pow2(16) == 0x1_0000;
    assert Pow2(24) == 0x100_0000;
    assert Pow2(32) == 0x1_0000_0000;
    assert Pow2(40) == 0x100_0000_0000;
    assert Pow2(48) == 0x1_0000_0000_0000;
    assert Pow2(56) == 0x100_0000_0000_0000;
    assert Pow2(64) == 0x1_0000_0000_0000_0000;
  }
}
