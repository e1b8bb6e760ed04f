/**
 Deallocation in a scattered order (ctest/src/bitmap_allocator.c): items are
 freed along the walk `(i ^ 0xa5a5a5a5) % max` for a power of two `max`.
 */
module FreeWalk {
  import opened Align
  import opened MachineWord
  import Bitmap

  const PATTERN: nat := 0xa5a5a5a5

  /** Exclusive or of the lowest `n` bits. */
  function Xor(x: nat, y: nat, n: nat): nat {
    if n == 0 then 0 else (if x % 2 == y % 2 then 0 else 1) + 2 * Xor(x / 2, y / 2, n - 1)
  }

  /** The item freed at step `i`. */
  function Walk(i: nat, max: nat): nat
    requires max > 0
  {
    Xor(i, PATTERN, W) % max
  }

  // ---------------------------------------------------------------- the walk is a permutation

  lemma {:induction false} XorBound(x: nat, y: nat, n: nat)
    ensures Xor(x, y, n) < Power2(n)
  {
    if n > 0 { XorBound(x / 2, y / 2, n - 1); }
  }

  /** Exclusive or undoes itself. */
  lemma {:induction false} XorTwice(x: nat, y: nat, n: nat)
    requires x < Power2(n)
    ensures Xor(Xor(x, y, n), y, n) == x
  {
    if n > 0 {
      var bit, rest := if x % 2 == y % 2 then 0 else 1, Xor(x / 2, y / 2, n - 1);
      LowestBit(bit, rest);
      XorTwice(x / 2, y / 2, n - 1);
    }
  }

  lemma LowestBit(bit: nat, rest: nat)
    requires bit < 2
    ensures (bit + 2 * rest) % 2 == bit && (bit + 2 * rest) / 2 == rest
  {}

  /** Only the lowest bits matter to the remainder by a power of two. */
  lemma {:induction false} XorLow(x: nat, y: nat, n: nat, k: nat)
    requires k <= n
    ensures Power2(k) > 0 && Xor(x, y, n) % Power2(k) == Xor(x, y, k)
  {
    Positive(k);
    if k > 0 {
      XorLow(x / 2, y / 2, n - 1, k - 1);
      Positive(k - 1);
      XorBound(x / 2, y / 2, k - 1);
      var rest, p := Xor(x / 2, y / 2, n - 1), Power2(k - 1);
      var low := if x % 2 == y % 2 then 0 else 1;
      DoubleRemainder(rest, p, low);
    }
  }

  lemma {:induction false} Positive(k: nat)
    ensures Power2(k) > 0
  {
    if k > 0 { Positive(k - 1); }
  }

  lemma DoubleRemainder(x: nat, p: nat, low: nat)
    requires p > 0 && low < 2
    ensures (low + 2 * x) % (2 * p) == low + 2 * (x % p)
  {
    var q, r := x / p, x % p;
    Division(x, p);
    TwiceProduct(q, p);
    RemainderUnique(low + 2 * x, 2 * p, q, low + 2 * r);
  }

  lemma TwiceProduct(q: int, p: int)
    ensures q * (2 * p) == 2 * (q * p)
  {}

  /** The walk over a power of two is its own inverse, so it reaches each number below `max` exactly once. */
  lemma WalkIsPermutation(k: nat, t: nat)
    requires k <= W && t < Power2(k)
    ensures var max := Power2(k);
      && Walk(t, max) < max && Walk(Walk(t, max), max) == t
      && forall i: nat | i < max && Walk(i, max) == t :: i == Walk(t, max)
  {
    var max := Power2(k);
    WalkIsXor(t, k);
    XorBound(t, PATTERN, k);
    XorTwice(t, PATTERN, k);
    WalkIsXor(Walk(t, max), k);
    forall i: nat | i < max && Walk(i, max) == t
      ensures i == Walk(t, max)
    {
      WalkIsXor(i, k);
      XorTwice(i, PATTERN, k);
    }
  }

  lemma WalkIsXor(i: nat, k: nat)
    requires k <= W
    ensures Power2(k) > 0 && Walk(i, Power2(k)) == Xor(i, PATTERN, k)
  {
    XorLow(i, PATTERN, W, k);
  }

  // ---------------------------------------------------------------- freeing along the walk

  /** Some step below `n` frees item `t`. */
  ghost predicate Reached(t: nat, n: nat, max: nat)
    requires max > 0
  {
    exists i: nat | i < n :: Walk(i, max) == t
  }

  /** The units after the first `n` steps: those of the items reached are free. */
  ghost predicate FreedSoFar(was: seq<bool>, now: seq<bool>, base: nat, items: seq<nat>, n: nat, max: nat)
    requires max > 0 && |was| == |now|
  {
    forall u | 0 <= u < |was| :: now[u] == (was[u] && !Named(u + base, items, n, max))
  }

  ghost predicate Named(unit: nat, items: seq<nat>, n: nat, max: nat)
    requires max > 0
  {
    exists t | 0 <= t < |items| :: items[t] == unit && Reached(t, n, max)
  }

  /** Up to 2^31 items, each is freed, exactly once (see WalkIsPermutation), and no other unit is touched. */
  method FreeAllRandom(alloc: Bitmap.Allocator, items: array<nat>)
    requires alloc.Valid() && items.Length <= 0x8000_0000
    requires forall t | 0 <= t < items.Length :: alloc.base <= items[t] < alloc.base + alloc.size
    modifies alloc.data
    ensures alloc.Valid()
    ensures forall u | 0 <= u < alloc.size :: alloc.Taken()[u] == (old(alloc.Taken())[u] && u + alloc.base !in items[..])
  {
    hide Walk, Bitmap.Allocator.Valid, Bitmap.Allocator.Taken;
    var qty := items.Length;
    var max, k := FindMax(qty);
    ghost var was := alloc.Taken();
    NothingReached(was, alloc.base, items[..], max);
    for i := 0 to max
      invariant alloc.Valid() && |alloc.Taken()| == |was| == alloc.size
      invariant FreedSoFar(was, alloc.Taken(), alloc.base, items[..], i, max)
    {
      var t := Walk(i, max);
      ghost var before := alloc.Taken();
      if t < qty {
        alloc.Free(items[t]);
      }
      NextFreed(was, before, alloc.base, items[..], i, max);
    }
    AllReached(was, alloc.Taken(), alloc.base, items[..], k);
  }

  /** The least power of two, from 2 on, that is not below `qty`. */
  method FindMax(qty: nat) returns (max: nat, ghost k: nat)
    requires qty <= 0x8000_0000
    ensures 1 <= k < W && max == Power2(k) && qty <= max
    ensures k > 1 ==> Power2(k - 1) < qty
  {
    max, k := 2, 1;
    assert Power2(1) == 2;
    while max < qty
      invariant 1 <= k < W && max == Power2(k) && (k > 1 ==> Power2(k - 1) < qty)
      decreases W - k
    {
      TopPower(k);
      max, k := max * 2, k + 1;
    }
  }

  lemma TopPower(k: nat)
    requires k < W
    ensures k == W - 1 ==> Power2(k) == 0x8000_0000
  {
    if k == 31 {
      EightMore(0, 1);
      EightMore(8, 0x100);
      EightMore(16, 0x1_0000);
      assert Power2(24) == 0x100_0000;
      var p := Power2(31);
      assert p == 2 * Power2(30) && Power2(30) == 2 * Power2(29) && Power2(29) == 2 * Power2(28);
      assert Power2(28) == 2 * Power2(27) && Power2(27) == 2 * Power2(26) && Power2(26) == 2 * Power2(25);
    }
  }

  lemma EightMore(n: nat, p: nat)
    requires Power2(n) == p
    ensures Power2(n + 8) == 256 * p
  {
    assert Power2(n + 2) == 4 * p;
    assert Power2(n + 4) == 16 * p;
    assert Power2(n + 6) == 64 * p;
  }

  lemma NothingReached(was: seq<bool>, base: nat, items: seq<nat>, max: nat)
    requires max > 0
    ensures FreedSoFar(was, was, base, items, 0, max)
  {}

  lemma NextFreed(was: seq<bool>, before: seq<bool>, base: nat, items: seq<nat>, i: nat, max: nat)
    requires max > 0 && |was| == |before| && FreedSoFar(was, before, base, items, i, max)
    requires Walk(i, max) < |items| ==> base <= items[Walk(i, max)] < base + |was|
    ensures var t := Walk(i, max);
      FreedSoFar(was, if t < |items| then before[items[t] - base := false] else before, base, items, i + 1, max)
  {
    hide Walk;
    var t := Walk(i, max);
    var now := if t < |items| then before[items[t] - base := false] else before;
    forall u | 0 <= u < |was|
      ensures now[u] == (was[u] && !Named(u + base, items, i + 1, max))
    {
      NamedStep(u + base, items, i, max);
    }
  }

  lemma NamedStep(unit: nat, items: seq<nat>, i: nat, max: nat)
    requires max > 0
    ensures var t := Walk(i, max);
      Named(unit, items, i + 1, max) <==> Named(unit, items, i, max) || (t < |items| && items[t] == unit)
  {
    hide Walk;
    var t := Walk(i, max);
    assert Reached(t, i + 1, max);
    forall t'
      ensures Reached(t', i + 1, max) <==> Reached(t', i, max) || t' == t
    {
      if j: nat :| j < i && Walk(j, max) == t' { assert Reached(t', i + 1, max); }
      if j: nat :| j < i + 1 && Walk(j, max) == t' { assert j < i ==> Reached(t', i, max); }
    }
  }

  lemma AllReached(was: seq<bool>, now: seq<bool>, base: nat, items: seq<nat>, k: nat)
    requires k <= W && |items| <= Power2(k) && Power2(k) > 0 && |was| == |now|
    requires FreedSoFar(was, now, base, items, Power2(k), Power2(k))
    ensures forall u | 0 <= u < |was| :: now[u] == (was[u] && u + base !in items)
  {
    hide Walk;
    var max := Power2(k);
    forall t: nat | t < |items|
      ensures Reached(t, max, max)
    {
      WalkIsPermutation(k, t);
    }
    forall u | 0 <= u < |was|
      ensures now[u] == (was[u] && u + base !in items)
    {
      if t :| 0 <= t < |items| && items[t] == u + base { assert Reached(t, max, max); }
    }
  }
}
