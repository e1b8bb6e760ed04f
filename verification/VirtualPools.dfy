/**
 Virtual memory pools over range allocators (libs/okl4/src/virtmem_pool_*.c) and
 the test that nests them to the bottom (ctest/src/virt_pool.c).
 */
module VirtualPools {
  import opened RangeAllocator
  import opened MachineWord

  class Pool {
    const allocator: Allocator
    /** The pool's own range, an item of its parent's allocator. */
    const virt: Item
    const parent: Allocator?

    constructor (virt: Item, parent: Allocator?)
      ensures this.virt == virt && this.parent == parent
      ensures fresh(allocator) && fresh(allocator.head) && allocator.Valid() && allocator.spine == [allocator.head]
      ensures allocator.Cells() == New(virt)
    {
      this.virt, this.parent := virt, parent;
      allocator := new Allocator(virt.base, virt.size);
    }

    /** A pool of the interval, or of any interval of that size, carved out of this one. */
    method AllocPool(base: nat, size: nat) returns (code: Code, child: Pool?)
      requires allocator.Valid() && AllSound(allocator.Cells())
      modifies allocator, allocator.spine
      ensures allocator.Valid() && code == CodeOf(old(allocator.Cells()), base, size)
      ensures code == Ok <==> child != null
      ensures code == Ok ==>
        && fresh(child) && fresh(child.virt) && child.virt.size == size
        && allocator.Carved(old(allocator.Cells()), base, old(allocator.spine), child.virt)
        && fresh(child.allocator) && fresh(child.allocator.head) && child.allocator.Valid()
        && child.allocator.spine == [child.allocator.head] && child.virt != child.allocator.head
        && child.allocator.Cells() == New(child.virt) && child.parent == allocator
      ensures code != Ok ==> allocator.spine == old(allocator.spine) && allocator.Cells() == old(allocator.Cells())
    {
      var virt := new Item(base, size);
      code := allocator.Alloc(virt);
      if code == Ok {
        child := new Pool(virt, allocator);
      } else {
        child := null;
      }
    }
  }

  /** The list of a pool with nothing allocated. */
  function New(virt: Item): seq<Cell>
    reads virt
  {
    [Cell(if virt.base == ANONYMOUS then 0 else virt.base, 0, virt.size)]
  }

  // ---------------------------------------------------------------- halving

  /** The ranges held when the recursion is at its deepest, the last pool included. */
  function Halves(base: nat, size: nat): (r: seq<(nat, nat)>)
    decreases size
  {
    if size / 2 == 0 then [(base, size)]
    else [(base, size / 2)] + Halves(base + size / 2, size - size / 2)
  }

  /** Nothing is allocated from the pool. */
  ghost predicate Idle(pool: Pool)
    reads pool.allocator, pool.allocator.spine, pool.virt
  {
    var a := pool.allocator;
    a.Valid() && a.spine == [a.head] && a.Cells() == New(pool.virt) && pool.virt != a.head
  }

  /** The lower half is held by `range` and the upper one by the pool of `virt`. */
  ghost predicate Halved(pool: Pool, range: Item, virt: Item)
    reads pool.allocator, pool.allocator.spine, pool.virt
  {
    var a, base, size := pool.allocator, pool.virt.base, pool.virt.size;
    var half := size / 2;
    && a.Valid() && a.spine == [a.head, range, virt] && a.head != range && a.head != virt && range != virt
    && a.Cells() == [Cell(base, 0, 0), Cell(base, half, half), Cell(base + half, size - half, size - half)]
  }

  /** Allocates the lower half, makes a pool of the upper half, recurses into it, and gives both back.
      `passed` is false if any of the test's expectations fails. */
  method HalvingTest(pool: Pool) returns (passed: bool, held: seq<(nat, nat)>)
    requires Idle(pool) && pool.virt.base + pool.virt.size <= ANONYMOUS
    modifies pool.allocator, pool.allocator.head
    ensures passed && held == Halves(pool.virt.base, pool.virt.size)
    ensures Idle(pool)
    decreases pool.virt.size
  {
    hide Allocator.Valid, Allocator.Cells, Halves;
    HalvesStep(pool.virt.base, pool.virt.size);
    if pool.virt.size / 2 == 0 {
      return true, [(pool.virt.base, pool.virt.size)];
    }
    var range, child := TakeHalves(pool);
    if range == null || child == null {
      return false, [];
    }
    passed, held := HalvingTest(child);
    held := [(pool.virt.base, pool.virt.size / 2)] + held;
    GiveHalves(pool, range, child.virt);
  }

  lemma HalvesStep(base: nat, size: nat)
    ensures Halves(base, size) ==
      if size / 2 == 0 then [(base, size)] else [(base, size / 2)] + Halves(base + size / 2, size - size / 2)
  {}

  /** The lower half is held by `range` and nothing else is. */
  ghost predicate LowerHeld(pool: Pool, range: Item)
    reads pool.allocator, pool.allocator.spine, pool.virt
  {
    var a, base, size := pool.allocator, pool.virt.base, pool.virt.size;
    && a.Valid() && a.spine == [a.head, range] && a.head != range
    && a.Cells() == [Cell(base, 0, 0), Cell(base, size / 2, size)]
  }

  method TakeHalves(pool: Pool) returns (range: Item?, child: Pool?)
    requires Idle(pool) && pool.virt.base + pool.virt.size <= ANONYMOUS && pool.virt.size / 2 != 0
    modifies pool.allocator, pool.allocator.head
    ensures range != null && child != null && fresh(range) && fresh(child) && fresh(child.virt)
    ensures Halved(pool, range, child.virt)
    ensures Idle(child) && fresh(child.allocator) && fresh(child.allocator.head)
    ensures child.virt.base == pool.virt.base + pool.virt.size / 2
    ensures child.virt.size == pool.virt.size - pool.virt.size / 2
    ensures child.allocator.head != range
  {
    hide Allocator.Valid, Allocator.Cells;
    range := TakeLower(pool);
    if range == null {
      return null, null;
    }
    child := TakeUpper(pool, range);
  }

  /** Allocates the lower half; null if an expectation fails. */
  method TakeLower(pool: Pool) returns (range: Item?)
    requires Idle(pool) && pool.virt.base + pool.virt.size <= ANONYMOUS && pool.virt.size / 2 != 0
    modifies pool.allocator, pool.allocator.head
    ensures range != null && fresh(range) && LowerHeld(pool, range)
    ensures range.base == pool.virt.base && range.size == pool.virt.size / 2
  {
    hide Victim, Split, Allocator.Valid, Allocator.Cells;
    var base, size := pool.virt.base, pool.virt.size;
    var rangeSize := size / 2;
    LowerHalf(base, size, rangeSize);
    range := new Item(base, rangeSize);
    var code := pool.allocator.Alloc(range);
    if code != Ok || range.base != base || range.size != rangeSize {
      return null;
    }
    assert pool.allocator.spine == [pool.allocator.head, range];
  }

  /** Makes a pool of the upper half; null if an expectation fails. */
  method TakeUpper(pool: Pool, range: Item) returns (child: Pool?)
    requires LowerHeld(pool, range) && pool.virt.base + pool.virt.size <= ANONYMOUS && pool.virt.size / 2 != 0
    requires range.base == pool.virt.base && range.size == pool.virt.size / 2
    requires pool.virt !in pool.allocator.spine
    modifies pool.allocator, pool.allocator.spine
    ensures child != null && fresh(child) && fresh(child.virt)
    ensures Halved(pool, range, child.virt)
    ensures Idle(child) && fresh(child.allocator) && fresh(child.allocator.head)
    ensures child.virt.base == pool.virt.base + pool.virt.size / 2
    ensures child.virt.size == pool.virt.size - pool.virt.size / 2
  {
    hide Victim, Split, Allocator.Valid, Allocator.Cells;
    var base, size := pool.virt.base, pool.virt.size;
    UpperHalf(base, size, size / 2);
    var childBase, childSize := range.base + range.size, size - size / 2;
    var code;
    code, child := pool.AllocPool(childBase, childSize);
    if child == null || child.virt.base != childBase || child.virt.size != childSize {
      return null;
    }
    assert pool.allocator.spine == [pool.allocator.head, range, child.virt];
  }

  /** Destroys the pool of `virt` and frees `range`. */
  method GiveHalves(pool: Pool, range: Item, virt: Item)
    requires Halved(pool, range, virt) && pool.virt.size / 2 != 0
    requires pool.virt !in pool.allocator.spine && pool.virt.base + pool.virt.size <= ANONYMOUS
    modifies pool.allocator, pool.allocator.spine
    ensures Idle(pool)
  {
    hide Merge, Allocator.Valid, Allocator.Cells;
    var base, size := pool.virt.base, pool.virt.size;
    UpperHalf(base, size, size / 2);
    LowerHalf(base, size, size / 2);
    pool.allocator.Free(virt);
    assert pool.allocator.spine == [pool.allocator.head, range];
    pool.allocator.Free(range);
    assert pool.allocator.spine == [pool.allocator.head];
  }

  lemma LowerHalf(base: nat, size: nat, half: nat)
    requires half == size / 2 && half > 0 && base + size <= ANONYMOUS
    ensures var s := [Cell(base, 0, size)];
      && CodeOf(s, base, half) == Ok && Victim(s, base, half) == 0 && AllSound(s)
      && Split(s, 0, base, half) == [Cell(base, 0, 0), Cell(base, half, size)]
      && Merge([Cell(base, 0, 0), Cell(base, half, size)], 1) == s
  {
    VictimIs([Cell(base, 0, size)], base, half, 0);
  }

  lemma UpperHalf(base: nat, size: nat, half: nat)
    requires half == size / 2 && half > 0 && base + size <= ANONYMOUS
    ensures var s, at := [Cell(base, 0, 0), Cell(base, half, size)], base + half;
      && CodeOf(s, at, size - half) == Ok && Victim(s, at, size - half) == 1 && AllSound(s)
      && Split(s, 1, at, size - half) == [Cell(base, 0, 0), Cell(base, half, half), Cell(at, size - half, size - half)]
      && Merge([Cell(base, 0, 0), Cell(base, half, half), Cell(at, size - half, size - half)], 2) == s
  {
    VictimIs([Cell(base, 0, 0), Cell(base, half, size)], base + half, size - half, 1);
  }

  // ---------------------------------------------------------------- the shape of the recursion

  ghost predicate Tiles(r: seq<(nat, nat)>, lo: nat, hi: nat) {
    && r != [] && r[0].0 == lo && r[|r| - 1].0 + r[|r| - 1].1 == hi
    && forall i, j | 0 <= i && j == i + 1 < |r| :: r[i].0 + r[i].1 == r[j].0
  }

  /** At the deepest point the held ranges and the last pool tile the root, and there are as many levels
      as the ceiling of the base-two logarithm of its size. */
  lemma {:induction false} HalvesTile(base: nat, size: nat)
    ensures Tiles(Halves(base, size), base, base + size)
    ensures var depth := |Halves(base, size)| - 1;
      size <= Power2(depth) && (depth > 0 ==> Power2(depth - 1) < size)
    decreases size
  {
    hide Tiles, Power2, Halves;
    HalvesStep(base, size);
    if size / 2 == 0 {
      OneTile(base, size);
    } else {
      var half := size / 2;
      var rest := Halves(base + half, size - half);
      HalvesTile(base + half, size - half);
      NotEmpty(rest, base + half, base + size);
      OneMoreTile((base, half), rest, base + size);
      OneMoreLevel(size, half, |rest| - 1);
    }
  }

  lemma OneTile(base: nat, size: nat)
    ensures Tiles([(base, size)], base, base + size) && Power2(0) == 1
  {}

  lemma NotEmpty(r: seq<(nat, nat)>, lo: nat, hi: nat)
    requires Tiles(r, lo, hi)
    ensures r != []
  {}

  lemma OneMoreTile(first: (nat, nat), rest: seq<(nat, nat)>, hi: nat)
    requires Tiles(rest, first.0 + first.1, hi)
    ensures Tiles([first] + rest, first.0, hi)
  {
    var r := [first] + rest;
    forall i, j | 0 <= i && j == i + 1 < |r|
      ensures r[i].0 + r[i].1 == r[j].0
    {
      assert r[j] == rest[j - 1];
      if i > 0 { assert r[i] == rest[i - 1]; }
    }
  }

  lemma OneMoreLevel(size: nat, half: nat, depth: int)
    requires half == size / 2 > 0 && 0 <= depth
    requires size - half <= Power2(depth) && (depth > 0 ==> Power2(depth - 1) < size - half)
    ensures size <= Power2(depth + 1) && Power2(depth) < size
  {}
}
