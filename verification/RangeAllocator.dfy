/**
 The allocator of contiguous ranges of libokl4 (libs/okl4/src/range_alloc.c,
 range_free.c, range_init.c). Each item of its list holds an allocated range and
 the free region that follows it, up to the next item.
 */
module RangeAllocator {
  import opened MachineWord

  /** The contents of an item: allocated from `base` for `size`, free from there to `base + total`. */
  datatype Cell = Cell(base: nat, size: nat, total: nat) {
    function End(): nat { base + total }

    predicate Sound() { size <= total }

    predicate FreeHas(x: int) { base + size <= x < base + total }

    predicate Holds(x: int) { base <= x < base + size }

    function Gap(): int { total - size }
  }

  datatype Code = Ok | InUse | Exhausted

  ghost predicate AllSound(s: seq<Cell>) {
    forall i | 0 <= i < |s| :: s[i].Sound()
  }

  // ---------------------------------------------------------------- what the operations compute

  /** The item that a request is carved from: for a named range the one whose free region has its base,
      for an anonymous one the first with enough room. */
  predicate Offers(c: Cell, base: nat, size: nat) {
    if base == ANONYMOUS then c.Gap() >= size else c.FreeHas(base)
  }

  function Victim(s: seq<Cell>, base: nat, size: nat): (i: nat)
    ensures i <= |s| && (i < |s| ==> Offers(s[i], base, size))
    ensures forall j | 0 <= j < i :: !Offers(s[j], base, size)
  {
    if s == [] || Offers(s[0], base, size) then 0 else 1 + Victim(s[1..], base, size)
  }

  function CodeOf(s: seq<Cell>, base: nat, size: nat): Code {
    var i := Victim(s, base, size);
    if i == |s| then (if base == ANONYMOUS then InUse else Exhausted)
    else if base != ANONYMOUS && s[i].End() < base + size then InUse
    else Ok
  }

  /** Where a granted request is placed: an anonymous one at the top of the free region. */
  function Granted(s: seq<Cell>, base: nat, size: nat): int
    requires CodeOf(s, base, size) == Ok
  {
    if base == ANONYMOUS then s[Victim(s, base, size)].End() - size else base
  }

  /** The item at `i` gives up its region from `at` on to a new item. */
  function Split(s: seq<Cell>, i: nat, at: nat, size: nat): seq<Cell>
    requires i < |s| && s[i].base <= at <= s[i].End()
  {
    s[..i] + [Cell(s[i].base, s[i].size, at - s[i].base), Cell(at, size, s[i].End() - at)] + s[i + 1..]
  }

  /** The item at `k` gives its whole region to the one before it. */
  function Merge(s: seq<Cell>, k: nat): seq<Cell>
    requires 1 <= k < |s|
  {
    s[..k - 1] + [s[k - 1].(total := s[k - 1].total + s[k].total)] + s[k + 1..]
  }

  class Item {
    var base: nat
    var size: nat
    var total: nat
    var next: Item?

    constructor (base: nat, size: nat)
      ensures this.base == base && this.size == size && total == 0 && next == null
    {
      this.base, this.size, this.total, this.next := base, size, 0, null;
    }

    function Contents(): Cell
      reads this
    {
      Cell(base, size, total)
    }
  }

  class Allocator {
    const head: Item
    /** The list from `head` on. */
    ghost var spine: seq<Item>

    ghost predicate Valid()
      reads this, spine
    {
      && spine != [] && spine[0] == head
      && (forall i, j | 0 <= i < j < |spine| :: spine[i] != spine[j])
      && (forall i, j | 0 <= i && j == i + 1 < |spine| :: spine[i].next == spine[j])
      && spine[|spine| - 1].next == null
    }

    ghost function Cells(): (s: seq<Cell>)
      reads this, spine
      ensures |s| == |spine|
    {
      seq(|spine|, i requires 0 <= i < |spine| reads this, spine => spine[i].Contents())
    }

    constructor (base: nat, size: nat)
      ensures Valid() && fresh(head) && spine == [head]
      ensures Cells() == [Cell(if base == ANONYMOUS then 0 else base, 0, size)]
    {
      head := new Item(if base == ANONYMOUS then 0 else base, 0);
      new;
      head.total := size;
      spine := [head];
    }

    /** The first item that offers the request. */
    method Find(base: nat, size: nat) returns (victim: Item?, ghost i: nat)
      requires Valid()
      ensures i == Victim(Cells(), base, size)
      ensures victim == if i < |spine| then spine[i] else null
      ensures victim != null ==> Cells()[i] == victim.Contents()
    {
      victim, i := head, 0;
      while victim != null
        invariant i <= |spine| && victim == if i < |spine| then spine[i] else null
        invariant forall j | 0 <= j < i :: !Offers(Cells()[j], base, size)
        decreases |spine| - i
      {
        if if base == ANONYMOUS then victim.total - victim.size >= size
           else victim.base + victim.size <= base < victim.base + victim.total {
          break;
        }
        victim, i := victim.next, i + 1;
      }
      VictimIs(Cells(), base, size, i);
    }

    method SetTotal(ghost i: nat, item: Item, total: nat)
      requires Valid() && i < |spine| && spine[i] == item
      modifies item`total
      ensures Valid() && item.total == total
      ensures Cells() == old(Cells())[i := old(Cells())[i].(total := total)]
    {
      item.total := total;
    }

    /** Links `range` into the list after `victim`. */
    method Link(ghost i: nat, victim: Item, range: Item)
      requires Valid() && i < |spine| && spine[i] == victim && range !in spine
      modifies this`spine, victim`next, range`next
      ensures Valid() && spine == old(spine)[..i + 1] + [range] + old(spine)[i + 1..]
      ensures Cells() == old(Cells())[..i + 1] + [range.Contents()] + old(Cells())[i + 1..]
    {
      range.next := victim.next;
      victim.next := range;
      spine := spine[..i + 1] + [range] + spine[i + 1..];
    }

    /** Takes the item after `before` out of the list. */
    method Unlink(ghost k: nat, before: Item, victim: Item)
      requires Valid() && 1 <= k < |spine| && spine[k - 1] == before && spine[k] == victim
      modifies this`spine, before`next
      ensures Valid() && spine == old(spine)[..k] + old(spine)[k + 1..]
      ensures Cells() == old(Cells())[..k] + old(Cells())[k + 1..]
    {
      before.next := victim.next;
      spine := spine[..k] + spine[k + 1..];
    }

    /** `range` has been carved out of the first item that offered its request. */
    ghost predicate Carved(s: seq<Cell>, base: nat, was: seq<Item>, range: Item)
      requires |was| == |s| && CodeOf(s, base, range.size) == Ok
      reads this, spine, range
    {
      var i := Victim(s, base, range.size);
      && range.base == Granted(s, base, range.size)
      && s[i].base <= range.base <= s[i].End()
      && spine == was[..i + 1] + [range] + was[i + 1..]
      && Cells() == Split(s, i, range.base, range.size)
    }

    method Alloc(range: Item) returns (code: Code)
      requires Valid() && range !in spine && AllSound(Cells())
      modifies this, spine, range
      ensures Valid() && range.size == old(range.size)
      ensures code == CodeOf(old(Cells()), old(range.base), old(range.size))
      ensures code == Ok ==> Carved(old(Cells()), old(range.base), old(spine), range)
      ensures code != Ok ==> spine == old(spine) && Cells() == old(Cells()) && range.base == old(range.base)
    {
      if range.base == ANONYMOUS {
        code := AnonymousAllocation(range);
      } else {
        code := NamedAllocation(range);
      }
    }

    method NamedAllocation(range: Item) returns (code: Code)
      requires Valid() && range !in spine && AllSound(Cells()) && range.base != ANONYMOUS
      modifies this, spine, range
      ensures Valid() && range.size == old(range.size)
      ensures code == CodeOf(old(Cells()), old(range.base), old(range.size))
      ensures code == Ok ==> Carved(old(Cells()), old(range.base), old(spine), range)
      ensures code != Ok ==> spine == old(spine) && Cells() == old(Cells()) && range.base == old(range.base)
    {
      hide Victim, Valid, Cells, Split;
      ghost var s := Cells();
      var victim, i := Find(range.base, range.size);
      if victim == null { return Exhausted; }
      var victimFree := victim.base + victim.total - range.base;
      if victimFree < range.size { return InUse; }
      range.total := victim.base + victim.total - range.base;
      SetTotal(i, victim, victim.total - range.total);
      Link(i, victim, range);
      SplitIs(s, i, range.base, range.size);
      code := Ok;
    }

    method AnonymousAllocation(range: Item) returns (code: Code)
      requires Valid() && range !in spine && AllSound(Cells()) && range.base == ANONYMOUS
      modifies this, spine, range
      ensures Valid() && range.size == old(range.size)
      ensures code == CodeOf(old(Cells()), old(range.base), old(range.size))
      ensures code == Ok ==> Carved(old(Cells()), old(range.base), old(spine), range)
      ensures code != Ok ==> spine == old(spine) && Cells() == old(Cells()) && range.base == old(range.base)
    {
      hide Victim, Valid, Cells, Split;
      ghost var s := Cells();
      var rangeSize := range.size;
      var victim, i := Find(range.base, range.size);
      if victim == null { return InUse; }
      SetTotal(i, victim, victim.total - rangeSize);
      range.base := victim.base + victim.total;
      range.total := rangeSize;
      Link(i, victim, range);
      SplitIs(s, i, range.base, range.size);
      code := Ok;
    }

    method Free(victim: Item)
      requires Valid() && victim in spine && victim != head
      modifies this, spine
      ensures Valid()
      ensures exists k: nat | 1 <= k < |old(spine)| ::
        && old(spine)[k] == victim
        && spine == old(spine)[..k] + old(spine)[k + 1..]
        && Cells() == Merge(old(Cells()), k)
    {
      hide Valid, Cells, Merge;
      ghost var s := Cells();
      var before, k := FindBefore(victim);
      SetTotal(k - 1, before, before.total + victim.total);
      Unlink(k, before, victim);
      MergeIs(s, k);
    }

    method FindBefore(victim: Item) returns (before: Item, ghost k: nat)
      requires Valid() && victim in spine && victim != head
      ensures 1 <= k < |spine| && spine[k - 1] == before && spine[k] == victim
      ensures Cells()[k - 1] == before.Contents() && Cells()[k] == victim.Contents()
    {
      k :| 1 <= k < |spine| && spine[k] == victim;
      ghost var i := 0;
      before := head;
      while before.next != victim
        invariant i < k && before == spine[i]
        decreases k - i
      {
        assert spine[i].next == spine[i + 1];
        before, i := before.next, i + 1;
      }
      assert spine[i + 1] == victim;
    }
  }

  lemma SplitIs(s: seq<Cell>, i: nat, at: nat, size: nat)
    requires i < |s| && s[i].base <= at <= s[i].End()
    ensures var t := s[i := s[i].(total := at - s[i].base)];
      t[..i + 1] + [Cell(at, size, s[i].End() - at)] + t[i + 1..] == Split(s, i, at, size)
  {}

  lemma MergeIs(s: seq<Cell>, k: nat)
    requires 1 <= k < |s|
    ensures var t := s[k - 1 := s[k - 1].(total := s[k - 1].total + s[k].total)];
      t[..k] + t[k + 1..] == Merge(s, k)
  {}

  lemma {:induction false} VictimIs(s: seq<Cell>, base: nat, size: nat, i: nat)
    requires i <= |s| && (i < |s| ==> Offers(s[i], base, size))
    requires forall j | 0 <= j < i :: !Offers(s[j], base, size)
    ensures Victim(s, base, size) == i
  {
    if i > 0 { VictimIs(s[1..], base, size, i - 1); }
  }
}
