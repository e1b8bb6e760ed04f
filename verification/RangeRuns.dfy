/**
 What holds of a range allocator over every run of its operations: the items
 tile the pool, so allocated ranges are disjoint and free space is accounted for.
 */
module RangeRuns {
  import opened MachineWord
  import opened RangeAllocator

  /** The items and their free regions follow each other from `lo` to `hi`; the head holds nothing. */
  ghost predicate Tiled(s: seq<Cell>, lo: int, hi: int) {
    && s != [] && s[0].base == lo && s[0].size == 0 && AllSound(s)
    && (forall i, j | 0 <= i && j == i + 1 < |s| :: s[i].End() == s[j].base)
    && s[|s| - 1].End() == hi
  }

  ghost predicate IsFree(s: seq<Cell>, x: int) {
    exists i | 0 <= i < |s| :: s[i].FreeHas(x)
  }

  ghost predicate IsTaken(s: seq<Cell>, x: int) {
    exists i | 0 <= i < |s| :: s[i].Holds(x)
  }

  // ---------------------------------------------------------------- a tiling

  lemma {:induction false} Ordered(s: seq<Cell>, lo: int, hi: int, i: nat, j: nat)
    requires Tiled(s, lo, hi) && i <= j < |s|
    ensures s[i].base <= s[j].base && (i < j ==> s[i].End() <= s[j].base) && s[j].End() <= hi
    decreases |s| - i
  {
    if i < j {
      assert s[i].Sound();
      Ordered(s, lo, hi, i + 1, j);
    } else if j + 1 < |s| {
      assert s[j + 1].Sound();
      Ordered(s, lo, hi, j + 1, j + 1);
    }
  }

  /** Allocated ranges are pairwise disjoint and inside the pool. */
  lemma RangesDisjoint(s: seq<Cell>, lo: int, hi: int, i: nat, j: nat)
    requires Tiled(s, lo, hi) && i < j < |s|
    ensures lo <= s[i].base && s[i].base + s[i].size <= s[j].base && s[j].base + s[j].size <= hi
  {
    assert s[i].Sound() && s[j].Sound();
    Ordered(s, lo, hi, 0, i);
    Ordered(s, lo, hi, i, j);
  }

  /** Every value of the pool is either allocated or free, never both, and no other value is either. */
  lemma FreeOrTaken(s: seq<Cell>, lo: int, hi: int, x: int)
    requires Tiled(s, lo, hi)
    ensures lo <= x < hi <==> IsFree(s, x) || IsTaken(s, x)
    ensures !(IsFree(s, x) && IsTaken(s, x))
  {
    if lo <= x < hi {
      var i := Tile(s, lo, hi, x);
      assert s[i].Holds(x) || s[i].FreeHas(x);
    }
    if i :| 0 <= i < |s| && s[i].FreeHas(x) {
      Ordered(s, lo, hi, 0, i);
      forall j | 0 <= j < |s|
        ensures !s[j].Holds(x)
      {
        Ordered(s, lo, hi, if i < j then i else j, if i < j then j else i);
        assert s[j].Sound();
      }
    }
    if i :| 0 <= i < |s| && s[i].Holds(x) {
      assert s[i].Sound();
      Ordered(s, lo, hi, 0, i);
    }
  }

  /** The item whose region has `x`. */
  lemma Tile(s: seq<Cell>, lo: int, hi: int, x: int) returns (i: nat)
    requires Tiled(s, lo, hi) && lo <= x < hi
    ensures i < |s| && s[i].base <= x < s[i].End()
  {
    i := 0;
    while s[i].End() <= x
      invariant i < |s| && s[i].base <= x
      decreases |s| - i
    {
      assert i + 1 < |s| ==> s[i].End() == s[i + 1].base;
      i := i + 1;
    }
  }

  // ---------------------------------------------------------------- when a request is granted

  /** A named request fails as exhausted exactly when its base is not free. It is granted exactly when its
      whole range is free and no empty item lies inside. */
  lemma NamedGrantedIff(s: seq<Cell>, lo: int, hi: int, base: nat, size: nat)
    requires Tiled(s, lo, hi) && base != ANONYMOUS
    ensures CodeOf(s, base, size) == Exhausted <==> !IsFree(s, base)
    ensures CodeOf(s, base, size) == Ok <==>
      && IsFree(s, base) && (forall x | base <= x < base + size :: IsFree(s, x))
      && !EmptyItemInside(s, base, size)
  {
    var i := Victim(s, base, size);
    if i < |s| {
      assert s[i].FreeHas(base);
      if CodeOf(s, base, size) == Ok {
        forall x | base <= x < base + size
          ensures IsFree(s, x)
        {
          assert s[i].FreeHas(x);
        }
        forall j | 0 <= j < |s|
          ensures !(base < s[j].base < base + size)
        {
          Ordered(s, lo, hi, if i < j then i else j, if i < j then j else i);
        }
      } else {
        Blocked(s, lo, hi, base, size, i);
      }
    } else {
      forall j | 0 <= j < |s|
        ensures !s[j].FreeHas(base)
      {
        assert !Offers(s[j], base, size);
      }
    }
  }

  /** The documentation promises failure only for allocated values. An empty item holds none and blocks all the same. */
  lemma EmptyItemBlocks()
    ensures var s := Step([Cell(0, 0, 10)], Take(2, 0));
      && s == [Cell(0, 0, 2), Cell(2, 0, 8)] && CodeOf(s, 1, 3) == InUse
      && forall x | 1 <= x < 4 :: IsFree(s, x) && !IsTaken(s, x)
  {
    VictimIs([Cell(0, 0, 10)], 2, 0, 0);
    var s := [Cell(0, 0, 2), Cell(2, 0, 8)];
    assert Split([Cell(0, 0, 10)], 0, 2, 0) == s;
    VictimIs(s, 1, 3, 0);
    forall x | 1 <= x < 4
      ensures IsFree(s, x) && !IsTaken(s, x)
    {
      assert s[if x < 2 then 0 else 1].FreeHas(x);
    }
  }

  ghost predicate EmptyItemInside(s: seq<Cell>, base: nat, size: nat) {
    exists j | 0 <= j < |s| :: s[j].size == 0 && base < s[j].base < base + size
  }

  /** A range that leaves its free region meets a taken value, the end of the pool or an empty item. */
  lemma Blocked(s: seq<Cell>, lo: int, hi: int, base: nat, size: nat, i: nat)
    requires Tiled(s, lo, hi) && i < |s| && s[i].FreeHas(base) && s[i].End() < base + size
    ensures !IsFree(s, s[i].End()) || EmptyItemInside(s, base, size)
  {
    var x := s[i].End();
    FreeOrTaken(s, lo, hi, x);
    if i + 1 < |s| {
      assert s[i + 1].base == x;
      if s[i + 1].size > 0 { assert s[i + 1].Holds(x); }
    }
  }

  /** An anonymous request is granted exactly when some free region is large enough. It then ends where the first
      such region does; else the pool is in use. */
  lemma AnonymousGrantedIff(s: seq<Cell>, size: nat)
    ensures CodeOf(s, ANONYMOUS, size) == Ok <==> exists i | 0 <= i < |s| :: s[i].Gap() >= size
    ensures CodeOf(s, ANONYMOUS, size) != Ok ==> CodeOf(s, ANONYMOUS, size) == InUse
    ensures CodeOf(s, ANONYMOUS, size) == Ok ==>
      exists k | 0 <= k < |s| ::
        && s[k].Gap() >= size && (forall j | 0 <= j < k :: s[j].Gap() < size)
        && Granted(s, ANONYMOUS, size) + size == s[k].base + s[k].total
  {
    var i := Victim(s, ANONYMOUS, size);
    if i < |s| {
      assert Offers(s[i], ANONYMOUS, size) && s[i].Gap() >= size;
      assert forall j | 0 <= j < i :: !Offers(s[j], ANONYMOUS, size);
    } else {
      forall j | 0 <= j < |s|
        ensures s[j].Gap() < size
      {
        assert !Offers(s[j], ANONYMOUS, size);
      }
    }
  }

  // ---------------------------------------------------------------- runs

  datatype Op = Take(base: nat, size: nat) | Give(item: nat)

  /** The pool after a request, granted or not, or after the `item`-th range of the list is given back. */
  function Step(s: seq<Cell>, op: Op): seq<Cell> {
    match op
    case Take(base, size) =>
      if CodeOf(s, base, size) != Ok then s
      else
        var i, at := Victim(s, base, size), Granted(s, base, size);
        if s[i].base <= at then Split(s, i, at, size) else s
    case Give(k) => if 1 <= k < |s| then Merge(s, k) else s
  }

  function Run(s: seq<Cell>, ops: seq<Op>): seq<Cell> {
    if ops == [] then s
    else
      var n := |ops| - 1;
      Step(Run(s, ops[..n]), ops[n])
  }

  lemma SplitTiled(s: seq<Cell>, lo: int, hi: int, i: nat, at: nat, size: nat)
    requires Tiled(s, lo, hi) && i < |s| && s[i].base + s[i].size <= at && at + size <= s[i].End()
    ensures Tiled(Split(s, i, at, size), lo, hi)
  {
    var t := Split(s, i, at, size);
    assert forall j | 0 <= j < i :: t[j] == s[j];
    assert forall j | i + 2 <= j < |t| :: t[j] == s[j - 1];
    assert s[i].Sound();
    forall j | 0 <= j < |t|
      ensures t[j].Sound()
    {
      if j < i { assert s[j].Sound(); } else if j > i + 1 { assert s[j - 1].Sound(); }
    }
  }

  lemma MergeTiled(s: seq<Cell>, lo: int, hi: int, k: nat)
    requires Tiled(s, lo, hi) && 1 <= k < |s|
    ensures Tiled(Merge(s, k), lo, hi)
  {
    var t := Merge(s, k);
    assert forall j | 0 <= j < k - 1 :: t[j] == s[j];
    assert forall j | k <= j < |t| :: t[j] == s[j + 1];
    assert s[k - 1].Sound() && s[k].Sound();
    forall j | 0 <= j < |t|
      ensures t[j].Sound()
    {
      if j < k - 1 { assert s[j].Sound(); } else if j >= k { assert s[j + 1].Sound(); }
    }
  }

  /** A granted request lies in the free region of the item it is carved from. */
  lemma GrantedInside(s: seq<Cell>, base: nat, size: nat)
    requires AllSound(s) && CodeOf(s, base, size) == Ok
    ensures var i, at := Victim(s, base, size), Granted(s, base, size);
      s[i].base + s[i].size <= at && at + size <= s[i].End()
  {
    assert s[Victim(s, base, size)].Sound();
  }

  lemma StepTiled(s: seq<Cell>, lo: int, hi: int, op: Op)
    requires Tiled(s, lo, hi)
    ensures Tiled(Step(s, op), lo, hi)
  {
    hide Tiled, Split, Merge, Victim;
    match op
    case Take(base, size) =>
      if CodeOf(s, base, size) == Ok {
        TiledIsSound(s, lo, hi);
        GrantedInside(s, base, size);
        SplitTiled(s, lo, hi, Victim(s, base, size), Granted(s, base, size), size);
      }
    case Give(k) =>
      if 1 <= k < |s| { MergeTiled(s, lo, hi, k); }
  }

  lemma TiledIsSound(s: seq<Cell>, lo: int, hi: int)
    requires Tiled(s, lo, hi)
    ensures AllSound(s)
  {}

  /** Every run from a new pool keeps the items a tiling of the pool. */
  lemma {:induction false} RunTiled(lo: nat, size: nat, ops: seq<Op>)
    ensures Tiled(Run([Cell(lo, 0, size)], ops), lo, lo + size)
  {
    if ops != [] {
      var n := |ops| - 1;
      RunTiled(lo, size, ops[..n]);
      StepTiled(Run([Cell(lo, 0, size)], ops[..n]), lo, lo + size, ops[n]);
    }
  }

  // ---------------------------------------------------------------- what one step changes

  /** A granted request takes exactly its own values out of the free ones. */
  lemma TakeTakesExactly(s: seq<Cell>, lo: int, hi: int, base: nat, size: nat, x: int)
    requires Tiled(s, lo, hi) && CodeOf(s, base, size) == Ok
    ensures var at, t := Granted(s, base, size), Step(s, Take(base, size));
      && (IsFree(t, x) <==> IsFree(s, x) && !(at <= x < at + size))
      && (at <= x < at + size ==> IsFree(s, x))
  {
    hide Tiled, Victim;
    TiledIsSound(s, lo, hi);
    GrantedInside(s, base, size);
    var i, at := Victim(s, base, size), Granted(s, base, size);
    var t := Split(s, i, at, size);
    if at <= x < at + size {
      SplitTiled(s, lo, hi, i, at, size);
      FreeOrTaken(t, lo, hi, x);
      assert t[i + 1].Holds(x) && s[i].FreeHas(x);
    } else {
      SplitKeepsFree(s, i, at, size, x);
    }
  }

  lemma SplitKeepsFree(s: seq<Cell>, i: nat, at: nat, size: nat, x: int)
    requires i < |s| && s[i].base + s[i].size <= at && at + size <= s[i].End() && !(at <= x < at + size)
    ensures IsFree(Split(s, i, at, size), x) <==> IsFree(s, x)
  {
    var t := Split(s, i, at, size);
    if j :| 0 <= j < |t| && t[j].FreeHas(x) {
      var k := if j <= i then j else j - 1;
      assert s[k].FreeHas(x);
    }
    if j :| 0 <= j < |s| && s[j].FreeHas(x) {
      var k := if j < i || (j == i && x < at) then j else j + 1;
      assert t[k].FreeHas(x);
    }
  }

  /** Giving a range back frees exactly its own values. */
  lemma GiveGivesExactly(s: seq<Cell>, lo: int, hi: int, k: nat, x: int)
    requires Tiled(s, lo, hi) && 1 <= k < |s|
    ensures IsFree(Step(s, Give(k)), x) <==> IsFree(s, x) || s[k].Holds(x)
  {
    var t := Merge(s, k);
    assert s[k - 1].End() == s[k].base && s[k - 1].Sound() && s[k].Sound();
    if j :| 0 <= j < |t| && t[j].FreeHas(x) {
      if j == k - 1 {
        assert s[k - 1].FreeHas(x) || s[k].Holds(x) || s[k].FreeHas(x);
      } else {
        assert s[if j < k then j else j + 1].FreeHas(x);
      }
    }
    if j :| 0 <= j < |s| && s[j].FreeHas(x) {
      assert t[if j < k then j else j - 1].FreeHas(x);
    }
    if s[k].Holds(x) { assert t[k - 1].FreeHas(x); }
  }

  /** Giving back the range just granted restores the list as it was. */
  lemma GiveUndoesTake(s: seq<Cell>, base: nat, size: nat)
    requires AllSound(s) && CodeOf(s, base, size) == Ok
    ensures Step(Step(s, Take(base, size)), Give(Victim(s, base, size) + 1)) == s
  {
    hide Victim;
    GrantedInside(s, base, size);
    MergeUndoesSplit(s, Victim(s, base, size), Granted(s, base, size), size);
  }

  lemma MergeUndoesSplit(s: seq<Cell>, i: nat, at: nat, size: nat)
    requires i < |s| && s[i].base <= at <= s[i].End()
    ensures Merge(Split(s, i, at, size), i + 1) == s
  {
    var t := Split(s, i, at, size);
    assert t[..i] == s[..i] && t[i + 2..] == s[i + 1..];
    assert s == s[..i] + [s[i]] + s[i + 1..];
  }

  /** The ranges held, in the order of the list. */
  function Held(s: seq<Cell>): seq<(nat, nat)> {
    if |s| <= 1 then [] else Held(s[..|s| - 1]) + [(s[|s| - 1].base, s[|s| - 1].size)]
  }

  lemma {:induction false} HeldAt(s: seq<Cell>)
    requires s != []
    ensures |Held(s)| == |s| - 1 && forall j | 0 <= j < |s| - 1 :: Held(s)[j] == (s[j + 1].base, s[j + 1].size)
  {
    if |s| > 1 { HeldAt(s[..|s| - 1]); }
  }

  /** A granted request adds its range to those held, and moves no other. */
  lemma TakeKeepsOthers(s: seq<Cell>, base: nat, size: nat)
    requires s != [] && AllSound(s) && CodeOf(s, base, size) == Ok
    ensures var i, t := Victim(s, base, size), Step(s, Take(base, size));
      i <= |Held(s)| && Held(t) == Held(s)[..i] + [(Granted(s, base, size), size)] + Held(s)[i..]
  {
    hide Held, Victim;
    HeldAt(s);
    HeldAt(Step(s, Take(base, size)));
    GrantedInside(s, base, size);
  }

  lemma MergedAt(s: seq<Cell>, k: nat, j: nat)
    requires 1 <= k < |s| && j < |s| - 1
    ensures |Merge(s, k)| == |s| - 1
    ensures var x, y := Merge(s, k)[j], s[if j < k then j else j + 1]; x.base == y.base && x.size == y.size
  {}

  /** Giving back removes the item's range from those held, and moves no other. */
  lemma GiveKeepsOthers(s: seq<Cell>, k: nat)
    requires 1 <= k < |s|
    ensures k <= |Held(s)| && Held(Step(s, Give(k))) == Held(s)[..k - 1] + Held(s)[k..]
  {
    hide Held, Merge;
    MergedHeld(s, k);
  }

  lemma MergedHeld(s: seq<Cell>, k: nat)
    requires 1 <= k < |s|
    ensures k <= |Held(s)| && Held(Merge(s, k)) == Held(s)[..k - 1] + Held(s)[k..]
  {
    hide Held, Merge;
    var t, h := Merge(s, k), Held(s);
    MergedAt(s, k, 0);
    HeldOne(s, k - 1);
    var rest := h[..k - 1] + h[k..];
    if |t| == 1 { HeldNone(t); } else { HeldOne(t, 0); }
    assert |Held(t)| == |rest|;
    forall j | 0 <= j < |rest|
      ensures Held(t)[j] == rest[j]
    {
      MergedAt(s, k, j + 1);
      HeldOne(t, j);
      var i := if j < k - 1 then j else j + 1;
      HeldOne(s, i);
      OneSkipped(h, k - 1, j);
    }
  }

  lemma OneSkipped(h: seq<(nat, nat)>, k: nat, j: nat)
    requires k < |h| && j < |h| - 1
    ensures (h[..k] + h[k + 1..])[j] == h[if j < k then j else j + 1]
  {}

  lemma HeldNone(s: seq<Cell>)
    requires |s| == 1
    ensures Held(s) == []
  {}

  lemma HeldOne(s: seq<Cell>, j: nat)
    requires j + 1 < |s|
    ensures |Held(s)| == |s| - 1 && Held(s)[j] == (s[j + 1].base, s[j + 1].size)
  {
    HeldAt(s);
  }

  /** When everything has been given back the pool is as new, whatever the order. */
  lemma AllGivenBack(lo: nat, size: nat, ops: seq<Op>)
    requires Held(Run([Cell(lo, 0, size)], ops)) == []
    ensures Run([Cell(lo, 0, size)], ops) == [Cell(lo, 0, size)]
  {
    var s := Run([Cell(lo, 0, size)], ops);
    RunTiled(lo, size, ops);
    HeldAt(s);
  }

  function TakenSum(s: seq<Cell>): int {
    if s == [] then 0 else TakenSum(s[..|s| - 1]) + s[|s| - 1].size
  }

  function FreeSum(s: seq<Cell>): int {
    if s == [] then 0 else FreeSum(s[..|s| - 1]) + s[|s| - 1].Gap()
  }

  /** Allocated and free sizes add up to the pool. */
  lemma {:induction false} SpaceConserved(s: seq<Cell>, lo: int, hi: int)
    requires Tiled(s, lo, hi)
    ensures TakenSum(s) + FreeSum(s) == hi - lo
  {
    var n := |s| - 1;
    if n > 0 {
      assert s[n - 1].End() == s[n].base;
      SpaceConserved(s[..n], lo, s[n].base);
    } else {
      assert s[..0] == [];
    }
  }
}
