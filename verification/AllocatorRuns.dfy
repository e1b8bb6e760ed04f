/**
 What the physical allocator guarantees: exactness of `alloc`, exactly when
 `mark` clears a range, and safety of whole runs of marks and allocations.
 */
module AllocatorRuns {
  import opened Align
  import opened PhysAllocator

  // ---------------------------------------------------------------- one alloc

  /** A block of `size` bytes at `x` inside `r` with the offset of `virt`. */
  ghost predicate Roomy(r: Region, x: int, size: int, alignment: nat, virt: int)
    requires alignment > 0
  {
    r.start <= x && x + size - 1 <= r.end && Rem(x, alignment) == Rem(virt, alignment)
  }

  lemma CandidateIsLeast(r: Region, alignment: nat, virt: int, x: int)
    requires alignment > 0
    ensures var c := Candidate(r, alignment, virt);
      && r.start <= c < r.start + alignment && Rem(c, alignment) == Rem(virt, alignment)
      && c - Down(c, alignment) == Rem(virt, alignment)
      && (r.start <= x && Rem(x, alignment) == Rem(virt, alignment) ==> c <= x)
  {
    hide Down;
    var d, o := Down(r.start, alignment), Rem(virt, alignment);
    var c := Candidate(r, alignment, virt);
    var m := c - o;
    MultipleSum(d, alignment, alignment);
    assert Multiple(m, alignment);
    LessRemainder(virt, alignment);
    MultipleSum(m, virt - o, alignment);
    assert c - virt == m - (virt - o);
    SameRemainder(c, virt, alignment);
    MultipleGap(m, Down(c, alignment), alignment);
    MultipleGap(Down(c, alignment), m, alignment);
    if r.start <= x < c && Rem(x, alignment) == o {
      SameRemainder(c, x, alignment);
      MultipleGap(0, c - x, alignment);
    }
  }

  /** `alloc` fails exactly when the alignment is not whole pages or no entry has room, and then leaves the list
      alone. Else it returns the least address of the first entry that has. */
  lemma AllocIsFirstFit(fl: seq<Region>, size: int, alignment: nat, virt: int, a: nat)
    requires a > 0
    ensures AfterAlloc(fl, size, alignment, virt, a).0.Raised? <==>
      alignment < a || !Multiple(alignment, a) ||
      forall i, x | 0 <= i < |fl| :: !Roomy(fl[i], x, size, alignment, virt)
    ensures AfterAlloc(fl, size, alignment, virt, a).0.Raised? ==> AfterAlloc(fl, size, alignment, virt, a).1 == fl
    ensures AfterAlloc(fl, size, alignment, virt, a).0.Ok? ==>
      var k, addr := FirstFit(fl, size, alignment, virt), AfterAlloc(fl, size, alignment, virt, a).0.addr;
      && k < |fl| && Roomy(fl[k], addr, size, alignment, virt)
      && (forall x | Roomy(fl[k], x, size, alignment, virt) :: addr <= x)
      && (forall i, x | 0 <= i < k :: !Roomy(fl[i], x, size, alignment, virt))
  {
    hide Candidate;
    if alignment < a || !Multiple(alignment, a) { return; }
    var k := FirstFit(fl, size, alignment, virt);
    forall i, x | 0 <= i < |fl| && Roomy(fl[i], x, size, alignment, virt)
      ensures Candidate(fl[i], alignment, virt) <= x && Fits(fl[i], size, alignment, virt)
    {
      CandidateIsLeast(fl[i], alignment, virt, x);
    }
    if k < |fl| {
      CandidateIsLeast(fl[k], alignment, virt, 0);
      assert Roomy(fl[k], Candidate(fl[k], alignment, virt), size, alignment, virt);
    }
  }

  /** Membership in a list with one entry replaced. */
  lemma CoversAfterSplice(fl: seq<Region>, k: nat, p: seq<Region>, b: int)
    requires k < |fl|
    ensures Covers(Splice(fl, k, p), b) <==> Covers(p, b) || exists i :: 0 <= i < |fl| && i != k && Holds(fl[i], b)
  {
    var s := Splice(fl, k, p);
    if Covers(s, b) {
      var i :| 0 <= i < |s| && Holds(s[i], b);
      if k <= i < k + |p| { assert s[i] == p[i - k]; }
      else if i >= k + |p| { assert s[i] == fl[i - |p| + 1]; }
    }
    if Covers(p, b) {
      var i :| 0 <= i < |p| && Holds(p[i], b);
      assert s[k + i] == p[i];
    }
    if i :| 0 <= i < |fl| && i != k && Holds(fl[i], b) {
      if i < k { assert s[i] == fl[i]; } else { assert s[i + |p| - 1] == fl[i]; }
    }
  }

  lemma OneHolder(fl: seq<Region>, k: nat, b: int)
    requires k < |fl| && Separate(fl)
    ensures Holds(fl[k], b) ==> forall i | 0 <= i < |fl| && i != k :: !Holds(fl[i], b)
    ensures Covers(fl, b) <==> Holds(fl[k], b) || exists i :: 0 <= i < |fl| && i != k && Holds(fl[i], b)
  {
    forall i | 0 <= i < |fl| && i != k && Holds(fl[k], b)
      ensures !Holds(fl[i], b)
    {
      assert i < k || k < i;
    }
  }

  /** The bytes `alloc` takes: the block but for its last byte, and a lead gap shorter than the alignment. */
  lemma AllocTakes(fl: seq<Region>, size: int, alignment: nat, virt: int, a: nat, b: int)
    requires a > 0 && size > 0 && alignment >= a && Multiple(alignment, a) && Separate(fl)
    requires AfterAlloc(fl, size, alignment, virt, a).0.Ok?
    ensures var k, (r, fl') := FirstFit(fl, size, alignment, virt), AfterAlloc(fl, size, alignment, virt, a);
      && Covers(fl', b) == (Covers(fl, b) && !(Holds(fl[k], b) && Down(r.addr, alignment) <= b < r.addr + size - 1))
      && r.addr - Down(r.addr, alignment) == Rem(virt, alignment)
      && Covers(fl', r.addr + size - 1)
  {
    var k := FirstFit(fl, size, alignment, virt);
    var c := Candidate(fl[k], alignment, virt);
    var p := AllocPieces(fl[k], size, alignment, virt);
    CandidateIsLeast(fl[k], alignment, virt, 0);
    CoversAfterSplice(fl, k, p, b);
    CoversAfterSplice(fl, k, p, c + size - 1);
    var last := p[|p| - 1];
    assert last == Region(c + size - 1, fl[k].end);
    assert Covers(p, b) <==> (Holds(fl[k], b) && (b < Down(c, alignment) || b >= c + size - 1)) by {
      if Holds(fl[k], b) && b < Down(c, alignment) { assert Holds(p[0], b); }
      if Holds(last, b) { }
    }
    assert Holds(last, c + size - 1);
    OneHolder(fl, k, b);
  }

  // ---------------------------------------------------------------- one mark

  lemma {:induction false} HolderOfCovered(fl: seq<Region>, b: int)
    ensures Covers(fl, b) <==> Holder(fl, b) < |fl|
  {
    var k := Holder(fl, b);
    assert k < |fl| ==> Holds(fl[k], b);
  }

  /** A mark that starts in a free entry of whole pages removes exactly the pages it covers. */
  lemma MarkTakes(fl: seq<Region>, base: int, end: int, a: nat, b: int)
    requires a >= 2 && Down(base, a) <= Up(end, a) && Separate(fl)
    requires Covers(fl, Down(base, a)) && AfterMark(fl, base, end, a).0.Ok?
    requires var k := Holder(fl, Down(base, a)); k < |fl| ==> Multiple(fl[k].start, a) && Multiple(fl[k].end + 1, a)
    ensures Covers(AfterMark(fl, base, end, a).1, b) == (Covers(fl, b) && !(Down(base, a) <= b < Up(end, a)))
  {
    hide Up, Down, Splice, Holder, MarkPieces, Separate, Rem;
    var lo, hi := Down(base, a), Up(end, a);
    HolderOfCovered(fl, lo);
    var k := Holder(fl, lo);
    CoversAfterSplice(fl, k, MarkPieces(fl[k], lo, hi, a), b);
    PiecesCover(fl[k], lo, hi, a, b);
    OneHolder(fl, k, b);
  }

  lemma PiecesCover(r: Region, lo: int, hi: int, a: nat, b: int)
    requires a >= 2 && Multiple(r.start, a) && Multiple(r.end + 1, a) && Holds(r, lo) && lo <= hi && hi - 1 <= r.end
    ensures Covers(MarkPieces(r, lo, hi, a), b) <==> Holds(r, b) && (b < lo || hi <= b)
  {
    hide Up, Down, Rem;
    PagedEnds(r, a);
    var p := MarkPieces(r, lo, hi, a);
    if Holds(r, b) && b < lo { assert Holds(p[0], b); }
    if Holds(r, b) && b >= hi { assert Holds(p[|p| - 1], b); }
  }

  lemma PagedEnds(r: Region, a: nat)
    requires a >= 2 && Multiple(r.start, a) && Multiple(r.end + 1, a)
    ensures Down(r.start, a) == r.start && Up(r.end, a) == r.end + 1
  {
    MultipleGap(Up(r.end, a), r.end + 1, a);
    MultipleGap(r.end + 1, Up(r.end, a), a);
  }

  /**
   The same for any free list, byte by byte. A mark returns the page border at
   or below its base. When an entry holds that border, the entry is first
   widened to whole pages at both ends, which can make used bytes free, and
   then loses the pages of the range; every other entry stays.
   */
  lemma MarkLeaves(fl: seq<Region>, base: int, end: int, a: nat, b: int)
    requires a > 0
    ensures var (r, fl') := AfterMark(fl, base, end, a);
      var lo, hi := Down(base, a), Up(end, a);
      && (r.Ok? ==> r.addr <= base < r.addr + a && Multiple(r.addr, a))
      && (r.Raised? || !Covers(fl, lo) ==> fl' == fl)
      && (r.Ok? && Covers(fl, lo) && lo <= hi ==>
            exists k | 0 <= k < |fl| ::
              && Holds(fl[k], lo) && (forall i | 0 <= i < k :: !Holds(fl[i], lo))
              && (Covers(fl', b) <==>
                    || (exists i :: 0 <= i < |fl| && i != k && Holds(fl[i], b))
                    || (Down(fl[k].start, a) <= b < Up(fl[k].end, a) && !(lo <= b < hi))))
  {
    hide Up, Down, Splice, Holder, MarkPieces, Rem, Multiple;
    var lo, hi := Down(base, a), Up(end, a);
    HolderOfCovered(fl, lo);
    var k := Holder(fl, lo);
    if k < |fl| {
      CoversAfterSplice(fl, k, MarkPieces(fl[k], lo, hi, a), b);
      if lo <= hi { AnyPiecesCover(fl[k], lo, hi, a, b); }
    }
  }

  lemma AnyPiecesCover(r: Region, lo: int, hi: int, a: nat, b: int)
    requires a > 0 && Holds(r, lo) && lo <= hi
    ensures Covers(MarkPieces(r, lo, hi, a), b) <==> Down(r.start, a) <= b < Up(r.end, a) && !(lo <= b < hi)
  {
    hide Up, Down, Rem;
    var p := MarkPieces(r, lo, hi, a);
    if Down(r.start, a) <= b < lo && b < Up(r.end, a) { assert Holds(p[0], b); }
    if hi <= b < Up(r.end, a) { assert Holds(p[|p| - 1], b); }
  }

  /** A mark raises exactly when it starts in free memory and no single entry holds its whole range. */
  lemma MarkRaisesIff(fl: seq<Region>, base: int, end: int, a: nat)
    requires Separate(fl)
    ensures var lo, hi := Down(base, a), Up(end, a);
      AfterMark(fl, base, end, a).0.Raised? <==>
        Covers(fl, lo) && forall i | 0 <= i < |fl| :: !(Holds(fl[i], lo) && hi - 1 <= fl[i].end)
  {
    var lo := Down(base, a);
    HolderOfCovered(fl, lo);
    var k := Holder(fl, lo);
    if k < |fl| { OneHolder(fl, k, lo); }
  }

  /**
   The documentation promises an exception if the range crosses a border of
   free memory: a range with a free byte `x` and a used byte `y` raises if and
   only if it starts in free memory.
   */
  lemma CrossingRaisesIff(fl: seq<Region>, base: int, end: int, a: nat, x: int, y: int)
    requires Down(base, a) <= x < Up(end, a) && Down(base, a) <= y < Up(end, a)
    requires Covers(fl, x) && !Covers(fl, y)
    ensures AfterMark(fl, base, end, a).0.Raised? <==> Covers(fl, Down(base, a))
  {
    hide Up, Down;
    var lo := Down(base, a);
    HolderOfCovered(fl, lo);
    var k := Holder(fl, lo);
    assert k < |fl| ==> !Holds(fl[k], y);
  }

  /** The other way round the promise is too small: a range that is free throughout raises when it spans two entries. */
  lemma AdjacentEntriesRaise()
    ensures AfterMark([Region(0, 3), Region(4, 7)], 0, 8, 4).0.Raised?
    ensures forall b | 0 <= b < 8 :: Covers([Region(0, 3), Region(4, 7)], b)
  {
    var fl := [Region(0, 3), Region(4, 7)];
    assert fl[0] == Region(0, 3) && fl[1] == Region(4, 7);
    forall b | 0 <= b < 8
      ensures Covers(fl, b)
    {
      assert Holds(fl[0], b) || Holds(fl[1], b);
    }
  }

  /** A mark that returns has cleared its range if and only if the range starts in free memory or meets none. */
  lemma MarkClearsIff(fl: seq<Region>, base: int, end: int, a: nat)
    requires a >= 2 && Down(base, a) <= Up(end, a) && Paged(fl, a) && Separate(fl)
    requires AfterMark(fl, base, end, a).0.Ok?
    ensures var lo, hi, fl' := Down(base, a), Up(end, a), AfterMark(fl, base, end, a).1;
      (forall b | lo <= b < hi :: !Covers(fl', b)) <==> Covers(fl, lo) || forall b | lo <= b < hi :: !Covers(fl, b)
  {
    HolderOfCovered(fl, Down(base, a));
    if Covers(fl, Down(base, a)) {
      assert fl[Holder(fl, Down(base, a))] in fl;
      forall b | Down(base, a) <= b < Up(end, a)
        ensures !Covers(AfterMark(fl, base, end, a).1, b)
      {
        MarkTakes(fl, base, end, a, b);
      }
    }
  }

  lemma MarkFromBelowIsSilent()
    ensures AfterMark([Region(4, 7)], 0, 8, 4) == (Ok(0), [Region(4, 7)])
    ensures Covers(AfterMark([Region(4, 7)], 0, 8, 4).1, 4)
  {
    assert Holds([Region(4, 7)][0], 4);
  }

  // ---------------------------------------------------------------- round_pages

  /** An entry that is already whole pages is dropped all the same when it is a single page. */
  lemma SinglePageIsDropped(r: Region, a: nat)
    requires a >= 2 && Paged([r], a)
    ensures Rounded(r, a) == if r.end - r.start + 1 > a then [r] else []
  {
    hide Up;
    assert r in [r];
    MultipleSum(r.end + 1, r.start, a);
    MultipleGap(0, r.end + 1 - r.start, a);
  }

  // ---------------------------------------------------------------- whole runs

  datatype Op = MarkOp(base: int, end: int) | AllocOp(size: int, alignment: nat, virt: int)

  /** The free list together with the blocks handed out and the ranges marked so far. */
  datatype Pool = Pool(free: seq<Region>, blocks: seq<Region>, marks: seq<Region>)

  function Step(p: Pool, op: Op, a: nat): Pool
    requires a > 0
  {
    match op
    case MarkOp(base, end) =>
      var (r, fl) := AfterMark(p.free, base, end, a);
      if r.Raised? then p else Pool(fl, p.blocks, p.marks + [Region(Down(base, a), Up(end, a) - 1)])
    case AllocOp(size, alignment, virt) =>
      var (r, fl) := AfterAlloc(p.free, size, alignment, virt, a);
      if r.Raised? then p else Pool(fl, p.blocks + [Region(r.addr, r.addr + size - 1)], p.marks)
  }

  function Run(p: Pool, ops: seq<Op>, a: nat): Pool
    requires a > 0
    decreases |ops|
  {
    if ops == [] then p else Run(Step(p, ops[0], a), ops[1..], a)
  }

  /**
   A mark that takes something out must start in an entry that begins on a page
   border, not on the last byte of a block; one that finds nothing at its start
   must meet neither free memory nor a block. The last byte of a block must not
   be the first of a page.
   */
  ghost predicate Allowed(p: Pool, op: Op, a: nat)
    requires a > 0
  {
    match op
    case MarkOp(base, end) =>
      var lo, hi, k := Down(base, a), Up(end, a), Holder(p.free, Down(base, a));
      && lo <= hi
      && if k < |p.free| then hi - 1 > p.free[k].end || Multiple(p.free[k].start, a)
         else forall b | lo <= b < hi :: !Covers(p.free, b) && !Covers(p.blocks, b)
    case AllocOp(size, alignment, virt) =>
      size > 0 && Multiple(virt, a) &&
      (AfterAlloc(p.free, size, alignment, virt, a).0.Raised? || !Multiple(size - 1, a))
  }

  ghost predicate Disciplined(p: Pool, ops: seq<Op>, a: nat)
    requires a > 0
    decreases |ops|
  {
    ops == [] || (Allowed(p, ops[0], a) && Disciplined(Step(p, ops[0], a), ops[1..], a))
  }

  /** Byte `b` lies on a page that begins inside the entry; a block's leftover last byte does not. */
  predicate InPages(r: Region, b: int, a: nat) {
    Up(r.start, a) <= b <= r.end
  }

  /** Entries end on a page border. */
  predicate Tidy(fl: seq<Region>, a: nat)
    requires a > 0
  {
    forall r | r in fl :: r.start >= 0 && Multiple(r.end + 1, a)
  }

  ghost predicate Safe(p: Pool, orig: seq<Region>) {
    && Separate(p.blocks)
    && forall b | Covers(p.blocks, b) :: Covers(orig, b) && !Covers(p.marks, b)
  }

  /** Free pages hold no block and no mark. */
  ghost predicate Clean(p: Pool, orig: seq<Region>, a: nat) {
    forall r, b | r in p.free && InPages(r, b, a) ::
      Covers(orig, b) && !Covers(p.blocks, b) && !Covers(p.marks, b)
  }

  /** An entry that does not begin on a page border begins on the last byte of a block. */
  ghost predicate Leftover(p: Pool, a: nat) {
    forall r | r in p.free && !Multiple(r.start, a) :: Covers(p.blocks, r.start)
  }

  ghost predicate Inv(p: Pool, orig: seq<Region>, a: nat)
    requires a > 0
  {
    Tidy(p.free, a) && Separate(p.free) && Leftover(p, a) && Clean(p, orig, a) && Safe(p, orig)
  }

  /** Replacing an entry by separate parts of it keeps the list separate. */
  lemma SpliceSeparate(fl: seq<Region>, k: nat, p: seq<Region>)
    requires k < |fl| && Separate(fl) && Separate(p)
    requires forall r, b | r in p && Holds(r, b) :: Holds(fl[k], b)
    ensures Separate(Splice(fl, k, p))
  {
    var s := Splice(fl, k, p);
    forall i, j, b | 0 <= i < j < |s|
      ensures !(Holds(s[i], b) && Holds(s[j], b))
    {
      var i', j' := Origin(fl, k, p, i), Origin(fl, k, p, j);
      if i' == j' {
        assert s[i] == p[i - k] && s[j] == p[j - k];
      } else {
        assert i' < j';
        assert !(Holds(fl[i'], b) && Holds(fl[j'], b));
      }
    }
  }

  /** The entry of the old list that an entry of the spliced list comes from. */
  function Origin(fl: seq<Region>, k: nat, p: seq<Region>, i: nat): (o: nat)
    requires k < |fl| && i < |Splice(fl, k, p)|
    ensures o < |fl|
    ensures o != k ==> Splice(fl, k, p)[i] == fl[o]
    ensures o == k ==> Splice(fl, k, p)[i] in p
    ensures o == k <==> k <= i < k + |p|
    ensures o < k <==> i < k
  {
    if i < k then i
    else if i < k + |p| then
      assert Splice(fl, k, p)[i] == p[i - k];
      k
    else i - |p| + 1
  }

  lemma InSplice(fl: seq<Region>, k: nat, p: seq<Region>, r: Region)
    requires k < |fl| && r in Splice(fl, k, p)
    ensures r in fl || r in p
  {}

  /** The parts of a whole-page entry that a mark leaves are tidy, separate and parts of it, outside the mark. */
  lemma MarkPiecesTidy(r: Region, lo: int, hi: int, a: nat)
    requires a >= 2 && r.start >= 0 && Multiple(r.start, a) && Multiple(r.end + 1, a)
    requires Multiple(lo, a) && Multiple(hi, a) && lo <= hi && Holds(r, lo) && hi - 1 <= r.end
    ensures var p := MarkPieces(r, lo, hi, a);
      && Separate(p) && Tidy(p, a) && (forall x | x in p :: Multiple(x.start, a))
      && (forall x, b | x in p && Holds(x, b) :: Holds(r, b) && !(lo <= b < hi))
  {
    hide Up, Down, Rem;
    PagedEnds(r, a);
  }

  lemma MarkStepKeepsInv(p: Pool, op: Op, orig: seq<Region>, a: nat)
    requires a >= 2 && Inv(p, orig, a) && op.MarkOp? && Allowed(p, op, a)
    ensures Inv(Step(p, op, a), orig, a)
  {
    hide Up, Down, MarkPieces, Splice, Tidy, Separate, Leftover, Clean, Safe, Multiple;
    var MarkOp(base, end) := op;
    var lo, hi := Down(base, a), Up(end, a);
    var k := Holder(p.free, lo);
    if k == |p.free| {
      MarkNothing(p, lo, hi, orig, a);
    } else if hi - 1 <= p.free[k].end {
      MarkInside(p, k, lo, hi, orig, a);
    }
  }

  lemma MarkNothing(p: Pool, lo: int, hi: int, orig: seq<Region>, a: nat)
    requires a >= 2 && Inv(p, orig, a) && forall b | lo <= b < hi :: !Covers(p.free, b) && !Covers(p.blocks, b)
    ensures Inv(p.(marks := p.marks + [Region(lo, hi - 1)]), orig, a)
  {
    hide Up, Tidy, Separate, Leftover;
    var p' := p.(marks := p.marks + [Region(lo, hi - 1)]);
    assert Leftover(p', a) by { LeftoverKept(p, p', a); }
    forall r, b | r in p.free && InPages(r, b, a)
      ensures !Covers(p'.marks, b)
    {
      CoversAppend(p.marks, Region(lo, hi - 1), b);
      var i :| 0 <= i < |p.free| && p.free[i] == r;
      assert Holds(p.free[i], b);
    }
    forall b | Covers(p.blocks, b)
      ensures !Covers(p'.marks, b)
    {
      CoversAppend(p.marks, Region(lo, hi - 1), b);
    }
  }

  lemma LeftoverKept(p: Pool, p': Pool, a: nat)
    requires Leftover(p, a) && p'.free == p.free && p'.blocks == p.blocks
    ensures Leftover(p', a)
  {}

  lemma MarkInside(p: Pool, k: nat, lo: int, hi: int, orig: seq<Region>, a: nat)
    requires a >= 2 && Inv(p, orig, a) && k < |p.free| && Multiple(p.free[k].start, a)
    requires Multiple(lo, a) && Multiple(hi, a) && lo <= hi && Holds(p.free[k], lo) && hi - 1 <= p.free[k].end
    ensures Inv(Pool(Splice(p.free, k, MarkPieces(p.free[k], lo, hi, a)), p.blocks, p.marks + [Region(lo, hi - 1)]), orig, a)
  {
    hide Up, MarkPieces, Separate, Splice, Multiple;
    var e, pieces := p.free[k], MarkPieces(p.free[k], lo, hi, a);
    assert e in p.free;
    var mark := Region(lo, hi - 1);
    var p' := Pool(Splice(p.free, k, pieces), p.blocks, p.marks + [mark]);
    MarkPiecesTidy(e, lo, hi, a);
    SpliceSeparate(p.free, k, pieces);
    forall x | x in p'.free
      ensures x in p.free || x in pieces
    {
      InSplice(p.free, k, pieces, x);
    }
    forall x, b | x in p'.free && InPages(x, b, a)
      ensures Covers(orig, b) && !Covers(p'.blocks, b) && !Covers(p'.marks, b)
    {
      CoversAppend(p.marks, mark, b);
      var i :| 0 <= i < |p'.free| && p'.free[i] == x;
      var o := Origin(p.free, k, pieces, i);
      assert Holds(x, b);
      assert o == k ==> x in pieces && Holds(e, b);
      assert p.free[o] in p.free && InPages(p.free[o], b, a);
      OneEntry(p.free, k, o, b);
    }
    forall b | Covers(p.blocks, b)
      ensures !Covers(p'.marks, b)
    {
      CoversAppend(p.marks, mark, b);
      assert lo <= b < hi ==> InPages(e, b, a);
    }
  }

  lemma OneEntry(fl: seq<Region>, k: nat, o: nat, b: int)
    requires k < |fl| && o < |fl| && Separate(fl)
    ensures k != o && Holds(fl[k], b) ==> !Holds(fl[o], b)
  {
    if o < k {
      assert !(Holds(fl[o], b) && Holds(fl[k], b));
    } else if k < o {
      assert !(Holds(fl[k], b) && Holds(fl[o], b));
    }
  }

  /** Whole pages that have a byte between `x` and the next border have `x`, which is not on a border. */
  lemma SamePage(x: int, b: int, lo: int, hi: int, a: nat)
    requires a >= 2 && Multiple(lo, a) && lo <= b < hi && x <= b < Up(x, a)
    ensures lo <= x < hi && !Multiple(x, a)
  {
    hide Up, Rem;
    LessThanUp(x, a);
    MultipleGap(Up(x, a) - a, lo, a);
  }

  lemma LessThanUp(x: int, a: nat)
    requires a > 0
    ensures Multiple(Up(x, a) - a, a) && Up(x, a) - a < x
  {
    MultipleSum(Up(x, a), a, a);
  }

  lemma CoversAppend(s: seq<Region>, r: Region, b: int)
    ensures Covers(s + [r], b) <==> Covers(s, b) || Holds(r, b)
  {
    if Covers(s, b) {
      var i :| 0 <= i < |s| && Holds(s[i], b);
      assert (s + [r])[i] == s[i];
    }
    assert (s + [r])[|s|] == r;
  }

  /** Where a whole-page block lands: on pages of its entry, whose parts left over are tidy and separate. */
  lemma AllocOnPages(r: Region, size: int, alignment: nat, virt: int, a: nat)
    requires a >= 2 && alignment >= a && Multiple(alignment, a) && Tidy([r], a)
    requires size > 0 && !Multiple(size - 1, a) && Multiple(virt, a) && Fits(r, size, alignment, virt)
    ensures var c, p := Candidate(r, alignment, virt), AllocPieces(r, size, alignment, virt);
      && (forall b | c <= b < c + size :: InPages(r, b, a))
      && Tidy(p, a) && Separate(p)
      && (forall x, b | x in p && Holds(x, b) :: Holds(r, b))
      && (forall x, b | x in p && InPages(x, b, a) :: InPages(r, b, a) && !(c <= b < c + size))
      && (forall x | x in p && !Multiple(x.start, a) :: x.start == r.start || c <= x.start < c + size)
  {
    hide Up, Down, Candidate, Multiple;
    var c, p := Candidate(r, alignment, virt), AllocPieces(r, size, alignment, virt);
    assert r in [r];
    BlockPlace(r, alignment, virt, a);
    var tail := Region(c + size - 1, r.end);
    NotOnBorder(c, size - 1, a);
    assert p[|p| - 1] == tail;
    assert |p| == 2 ==> p[0] == Region(r.start, Down(c, alignment) - 1);
    assert forall x | x in p :: x == tail || (|p| == 2 && x == p[0]);
  }

  /** The block starts on a page border, at or after the first one in the entry. */
  lemma BlockPlace(r: Region, alignment: nat, virt: int, a: nat)
    requires a >= 2 && alignment >= a && Multiple(alignment, a) && Multiple(virt, a)
    ensures var c := Candidate(r, alignment, virt);
      && Multiple(c, a) && Multiple(Down(c, alignment), a)
      && r.start <= c && Up(r.start, a) <= c && Down(c, alignment) <= c
  {
    hide Up, Down, Candidate, Multiple, Rem;
    var c := Candidate(r, alignment, virt);
    CandidateIsLeast(r, alignment, virt, 0);
    SameRemainder(c, virt, alignment);
    MultipleTrans(c - virt, alignment, a);
    MultipleSum(c - virt, virt, a);
    MultipleGap(c, Up(r.start, a), a);
    DownIsMultiple(c, alignment);
    MultipleTrans(Down(c, alignment), alignment, a);
  }

  lemma NotOnBorder(c: int, d: int, a: nat)
    requires a > 0 && Multiple(c, a) && !Multiple(d, a)
    ensures !Multiple(c + d, a) && Up(c + d, a) > c + d
  {
    hide Up, Rem;
    if Multiple(c + d, a) { MultipleSum(c + d, c, a); }
  }

  lemma DownIsMultiple(v: int, a: nat)
    requires a > 0
    ensures Multiple(Down(v, a), a) && Down(v, a) <= v
  {}

  lemma AllocStepKeepsInv(p: Pool, op: Op, orig: seq<Region>, a: nat)
    requires a >= 2 && Inv(p, orig, a) && op.AllocOp? && Allowed(p, op, a)
    ensures Inv(Step(p, op, a), orig, a)
  {
    hide Up, Down, Candidate, AllocPieces, Inv, Splice, Holder;
    var AllocOp(size, alignment, virt) := op;
    var (r, fl) := AfterAlloc(p.free, size, alignment, virt, a);
    if r.Ok? {
      var k := FirstFit(p.free, size, alignment, virt);
      var e, c := p.free[k], Candidate(p.free[k], alignment, virt);
      assert Tidy([e], a) by { TidyAt(p, k, orig, a); }
      AllocOnPages(e, size, alignment, virt, a);
      AllocInside(p, k, AllocPieces(e, size, alignment, virt), Region(c, c + size - 1), orig, a);
    }
  }

  lemma TidyAt(p: Pool, k: nat, orig: seq<Region>, a: nat)
    requires a > 0 && Inv(p, orig, a) && k < |p.free|
    ensures Tidy([p.free[k]], a)
  {
    assert p.free[k] in p.free;
  }

  lemma AllocInside(p: Pool, k: nat, pieces: seq<Region>, block: Region, orig: seq<Region>, a: nat)
    requires a >= 2 && Inv(p, orig, a) && k < |p.free| && Tidy(pieces, a) && Separate(pieces)
    requires forall b | Holds(block, b) :: InPages(p.free[k], b, a)
    requires forall x, b | x in pieces && Holds(x, b) :: Holds(p.free[k], b)
    requires forall x, b | x in pieces && InPages(x, b, a) :: InPages(p.free[k], b, a) && !Holds(block, b)
    requires forall x | x in pieces && !Multiple(x.start, a) :: x.start == p.free[k].start || Holds(block, x.start)
    ensures Inv(Pool(Splice(p.free, k, pieces), p.blocks + [block], p.marks), orig, a)
  {
    hide Up, Separate, Splice, Multiple;
    var e := p.free[k];
    assert e in p.free;
    var p' := Pool(Splice(p.free, k, pieces), p.blocks + [block], p.marks);
    SpliceSeparate(p.free, k, pieces);
    forall x | x in p'.free
      ensures x in p.free || x in pieces
    {
      InSplice(p.free, k, pieces, x);
    }
    forall x | x in p'.free && !Multiple(x.start, a)
      ensures Covers(p'.blocks, x.start)
    {
      CoversAppend(p.blocks, block, x.start);
    }
    forall x, b | x in p'.free && InPages(x, b, a)
      ensures Covers(orig, b) && !Covers(p'.blocks, b) && !Covers(p'.marks, b)
    {
      CoversAppend(p.blocks, block, b);
      var i :| 0 <= i < |p'.free| && p'.free[i] == x;
      var o := Origin(p.free, k, pieces, i);
      assert p.free[o] in p.free && InPages(p.free[o], b, a);
      OneEntry(p.free, k, o, b);
    }
    NewBlockSafe(p, block, e, orig, a);
  }

  lemma NewBlockSafe(p: Pool, block: Region, e: Region, orig: seq<Region>, a: nat)
    requires a > 0 && Inv(p, orig, a) && e in p.free
    requires forall b | Holds(block, b) :: InPages(e, b, a)
    ensures Safe(p.(blocks := p.blocks + [block]), orig)
  {
    hide Up;
    var bs := p.blocks + [block];
    forall i, j, b | 0 <= i < j < |bs|
      ensures !(Holds(bs[i], b) && Holds(bs[j], b))
    {
      assert i < |p.blocks| && bs[i] == p.blocks[i];
      if Holds(bs[i], b) { assert Covers(p.blocks, b); }
      if j < |p.blocks| { assert bs[j] == p.blocks[j]; }
    }
    forall b | Covers(bs, b)
      ensures Covers(orig, b) && !Covers(p.marks, b)
    {
      CoversAppend(p.blocks, block, b);
    }
  }

  lemma {:induction false} RunKeepsInv(p: Pool, ops: seq<Op>, orig: seq<Region>, a: nat)
    requires a >= 2 && Inv(p, orig, a) && Disciplined(p, ops, a)
    ensures Inv(Run(p, ops, a), orig, a)
    decreases |ops|
  {
    if ops != [] {
      if ops[0].MarkOp? {
        MarkStepKeepsInv(p, ops[0], orig, a);
      } else {
        AllocStepKeepsInv(p, ops[0], orig, a);
      }
      RunKeepsInv(Step(p, ops[0], a), ops[1..], orig, a);
    }
  }

  /**
   Every run of marks and allocs, in any order: the blocks handed out share no
   byte, lie in memory that was free at the start, and miss every marked range.
   */
  lemma RunIsSafe(fl: seq<Region>, ops: seq<Op>, a: nat)
    requires a >= 2 && Paged(fl, a) && Separate(fl) && Disciplined(Pool(fl, [], []), ops, a)
    ensures Safe(Run(Pool(fl, [], []), ops, a), fl)
  {
    hide Up;
    forall r, b | r in fl && InPages(r, b, a)
      ensures Covers(fl, b)
    {
      var i :| 0 <= i < |fl| && fl[i] == r;
      assert Holds(fl[i], b);
    }
    RunKeepsInv(Pool(fl, [], []), ops, fl, a);
  }

  // ---------------------------------------------------------------- the condition is exact

  /** Ranges that are not inverted, and page-aligned requests for at least a byte. */
  ghost predicate Proper(op: Op, a: nat)
    requires a > 0
  {
    match op
    case MarkOp(base, end) => Down(base, a) <= Up(end, a)
    case AllocOp(size, alignment, virt) => size > 0 && Multiple(virt, a)
  }

  /** A whole page of the free list has a byte of a block or of a mark. */
  ghost predicate Dirty(p: Pool, r: Region, b: int, a: nat) {
    r in p.free && InPages(r, b, a) && (Covers(p.blocks, b) || Covers(p.marks, b))
  }

  ghost predicate Doomed(p: Pool, orig: seq<Region>, a: nat)
    requires a > 0
  {
    !Safe(p, orig) || (Tidy(p.free, a) && exists r, b :: Dirty(p, r, b, a))
  }

  lemma NotAllowedIsDoomed(p: Pool, op: Op, orig: seq<Region>, a: nat)
    requires a >= 2 && Inv(p, orig, a) && Proper(op, a) && !Allowed(p, op, a)
    ensures Doomed(Step(p, op, a), orig, a)
  {
    hide Up, Down, Splice, MarkPieces, AllocPieces, Separate, Tidy, Candidate, Doomed, FirstFit;
    match op
    case MarkOp(base, end) =>
      var lo, hi, k := Down(base, a), Up(end, a), Holder(p.free, Down(base, a));
      if k == |p.free| {
        var b :| lo <= b < hi && (Covers(p.free, b) || Covers(p.blocks, b));
        MarkOverlaps(p, lo, hi, orig, a, b);
      } else {
        BlockFreedAgain(p, k, lo, hi, orig, a);
      }
    case AllocOp(size, alignment, virt) =>
      var k := FirstFit(p.free, size, alignment, virt);
      EndsOnBorder(p, k, size, alignment, virt, orig, a);
  }

  lemma MarkOverlaps(p: Pool, lo: int, hi: int, orig: seq<Region>, a: nat, b: int)
    requires a >= 2 && Inv(p, orig, a) && lo <= b < hi && (Covers(p.free, b) || Covers(p.blocks, b))
    requires Multiple(lo, a) && Multiple(hi, a)
    ensures Doomed(p.(marks := p.marks + [Region(lo, hi - 1)]), orig, a)
  {
    hide Separate, Up, Tidy;
    var p' := p.(marks := p.marks + [Region(lo, hi - 1)]);
    CoversAppend(p.marks, Region(lo, hi - 1), b);
    if !Covers(p.blocks, b) {
      var i :| 0 <= i < |p.free| && Holds(p.free[i], b);
      var r := p.free[i];
      assert r in p.free;
      if InPages(r, b, a) {
        assert Dirty(p', r, b, a);
      } else {
        SamePage(r.start, b, lo, hi, a);
        CoversAppend(p.marks, Region(lo, hi - 1), r.start);
      }
    }
  }

  /** A mark in an entry that begins on a block's last byte puts that byte's page back. */
  lemma BlockFreedAgain(p: Pool, k: nat, lo: int, hi: int, orig: seq<Region>, a: nat)
    requires a >= 2 && Inv(p, orig, a) && k < |p.free| && Holds(p.free[k], lo)
    requires Multiple(lo, a) && Multiple(hi, a) && lo <= hi && !Multiple(p.free[k].start, a)
    ensures Doomed(Pool(Splice(p.free, k, MarkPieces(p.free[k], lo, hi, a)), p.blocks, p.marks + [Region(lo, hi - 1)]), orig, a)
  {
    hide Up, Down, Separate, Rem, Splice, Multiple;
    var e := p.free[k];
    assert e in p.free;
    var pieces := MarkPieces(e, lo, hi, a);
    var p' := Pool(Splice(p.free, k, pieces), p.blocks, p.marks + [Region(lo, hi - 1)]);
    var below := Region(Down(e.start, a), lo - 1);
    UnevenEnds(e, a);
    assert e.start < lo;
    assert pieces[0] == below;
    SpliceHas(p.free, k, pieces, 0);
    forall x | x in p'.free
      ensures x in p.free || x in pieces
    {
      InSplice(p.free, k, pieces, x);
    }
    assert Dirty(p', below, e.start, a);
  }

  lemma UnevenEnds(r: Region, a: nat)
    requires a >= 2 && r.start >= 0 && Multiple(r.end + 1, a) && !Multiple(r.start, a)
    ensures 0 <= Down(r.start, a) < r.start && Multiple(Down(r.start, a), a) && Up(Down(r.start, a), a) == Down(r.start, a)
    ensures Up(r.end, a) == r.end + 1
  {
    hide Rem;
    ZeroIsMultiple(a);
    MultipleGap(Down(r.start, a), 0, a);
    MultipleGap(Up(r.end, a), r.end + 1, a);
    MultipleGap(r.end + 1, Up(r.end, a), a);
  }

  lemma SpliceHas(fl: seq<Region>, k: nat, p: seq<Region>, i: nat)
    requires k < |fl| && i < |p|
    ensures p[i] in Splice(fl, k, p)
  {
    assert Splice(fl, k, p)[k + i] == p[i];
  }

  /** A block whose last byte is the first of a page leaves that page in the list. */
  lemma EndsOnBorder(p: Pool, k: nat, size: int, alignment: nat, virt: int, orig: seq<Region>, a: nat)
    requires a >= 2 && Inv(p, orig, a) && k < |p.free| && alignment >= a && Multiple(alignment, a)
    requires Fits(p.free[k], size, alignment, virt) && size > 0 && Multiple(virt, a) && Multiple(size - 1, a)
    ensures var c := Candidate(p.free[k], alignment, virt);
      Doomed(Pool(Splice(p.free, k, AllocPieces(p.free[k], size, alignment, virt)),
        p.blocks + [Region(c, c + size - 1)], p.marks), orig, a)
  {
    hide Up, Down, Separate, Rem, Splice, Candidate, Multiple;
    var e, c := p.free[k], Candidate(p.free[k], alignment, virt);
    assert e in p.free;
    var pieces := AllocPieces(e, size, alignment, virt);
    var block := Region(c, c + size - 1);
    var p' := Pool(Splice(p.free, k, pieces), p.blocks + [block], p.marks);
    BlockPlace(e, alignment, virt, a);
    MultipleSum(c, size - 1, a);
    var tail := Region(c + size - 1, e.end);
    assert pieces[|pieces| - 1] == tail;
    SpliceHas(p.free, k, pieces, |pieces| - 1);
    CoversAppend(p.blocks, block, c + size - 1);
    forall x | x in p'.free
      ensures x in p.free || x in pieces
    {
      InSplice(p.free, k, pieces, x);
    }
    assert forall x | x in pieces :: x == tail || (|pieces| == 2 && x == pieces[0]);
    assert Dirty(p', tail, c + size - 1, a);
  }

  /** At any point of a run, a step keeps the invariant if and only if it is allowed. */
  lemma StepKeepsInvIff(p: Pool, op: Op, orig: seq<Region>, a: nat)
    requires a >= 2 && Inv(p, orig, a) && Proper(op, a)
    ensures Inv(Step(p, op, a), orig, a) <==> Allowed(p, op, a)
  {
    hide Allowed, Step, Proper, Tidy, Separate, Safe;
    if Allowed(p, op, a) {
      if op.MarkOp? { MarkStepKeepsInv(p, op, orig, a); } else { AllocStepKeepsInv(p, op, orig, a); }
    } else {
      NotAllowedIsDoomed(p, op, orig, a);
    }
  }

  // ---------------------------------------------------------------- and so it is for what is handed out

  /** Page-aligned allocs of sizes that are never one more than whole pages. */
  ghost predicate Gentle(ops: seq<Op>, a: nat) {
    a > 0 && forall i | 0 <= i < |ops| ::
      ops[i].AllocOp? && ops[i].size > 0 && !Multiple(ops[i].size - 1, a) && Multiple(ops[i].virt, a)
  }

  /**
   However the run goes on with such allocs, what is handed out stays safe if
   and only if the step was allowed.
   */
  lemma StaysSafeIff(p: Pool, op: Op, orig: seq<Region>, a: nat)
    requires a >= 2 && Inv(p, orig, a) && Proper(op, a)
    ensures (forall ops | Gentle(ops, a) :: Safe(Run(Step(p, op, a), ops, a), orig)) <==> Allowed(p, op, a)
  {
    hide Allowed, Step, Proper, Tidy, Separate, Safe, Inv, Run, Gentle, Doomed;
    if Allowed(p, op, a) {
      StepKeepsInvIff(p, op, orig, a);
      forall ops | Gentle(ops, a)
        ensures Safe(Run(Step(p, op, a), ops, a), orig)
      {
        GentleIsDisciplined(Step(p, op, a), ops, a);
        RunKeepsInv(Step(p, op, a), ops, orig, a);
        InvIsSafe(Run(Step(p, op, a), ops, a), orig, a);
      }
    } else {
      NotAllowedIsDoomed(p, op, orig, a);
      var ops := DoomedFails(Step(p, op, a), orig, a);
    }
  }

  lemma InvIsSafe(p: Pool, orig: seq<Region>, a: nat)
    requires a > 0 && Inv(p, orig, a)
    ensures Safe(p, orig)
  {}

  lemma {:induction false} GentleIsDisciplined(p: Pool, ops: seq<Op>, a: nat)
    requires Gentle(ops, a)
    ensures Disciplined(p, ops, a)
    decreases |ops|
  {
    hide Step;
    if ops != [] {
      assert ops[0].AllocOp?;
      GentleIsDisciplined(Step(p, ops[0], a), ops[1..], a);
    }
  }

  lemma DoomedFails(p: Pool, orig: seq<Region>, a: nat) returns (ops: seq<Op>)
    requires a >= 2 && Doomed(p, orig, a)
    ensures Gentle(ops, a) && !Safe(Run(p, ops, a), orig)
  {
    hide Safe, Dirty, Tidy;
    if !Safe(p, orig) {
      ops := [];
    } else {
      var r, b :| Dirty(p, r, b, a);
      ops := Drain(p, r, b, orig, a);
    }
  }

  /** Bytes of the whole pages of the entries. */
  function PageSum(fl: seq<Region>, a: nat): nat {
    if fl == [] then 0
    else
      var r := fl[0];
      (if Up(r.start, a) <= r.end then r.end + 1 - Up(r.start, a) else 0) + PageSum(fl[1..], a)
  }

  lemma {:induction false} PageSumConcat(x: seq<Region>, y: seq<Region>, a: nat)
    ensures PageSum(x + y, a) == PageSum(x, a) + PageSum(y, a)
  {
    hide Up;
    if x == [] {
      assert x + y == y;
    } else {
      assert (x + y)[1..] == x[1..] + y;
      PageSumConcat(x[1..], y, a);
    }
  }

  lemma PageSumSplice(fl: seq<Region>, k: nat, p: seq<Region>, a: nat)
    requires k < |fl|
    ensures PageSum(Splice(fl, k, p), a) + PageSum([fl[k]], a) == PageSum(fl, a) + PageSum(p, a)
  {
    hide PageSum;
    PageSumConcat(fl[..k] + p, fl[k + 1..], a);
    PageSumConcat(fl[..k], p, a);
    PageSumConcat(fl[..k] + [fl[k]], fl[k + 1..], a);
    PageSumConcat(fl[..k], [fl[k]], a);
    assert fl == fl[..k] + [fl[k]] + fl[k + 1..];
  }

  function OnePage(a: nat): Op { AllocOp(a, a, 0) }

  /** What a request for one page does to the entry it is cut from. */
  lemma PageCut(e: Region, a: nat)
    requires a >= 2 && Multiple(e.end + 1, a)
    ensures Fits(e, a, a, 0) <==> Up(e.start, a) <= e.end
    ensures Candidate(e, a, 0) == Up(e.start, a)
    ensures Fits(e, a, a, 0) ==>
      var c, p := Up(e.start, a), AllocPieces(e, a, a, 0);
      && p[|p| - 1] == Region(c + a - 1, e.end) && Up(c + a - 1, a) == c + a
      && (|p| == 2 ==> p[0] == Region(e.start, c - 1))
      && PageSum(p, a) + a == PageSum([e], a)
  {
    hide Rem;
    ZeroIsMultiple(a);
    var c := Candidate(e, a, 0);
    CandidateIsLeast(e, a, 0, 0);
    SameRemainder(c, 0, a);
    MultipleGap(c, Up(e.start, a), a);
    MultipleGap(Up(e.start, a), c, a);
    MultipleGap(c, e.end + 1, a);
    ItselfIsMultiple(a);
    MultipleSum(c, a, a);
    LastByteUp(c + a, a);
    var tail := Region(c + a - 1, e.end);
    PageSums(Region(e.start, c - 1), tail, a);
    PageSums(tail, e, a);
  }

  lemma PageSums(x: Region, y: Region, a: nat)
    ensures PageSum([x], a) == if Up(x.start, a) <= x.end then x.end + 1 - Up(x.start, a) else 0
    ensures PageSum([y], a) == if Up(y.start, a) <= y.end then y.end + 1 - Up(y.start, a) else 0
    ensures PageSum([x, y], a) == PageSum([x], a) + PageSum([y], a)
  {
    assert [x, y][1..] == [y] && [x][1..] == [] && [y][1..] == [];
  }

  lemma ItselfIsMultiple(a: nat)
    requires a > 0
    ensures Multiple(a, a)
  {}

  lemma LastByteUp(x: int, a: nat)
    requires a >= 2 && Multiple(x, a)
    ensures Up(x - 1, a) == x
  {
    hide Rem;
    MultipleGap(x, Up(x - 1, a), a);
    MultipleGap(Up(x - 1, a), x, a);
    if Up(x - 1, a) == x - 1 {
      MultipleGap(x - 1, x, a);
    }
  }

  /** Handing out single pages reaches the dirty one in the end. */
  lemma {:induction false} Drain(p: Pool, r: Region, b: int, orig: seq<Region>, a: nat) returns (ops: seq<Op>)
    requires a >= 2 && Tidy(p.free, a) && Dirty(p, r, b, a)
    ensures Gentle(ops, a) && !Safe(Run(p, ops, a), orig)
    decreases PageSum(p.free, a)
  {
    hide Up, Candidate, AllocPieces, PageSum, Safe, Rem, Splice, Multiple;
    var op := OnePage(a);
    var p' := Step(p, op, a);
    var k := PageGoes(p, r, a);
    var e := p.free[k];
    var c, pieces := Up(e.start, a), AllocPieces(e, a, a, 0);
    PageCut(e, a);
    PageSumSplice(p.free, k, pieces, a);
    OneByteLess(a);
    if c <= b < c + a {
      MetAgain(p, Region(c, c + a - 1), b, orig);
      ops := [op];
      assert ops[1..] == [];
    } else {
      var r' := StillThere(p, k, r, b, a);
      CoversAppend(p.blocks, Region(c, c + a - 1), b);
      TidyAfterPage(p, k, a);
      var more := Drain(p', r', b, orig, a);
      ops := [op] + more;
      assert ops[1..] == more;
    }
  }

  lemma OneByteLess(a: nat)
    requires a >= 2
    ensures !Multiple(a - 1, a) && Multiple(0, a) && Multiple(a, a)
  {}

  /** A request for one page is granted while some entry has one. */
  lemma PageGoes(p: Pool, r: Region, a: nat) returns (k: nat)
    requires a >= 2 && Tidy(p.free, a) && r in p.free && Up(r.start, a) <= r.end
    ensures k < |p.free| && Fits(p.free[k], a, a, 0) && Multiple(p.free[k].end + 1, a)
    ensures Step(p, OnePage(a), a) == Pool(Splice(p.free, k, AllocPieces(p.free[k], a, a, 0)),
      p.blocks + [Region(Candidate(p.free[k], a, 0), Candidate(p.free[k], a, 0) + a - 1)], p.marks)
  {
    hide Up, Candidate, AllocPieces, Rem, Splice;
    OneByteLess(a);
    PageCut(r, a);
    k := FirstFit(p.free, a, a, 0);
    assert p.free[k] in p.free;
  }

  lemma MetAgain(p: Pool, block: Region, b: int, orig: seq<Region>)
    requires Holds(block, b) && (Covers(p.blocks, b) || Covers(p.marks, b))
    ensures forall free :: !Safe(Pool(free, p.blocks + [block], p.marks), orig)
  {
    var bs := p.blocks + [block];
    CoversAppend(p.blocks, block, b);
    if Covers(p.blocks, b) {
      var i :| 0 <= i < |p.blocks| && Holds(p.blocks[i], b);
      assert Holds(bs[i], b) && Holds(bs[|p.blocks|], b);
    }
  }

  lemma StillThere(p: Pool, k: nat, r: Region, b: int, a: nat) returns (r': Region)
    requires a >= 2 && Tidy(p.free, a) && k < |p.free| && Fits(p.free[k], a, a, 0) && r in p.free && InPages(r, b, a)
    requires var c := Up(p.free[k].start, a); !(c <= b < c + a)
    ensures r' in Splice(p.free, k, AllocPieces(p.free[k], a, a, 0)) && InPages(r', b, a)
  {
    hide Up, Candidate, AllocPieces, Rem, Multiple;
    var e, pieces := p.free[k], AllocPieces(p.free[k], a, a, 0);
    assert e in p.free;
    PageCut(e, a);
    if r == e {
      r' := pieces[|pieces| - 1];
      SpliceHas(p.free, k, pieces, |pieces| - 1);
    } else {
      r' := r;
      var i :| 0 <= i < |p.free| && p.free[i] == r;
      assert Splice(p.free, k, pieces)[if i < k then i else i - 1 + |pieces|] == r;
    }
  }

  lemma TidyAfterPage(p: Pool, k: nat, a: nat)
    requires a >= 2 && Tidy(p.free, a) && k < |p.free| && Fits(p.free[k], a, a, 0)
    ensures Tidy(Splice(p.free, k, AllocPieces(p.free[k], a, a, 0)), a)
  {
    hide Up, Candidate, Rem, Splice, Multiple;
    var e, pieces := p.free[k], AllocPieces(p.free[k], a, a, 0);
    assert e in p.free;
    PageCut(e, a);
    forall x | x in Splice(p.free, k, pieces)
      ensures x in p.free || x in pieces
    {
      InSplice(p.free, k, pieces, x);
    }
    assert forall x | x in pieces :: x == pieces[|pieces| - 1] || (|pieces| == 2 && x == pieces[0]);
  }

  /** A mark in the entry that a block was cut from gives the block's page back. */
  lemma MarkAfterAllocDoublesBlock()
    ensures var p := Run(Pool([Region(0, 15)], [], []), [AllocOp(4, 4, 0), MarkOp(8, 12), AllocOp(4, 4, 0)], 4);
      p.blocks == [Region(0, 3), Region(0, 3)]
  {
    hide AfterAlloc, AfterMark;
    var p0, again := Pool([Region(0, 15)], [], []), AllocOp(4, 4, 0);
    var p1 := Pool([Region(3, 15)], [Region(0, 3)], []);
    var p2 := Pool([Region(0, 7), Region(12, 15)], [Region(0, 3)], [Region(8, 11)]);
    AllocAtZero([Region(0, 15)]);
    assert Step(p0, again, 4) == p1;
    MarkInMiddle();
    assert Step(p1, MarkOp(8, 12), 4) == p2;
    AllocAtZero([Region(0, 7), Region(12, 15)]);
    var ops := [again, MarkOp(8, 12), again];
    assert ops[1..] == [MarkOp(8, 12), again] && ops[1..][1..] == [again];
    assert Down(8, 4) == 8 && Up(12, 4) == 12;
    assert Run(p2, [again], 4) == Run(Step(p2, again, 4), [], 4);
  }

  lemma AllocAtZero(fl: seq<Region>)
    requires |fl| > 0 && fl[0].start == 0 && fl[0].end >= 3
    ensures AfterAlloc(fl, 4, 4, 0, 4) == (Ok(0), [Region(3, fl[0].end)] + fl[1..])
  {
    assert Candidate(fl[0], 4, 0) == 0;
    assert FirstFit(fl, 4, 4, 0) == 0;
    assert AllocPieces(fl[0], 4, 4, 0) == [Region(3, fl[0].end)];
    assert Splice(fl, 0, [Region(3, fl[0].end)]) == [Region(3, fl[0].end)] + fl[1..];
  }

  lemma MarkInMiddle()
    ensures AfterMark([Region(3, 15)], 8, 12, 4) == (Ok(8), [Region(0, 7), Region(12, 15)])
  {
    var fl := [Region(3, 15)];
    assert Holder(fl, 8) == 0;
    assert Down(3, 4) == 0 && Up(15, 4) == 16;
    assert MarkPieces(fl[0], 8, 12, 4) == [Region(0, 7), Region(12, 15)];
    assert Splice(fl, 0, [Region(0, 7), Region(12, 15)]) == [Region(0, 7), Region(12, 15)];
  }
}
