/**
 Runs of `alloc` alone, with sizes and virtual addresses of any kind: exactly
 when the byte that every block leaves in the free list is handed out again.
 */
module AllocatorBytes {
  import opened Align
  import opened PhysAllocator
  import opened AllocatorRuns

  ghost predicate Allocs(ops: seq<Op>) {
    forall i | 0 <= i < |ops| :: ops[i].AllocOp? && ops[i].size > 0
  }

  /** The request fits first into an entry that begins on a block's byte, with the remainder the request asks for. */
  ghost predicate Lands(p: Pool, op: Op, a: nat)
    requires a > 0 && op.AllocOp?
  {
    && AfterAlloc(p.free, op.size, op.alignment, op.virt, a).0.Ok?
    && op.alignment > 0
    && var k := FirstFit(p.free, op.size, op.alignment, op.virt);
       k < |p.free| && Covers(p.blocks, p.free[k].start) &&
       Rem(p.free[k].start, op.alignment) == Rem(op.virt, op.alignment)
  }

  /** No request of the run does, when its turn comes. */
  ghost predicate NoneLands(p: Pool, ops: seq<Op>, a: nat)
    requires a > 0 && Allocs(ops)
    decreases |ops|
  {
    ops == [] || (ops[0].AllocOp? && !Lands(p, ops[0], a) && NoneLands(Step(p, ops[0], a), ops[1..], a))
  }

  /** Entries are separate parts of the memory free at the start; only their first byte can be a block's. */
  ghost predicate Bytes(p: Pool, orig: seq<Region>) {
    && Separate(p.free)
    && (forall r, b | r in p.free && Holds(r, b) :: Covers(orig, b) && (b != r.start ==> !Covers(p.blocks, b)))
  }

  /** The block and the parts of the entry it is cut from. */
  lemma CutAt(e: Region, size: int, alignment: nat, virt: int)
    requires alignment > 0 && size > 0 && Fits(e, size, alignment, virt)
    ensures var c, p := Candidate(e, alignment, virt), AllocPieces(e, size, alignment, virt);
      && e.start <= c && c + size - 1 <= e.end
      && (c == e.start <==> Rem(e.start, alignment) == Rem(virt, alignment))
      && Separate(p)
      && (forall x, b | x in p && Holds(x, b) :: Holds(e, b))
      && (forall x | x in p :: x.start == c + size - 1 || (x.start == e.start && x.end < c))
  {
    hide Candidate, Rem, Down;
    var c, p := Candidate(e, alignment, virt), AllocPieces(e, size, alignment, virt);
    CandidateIsLeast(e, alignment, virt, e.start);
    var tail := Region(c + size - 1, e.end);
    assert p[|p| - 1] == tail;
    assert |p| == 2 ==> p[0] == Region(e.start, Down(c, alignment) - 1);
    assert forall x | x in p :: x == tail || (|p| == 2 && x == p[0]);
  }

  lemma AllocKeepsBytes(p: Pool, op: Op, orig: seq<Region>, a: nat)
    requires a > 0 && op.AllocOp? && op.size > 0 && Bytes(p, orig)
    ensures Bytes(Step(p, op, a), orig)
  {
    hide Candidate, AllocPieces, Splice, FirstFit, Rem, Separate, Multiple;
    var AllocOp(size, alignment, virt) := op;
    if AfterAlloc(p.free, size, alignment, virt, a).0.Ok? {
      var k := FirstFit(p.free, size, alignment, virt);
      var e, c, pieces := p.free[k], Candidate(p.free[k], alignment, virt), AllocPieces(p.free[k], size, alignment, virt);
      assert e in p.free;
      CutAt(e, size, alignment, virt);
      SpliceSeparate(p.free, k, pieces);
      var p' := Step(p, op, a);
      forall r, b | r in p'.free && Holds(r, b)
        ensures Covers(orig, b) && (b != r.start ==> !Covers(p'.blocks, b))
      {
        CoversAppend(p.blocks, Region(c, c + size - 1), b);
        var i :| 0 <= i < |p'.free| && p'.free[i] == r;
        var o := Origin(p.free, k, pieces, i);
        assert o == k ==> r in pieces && Holds(e, b);
        assert p.free[o] in p.free && Holds(p.free[o], b);
        OneEntry(p.free, k, o, b);
        assert o == k && b != r.start ==> b != e.start && !(c <= b < c + size);
      }
    }
  }

  /** A block shares a byte with an earlier one exactly when its request lands on one. */
  lemma AllocSafeIff(p: Pool, op: Op, orig: seq<Region>, a: nat)
    requires a > 0 && op.AllocOp? && op.size > 0 && Bytes(p, orig) && p.marks == []
    ensures Step(p, op, a).marks == []
    ensures Safe(Step(p, op, a), orig) <==> Safe(p, orig) && !Lands(p, op, a)
  {
    hide Candidate, AllocPieces, Splice, FirstFit, Rem, Multiple;
    var AllocOp(size, alignment, virt) := op;
    if AfterAlloc(p.free, size, alignment, virt, a).0.Ok? {
      var k := FirstFit(p.free, size, alignment, virt);
      var e, c := p.free[k], Candidate(p.free[k], alignment, virt);
      assert e in p.free;
      CutAt(e, size, alignment, virt);
      MeetsIff(p, e, Region(c, c + size - 1), orig);
    }
  }

  lemma MeetsIff(p: Pool, e: Region, block: Region, orig: seq<Region>)
    requires e in p.free && Bytes(p, orig) && p.marks == []
    requires e.start <= block.start <= block.end <= e.end
    ensures forall free: seq<Region> ::
      Safe(Pool(free, p.blocks + [block], []), orig) <==>
      Safe(p, orig) && !(block.start == e.start && Covers(p.blocks, e.start))
  {
    var bs := p.blocks + [block];
    if Safe(p, orig) && !(block.start == e.start && Covers(p.blocks, e.start)) {
      forall i, j, b | 0 <= i < j < |bs|
        ensures !(Holds(bs[i], b) && Holds(bs[j], b))
      {
        assert bs[i] == p.blocks[i];
        if Holds(bs[i], b) { assert Covers(p.blocks, b); }
        if j < |p.blocks| { assert bs[j] == p.blocks[j]; }
      }
      forall b | Covers(bs, b)
        ensures Covers(orig, b)
      {
        CoversAppend(p.blocks, block, b);
      }
    }
    if Separate(bs) && forall b | Covers(bs, b) :: Covers(orig, b) {
      SeparatePrefix(p.blocks, block);
      forall b | Covers(p.blocks, b)
        ensures Covers(orig, b)
      {
        CoversAppend(p.blocks, block, b);
      }
    }
  }

  lemma SeparatePrefix(s: seq<Region>, r: Region)
    requires Separate(s + [r])
    ensures Separate(s) && forall b | Holds(r, b) :: !Covers(s, b)
  {
    var t := s + [r];
    forall i, j, b | 0 <= i < j < |s|
      ensures !(Holds(s[i], b) && Holds(s[j], b))
    {
      assert !(Holds(t[i], b) && Holds(t[j], b));
    }
    assert t[|s|] == r;
    forall i, b | 0 <= i < |s| && Holds(r, b)
      ensures !Holds(s[i], b)
    {
      assert t[i] == s[i];
    }
  }

  lemma {:induction false} RestSafeIff(p: Pool, ops: seq<Op>, orig: seq<Region>, a: nat)
    requires a > 0 && Allocs(ops) && Bytes(p, orig) && p.marks == []
    ensures Safe(Run(p, ops, a), orig) <==> Safe(p, orig) && NoneLands(p, ops, a)
    decreases |ops|
  {
    hide Safe, Step, Lands, Bytes;
    if ops != [] {
      assert ops[0].AllocOp?;
      AllocKeepsBytes(p, ops[0], orig, a);
      AllocSafeIff(p, ops[0], orig, a);
      RestSafeIff(Step(p, ops[0], a), ops[1..], orig, a);
    }
  }

  /** Every run of allocs, of any sizes and virtual addresses: what is handed out is disjoint and was free if and
      only if no request lands on a block's byte. */
  lemma AllocRunSafeIff(fl: seq<Region>, ops: seq<Op>, a: nat)
    requires a > 0 && Separate(fl) && Allocs(ops)
    ensures Safe(Run(Pool(fl, [], []), ops, a), fl) <==> NoneLands(Pool(fl, [], []), ops, a)
  {
    forall r, b | r in fl && Holds(r, b)
      ensures Covers(fl, b)
    {
      var i :| 0 <= i < |fl| && fl[i] == r;
      assert Holds(fl[i], b);
    }
    RestSafeIff(Pool(fl, [], []), ops, fl, a);
  }

  /** For instance: five bytes on pages of four, and then a page. */
  lemma FifthByteTwice()
    ensures Run(Pool([Region(0, 15)], [], []), [AllocOp(5, 4, 0), AllocOp(4, 4, 0)], 4).blocks ==
      [Region(0, 4), Region(4, 7)]
  {
    hide AfterAlloc;
    var ops := [AllocOp(5, 4, 0), AllocOp(4, 4, 0)];
    var p := Pool([Region(4, 15)], [Region(0, 4)], []);
    FirstPart(Region(0, 15), 5);
    FirstPart(Region(4, 15), 4);
    assert Step(Pool([Region(0, 15)], [], []), ops[0], 4) == p;
    assert ops[1..] == [ops[1]] && [ops[1]][1..] == [];
    assert Run(p, [ops[1]], 4) == Run(Step(p, ops[1], 4), [], 4);
  }

  lemma FirstPart(r: Region, size: int)
    requires r == Region(0, 15) || r == Region(4, 15)
    requires 4 <= size <= 5
    ensures AfterAlloc([r], size, 4, 0, 4) == (Ok(r.start), [Region(r.start + size - 1, 15)])
  {
    assert Candidate(r, 4, 0) == r.start;
    assert FirstFit([r], size, 4, 0) == 0;
    assert AllocPieces(r, size, 4, 0) == [Region(r.start + size - 1, 15)];
    assert Splice([r], 0, [Region(r.start + size - 1, 15)]) == [Region(r.start + size - 1, 15)];
  }
}
