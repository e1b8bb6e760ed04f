/**
 The physical memory allocator of tools/util.py (class Allocator): a free list
 of inclusive byte ranges that `mark`, `alloc` and `round_pages` edit in place.
 */
module PhysAllocator {
  import opened Align

  /** A range of bytes, both ends included; `end < start` is an empty range. */
  datatype Region = Region(start: int, end: int)

  /** The address returned, or an AllocatorException. */
  datatype Outcome = Ok(addr: int) | Raised

  predicate Holds(r: Region, b: int) {
    r.start <= b <= r.end
  }

  predicate Covers(fl: seq<Region>, b: int) {
    exists i :: 0 <= i < |fl| && Holds(fl[i], b)
  }

  /** No byte is in two entries of the list. */
  ghost predicate Separate(fl: seq<Region>) {
    forall i, j, b | 0 <= i < j < |fl| :: !(Holds(fl[i], b) && Holds(fl[j], b))
  }

  /** Every entry is a run of whole pages of size `a`. */
  predicate Paged(fl: seq<Region>, a: nat)
    requires a > 0
  {
    forall r | r in fl :: 0 <= r.start <= r.end && Multiple(r.start, a) && Multiple(r.end + 1, a)
  }

  // Python's list edits: del, insert, and the replacement they add up to.

  function Remove(fl: seq<Region>, k: nat): (r: seq<Region>)
    requires k < |fl|
    ensures |r| == |fl| - 1
  {
    fl[..k] + fl[k + 1..]
  }

  function Insert(fl: seq<Region>, k: nat, r: Region): (s: seq<Region>)
    requires k <= |fl|
    ensures |s| == |fl| + 1
  {
    fl[..k] + [r] + fl[k..]
  }

  function Splice(fl: seq<Region>, k: nat, p: seq<Region>): (s: seq<Region>)
    requires k < |fl|
    ensures |s| == |fl| - 1 + |p|
  {
    fl[..k] + p + fl[k + 1..]
  }

  lemma EditsAreSplices(fl: seq<Region>, k: nat, x: Region, y: Region)
    requires k < |fl|
    ensures Remove(fl, k) == Splice(fl, k, [])
    ensures Insert(Remove(fl, k), k, x) == Splice(fl, k, [x])
    ensures Insert(Insert(Remove(fl, k), k, x), k + 1, y) == Splice(fl, k, [x, y])
  {}

  // ---------------------------------------------------------------- mark

  /** Index of the first entry that holds byte `b`, or the length of the list. */
  function Holder(fl: seq<Region>, b: int): (k: nat)
    ensures k <= |fl|
    ensures k < |fl| ==> Holds(fl[k], b)
    ensures forall i | 0 <= i < k :: !Holds(fl[i], b)
  {
    if fl == [] then 0
    else if Holds(fl[0], b) then 0
    else Holder(fl[1..], b) + 1
  }

  /** What replaces an entry when the pages from `base` up to `end` are taken out of it. */
  function MarkPieces(r: Region, base: int, end: int, a: nat): seq<Region> {
    var below, above := Region(Down(r.start, a), base - 1), Region(end, Up(r.end, a) - 1);
    if Down(r.start, a) < base then
      if end < Up(r.end, a) then [below, above] else [below]
    else
      if end < Up(r.end, a) then [above] else []
  }

  /** Outcome and new list of `mark(base, end)`. */
  function AfterMark(fl: seq<Region>, base: int, end: int, a: nat): (Outcome, seq<Region>) {
    var lo, hi := Down(base, a), Up(end, a);
    var k := Holder(fl, lo);
    if k == |fl| then (Ok(lo), fl)
    else if hi - 1 > fl[k].end then (Raised, fl)
    else (Ok(lo), Splice(fl, k, MarkPieces(fl[k], lo, hi, a)))
  }

  /** The range is not inverted, or nothing holds its base, or what does begins or ends there. */
  predicate ScanEnds(fl: seq<Region>, base: int, end: int, a: nat) {
    var lo, k := Down(base, a), Holder(fl, Down(base, a));
    lo <= Up(end, a) || k == |fl| || fl[k].start == lo || fl[k].end == lo
  }

  // ---------------------------------------------------------------- alloc

  /** The first address at or after the start of `r` that agrees with `virt` modulo `alignment`. */
  function Candidate(r: Region, alignment: nat, virt: int): int
    requires alignment > 0
  {
    var s := Down(r.start, alignment) + Rem(virt, alignment);
    if s < r.start then s + alignment else s
  }

  predicate Fits(r: Region, size: int, alignment: nat, virt: int)
    requires alignment > 0
  {
    Candidate(r, alignment, virt) + size - 1 <= r.end
  }

  /** Index of the first entry with room, or the length of the list. */
  function FirstFit(fl: seq<Region>, size: int, alignment: nat, virt: int): (k: nat)
    requires alignment > 0
    ensures k <= |fl|
    ensures k < |fl| ==> Fits(fl[k], size, alignment, virt)
    ensures forall i | 0 <= i < k :: !Fits(fl[i], size, alignment, virt)
  {
    if fl == [] then 0
    else if Fits(fl[0], size, alignment, virt) then 0
    else FirstFit(fl[1..], size, alignment, virt) + 1
  }

  /** What replaces the entry a block is cut from; the block's last byte stays in the list. */
  function AllocPieces(r: Region, size: int, alignment: nat, virt: int): seq<Region>
    requires alignment > 0
  {
    var c := Candidate(r, alignment, virt);
    var rest := Region(c + size - 1, r.end);
    if r.start < c then [Region(r.start, Down(c, alignment) - 1), rest] else [rest]
  }

  /** Outcome and new list of `alloc(size, alignment, virt)`. */
  function AfterAlloc(fl: seq<Region>, size: int, alignment: nat, virt: int, a: nat): (Outcome, seq<Region>)
    requires a > 0
  {
    if alignment < a || !Multiple(alignment, a) then (Raised, fl)
    else
      var k := FirstFit(fl, size, alignment, virt);
      if k == |fl| then (Raised, fl)
      else (Ok(Candidate(fl[k], alignment, virt)),
            Splice(fl, k, AllocPieces(fl[k], size, alignment, virt)))
  }

  // ---------------------------------------------------------------- round_pages

  /** Would one pass of the scan cut this entry? */
  predicate Ragged(r: Region, a: nat) {
    var e := if Up(r.start + 1, a) < r.end then Up(r.start + 1, a) else r.end;
    r.start < e && e - r.start < a
  }

  /** One cut: the ragged head goes, and the entry with it when nothing follows. */
  function Cut(r: Region, a: nat): (s: seq<Region>)
    ensures |s| <= 1
  {
    if Up(r.start + 1, a) < r.end then [Region(Up(r.start + 1, a), r.end)] else []
  }

  /** The fate of one entry, in closed form. */
  function Rounded(r: Region, a: nat): (s: seq<Region>)
    ensures |s| <= 1
  {
    if r.end <= r.start then [r]
    else if r.end - Up(r.start, a) >= a then [Region(Up(r.start, a), r.end)]
    else []
  }

  function RoundAll(fl: seq<Region>, a: nat): seq<Region> {
    if fl == [] then [] else Rounded(fl[0], a) + RoundAll(fl[1..], a)
  }

  /** A byte that rounding leaves: a page border lies between the start of its entry and the byte, and more than a
      page of the entry follows the border. Entries of one byte or none are left alone. */
  ghost predicate Stays(r: Region, b: int, a: nat) {
    Holds(r, b) && (r.end <= r.start || exists p :: Multiple(p, a) && r.start <= p <= b && p + a <= r.end)
  }

  function Unaligned(fl: seq<Region>, a: nat): nat {
    if fl == [] then 0 else (if Up(fl[0].start, a) == fl[0].start then 0 else 1) + Unaligned(fl[1..], a)
  }

  /** First position of a value known to be in the list, as `list.index` finds it. */
  function IndexOf(fl: seq<Region>, r: Region): (k: nat)
    requires r in fl
    ensures k < |fl| && fl[k] == r
    ensures forall i | 0 <= i < k :: fl[i] != r
  {
    if fl[0] == r then 0 else IndexOf(fl[1..], r) + 1
  }

  class Allocator {
    var freelist: seq<Region>
    const minAlloc: nat

    constructor (freeList: seq<Region>, minAllocSize: nat)
      ensures freelist == freeList && minAlloc == minAllocSize
    {
      freelist := freeList;
      minAlloc := minAllocSize;
    }

    /** Takes the pages of [base, end) out of the free list. */
    method Mark(base: int, end: int) returns (r: Outcome)
      requires minAlloc >= 2 && Separate(freelist) && ScanEnds(freelist, base, end, minAlloc)
      modifies this
      ensures (r, freelist) == AfterMark(old(freelist), base, end, minAlloc)
    {
      hide Up, Down, Remove, Insert, Splice, Multiple, Holder, IndexOf, MarkPieces, Separate;
      var lo := Down(base, minAlloc);
      var hi := Up(end, minAlloc) - 1;
      ghost var k := Holder(freelist, lo);
      ghost var fl := freelist;
      LastByteRoundsUp(end, minAlloc);
      var i := 0;
      while i < |freelist|
        invariant 0 <= i
        invariant i <= k ==> freelist == fl && hi == Up(end, minAlloc) - 1
        invariant i > k ==> k < |fl| && hi == Up(end, minAlloc) && Up(end, minAlloc) - 1 <= fl[k].end
        invariant i > k ==> freelist == Splice(fl, k, MarkPieces(fl[k], lo, hi, minAlloc))
        invariant i > k ==> |MarkPieces(fl[k], lo, hi, minAlloc)| <= 2
        decreases |fl| + 2 - i
      {
        var Region(freeStart, freeEnd) := freelist[i];
        if lo >= freeStart && lo <= freeEnd {
          ghost var was := freelist;
          if i > k { HeldAgain(fl, k, lo, hi, minAlloc, i); }
          if hi > freeEnd {
            return Raised;
          }
          var index := IndexOf(freelist, Region(freeStart, freeEnd));
          assert index == i;
          EditsAreSplices(was, i, Region(Down(freeStart, minAlloc), lo - 1), Region(Up(hi, minAlloc), Up(freeEnd, minAlloc) - 1));
          EditsAreSplices(was, i, Region(Up(hi, minAlloc), Up(freeEnd, minAlloc) - 1), was[i]);
          PiecesAre(was[i], lo, Up(hi, minAlloc), minAlloc);
          freelist := Remove(freelist, index);
          freeStart := Down(freeStart, minAlloc);
          freeEnd := Up(freeEnd, minAlloc);
          hi := Up(hi, minAlloc);
          assert Down(lo, minAlloc) == lo;
          if freeStart < lo {
            freelist := Insert(freelist, index, Region(freeStart, lo - 1));
            index := index + 1;
          }
          if hi < freeEnd {
            freelist := Insert(freelist, index, Region(hi, freeEnd - 1));
          }
          assert freelist == Splice(was, i, MarkPieces(was[i], lo, hi, minAlloc));
          if i > k { SpliceSame(was, i); }
        }
        i := i + 1;
      }
      assert k < |fl| ==> i > k;
      return Ok(lo);
    }

    /** Cuts a block out of the first entry with room; -1 stands for "nothing found". */
    method Alloc(size: int, alignment: nat, virt: int) returns (r: Outcome)
      requires minAlloc > 0
      requires forall f | f in freelist :: f.start >= 0
      modifies this
      ensures (r, freelist) == AfterAlloc(old(freelist), size, alignment, virt, minAlloc)
    {
      hide Down, Rem, Remove, Insert, Splice, Multiple, FirstFit, IndexOf;
      if alignment < minAlloc || !Multiple(alignment, minAlloc) {
        return Raised;
      }
      var offset := Rem(virt, alignment);
      var allocStart := -1;
      ghost var fl := freelist;
      for i := 0 to |freelist|
        invariant freelist == fl && allocStart == -1
        invariant forall j | 0 <= j < i :: !Fits(fl[j], size, alignment, virt)
      {
        var Region(freeStart, freeEnd) := freelist[i];
        allocStart := Down(freeStart, alignment) + offset;
        var allocEnd := allocStart + size - 1;
        if allocStart < freeStart {
          allocStart := allocStart + alignment;
          allocEnd := allocEnd + alignment;
        }
        if allocStart >= freeStart && allocEnd <= freeEnd {
          assert FirstFit(fl, size, alignment, virt) == i;
          var index := IndexOf(freelist, Region(freeStart, freeEnd));
          assert index == i;
          EditsAreSplices(fl, i, Region(freeStart, Down(allocStart, alignment) - 1), Region(allocEnd, freeEnd));
          EditsAreSplices(fl, i, Region(allocEnd, freeEnd), fl[i]);
          freelist := Remove(freelist, index);
          if freeStart < allocStart {
            freelist := Insert(freelist, index, Region(freeStart, Down(allocStart, alignment) - 1));
            index := index + 1;
          }
          freelist := Insert(freelist, index, Region(allocEnd, freeEnd));
          assert allocStart == Candidate(fl[i], alignment, virt) >= 0;
          assert freelist == Splice(fl, i, AllocPieces(fl[i], size, alignment, virt));
          break;
        } else {
          allocStart := -1;
        }
      }
      if allocStart == -1 {
        return Raised;
      }
      return Ok(allocStart);
    }

    /** Rescans the list, cutting ragged heads, until a whole scan finds none. */
    method RoundPages()
      modifies this
      ensures freelist == RoundAll(old(freelist), minAlloc)
      ensures minAlloc > 0 ==>
        && (forall b :: Covers(freelist, b) <==> exists r :: r in old(freelist) && Stays(r, b, minAlloc))
        && (forall r | r in freelist && r.start < r.end :: Multiple(r.start, minAlloc))
        && (forall r: Region | r.end <= r.start :: multiset(freelist)[r] == multiset(old(freelist))[r])
    {
      hide Up, RoundAll, Unaligned, Remove, Insert, Splice, IndexOf;
      var scanList := true;
      while scanList
        invariant RoundAll(freelist, minAlloc) == RoundAll(old(freelist), minAlloc)
        invariant !scanList ==> forall r | r in freelist :: !Ragged(r, minAlloc)
        decreases |freelist| + Unaligned(freelist, minAlloc), if scanList then 1 else 0
      {
        scanList := false;
        ghost var fl := freelist;
        var i := 0;
        while i < |freelist|
          invariant RoundAll(freelist, minAlloc) == RoundAll(old(freelist), minAlloc)
          invariant 0 <= i && |freelist| <= |fl|
          invariant !scanList ==> freelist == fl && forall j | 0 <= j < i && j < |fl| :: !Ragged(fl[j], minAlloc)
          invariant scanList ==> |freelist| + Unaligned(freelist, minAlloc) < |fl| + Unaligned(fl, minAlloc)
          decreases |fl| - i
        {
          var Region(freeStart, freeEnd) := freelist[i];
          var alignEnd := Up(freeStart + 1, minAlloc);
          var allocEnd := if alignEnd < freeEnd then alignEnd else freeEnd;
          if freeStart < allocEnd && allocEnd - freeStart < minAlloc {
            scanList := true;
            var index := IndexOf(freelist, Region(freeStart, freeEnd));
            CutKeepsRounding(freelist, index, minAlloc);
            EditsAreSplices(freelist, index, Region(allocEnd, freeEnd), freelist[index]);
            ghost var next := Splice(freelist, index, Cut(freelist[index], minAlloc));
            freelist := Remove(freelist, index);
            if allocEnd < freeEnd {
              freelist := Insert(freelist, index, Region(allocEnd, freeEnd));
            }
            assert freelist == next;
          }
          i := i + 1;
        }
      }
      SmoothIsRounded(freelist, minAlloc);
      if minAlloc > 0 { RoundsToPages(old(freelist), minAlloc); }
    }
  }

  lemma LastByteRoundsUp(end: int, a: nat)
    requires a >= 2
    ensures Up(Up(end, a) - 1, a) == Up(end, a)
  {
    var h := Up(end, a);
    MultipleGap(h, Up(h - 1, a), a);
    MultipleGap(Up(h - 1, a), h, a);
  }

  lemma PiecesAre(r: Region, lo: int, hi: int, a: nat)
    ensures var below, above := Region(Down(r.start, a), lo - 1), Region(hi, Up(r.end, a) - 1);
      MarkPieces(r, lo, hi, a) ==
        if Down(r.start, a) < lo then (if hi < Up(r.end, a) then [below, above] else [below])
        else (if hi < Up(r.end, a) then [above] else [])
  {}

  lemma SpliceSame(fl: seq<Region>, k: nat)
    requires k < |fl|
    ensures Splice(fl, k, [fl[k]]) == fl
  {}

  /** After the split an entry further on holds the marked base only if the range is empty. It is then the upper
      part, which a second visit leaves as it is. */
  lemma HeldAgain(fl: seq<Region>, k: nat, lo: int, hi: int, a: nat, i: nat)
    requires a >= 2 && k == Holder(fl, lo) < |fl| && Separate(fl) && (lo <= hi || fl[k].start == lo || fl[k].end == lo)
    requires Multiple(lo, a) && Multiple(hi, a)
    requires k < i < |Splice(fl, k, MarkPieces(fl[k], lo, hi, a))|
    requires Holds(Splice(fl, k, MarkPieces(fl[k], lo, hi, a))[i], lo)
    ensures var s := Splice(fl, k, MarkPieces(fl[k], lo, hi, a));
      && lo == hi && (forall j | 0 <= j < i :: !Holds(s[j], lo))
      && MarkPieces(s[i], lo, hi, a) == [s[i]] && Up(hi, a) == hi
  {
    hide Up, Down, MarkPieces, Rem, Splice, Separate, Multiple, Holder;
    var p := MarkPieces(fl[k], lo, hi, a);
    PiecesAre(fl[k], lo, hi, a);
    if i >= k + |p| {
      LaterNotHeld(fl, k, p, lo, i);
      assert false;
    }
    SpliceAt(fl, k, p, i);
    UpperAgain(fl[k], lo, hi, a);
    forall j | 0 <= j < i
      ensures !Holds(Splice(fl, k, p)[j], lo)
    {
      SpliceAt(fl, k, p, j);
    }
  }

  lemma SpliceAt(fl: seq<Region>, k: nat, p: seq<Region>, i: nat)
    requires k < |fl| && i < k + |p|
    ensures Splice(fl, k, p)[i] == if i < k then fl[i] else p[i - k]
  {}

  lemma UpperAgain(r: Region, lo: int, hi: int, a: nat)
    requires a >= 2 && Holds(r, lo) && (lo <= hi || r.start == lo || r.end == lo) && Multiple(lo, a) && Multiple(hi, a)
    ensures var p := MarkPieces(r, lo, hi, a);
      |p| == 2 && Holds(p[1], lo) ==>
        lo == hi && !Holds(p[0], lo) && MarkPieces(p[1], lo, hi, a) == [p[1]] && Up(hi, a) == hi
  {
    hide Up, Down, MarkPieces, Rem;
    PiecesAre(r, lo, hi, a);
    LastByteRoundsUp(r.end, a);
    PiecesAre(Region(hi, Up(r.end, a) - 1), lo, hi, a);
  }

  lemma LaterNotHeld(fl: seq<Region>, k: nat, p: seq<Region>, lo: int, i: nat)
    requires k < |fl| && Separate(fl) && Holds(fl[k], lo) && k + |p| <= i < |Splice(fl, k, p)|
    ensures !Holds(Splice(fl, k, p)[i], lo)
  {
    assert Splice(fl, k, p)[i] == fl[i - |p| + 1];
  }

  lemma {:induction false} RoundAllConcat(x: seq<Region>, y: seq<Region>, a: nat)
    ensures RoundAll(x + y, a) == RoundAll(x, a) + RoundAll(y, a)
    ensures Unaligned(x + y, a) == Unaligned(x, a) + Unaligned(y, a)
  {
    if x == [] {
      assert x + y == y;
    } else {
      assert (x + y)[1..] == x[1..] + y;
      RoundAllConcat(x[1..], y, a);
    }
  }

  /** Cutting one ragged entry does not change where the scan ends up, and makes progress. */
  lemma CutKeepsRounding(fl: seq<Region>, k: nat, a: nat)
    requires k < |fl| && Ragged(fl[k], a)
    ensures var fl' := Splice(fl, k, Cut(fl[k], a));
      && RoundAll(fl', a) == RoundAll(fl, a)
      && |fl'| + Unaligned(fl', a) < |fl| + Unaligned(fl, a)
  {
    var c := Cut(fl[k], a);
    CutOnce(fl[k], a);
    assert fl == fl[..k] + ([fl[k]] + fl[k + 1..]);
    assert Splice(fl, k, c) == fl[..k] + (c + fl[k + 1..]);
    RoundAllConcat(fl[..k], [fl[k]] + fl[k + 1..], a);
    RoundAllConcat([fl[k]], fl[k + 1..], a);
    RoundAllConcat(fl[..k], c + fl[k + 1..], a);
    RoundAllConcat(c, fl[k + 1..], a);
  }

  lemma CutOnce(r: Region, a: nat)
    requires Ragged(r, a)
    ensures RoundAll(Cut(r, a), a) == RoundAll([r], a)
    ensures |Cut(r, a)| + Unaligned(Cut(r, a), a) < 1 + Unaligned([r], a)
  {
    var u := Up(r.start + 1, a);
    MultipleGap(u, Up(u, a), a);
    if Up(r.start, a) == r.start {
      MultipleGap(r.start, u, a);
    } else {
      MultipleGap(Up(r.start, a), u, a);
      MultipleGap(u, Up(r.start, a), a);
    }
  }

  lemma SmoothEntry(r: Region, a: nat)
    requires !Ragged(r, a)
    ensures Rounded(r, a) == [r]
  {
    hide Up;
    if a > 0 && r.start < r.end {
      MultipleGap(Up(r.start, a), Up(r.start + 1, a), a);
      MultipleGap(Up(r.start + 1, a), Up(r.start, a), a);
    }
  }

  lemma {:induction false} SmoothIsRounded(fl: seq<Region>, a: nat)
    requires forall r | r in fl :: !Ragged(r, a)
    ensures RoundAll(fl, a) == fl
  {
    if fl != [] {
      SmoothEntry(fl[0], a);
      SmoothIsRounded(fl[1..], a);
    }
  }

  /** What rounding does, byte by byte: bytes in front of the first border, and whole entries in which no more than
      a page follows it, go. Every entry of more than one byte then begins on a border. */
  lemma RoundsToPages(fl: seq<Region>, a: nat)
    requires a > 0
    ensures forall b :: Covers(RoundAll(fl, a), b) <==> exists r :: r in fl && Stays(r, b, a)
    ensures forall r | r in RoundAll(fl, a) && r.start < r.end :: Multiple(r.start, a)
    ensures forall r: Region | r.end <= r.start :: multiset(RoundAll(fl, a))[r] == multiset(fl)[r]
  {
    hide RoundAll, Stays, Covers;
    forall b
      ensures Covers(RoundAll(fl, a), b) <==> exists r :: r in fl && Stays(r, b, a)
    {
      RoundedCovers(fl, a, b);
    }
    RoundedStarts(fl, a);
    forall r: Region | r.end <= r.start
      ensures multiset(RoundAll(fl, a))[r] == multiset(fl)[r]
    {
      ShortEntriesStay(fl, a, r);
    }
  }

  lemma OneStays(r: Region, a: nat, b: int)
    requires a > 0
    ensures (exists x :: x in Rounded(r, a) && Holds(x, b)) <==> Stays(r, b, a)
    ensures forall x | x in Rounded(r, a) && x.start < x.end :: Multiple(x.start, a)
  {
    hide Multiple;
    var u := Up(r.start, a);
    if Stays(r, b, a) && r.start < r.end {
      var p :| Multiple(p, a) && r.start <= p <= b && p + a <= r.end;
      MultipleGap(p, u, a);
      assert Region(u, r.end) in Rounded(r, a) && Holds(Region(u, r.end), b);
    } else if r.end <= r.start {
      assert r in Rounded(r, a);
    }
  }

  lemma {:induction false} RoundedCovers(fl: seq<Region>, a: nat, b: int)
    requires a > 0
    ensures Covers(RoundAll(fl, a), b) <==> exists r :: r in fl && Stays(r, b, a)
  {
    hide Rounded, Stays, Covers;
    CoversMember(RoundAll(fl, a), b);
    if fl != [] {
      RoundedCovers(fl[1..], a, b);
      CoversMember(RoundAll(fl[1..], a), b);
      OneStays(fl[0], a, b);
      assert fl == [fl[0]] + fl[1..];
    }
  }

  lemma CoversMember(fl: seq<Region>, b: int)
    ensures Covers(fl, b) <==> exists x :: x in fl && Holds(x, b)
  {}

  lemma {:induction false} RoundedStarts(fl: seq<Region>, a: nat)
    requires a > 0
    ensures forall r | r in RoundAll(fl, a) && r.start < r.end :: Multiple(r.start, a)
  {
    hide Rounded, Multiple;
    if fl != [] {
      RoundedStarts(fl[1..], a);
      OneStays(fl[0], a, 0);
    }
  }

  lemma {:induction false} ShortEntriesStay(fl: seq<Region>, a: nat, r: Region)
    requires a > 0 && r.end <= r.start
    ensures multiset(RoundAll(fl, a))[r] == multiset(fl)[r]
  {
    if fl != [] {
      ShortEntriesStay(fl[1..], a, r);
      assert fl == [fl[0]] + fl[1..];
      assert multiset(RoundAll(fl, a)) == multiset(Rounded(fl[0], a)) + multiset(RoundAll(fl[1..], a));
    }
  }
}
