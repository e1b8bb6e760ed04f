/**
 The loop of `mark` turn by turn (tools/util.py): it edits the list that it
 scans, so it need not end. Exactly when it does, and with what.
 */
module MarkScan {
  import opened Align
  import opened PhysAllocator

  /** The list, the position in it, and the rounded end; `raised` after an exception. */
  datatype Scan = Scan(list: seq<Region>, i: nat, end: int, raised: bool)

  predicate Over(s: Scan) {
    s.raised || s.i >= |s.list|
  }

  /** One turn of the loop. */
  function Turn(s: Scan, lo: int, a: nat): Scan
    requires !Over(s)
  {
    var r := s.list[s.i];
    if !Holds(r, lo) then s.(i := s.i + 1)
    else if s.end > r.end then s.(raised := true)
    else
      var hi := Up(s.end, a);
      Scan(Splice(s.list, s.i, MarkPieces(r, lo, hi, a)), s.i + 1, hi, false)
  }

  /** The scan after `n` turns, or when it was over. */
  function After(fl: seq<Region>, base: int, end: int, a: nat, n: nat): Scan {
    if n == 0 then Scan(fl, 0, Up(end, a) - 1, false)
    else
      var s := After(fl, base, end, a, n - 1);
      if Over(s) then s else Turn(s, Down(base, a), a)
  }

  /** With the entries separate the scan ends if and only if the range is not inverted, or nothing holds its base,
      or what does begins or ends there. */
  lemma EndsIff(fl: seq<Region>, base: int, end: int, a: nat)
    requires a >= 2 && Separate(fl)
    ensures (exists n: nat :: Over(After(fl, base, end, a, n))) <==> ScanEnds(fl, base, end, a)
  {
    hide After, ScanEnds, Separate, Over;
    if ScanEnds(fl, base, end, a) {
      EndsAsMarked(fl, base, end, a);
      assert Over(After(fl, base, end, a, |fl| + 2));
    } else {
      forall n: nat
        ensures !Over(After(fl, base, end, a, n))
      {
        NeverOver(fl, base, end, a, n);
        StillRunning(After(fl, base, end, a, n));
      }
    }
  }

  /** And where it ends it leaves the list and the outcome of `mark`. */
  lemma EndsAsMarked(fl: seq<Region>, base: int, end: int, a: nat)
    requires a >= 2 && Separate(fl) && ScanEnds(fl, base, end, a)
    ensures var s, (r, fl') := After(fl, base, end, a, |fl| + 2), AfterMark(fl, base, end, a);
      Over(s) && s.list == fl' && s.raised == r.Raised?
  {
    hide After, Up, Down, MarkPieces, Splice, Separate, Holder;
    var lo, hi, k := Down(base, a), Up(end, a), Holder(fl, Down(base, a));
    if k < |fl| && hi - 1 <= fl[k].end {
      AtTurn(fl, base, end, a, |fl| + 2);
      PiecesAre(fl[k], lo, hi, a);
    } else {
      BeforeHolder(fl, base, end, a, |fl| + 2);
    }
  }

  /** Up to the entry that holds the base nothing happens; without one, or with one that is too short, nothing is edited. */
  lemma {:induction false} BeforeHolder(fl: seq<Region>, base: int, end: int, a: nat, n: nat)
    ensures var k, s := Holder(fl, Down(base, a)), After(fl, base, end, a, n);
      && (n <= k ==> s == Scan(fl, n, Up(end, a) - 1, false))
      && (n > k && (k == |fl| || Up(end, a) - 1 > fl[k].end) ==> s.list == fl && Over(s) && s.raised == (k < |fl|))
  {
    hide Up, Down, MarkPieces, Splice, Holder, Turn;
    if n > 0 {
      BeforeHolder(fl, base, end, a, n - 1);
      var s := After(fl, base, end, a, n - 1);
      if !Over(s) { Unedited(s, Down(base, a), a); }
    }
  }

  lemma Unedited(s: Scan, lo: int, a: nat)
    requires !Over(s)
    ensures !Holds(s.list[s.i], lo) ==> Turn(s, lo, a) == s.(i := s.i + 1)
    ensures Holds(s.list[s.i], lo) && s.end > s.list[s.i].end ==> Turn(s, lo, a) == s.(raised := true)
  {}

  lemma {:induction false} AtTurn(fl: seq<Region>, base: int, end: int, a: nat, n: nat)
    requires a >= 2 && Separate(fl) && ScanEnds(fl, base, end, a)
    requires var k := Holder(fl, Down(base, a)); k < |fl| && Up(end, a) - 1 <= fl[k].end && n > k
    ensures var lo, hi, k, s := Down(base, a), Up(end, a), Holder(fl, Down(base, a)), After(fl, base, end, a, n);
      var fl' := Splice(fl, k, MarkPieces(fl[k], lo, hi, a));
      s == Scan(fl', if n < |fl'| then n else if |fl'| > k then |fl'| else k + 1, hi, false)
  {
    hide Up, Down, MarkPieces, Splice, Separate, Holder, Multiple, Turn;
    var lo, hi, k := Down(base, a), Up(end, a), Holder(fl, Down(base, a));
    var fl' := Splice(fl, k, MarkPieces(fl[k], lo, hi, a));
    if n == k + 1 {
      BeforeHolder(fl, base, end, a, k);
      FirstEdit(fl, base, end, a);
    } else {
      AtTurn(fl, base, end, a, n - 1);
      if n - 1 < |fl'| { LaterTurn(fl, base, end, a, n - 1); }
    }
  }

  lemma FirstEdit(fl: seq<Region>, base: int, end: int, a: nat)
    requires a >= 2
    requires var k := Holder(fl, Down(base, a)); k < |fl| && Up(end, a) - 1 <= fl[k].end
    ensures var lo, hi, k := Down(base, a), Up(end, a), Holder(fl, Down(base, a));
      Turn(Scan(fl, k, hi - 1, false), lo, a) == Scan(Splice(fl, k, MarkPieces(fl[k], lo, hi, a)), k + 1, hi, false)
  {
    hide Up, Down, MarkPieces, Splice, Holder;
    LastByteRoundsUp(end, a);
  }

  /** After the first edit a turn changes nothing. */
  lemma LaterTurn(fl: seq<Region>, base: int, end: int, a: nat, i: nat)
    requires a >= 2 && Separate(fl) && ScanEnds(fl, base, end, a)
    requires var k := Holder(fl, Down(base, a)); k < |fl| && Up(end, a) - 1 <= fl[k].end && i > k
    requires i < |Splice(fl, Holder(fl, Down(base, a)), MarkPieces(fl[Holder(fl, Down(base, a))], Down(base, a), Up(end, a), a))|
    ensures var lo, hi, k := Down(base, a), Up(end, a), Holder(fl, Down(base, a));
      var fl' := Splice(fl, k, MarkPieces(fl[k], lo, hi, a));
      Turn(Scan(fl', i, hi, false), lo, a) == Scan(fl', i + 1, hi, false)
  {
    hide Up, Down, MarkPieces, Splice, Separate, Holder, Multiple;
    var lo, hi, k := Down(base, a), Up(end, a), Holder(fl, Down(base, a));
    var fl' := Splice(fl, k, MarkPieces(fl[k], lo, hi, a));
    if Holds(fl'[i], lo) {
      HeldAgain(fl, k, lo, hi, a, i);
      SpliceSame(fl', i);
    }
  }

  /** An inverted range splits the upper part that it leaves again at every turn. */
  lemma {:induction false} NeverOver(fl: seq<Region>, base: int, end: int, a: nat, n: nat)
    requires a >= 2 && !ScanEnds(fl, base, end, a)
    ensures var k, s := Holder(fl, Down(base, a)), After(fl, base, end, a, n);
      && !s.raised && s.i == n < |s.list|
      && (n > k ==> k < |fl| && s.end == Up(end, a) && s.list[n] == Region(Up(end, a), Up(fl[k].end, a) - 1))
  {
    hide Up, Down, MarkPieces, Holder, Multiple, Turn;
    var lo, hi, k := Down(base, a), Up(end, a), Holder(fl, Down(base, a));
    if n <= k {
      BeforeHolder(fl, base, end, a, n);
    } else {
      NeverOver(fl, base, end, a, n - 1);
      BeforeHolder(fl, base, end, a, k);
      LastByteRoundsUp(end, a);
      LastByteRoundsUp(fl[k].end, a);
      TurnSplits(After(fl, base, end, a, n - 1), lo, hi, a);
    }
  }

  lemma TurnSplits(s: Scan, lo: int, hi: int, a: nat)
    requires a >= 2 && !Over(s) && Multiple(lo, a) && Multiple(hi, a) && hi < lo && Up(s.end, a) == hi
    requires var r := s.list[s.i]; r.start < lo <= r.end && s.end <= r.end
    ensures var t, r := Turn(s, lo, a), s.list[s.i];
      !t.raised && t.i == s.i + 1 < |t.list| && t.end == hi && t.list[t.i] == Region(hi, Up(r.end, a) - 1)
  {
    hide Up, MarkPieces, Multiple;
    var r := s.list[s.i];
    SplitAgain(r, lo, hi, a);
    var p := MarkPieces(r, lo, hi, a);
    assert Splice(s.list, s.i, p)[s.i + 1] == p[1];
  }

  lemma SplitAgain(r: Region, lo: int, hi: int, a: nat)
    requires a >= 2 && Multiple(lo, a) && Multiple(hi, a) && hi < lo && r.start < lo <= r.end
    ensures var p := MarkPieces(r, lo, hi, a); |p| == 2 && p[1] == Region(hi, Up(r.end, a) - 1)
  {
    hide Up, Down, MarkPieces, Rem;
    PiecesAre(r, lo, hi, a);
  }

  /** For instance. */
  lemma InvertedNeverEnds(n: nat)
    ensures !Over(After([Region(0, 15)], 8, 4, 4, n))
  {
    hide After, Over;
    var fl := [Region(0, 15)];
    assert Down(8, 4) == 8 && Up(4, 4) == 4 && Holder(fl, 8) == 0;
    NeverOver(fl, 8, 4, 4, n);
    StillRunning(After(fl, 8, 4, 4, n));
  }

  lemma StillRunning(s: Scan)
    ensures !s.raised && s.i < |s.list| ==> !Over(s)
  {}
}
