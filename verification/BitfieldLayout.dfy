/**
 The bitfield structs that tools/dd_dsl.py writes for a device register, for
 both byte orders. Members are laid out as section 6.7.2.1 of ISO/IEC 9899:1999
 leaves to the implementation: from the low bit up on a little-endian target,
 from the high bit down on a big-endian one.
 */
module BitfieldLayout {
  import opened Optional

  /** A declared variable: bits `start` to `end`, or the one bit `start`. */
  datatype Variable = Variable(name: string, start: int, end: Option<int>) {
    function Top(): int {
      if end.None? then start else end.value
    }

    function Width(): int {
      Top() - start + 1
    }
  }

  datatype Member = Padding(width: int) | Field(width: int)

  // ---------------------------------------------------------------- what is written

  function LittleNext(v: Variable, pos: int): int {
    (if v.start > pos then v.start else pos) + v.Width()
  }

  function LittleLead(v: Variable, pos: int): seq<Member> {
    if v.start > pos then [Padding(v.start - pos), Field(v.Width())] else [Field(v.Width())]
  }

  function Little(vars: seq<Variable>, pos: int): seq<Member> {
    if vars == [] then [] else LittleLead(vars[0], pos) + Little(vars[1..], LittleNext(vars[0], pos))
  }

  function BigNext(v: Variable, pos: int): int {
    (if v.Top() < pos then v.Top() else pos) - v.Width()
  }

  function BigLead(v: Variable, pos: int): seq<Member> {
    if v.Top() < pos then [Padding(pos - v.Top()), Field(v.Width())] else [Field(v.Width())]
  }

  /** From the last variable to the first. */
  function Big(vars: seq<Variable>, pos: int): seq<Member>
    decreases |vars|
  {
    if vars == [] then []
    else
      var n := |vars| - 1;
      BigLead(vars[n], pos) + Big(vars[..n], BigNext(vars[n], pos))
  }

  method WriteLittleEndian(vars: seq<Variable>) returns (members: seq<Member>)
    ensures members == Little(vars, 0)
  {
    hide Little;
    var pos := 0;
    members := [];
    assert vars[0..] == vars;
    for i := 0 to |vars|
      invariant Little(vars, 0) == members + Little(vars[i..], pos)
    {
      var v := vars[i];
      LittleStep(vars, i, pos, members);
      if v.start > pos {
        var padSize := v.start - pos;
        members := members + [Padding(padSize)];
        pos := pos + padSize;
      }
      var size := if v.end.None? then 1 else v.end.value - v.start + 1;
      members := members + [Field(size)];
      pos := pos + size;
    }
    LittleDone(vars, pos);
  }

  lemma LittleStep(vars: seq<Variable>, i: nat, pos: int, members: seq<Member>)
    requires i < |vars|
    ensures members + Little(vars[i..], pos) ==
      (if vars[i].start > pos then members + [Padding(vars[i].start - pos)] else members) + [Field(vars[i].Width())] +
      Little(vars[i + 1..], LittleNext(vars[i], pos))
  {
    assert vars[i..][1..] == vars[i + 1..];
  }

  lemma LittleDone(vars: seq<Variable>, pos: int)
    ensures Little(vars[|vars|..], pos) == []
  {}

  method WriteBigEndian(vars: seq<Variable>, regSize: int) returns (members: seq<Member>)
    ensures members == Big(vars, regSize - 1)
  {
    hide Big;
    var pos := regSize - 1;
    members := [];
    var i := |vars|;
    assert vars[..i] == vars;
    while i > 0
      invariant 0 <= i <= |vars|
      invariant Big(vars, regSize - 1) == members + Big(vars[..i], pos)
    {
      i := i - 1;
      BigStep(vars, i, pos, members);
      var v := vars[i];
      var end := if v.end.None? then v.start else v.end.value;
      if end < pos {
        var padSize := pos - end;
        members := members + [Padding(padSize)];
        pos := pos - padSize;
      }
      var size := end - v.start + 1;
      members := members + [Field(size)];
      pos := pos - size;
    }
    BigDone(vars, pos);
  }

  lemma BigStep(vars: seq<Variable>, i: nat, pos: int, members: seq<Member>)
    requires i < |vars|
    ensures members + Big(vars[..i + 1], pos) ==
      (if vars[i].Top() < pos then members + [Padding(pos - vars[i].Top())] else members) + [Field(vars[i].Width())] +
      Big(vars[..i], BigNext(vars[i], pos))
  {
    assert vars[..i + 1][..i] == vars[..i];
  }

  lemma BigDone(vars: seq<Variable>, pos: int)
    ensures Big(vars[..0], pos) == []
  {}

  // ---------------------------------------------------------------- where the compiler puts it

  /** Low bits of the fields, the first member at bit `at`. */
  function FromLow(members: seq<Member>, at: int): seq<int> {
    if members == [] then []
    else (if members[0].Field? then [at] else []) + FromLow(members[1..], at + members[0].width)
  }

  /** High bits of the fields, the first member at bit `at` and down. */
  function FromHigh(members: seq<Member>, at: int): seq<int> {
    if members == [] then []
    else (if members[0].Field? then [at] else []) + FromHigh(members[1..], at - members[0].width)
  }

  function Starts(vars: seq<Variable>): (r: seq<int>)
    ensures |r| == |vars| && forall i | 0 <= i < |r| :: r[i] == vars[i].start
  {
    if vars == [] then [] else [vars[0].start] + Starts(vars[1..])
  }

  /** Top bits, from the last variable to the first. */
  function TopsDown(vars: seq<Variable>): (r: seq<int>)
    ensures |r| == |vars| && forall i | 0 <= i < |r| :: r[i] == vars[|vars| - 1 - i].Top()
  {
    if vars == [] then []
    else
      var n := |vars| - 1;
      [vars[n].Top()] + TopsDown(vars[..n])
  }

  // ---------------------------------------------------------------- when they agree

  /** Each variable is above the one before it, the first at or above bit `low`. */
  ghost predicate Ascending(vars: seq<Variable>, low: int) {
    && (forall i | 0 <= i < |vars| :: low <= vars[i].start)
    && (forall i, j | 0 <= i < j < |vars| :: vars[i].Top() < vars[j].start)
  }

  ghost predicate Proper(vars: seq<Variable>) {
    forall v | v in vars :: v.start <= v.Top()
  }

  lemma {:induction false} LittlePlacement(vars: seq<Variable>, pos: int)
    requires Proper(vars)
    ensures FromLow(Little(vars, pos), pos) == Starts(vars) <==> Ascending(vars, pos)
  {
    hide Little, Ascending, FromLow, Starts, Proper;
    if vars == [] {
      EmptyPlacement(pos);
    } else {
      var v, next := vars[0], LittleNext(vars[0], pos);
      FirstPeels(vars);
      LittlePlacement(vars[1..], next);
      LittleFirst(vars, pos);
      PeelEqual(next - v.Width(), FromLow(Little(vars[1..], next), next), v.start, Starts(vars[1..]));
      AscendingPeels(vars, pos);
    }
  }

  lemma EmptyPlacement(pos: int)
    ensures FromLow(Little([], pos), pos) == Starts([]) && Ascending([], pos)
    ensures FromHigh(Big([], pos), pos) == TopsDown([]) && Descending([], pos)
  {}

  lemma FirstPeels(vars: seq<Variable>)
    requires vars != [] && Proper(vars)
    ensures Proper(vars[1..]) && vars[0].start <= vars[0].Top()
    ensures Starts(vars) == [vars[0].start] + Starts(vars[1..])
  {
    assert vars[0] in vars;
  }

  lemma LastPeels(vars: seq<Variable>)
    requires vars != [] && Proper(vars)
    ensures var n := |vars| - 1;
      && Proper(vars[..n]) && vars[n].start <= vars[n].Top()
      && TopsDown(vars) == [vars[n].Top()] + TopsDown(vars[..n])
  {
    assert vars[|vars| - 1] in vars;
  }

  lemma LittleFirst(vars: seq<Variable>, pos: int)
    requires vars != []
    ensures var v, next := vars[0], LittleNext(vars[0], pos);
      FromLow(Little(vars, pos), pos) == [next - v.Width()] + FromLow(Little(vars[1..], next), next)
  {
    hide FromLow, FromHigh, Little;
    var v := vars[0];
    LittleUnfolds(vars, pos);
    FirstField(LittleLead(v, pos), Little(vars[1..], LittleNext(v, pos)), pos);
  }

  lemma BigFirst(vars: seq<Variable>, pos: int)
    requires vars != []
    ensures var n := |vars| - 1;
      var v, next := vars[n], BigNext(vars[n], pos);
      FromHigh(Big(vars, pos), pos) == [next + v.Width()] + FromHigh(Big(vars[..n], next), next)
  {
    hide FromLow, FromHigh, Big;
    var n := |vars| - 1;
    BigUnfolds(vars, pos);
    FirstField(BigLead(vars[n], pos), Big(vars[..n], BigNext(vars[n], pos)), pos);
  }

  lemma LittleUnfolds(vars: seq<Variable>, pos: int)
    requires vars != []
    ensures Little(vars, pos) == LittleLead(vars[0], pos) + Little(vars[1..], LittleNext(vars[0], pos))
  {}

  lemma BigUnfolds(vars: seq<Variable>, pos: int)
    requires vars != []
    ensures var n := |vars| - 1; Big(vars, pos) == BigLead(vars[n], pos) + Big(vars[..n], BigNext(vars[n], pos))
  {}

  lemma PeelEqual(x: int, s: seq<int>, y: int, t: seq<int>)
    ensures [x] + s == [y] + t <==> x == y && s == t
  {
    if [x] + s == [y] + t {
      assert ([x] + s)[0] == ([y] + t)[0];
      assert ([x] + s)[1..] == s && ([y] + t)[1..] == t;
    }
  }

  /** Reading past the padding to the first field. */
  lemma FirstField(lead: seq<Member>, more: seq<Member>, at: int)
    requires |lead| == 1 || (|lead| == 2 && lead[0].Padding?)
    requires lead[|lead| - 1].Field?
    ensures var pad, w := if |lead| == 2 then lead[0].width else 0, lead[|lead| - 1].width;
      && FromLow(lead + more, at) == [at + pad] + FromLow(more, at + pad + w)
      && FromHigh(lead + more, at) == [at - pad] + FromHigh(more, at - pad - w)
  {
    hide FromLow, FromHigh;
    var f := lead[|lead| - 1];
    if |lead| == 2 {
      NextMember(lead[0], [f] + more, at);
      NextMember(f, more, at + lead[0].width);
      NextMember(f, more, at - lead[0].width);
      assert lead + more == [lead[0]] + ([f] + more);
    } else {
      NextMember(f, more, at);
      assert lead + more == [f] + more;
    }
  }

  lemma NextMember(m: Member, more: seq<Member>, at: int)
    ensures FromLow([m] + more, at) == (if m.Field? then [at] else []) + FromLow(more, at + m.width)
    ensures FromHigh([m] + more, at) == (if m.Field? then [at] else []) + FromHigh(more, at - m.width)
  {
    assert ([m] + more)[1..] == more;
  }

  lemma AscendingPeels(vars: seq<Variable>, low: int)
    requires vars != [] && Proper(vars)
    ensures Ascending(vars, low) <==> low <= vars[0].start && Ascending(vars[1..], vars[0].Top() + 1)
  {
    var rest := vars[1..];
    if low <= vars[0].start && Ascending(rest, vars[0].Top() + 1) {
      assert vars[0].start <= vars[0].Top();
      forall i, j | 0 <= i < j < |vars|
        ensures vars[i].Top() < vars[j].start
      {
        assert vars[j] == rest[j - 1];
        if i > 0 { assert vars[i] == rest[i - 1]; }
      }
      forall i | 0 <= i < |vars|
        ensures low <= vars[i].start
      {
        if i > 0 { assert vars[i] == rest[i - 1]; }
      }
    }
  }

  /** Each variable is below the one after it, the last within bit `high`. */
  ghost predicate Descending(vars: seq<Variable>, high: int) {
    && (forall i | 0 <= i < |vars| :: vars[i].Top() <= high)
    && (forall i, j | 0 <= i < j < |vars| :: vars[i].Top() < vars[j].start)
  }

  lemma {:induction false} BigPlacement(vars: seq<Variable>, pos: int)
    requires Proper(vars)
    ensures FromHigh(Big(vars, pos), pos) == TopsDown(vars) <==> Descending(vars, pos)
    decreases |vars|
  {
    hide Big, Descending, FromHigh, TopsDown, Proper;
    if vars == [] {
      EmptyPlacement(pos);
    } else {
      var n := |vars| - 1;
      var v, next := vars[n], BigNext(vars[n], pos);
      LastPeels(vars);
      BigPlacement(vars[..n], next);
      BigFirst(vars, pos);
      PeelEqual(next + v.Width(), FromHigh(Big(vars[..n], next), next), v.Top(), TopsDown(vars[..n]));
      DescendingPeels(vars, pos);
    }
  }

  lemma DescendingPeels(vars: seq<Variable>, high: int)
    requires vars != [] && Proper(vars)
    ensures var n := |vars| - 1;
      Descending(vars, high) <==> vars[n].Top() <= high && Descending(vars[..n], vars[n].start - 1)
  {
    var n := |vars| - 1;
    var rest := vars[..n];
    if vars[n].Top() <= high && Descending(rest, vars[n].start - 1) {
      forall i | 0 <= i < |vars|
        ensures vars[i].Top() <= high
      {
        assert vars[n].start <= vars[n].Top();
        if i < n { assert vars[i] == rest[i]; }
      }
      forall i, j | 0 <= i < j < |vars|
        ensures vars[i].Top() < vars[j].start
      {
        assert vars[i] == rest[i];
        if j < n { assert vars[j] == rest[j]; }
      }
    }
  }

  /** Sorted, non-overlapping and inside a register of `size` bits. */
  ghost predicate WellPlaced(vars: seq<Variable>, size: int) {
    Ascending(vars, 0) && forall v | v in vars :: v.Top() < size
  }

  /** Every field is on its declared bits in both structs, for exactly the lists that are well placed. */
  lemma BothOrdersAgree(vars: seq<Variable>, size: int)
    requires Proper(vars)
    ensures FromLow(Little(vars, 0), 0) == Starts(vars) && FromHigh(Big(vars, size - 1), size - 1) == TopsDown(vars)
      <==> WellPlaced(vars, size)
  {
    LittlePlacement(vars, 0);
    BigPlacement(vars, size - 1);
    if WellPlaced(vars, size) {
      forall i | 0 <= i < |vars|
        ensures vars[i].Top() <= size - 1
      {
        assert vars[i] in vars;
      }
    }
  }
}
