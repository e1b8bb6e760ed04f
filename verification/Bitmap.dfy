/**
 The bitmap allocator of libokl4 (libs/okl4/src/bitmap_*.c): one bit per unit, in
 an array of machine words whose spare bits are marked as allocated.
 */
module Bitmap {
  import opened MachineWord

  datatype Code = Ok | OutOfRange | InUse | Exhausted

  /** The unit that an anonymous request gets: the lowest free one from `from` on, or else the lowest. */
  ghost predicate IsPick(taken: seq<bool>, from: nat, u: nat) {
    && u < |taken| && !taken[u]
    && (forall v | 0 <= v < u && (from <= v || u < from) :: taken[v])
    && (u < from ==> forall v | from <= v < |taken| :: taken[v])
  }

  /** Lowest clear bit of a word, or -1. */
  method FindFirstFree(word: Word) returns (pos: int)
    ensures pos == -1 ==> forall k | 0 <= k < W :: word[k]
    ensures pos != -1 ==> 0 <= pos < W && !word[pos] && forall k | 0 <= k < pos :: word[k]
  {
    hide And, Ones, Shr;
    var w := word;
    ShiftDown(word, 0);
    for i := 0 to W
      invariant w == Shr(word, i) && forall k | 0 <= k < i :: word[k]
    {
      LowBit(w);
      ShiftDown(word, i);
      if And(w, Ones(1)) == Ones(0) {
        return i;
      }
      w := Shr(w, 1);
    }
    pos := -1;
  }

  lemma LowBit(w: Word)
    ensures And(w, Ones(1)) == Ones(0) <==> !w[0]
  {
    assert And(w, Ones(1))[0] == w[0];
    if !w[0] { assert And(w, Ones(1)) == Ones(0); }
  }

  lemma ShiftDown(w: Word, i: nat)
    requires i < W
    ensures Shr(w, i)[0] == w[i] && Shr(Shr(w, i), 1) == Shr(w, i + 1) && Shr(w, 0) == w
  {}

  class Allocator {
    const base: nat
    const size: nat
    var posGuess: nat
    const data: array<Word>

    ghost predicate Valid()
      reads this, data
    {
      && size > 0 && data.Length == (size - 1) / W + 1 && posGuess < data.Length
      && forall u | size <= u < W * data.Length :: Bit(u)
    }

    /** Bit `u` of the bitmap. */
    ghost predicate Bit(u: nat)
      requires u / W < data.Length
      reads data
    {
      data[u / W][u % W]
    }

    /** Which units are allocated, from `base` on. */
    ghost function Taken(): (s: seq<bool>)
      requires Valid()
      reads this, data
      ensures |s| == size && forall u | 0 <= u < size :: s[u] == Bit(u)
    {
      seq(size, u requires 0 <= u < size reads this, data requires Valid() => Bit(u))
    }

    constructor (base: nat, size: nat)
      requires size > 0
      ensures Valid() && fresh(data) && this.size == size && this.base == if base == ANONYMOUS then 0 else base
      ensures Taken() == seq(size, _ => false) && posGuess == 0
    {
      this.base, this.size, posGuess := if base == ANONYMOUS then 0 else base, size, 0;
      var words := (size - 1) / W + 1;
      var overflow := words * W - size;
      data := new Word[words](_ => Ones(0));
      new;
      if overflow != 0 {
        data[words - 1] := Or(data[words - 1], Shl(Not(Ones(0)), W - overflow));
      }
    }

    /** Writes one word of the bitmap. */
    method Put(unit: nat, word: Word)
      requires Valid() && unit < size
      requires forall k | 0 <= k < W && k != unit % W :: word[k] == data[unit / W][k]
      modifies data
      ensures Valid() && Taken() == old(Taken())[unit := word[unit % W]]
    {
      data[unit / W] := word;
      forall u | size <= u < W * data.Length
        ensures Bit(u)
      {
        assert old(Bit(u));
      }
    }

    method Alloc(unit: nat) returns (code: Code, granted: nat)
      requires Valid()
      modifies this, data
      ensures Valid()
      ensures unit != ANONYMOUS ==>
        && code == NamedCode(old(Taken()), base, unit) && granted == unit
        && (code == Ok ==> Taken() == old(Taken())[unit - base := true])
      ensures unit == ANONYMOUS && code == Exhausted ==> forall u | 0 <= u < size :: old(Taken())[u]
      ensures unit == ANONYMOUS && code == Ok ==>
        && base <= granted && IsPick(old(Taken()), W * old(posGuess), granted - base)
        && Taken() == old(Taken())[granted - base := true]
      ensures unit == ANONYMOUS ==> code == Ok || code == Exhausted
      ensures code != Ok ==> Taken() == old(Taken())
    {
      if unit != ANONYMOUS {
        code := NamedAllocation(unit);
        granted := unit;
      } else {
        code, granted := AnonymousAllocation();
      }
    }

    method NamedAllocation(unit: nat) returns (code: Code)
      requires Valid()
      modifies data
      ensures Valid() && code == NamedCode(old(Taken()), base, unit)
      ensures Taken() == if code == Ok then old(Taken())[unit - base := true] else old(Taken())
    {
      if unit < base || unit >= base + size {
        return OutOfRange;
      }
      var u := unit - base;
      forall k | 0 <= k < W { BitOperators(data[u / W], u % W, k); }
      if TestBit(data[u / W], u % W) {
        return InUse;
      }
      Put(u, SetBit(data[u / W], u % W));
      code := Ok;
    }

    /** The first word from `from` up to `to` with a clear bit, or `to`. */
    method FindWord(from: nat, to: nat) returns (i: nat)
      requires Valid() && from <= to <= data.Length
      ensures from <= i <= to && (i < to ==> exists k | 0 <= k < W :: !data[i][k])
      ensures forall u | W * from <= u < W * i :: Bit(u)
    {
      i := from;
      while i < to
        invariant from <= i <= to && forall u | W * from <= u < W * i :: Bit(u)
      {
        AllSet(data[i]);
        if data[i] != Not(Ones(0)) {
          break;
        }
        i := i + 1;
      }
    }

    /** Searches from the guessed word on, then the words before it. */
    method FindFree() returns (found: bool, i: nat, pos: nat)
      requires Valid()
      ensures found ==> i < data.Length && pos < W && IsPick(Taken(), W * posGuess, W * i + pos)
      ensures !found ==> forall u | 0 <= u < size :: Taken()[u]
    {
      i := FindWord(posGuess, data.Length);
      if i == data.Length {
        i := FindWord(0, posGuess);
        if i == posGuess {
          forall u | 0 <= u < size
            ensures Taken()[u]
          {
            assert Bit(u);
          }
          return false, 0, 0;
        }
      }
      var p := FindFirstFree(data[i]);
      found, pos := true, p;
      ghost var u := W * i + pos;
      assert u / W == i && u % W == pos && !Bit(u);
      forall v | 0 <= v < size && W * i <= v < u
        ensures Bit(v)
      {
        assert v / W == i && v % W < pos;
      }
      assert forall v | 0 <= v < size :: Taken()[v] == Bit(v);
    }

    method AnonymousAllocation() returns (code: Code, granted: nat)
      requires Valid()
      modifies this, data
      ensures Valid() && (code == Ok || code == Exhausted)
      ensures code == Exhausted ==> Taken() == old(Taken()) && forall u | 0 <= u < size :: old(Taken())[u]
      ensures code == Ok ==>
        && base <= granted && IsPick(old(Taken()), W * old(posGuess), granted - base)
        && Taken() == old(Taken())[granted - base := true] && posGuess == (granted - base) / W
    {
      hide IsPick;
      var found, i, pos := FindFree();
      if !found {
        return Exhausted, 0;
      }
      var u := W * i + pos;
      PickIsUnit(Taken(), W * posGuess, u);
      assert u / W == i && u % W == pos;
      ghost var was := Taken();
      posGuess := i;
      assert Taken() == was;
      forall k | 0 <= k < W { BitOperators(data[i], pos, k); }
      Put(u, SetBit(data[i], pos));
      code, granted := Ok, u + base;
    }

    method Free(unit: nat)
      requires Valid() && base <= unit < base + size
      modifies data
      ensures Valid() && Taken() == old(Taken())[unit - base := false]
    {
      var u := unit - base;
      forall k | 0 <= k < W { BitOperators(data[u / W], u % W, k); }
      Put(u, ClearBit(data[u / W], u % W));
    }
  }

  lemma PickIsUnit(taken: seq<bool>, from: nat, u: nat)
    requires IsPick(taken, from, u)
    ensures u < |taken|
  {}

  function NamedCode(taken: seq<bool>, base: nat, unit: nat): Code {
    if unit < base || unit >= base + |taken| then OutOfRange
    else if taken[unit - base] then InUse
    else Ok
  }

  lemma AllSet(w: Word)
    ensures w == Not(Ones(0)) <==> forall k | 0 <= k < W :: w[k]
  {
    if forall k | 0 <= k < W :: w[k] {
      assert w == Not(Ones(0));
    }
  }
}
