/**
 32-bit machine words and the C operators on them.
 */
module MachineWord {

  const W: nat := 32

  /** A C `unsigned int`, as its bits from the lowest up. */
  type Word = w: seq<bool> | |w| == W witness seq(W, _ => false)

  function And(x: Word, y: Word): Word { seq(W, i requires 0 <= i < W => x[i] && y[i]) }
  function Or(x: Word, y: Word): Word { seq(W, i requires 0 <= i < W => x[i] || y[i]) }
  function Not(x: Word): Word { seq(W, i requires 0 <= i < W => !x[i]) }
  function Shl(x: Word, k: nat): Word { seq(W, i requires 0 <= i < W => i >= k && x[i - k]) }
  function Shr(x: Word, k: nat): Word { seq(W, i requires 0 <= i < W => i + k < W && x[i + k]) }

  /** The word with the lowest `n` bits set. */
  function Ones(n: nat): Word { seq(W, i requires 0 <= i < W => i < n) }

  function SetBit(w: Word, bit: nat): Word { Or(w, Shl(Ones(1), bit)) }
  function ClearBit(w: Word, bit: nat): Word { And(w, Not(Shl(Ones(1), bit))) }
  predicate TestBit(w: Word, bit: nat) { And(w, Shl(Ones(1), bit)) != Ones(0) }

  /** What the bit operators do to each bit. */
  lemma BitOperators(w: Word, bit: nat, i: nat)
    requires bit < W && i < W
    ensures SetBit(w, bit)[i] == (w[i] || i == bit)
    ensures ClearBit(w, bit)[i] == (w[i] && i != bit)
    ensures TestBit(w, bit) == w[bit]
  {
    assert And(w, Shl(Ones(1), bit))[bit] == w[bit];
    if !w[bit] { assert And(w, Shl(Ones(1), bit)) == Ones(0); }
  }

  /** The base or unit of an allocation that leaves the place to the allocator: a word of ones. */
  const ANONYMOUS: nat := 0xffff_ffff

  function ValueOf(w: seq<bool>): nat {
    if w == [] then 0 else (if w[0] then 1 else 0) + 2 * ValueOf(w[1..])
  }

  function Power2(n: nat): nat {
    if n == 0 then 1 else 2 * Power2(n - 1)
  }
}
