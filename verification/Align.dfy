/**
 Alignment arithmetic shared by the build tools: `align_up` and `align_down`
 of tools/pyelf/elf/util.py. An alignment of zero leaves the value alone.
 */
module Align {

  /** Python's `v % a` for a positive `a`, in terms of sums only; see RemIsModulo. */
  function Rem(v: int, a: nat): (r: nat)
    requires a > 0
    ensures r < a
    decreases v < 0, if v < 0 then -v else v
  {
    if v < 0 then Rem(v + a, a)
    else if v < a then v
    else Rem(v - a, a)
  }

  predicate Multiple(v: int, a: nat) {
    a > 0 && Rem(v, a) == 0
  }

  /** The greatest multiple of `a` that is at most `v`. */
  function Down(v: int, a: nat): (r: int)
    ensures if a == 0 then r == v else r <= v < r + a && Multiple(r, a) && (Multiple(v, a) ==> r == v)
  {
    if a == 0 then v
    else
      LessRemainder(v, a);
      v - Rem(v, a)
  }

  /** The least multiple of `a` that is at least `v`. */
  function Up(v: int, a: nat): (r: int)
    ensures if a == 0 then r == v else v <= r < v + a && Multiple(r, a) && (Multiple(v, a) ==> r == v)
  {
    if a == 0 then v
    else
      LessRemainder(v, a);
      if Rem(v, a) != 0 then v + a - Rem(v, a) else v
  }

  /** `Rem` is the Euclidean remainder, which for a positive divisor is Python's. */
  lemma RemIsModulo(v: int, a: nat)
    requires a > 0
    ensures Rem(v, a) == v % a
  {
    var q := Quotient(v, a);
    RemainderUnique(v, a, q, Rem(v, a));
  }

  lemma {:induction false} Quotient(v: int, a: nat) returns (q: int)
    requires a > 0
    ensures v == q * a + Rem(v, a)
    decreases v < 0, if v < 0 then -v else v
  {
    if v < 0 {
      q := Quotient(v + a, a);
      OneLess(q, a);
      q := q - 1;
    } else if v < a {
      q := 0;
    } else {
      q := Quotient(v - a, a);
      OneLess(q + 1, a);
      q := q + 1;
    }
  }

  lemma OneLess(q: int, a: int)
    ensures (q - 1) * a == q * a - a
  {}

  /** Division has one quotient and one remainder. */
  lemma RemainderUnique(x: int, m: nat, q: int, r: nat)
    requires m > 0 && x == q * m + r && r < m
    ensures x % m == r
  {
    var q', r' := x / m, x % m;
    Division(x, m);
    if q < q' {
      AtLeastOneMore(q, q', m);
    } else if q' < q {
      AtLeastOneMore(q', q, m);
    }
  }

  lemma Division(x: int, m: nat)
    requires m > 0
    ensures x == (x / m) * m + x % m && 0 <= x % m < m
  {}

  lemma AtLeastOneMore(q: int, q': int, m: nat)
    requires q < q'
    ensures q * m + m <= q' * m
  {
    Monotone(q + 1, q', m);
    OneLess(q + 1, m);
  }

  lemma Monotone(x: int, y: int, m: nat)
    requires x <= y
    ensures x * m <= y * m
  {
    var d := y - x;
    assert d * m >= 0;
    assert y * m == x * m + d * m;
  }

  lemma {:induction false} LessRemainder(v: int, a: nat)
    requires a > 0
    ensures Multiple(v - Rem(v, a), a) && Multiple(v + a - Rem(v, a), a)
    decreases v < 0, if v < 0 then -v else v
  {
    if v < 0 {
      LessRemainder(v + a, a);
    } else if v >= a {
      LessRemainder(v - a, a);
    }
  }

  /** Sums and differences of multiples are multiples. */
  lemma {:induction false} MultipleSum(x: int, y: int, a: nat)
    requires Multiple(x, a) && Multiple(y, a)
    ensures Multiple(x + y, a) && Multiple(x - y, a)
    decreases y < 0, if y < 0 then -y else y
  {
    if y < 0 {
      MultipleSum(x, y + a, a);
    } else if y >= a {
      MultipleSum(x, y - a, a);
    }
  }

  /** Divisibility is transitive. */
  lemma {:induction false} MultipleTrans(x: int, b: nat, a: nat)
    requires Multiple(x, b) && Multiple(b, a)
    ensures Multiple(x, a)
    decreases x < 0, if x < 0 then -x else x
  {
    if x < 0 {
      MultipleTrans(x + b, b, a);
      MultipleSum(x + b, b, a);
    } else if x >= b {
      MultipleTrans(x - b, b, a);
      MultipleSum(x - b, b, a);
    }
  }

  /** Distinct multiples are at least one alignment apart. */
  lemma MultipleGap(x: int, y: int, a: nat)
    requires Multiple(x, a) && Multiple(y, a)
    ensures x < y ==> x + a <= y
  {
    MultipleSum(y, x, a);
  }

  lemma ZeroIsMultiple(a: nat)
    requires a > 0
    ensures Multiple(0, a)
  {}

  /** Equal remainders differ by a multiple, and only they do. */
  lemma SameRemainder(x: int, y: int, a: nat)
    requires a > 0
    ensures Multiple(x - y, a) <==> Rem(x, a) == Rem(y, a)
  {
    hide Rem, Multiple;
    var r: int, s: int := Rem(x, a), Rem(y, a);
    LessRemainder(x, a);
    LessRemainder(y, a);
    MultipleSum(x - r, y - s, a);
    if r == s {
      assert x - y == (x - r) - (y - s);
    }
    if Multiple(x - y, a) {
      MultipleSum(x - y, (x - r) - (y - s), a);
      assert (x - y) - ((x - r) - (y - s)) == r - s;
      SmallMultiple(r - s, a);
    }
  }

  lemma SmallMultiple(d: int, a: nat)
    requires Multiple(d, a) && d < a && 0 < d + a
    ensures d == 0
  {
    ZeroIsMultiple(a);
    MultipleGap(0, d, a);
    MultipleGap(d, 0, a);
  }
}
