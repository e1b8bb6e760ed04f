/**
 The register accessors that tools/dd_dsl_2.py generates: mask-and-shift reads
 and read-modify-write updates of fields and bits in one machine word, proved to
 behave as independent variables, one per field.
 */
module RegisterFields {

  import opened MachineWord

  /** `get_size_shift_mask`: the mask 2 ** bits - 1 is the word of that many ones. */
  lemma MaskIsOnes(n: nat)
    requires n <= W
    ensures ValueOf(Ones(n)) == Power2(n) - 1
  {
    OnesBelow(n, W);
    assert Ones(n) == seq(W, i => i < n);
  }

  lemma {:induction false} OnesBelow(n: nat, w: nat)
    requires n <= w
    ensures ValueOf(seq(w, i => i < n)) == Power2(n) - 1
  {
    if w > 0 {
      var s := seq(w, i => i < n);
      if n > 0 {
        assert s[1..] == seq(w - 1, i => i < n - 1);
        OnesBelow(n - 1, w - 1);
      } else {
        assert s[1..] == seq(w - 1, i => i < 0);
        OnesBelow(0, w - 1);
      }
    }
  }

  // ---------------------------------------------------------------- accessors

  /** Bits `low` to `high` of the register. */
  datatype Field = Field(low: nat, high: nat) {
    function Mask(): Word { Ones(if low <= high + 1 then high - low + 1 else 0) }
  }

  /** `field_get`. */
  function Get(w: Word, f: Field): Word {
    And(Shr(w, f.low), f.Mask())
  }

  /** `field_set`. */
  function Set(w: Word, f: Field, value: Word): Word {
    Or(And(w, Not(Shl(f.Mask(), f.low))), Shl(And(value, f.Mask()), f.low))
  }

  class Register {
    var value: Word

    constructor (v: Word)
      ensures value == v
    {
      value := v;
    }

    /** The field's bits become the value's, from its lowest up; no other bit changes. */
    method SetField(f: Field, v: Word)
      requires f.low <= f.high < W
      modifies this
      ensures forall b | 0 <= b < W :: value[b] == if Has(f, b) then v[b - f.low] else old(value)[b]
      ensures value == Set(old(value), f, v)
    {
      var tmp := value;
      tmp := And(tmp, Not(Shl(f.Mask(), f.low)));
      tmp := Or(tmp, Shl(And(v, f.Mask()), f.low));
      forall b | 0 <= b < W { SetAt(value, f, v, b); }
      value := tmp;
    }

    method SetBitAt(bit: nat)
      requires bit < W
      modifies this
      ensures value[bit] && forall b | 0 <= b < W && b != bit :: value[b] == old(value)[b]
      ensures value == SetBit(old(value), bit)
    {
      var tmp := value;
      tmp := Or(tmp, Shl(Ones(1), bit));
      forall b | 0 <= b < W { BitOperators(value, bit, b); }
      value := tmp;
    }

    method ClearBitAt(bit: nat)
      requires bit < W
      modifies this
      ensures !value[bit] && forall b | 0 <= b < W && b != bit :: value[b] == old(value)[b]
      ensures value == ClearBit(old(value), bit)
    {
      var tmp := value;
      tmp := And(tmp, Not(Shl(Ones(1), bit)));
      forall b | 0 <= b < W { BitOperators(value, bit, b); }
      value := tmp;
    }

    /** The field's bits, moved down to bit 0, and nothing above them. */
    method GetField(f: Field) returns (r: Word)
      requires f.low <= f.high < W
      ensures forall b | 0 <= b < W :: r[b] == (b <= f.high - f.low && value[b + f.low])
      ensures r == Get(value, f)
    {
      var tmp := value;
      tmp := And(Shr(tmp, f.low), f.Mask());
      forall b | 0 <= b < W { GetBit(value, f, b); }
      r := tmp;
    }
  }

  // ---------------------------------------------------------------- one variable per field

  datatype Op = SetOp(field: nat, value: Word) | BitOp(bit: nat, on: bool)

  /** Fields in order of declaration, inside the register and sharing no bit. */
  ghost predicate Separate(fields: seq<Field>, size: nat) {
    && size <= W
    && (forall i | 0 <= i < |fields| :: fields[i].low <= fields[i].high < size)
    && (forall i, j | 0 <= i < j < |fields| :: fields[i].high < fields[j].low || fields[j].high < fields[i].low)
  }

  predicate Has(f: Field, bit: nat) {
    f.low <= bit <= f.high
  }

  predicate OpOk(op: Op, fields: seq<Field>, size: nat) {
    match op
    case SetOp(k, _) => k < |fields|
    case BitOp(bit, _) => bit < size
  }

  predicate OpsOk(ops: seq<Op>, fields: seq<Field>, size: nat) {
    forall i | 0 <= i < |ops| :: OpOk(ops[i], fields, size)
  }

  /** The packed register. */
  function Apply(w: Word, op: Op, fields: seq<Field>): Word
    requires op.SetOp? ==> op.field < |fields|
  {
    match op
    case SetOp(k, v) => Set(w, fields[k], v)
    case BitOp(bit, on) => if on then SetBit(w, bit) else ClearBit(w, bit)
  }

  /** The same operation on one variable per field; a bit operation touches the field that has the bit. */
  function ApplyToField(x: Word, op: Op, k: nat, f: Field): Word {
    match op
    case SetOp(j, v) => if j == k then And(v, f.Mask()) else x
    case BitOp(bit, on) =>
      if !Has(f, bit) then x
      else if on then SetBit(x, bit - f.low)
      else ClearBit(x, bit - f.low)
  }

  function Exec(w: Word, ops: seq<Op>, fields: seq<Field>, size: nat): Word
    requires OpsOk(ops, fields, size)
  {
    if ops == [] then w
    else
      var n := |ops| - 1;
      Apply(Exec(w, ops[..n], fields, size), ops[n], fields)
  }

  function ExecOnField(x: Word, ops: seq<Op>, k: nat, f: Field): Word {
    if ops == [] then x
    else
      var n := |ops| - 1;
      ApplyToField(ExecOnField(x, ops[..n], k, f), ops[n], k, f)
  }

  /** One operation on the packed word is the same operation on each field's own variable. */
  lemma FieldsAreIndependent(w: Word, op: Op, fields: seq<Field>, size: nat, k: nat)
    requires Separate(fields, size) && OpOk(op, fields, size) && k < |fields|
    ensures Get(Apply(w, op, fields), fields[k]) == ApplyToField(Get(w, fields[k]), op, k, fields[k])
  {
    var f := fields[k];
    match op
    case SetOp(j, v) => SetThenGet(w, fields[j], f, v, j == k);
    case BitOp(bit, on) => BitThenGet(w, bit, on, f);
  }

  lemma SetThenGet(w: Word, f: Field, g: Field, v: Word, same: bool)
    requires f.low <= f.high < W && g.low <= g.high < W
    requires if same then f == g else f.high < g.low || g.high < f.low
    ensures Get(Set(w, f, v), g) == if same then And(v, f.Mask()) else Get(w, g)
  {
    var x, y := Get(Set(w, f, v), g), if same then And(v, f.Mask()) else Get(w, g);
    forall i | 0 <= i < W
      ensures x[i] == y[i]
    {
      GetBit(Set(w, f, v), g, i);
      GetBit(w, g, i);
      if i <= g.high - g.low { SetAt(w, f, v, i + g.low); }
    }
  }

  lemma GetBit(w: Word, g: Field, i: nat)
    requires i < W && g.low <= g.high < W
    ensures Get(w, g)[i] == (i <= g.high - g.low && w[i + g.low])
  {}

  /** Set changes the field's bits to the value's, and no others. */
  lemma SetAt(w: Word, f: Field, v: Word, b: nat)
    requires f.low <= f.high < W && b < W
    ensures Set(w, f, v)[b] == if Has(f, b) then v[b - f.low] else w[b]
  {}

  lemma BitThenGet(w: Word, bit: nat, on: bool, g: Field)
    requires bit < W && g.low <= g.high < W
    ensures var w' := if on then SetBit(w, bit) else ClearBit(w, bit);
      Get(w', g) == ApplyToField(Get(w, g), BitOp(bit, on), 0, g)
  {
    var w' := if on then SetBit(w, bit) else ClearBit(w, bit);
    var x, y := Get(w', g), ApplyToField(Get(w, g), BitOp(bit, on), 0, g);
    forall i | 0 <= i < W
      ensures x[i] == y[i]
    {
      GetBit(w', g, i);
      GetBit(w, g, i);
    }
  }

  /** Any sequence of accesses: the packed word holds, in each field, what a variable of its own would. */
  lemma {:induction false} PackedRefinesFields(w: Word, ops: seq<Op>, fields: seq<Field>, size: nat, k: nat)
    requires Separate(fields, size) && k < |fields| && OpsOk(ops, fields, size)
    ensures Get(Exec(w, ops, fields, size), fields[k]) == ExecOnField(Get(w, fields[k]), ops, k, fields[k])
  {
    if ops != [] {
      var n := |ops| - 1;
      PackedRefinesFields(w, ops[..n], fields, size, k);
      FieldsAreIndependent(Exec(w, ops[..n], fields, size), ops[n], fields, size, k);
    }
  }

  /** A read returns the last value written, masked, if nothing has touched the field since. */
  lemma {:induction false} LastWriteWins(w: Word, ops: seq<Op>, fields: seq<Field>, size: nat, j: nat)
    requires Separate(fields, size) && OpsOk(ops, fields, size)
    requires j < |ops| && ops[j].SetOp? && OpOk(ops[j], fields, size)
    requires forall i | j < i < |ops| ::
      if ops[i].SetOp? then ops[i].field != ops[j].field else !Has(fields[ops[j].field], ops[i].bit)
    ensures Get(Exec(w, ops, fields, size), fields[ops[j].field]) == And(ops[j].value, fields[ops[j].field].Mask())
  {
    var k, n := ops[j].field, |ops| - 1;
    FieldsAreIndependent(Exec(w, ops[..n], fields, size), ops[n], fields, size, k);
    if j < n {
      LastWriteWins(w, ops[..n], fields, size, j);
    }
  }

  /** A bit that is in no field changes only when it is set or cleared by name. */
  lemma {:induction false} UnnamedBitsKept(w: Word, ops: seq<Op>, fields: seq<Field>, size: nat, b: nat)
    requires Separate(fields, size) && b < W && OpsOk(ops, fields, size)
    requires forall i | 0 <= i < |ops| ::
      OpOk(ops[i], fields, size) && if ops[i].SetOp? then !Has(fields[ops[i].field], b) else ops[i].bit != b
    ensures Exec(w, ops, fields, size)[b] == w[b]
  {
    if ops != [] {
      var n := |ops| - 1;
      UnnamedBitsKept(w, ops[..n], fields, size, b);
      var x := Exec(w, ops[..n], fields, size);
      match ops[n]
      case SetOp(k, v) => SetAt(x, fields[k], v, b);
      case BitOp(bit, on) =>
    }
  }
}
