/** What the scalar types hold, by the value of a number and the instants of a text. */
module ScalarTypes {
  import opened JsonTree
  import opened LogicalTypes

  function Pow2(k: nat): (p: int)
    ensures p > 0
  {
    if k == 0 then 1 else 2 * Pow2(k - 1)
  }

  lemma {:induction false} Pow2Sum(j: nat, k: nat)
    ensures Pow2(j + k) == Pow2(j) * Pow2(k)
    decreases k
  {
    if k > 0 {
      Pow2Sum(j, k - 1);
      var a, b := Pow2(j), Pow2(k - 1);
      assert a * (2 * b) == 2 * (a * b);
    }
  }

  lemma {:induction false} PowersOfTwo()
    ensures Pow2(7) == 0x80 && Pow2(8) == 0x100 && Pow2(15) == 0x8000 && Pow2(16) == 0x1_0000
    ensures Pow2(31) == 0x8000_0000 && Pow2(32) == 0x1_0000_0000
    ensures Pow2(63) == 0x8000_0000_0000_0000 && Pow2(64) == 0x1_0000_0000_0000_0000
  {
    assert Pow2(7) == 0x80 && Pow2(8) == 0x100;
    Pow2Sum(8, 7);
    Pow2Sum(8, 8);
    Pow2Sum(16, 15);
    Pow2Sum(16, 16);
    Pow2Sum(32, 31);
    Pow2Sum(32, 32);
  }

  /** Rounding to single precision gives infinity from 2^128 - 2^103 on. */
  predicate RoundsToFinite(r: real) {
    var limit := Pow2(128) - Pow2(103);
    -limit as real < r < limit as real
  }

  lemma {:induction false} SingleOverflow(r: real)
    ensures RoundsToFinite(r) <==> FitsF32(r)
  {
    PowersOfTwo();
    Pow2Sum(64, 64);
    Pow2Sum(64, 32);
    Pow2Sum(96, 7);
  }

  /** The number is an integer between the bounds, the upper one excluded. */
  predicate IntegerIn(n: Number, low: int, high: int) {
    match n
    case PosInt(u) => low <= u < high
    case NegInt(i) => low <= i < high
    case Float(_) => false
  }

  /** Integer types hold the integers of their width, a single the numbers that do not
  round to infinity, a double every number. */
  predicate NumberFits(n: Number, t: LogicalType) {
    match t
    case Int8 => IntegerIn(n, -Pow2(7), Pow2(7))
    case Int16 => IntegerIn(n, -Pow2(15), Pow2(15))
    case Int32 => IntegerIn(n, -Pow2(31), Pow2(31))
    case Int64 => IntegerIn(n, -Pow2(63), Pow2(63))
    case UInt8 => IntegerIn(n, 0, Pow2(8))
    case UInt16 => IntegerIn(n, 0, Pow2(16))
    case UInt32 => IntegerIn(n, 0, Pow2(32))
    case UInt64 => IntegerIn(n, 0, Pow2(64))
    case Float32 =>
      RoundsToFinite(match n case PosInt(u) => u as real case NegInt(i) => i as real case Float(f) => f)
    case Float64 => true
    case _ => false
  }

  lemma {:induction false} IntegersExact(n: Number, t: LogicalType)
    requires !t.Float32? && !t.Float64?
    ensures DomNumber(n, t) <==> NumberFits(n, t)
  {
    PowersOfTwo();
  }

  lemma {:induction false} SinglesExact(n: Number)
    ensures DomNumber(n, Float32) <==> NumberFits(n, Float32)
  {
    SingleOverflow(AsF64(n));
  }

  lemma {:induction false} NumbersExact(n: Number, t: LogicalType)
    ensures DomNumber(n, t) <==> NumberFits(n, t)
  {
    match t
    case Float32 => SinglesExact(n);
    case Float64 =>
    case _ => IntegersExact(n, t);
  }

  /** What a scalar type accepts: nulls where they may be, and otherwise values of its own
  kind. Text stands for dates and for instants with or without an offset. */
  predicate ScalarFits(v: Json, t: LogicalType, nullable: bool)
    requires !t.List? && !t.Struct?
  {
    match v
    case Null => nullable || t == NullType
    case Bool(_) => t == Boolean
    case Num(n) => NumberFits(n, t)
    case Str(s) =>
      || t == Utf8
      || (t == Date32 && s.isDate)
      || (t.Timestamp? && t.timezone.Some? && s.zoned.Some?)
      || (t.Timestamp? && t.timezone.None? && s.naive.Some?)
    case _ => false
  }

  lemma {:induction false} NumberValuesExact(n: Number, t: LogicalType, nullable: bool, mode: Repeats)
    requires !t.List? && !t.Struct?
    ensures DomValue(Num(n), t, nullable) <==> NumberFits(n, t)
    ensures StreamValue(Num(n), t, nullable, mode) <==> NumberFits(n, t)
  {
    NumberViewsAgree(n, t);
    NumbersExact(n, t);
  }

  /** Both validators hold scalars to that. */
  lemma {:induction false} ScalarsExact(v: Json, t: LogicalType, nullable: bool, mode: Repeats)
    requires !t.List? && !t.Struct?
    ensures DomValue(v, t, nullable) <==> ScalarFits(v, t, nullable)
    ensures StreamValue(v, t, nullable, mode) <==> ScalarFits(v, t, nullable)
  {
    match v
    case Num(n) => NumberValuesExact(n, t, nullable, mode);
    case _ =>
  }
}
