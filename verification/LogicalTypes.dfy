/** Logical schema types and the two validators the JSON reader holds against
them: the DOM validator, which checks a collapsed value, and the streaming
validator, which checks tokens as they arrive. */
module LogicalTypes {
  import opened JsonTree
  import opened Options

  datatype TimeUnit = Second | Millisecond | Microsecond | Nanosecond

  datatype LogicalType =
    | NullType
    | Boolean
    | Int8 | Int16 | Int32 | Int64
    | UInt8 | UInt16 | UInt32 | UInt64
    | Float32 | Float64
    | Utf8
    | Binary
    | Date32
    | Timestamp(unit: TimeUnit, timezone: Option<string>)
    | List(element: LogicalType)
    | Struct(fields: seq<Field>)

  datatype Field = Field(name: string, dataType: LogicalType, nullable: bool)

  /** Field names are distinct at every level, as schema validation demands. */
  predicate WellFormed(t: LogicalType) {
    match t
    case List(e) => WellFormed(e)
    case Struct(fs) => DistinctFields(fs) && forall i | 0 <= i < |fs| :: WellFormed(fs[i].dataType)
    case _ => true
  }

  predicate DistinctFields(fs: seq<Field>) {
    forall i, j | 0 <= i < j < |fs| :: fs[i].name != fs[j].name
  }

  predicate WellFormedFields(fs: seq<Field>) {
    DistinctFields(fs) && forall i | 0 <= i < |fs| :: WellFormed(fs[i].dataType)
  }

  predicate HasField(fs: seq<Field>, name: string) {
    exists i | 0 <= i < |fs| :: fs[i].name == name
  }

  /** Position of the first field called `name`, or the length if there is none. */
  function FieldIndex(fs: seq<Field>, name: string): (k: nat)
    ensures k <= |fs|
    ensures k < |fs| <==> HasField(fs, name)
    ensures k < |fs| ==> fs[k].name == name
    ensures forall i | 0 <= i < k :: fs[i].name != name
  {
    if fs == [] then 0
    else if fs[0].name == name then 0
    else 1 + FieldIndex(fs[1..], name)
  }

  lemma {:induction false} FieldIndexUnique(fs: seq<Field>, i: nat)
    requires DistinctFields(fs) && i < |fs|
    ensures FieldIndex(fs, fs[i].name) == i
  {
  }

  lemma {:induction false} IndexOfUnique(ms: seq<Member>, i: nat)
    requires DistinctNames(ms) && i < |ms|
    ensures IndexOf(ms, ms[i].name) == i
  {
  }

  // ---------------------------------------------------------------- scalars

  /** Half way between the largest finite single-precision value and the next
  binade: 2^128 - 2^103. Rounding from here on gives infinity. */
  const F32_OVERFLOW: real := 340282356779733661637539395458142568448.0

  predicate FitsF32(r: real) {
    -F32_OVERFLOW < r < F32_OVERFLOW
  }

  /** Read as a signed 64-bit integer. */
  function AsI64(n: Number): (r: Option<int>) {
    match n
    case PosInt(u) => if u < 0x8000_0000_0000_0000 then Some(u) else None
    case NegInt(i) => Some(i)
    case Float(_) => None
  }

  /** Read as an unsigned 64-bit integer. */
  function AsU64(n: Number): (r: Option<int>) {
    match n
    case PosInt(u) => Some(u)
    case _ => None
  }

  /** Read as a finite double; rounding of wide integers is not modelled. */
  function AsF64(n: Number): (r: real) {
    match n
    case PosInt(u) => u as real
    case NegInt(i) => i as real
    case Float(f) => f
  }

  predicate InRange(r: Option<int>, low: int, high: int) {
    r.Some? && low <= r.value < high
  }

  /** A number under a scalar type, the way a finished value is asked. */
  predicate DomNumber(n: Number, t: LogicalType) {
    match t
    case Int8 => InRange(AsI64(n), -0x80, 0x80)
    case Int16 => InRange(AsI64(n), -0x8000, 0x8000)
    case Int32 => InRange(AsI64(n), -0x8000_0000, 0x8000_0000)
    case Int64 => AsI64(n).Some?
    case UInt8 => InRange(AsU64(n), 0, 0x100)
    case UInt16 => InRange(AsU64(n), 0, 0x1_0000)
    case UInt32 => InRange(AsU64(n), 0, 0x1_0000_0000)
    case UInt64 => AsU64(n).Some?
    case Float32 => FitsF32(AsF64(n))
    case Float64 => true
    case _ => false
  }

  /** A number under a scalar type, by the class its token was read into. */
  predicate StreamNumber(n: Number, t: LogicalType) {
    match n
    case NegInt(i) => (
      match t
      case Int8 => -0x80 <= i
      case Int16 => -0x8000 <= i
      case Int32 => -0x8000_0000 <= i
      case Int64 => true
      case Float32 => true
      case Float64 => true
      case _ => false)
    case PosInt(u) => (
      match t
      case Int8 => u < 0x80
      case Int16 => u < 0x8000
      case Int32 => u < 0x8000_0000
      case UInt8 => u < 0x100
      case UInt16 => u < 0x1_0000
      case UInt32 => u < 0x1_0000_0000
      case UInt64 => true
      case Float32 => true
      case Float64 => true
      case Int64 => u < 0x8000_0000_0000_0000
      case _ => false)
    case Float(f) => (
      match t
      case Float32 => FitsF32(f)
      case Float64 => true
      case _ => false)
  }

  predicate TemporalText(s: Text, t: LogicalType) {
    match t
    case Date32 => s.isDate
    case Timestamp(_, Some(_)) => s.zoned.Some?
    case Timestamp(_, None) => s.naive.Some?
    case _ => false
  }

  predicate TextMatches(s: Text, t: LogicalType) {
    t.Utf8? || TemporalText(s, t)
  }

  // ---------------------------------------------------------- DOM validator

  predicate DomValue(v: Json, t: LogicalType, nullable: bool)
    decreases t, 2
  {
    if v.Null? then nullable || t.NullType? else DomType(v, t)
  }

  predicate DomType(v: Json, t: LogicalType)
    decreases t, 1
  {
    match t
    case List(e) => v.Arr? && forall i | 0 <= i < |v.items| :: v.items[i].Null? || DomType(v.items[i], e)
    case Struct(fs) => v.Obj? && DomStruct(v.members, fs)
    case Boolean => v.Bool?
    case _ => match v
              case Num(n) => DomNumber(n, t)
              case Str(s) => TextMatches(s, t)
              case _ => false
  }

  predicate DomStruct(ms: seq<Member>, fs: seq<Field>)
    decreases fs, 0
  {
    && (forall i | 0 <= i < |ms| :: HasField(fs, ms[i].name))
    && forall j | 0 <= j < |fs| ::
         var k := IndexOf(ms, fs[j].name);
         if k < |ms| then DomValue(ms[k].value, fs[j].dataType, fs[j].nullable) else fs[j].nullable
  }

  // ---------------------------------------------------- streaming validator

  /** What to do when a nested object repeats a name. */
  datatype Repeats = Reject | Flag

  predicate StreamValue(v: Json, t: LogicalType, nullable: bool, mode: Repeats)
    decreases v, 1
  {
    match v
    case Null => nullable || t.NullType?
    case Bool(_) => t.Boolean?
    case Num(n) => StreamNumber(n, t)
    case Str(s) => TextMatches(s, t)
    case Arr(items) => t.List? && forall i | 0 <= i < |items| :: StreamValue(items[i], t.element, true, mode)
    case Obj(ms) => t.Struct? && StreamStruct(ms, t.fields, mode)
    case Unreadable => false
  }

  predicate StreamStruct(ms: seq<Member>, fs: seq<Field>, mode: Repeats)
    decreases ms, 0
  {
    && (forall i | 0 <= i < |ms| :: StreamMember(ms, i, fs, mode))
    && (mode.Reject? ==> DistinctNames(ms))
    && RequiredPresent(ms, fs)
  }

  /** Member `i` names a field and its value streams under that field. */
  predicate StreamMember(ms: seq<Member>, i: nat, fs: seq<Field>, mode: Repeats)
    requires i < |ms|
    decreases ms, -1
  {
    var k := FieldIndex(fs, ms[i].name);
    k < |fs| && StreamValue(ms[i].value, fs[k].dataType, fs[k].nullable, mode)
  }

  predicate RequiredPresent(ms: seq<Member>, fs: seq<Field>) {
    forall j | 0 <= j < |fs| :: fs[j].nullable || HasName(ms, fs[j].name)
  }

  /** The two ways of asking about a number agree on every number and type. */
  lemma {:induction false} NumberViewsAgree(n: Number, t: LogicalType)
    ensures StreamNumber(n, t) == DomNumber(n, t)
  {
  }

  // ------------------------------------------------ streaming against the DOM

  /** Streaming acceptance means every token can be read. */
  lemma {:induction false} StreamReadable(v: Json, t: LogicalType, nullable: bool, mode: Repeats)
    requires StreamValue(v, t, nullable, mode)
    ensures Readable(v)
    decreases v
  {
    match v
    case Arr(items) =>
      forall i | 0 <= i < |items| ensures Readable(items[i]) {
        StreamReadable(items[i], t.element, true, mode);
      }
    case Obj(ms) =>
      forall i | 0 <= i < |ms| ensures Readable(ms[i].value) {
        assert StreamMember(ms, i, t.fields, mode);
        var f := t.fields[FieldIndex(t.fields, ms[i].name)];
        StreamReadable(ms[i].value, f.dataType, f.nullable, mode);
      }
    case _ =>
  }

  /** Rejecting mode is flagging mode on trees that repeat no name. */
  lemma {:induction false} RejectIsFlagWithoutRepeats(v: Json, t: LogicalType, nullable: bool)
    ensures StreamValue(v, t, nullable, Reject) <==> StreamValue(v, t, nullable, Flag) && NoRepeats(v)
    decreases v
  {
    match v
    case Arr(items) =>
      if t.List? {
        forall i | 0 <= i < |items|
          ensures StreamValue(items[i], t.element, true, Reject)
             <==> StreamValue(items[i], t.element, true, Flag) && NoRepeats(items[i])
        {
          RejectIsFlagWithoutRepeats(items[i], t.element, true);
        }
      }
    case Obj(ms) =>
      if t.Struct? {
        forall i | 0 <= i < |ms|
          ensures StreamMember(ms, i, t.fields, Reject)
             <==> StreamMember(ms, i, t.fields, Flag) && NoRepeats(ms[i].value)
        {
          var k := FieldIndex(t.fields, ms[i].name);
          if k < |t.fields| {
            RejectIsFlagWithoutRepeats(ms[i].value, t.fields[k].dataType, t.fields[k].nullable);
          }
        }
        assert StreamStruct(ms, t.fields, Reject)
          <==> StreamStruct(ms, t.fields, Flag) && NoRepeats(v);
      }
    case _ =>
  }
}
