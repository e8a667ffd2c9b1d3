/** Timestamp normalization: every non-null value in a timestamp position is
replaced by its epoch count in the declared unit. */
module Temporal {
  import opened JsonTree
  import opened Options
  import opened LogicalTypes
  import opened ScalarTypes

  predicate ContainsTimestamp(t: LogicalType) {
    match t
    case Timestamp(_, _) => true
    case List(e) => ContainsTimestamp(e)
    case Struct(fs) => exists i | 0 <= i < |fs| :: ContainsTimestamp(fs[i].dataType)
    case _ => false
  }

  function Scale(unit: TimeUnit): (s: nat)
    ensures s > 0 && 1_000_000_000 % s == 0
  {
    match unit
    case Second => 1
    case Millisecond => 1_000
    case Microsecond => 1_000_000
    case Nanosecond => 1_000_000_000
  }

  /** The epoch count of a timestamp text: none if the text does not parse, the
  unit is seconds, or the count leaves the signed 64-bit range. */
  function Epoch(s: Text, unit: TimeUnit, timezone: Option<string>): (r: Option<int>)
    ensures r.Some? ==> -0x8000_0000_0000_0000 <= r.value < 0x8000_0000_0000_0000
  {
    var instant := if timezone.Some? then s.zoned else s.naive;
    if instant.None? || unit.Second? then None
    else
      var epoch := instant.value.seconds * Scale(unit) + instant.value.nanos / (1_000_000_000 / Scale(unit));
      if -0x8000_0000_0000_0000 <= epoch < 0x8000_0000_0000_0000 then Some(epoch) else None
  }

  /** Nanoseconds in one unit. */
  function WidthOf(unit: TimeUnit): (w: nat) {
    match unit
    case Second => 1_000_000_000
    case Millisecond => 1_000_000
    case Microsecond => 1_000
    case Nanosecond => 1
  }

  /** The count is the number of whole units since the epoch, also before it: the
  instant lies within the unit that starts at the count. Seconds are not counted, and a
  count fits in 64 bits. */
  predicate IsCount(s: Text, unit: TimeUnit, timezone: Option<string>, count: int) {
    var i := if timezone.Some? then s.zoned else s.naive;
    && i.Some? && unit != Second && -Pow2(63) <= count < Pow2(63)
    && var instant := i.value.seconds * 1_000_000_000 + i.value.nanos;
       count * WidthOf(unit) <= instant < (count + 1) * WidthOf(unit)
  }

  lemma {:induction false} EpochIsFloor(s: Text, unit: TimeUnit, timezone: Option<string>, count: int)
    ensures Epoch(s, unit, timezone) == Some(count) <==> IsCount(s, unit, timezone, count)
  {
    PowersOfTwo();
    match unit
    case Second =>
    case Millisecond =>
    case Microsecond =>
    case Nanosecond =>
  }

  function FromI64(i: int): (n: Number)
    requires -0x8000_0000_0000_0000 <= i < 0x8000_0000_0000_0000
    ensures AsI64(n) == Some(i)
  {
    if i >= 0 then PosInt(i) else NegInt(i)
  }

  function TypeOf(fs: seq<Field>, name: string): (t: LogicalType)
    ensures HasField(fs, name) ==> t == fs[FieldIndex(fs, name)].dataType
    ensures HasField(fs, name) ==> t < Struct(fs)
  {
    var k := FieldIndex(fs, name);
    if k < |fs| then fs[k].dataType else NullType
  }

  predicate CanNormalize(v: Json, t: LogicalType)
    decreases t
  {
    if v.Null? then true
    else match t
      case Timestamp(unit, tz) => v.Str? && Epoch(v.text, unit, tz).Some?
      case List(e) => v.Arr? && forall i | 0 <= i < |v.items| :: CanNormalize(v.items[i], e)
      case Struct(fs) =>
        v.Obj? && forall i | 0 <= i < |v.members| && HasField(fs, v.members[i].name) ::
                    CanNormalize(v.members[i].value, TypeOf(fs, v.members[i].name))
      case _ => true
  }

  function Normalized(v: Json, t: LogicalType): (r: Json)
    requires CanNormalize(v, t)
    decreases t
  {
    if v.Null? then v
    else match t
      case Timestamp(unit, tz) => Num(FromI64(Epoch(v.text, unit, tz).value))
      case List(e) => Arr(seq(|v.items|, i requires 0 <= i < |v.items| => Normalized(v.items[i], e)))
      case Struct(fs) =>
        Obj(seq(|v.members|, i requires 0 <= i < |v.members| =>
          var m := v.members[i];
          if HasField(fs, m.name) then Member(m.name, Normalized(m.value, TypeOf(fs, m.name))) else m))
      case _ => v
  }

  function Normalize(v: Json, t: LogicalType): (r: Option<Json>) {
    if CanNormalize(v, t) then Some(Normalized(v, t)) else None
  }

  /** A non-null value sits in a timestamp position. */
  predicate HoldsTimestamp(v: Json, t: LogicalType)
    decreases t
  {
    match t
    case Timestamp(_, _) => !v.Null?
    case List(e) => v.Arr? && exists i | 0 <= i < |v.items| :: HoldsTimestamp(v.items[i], e)
    case Struct(fs) =>
      v.Obj? && exists i | 0 <= i < |v.members| && HasField(fs, v.members[i].name) ::
                  HoldsTimestamp(v.members[i].value, TypeOf(fs, v.members[i].name))
    case _ => false
  }

  lemma {:induction false} NoTimestampType(v: Json, t: LogicalType)
    requires !ContainsTimestamp(t)
    ensures !HoldsTimestamp(v, t)
    decreases t
  {
    match t
    case List(e) =>
      if v.Arr? {
        forall i | 0 <= i < |v.items| ensures !HoldsTimestamp(v.items[i], e) {
          NoTimestampType(v.items[i], e);
        }
      }
    case Struct(fs) =>
      if v.Obj? {
        forall i | 0 <= i < |v.members| && HasField(fs, v.members[i].name)
          ensures !HoldsTimestamp(v.members[i].value, TypeOf(fs, v.members[i].name))
        {
          NoTimestampType(v.members[i].value, TypeOf(fs, v.members[i].name));
        }
      }
    case _ =>
  }

  /** On an accepted value normalization is the identity if and only if no
  timestamp position holds a value. */
  lemma {:induction false} NormalizeIsIdentity(v: Json, t: LogicalType, nullable: bool)
    requires WellFormed(t) && NoRepeats(v) && DomValue(v, t, nullable)
    ensures Normalize(v, t) == Some(v) <==> !HoldsTimestamp(v, t)
    decreases t, 2
  {
    if !v.Null? {
      match t
      case List(e) => NormalizeItemsIsIdentity(v, e);
      case Struct(fs) => NormalizeMembersIsIdentity(v, fs);
      case _ =>
    }
  }

  lemma {:induction false} NormalizeItemsIsIdentity(v: Json, e: LogicalType)
    requires WellFormed(e) && NoRepeats(v) && DomType(v, List(e))
    ensures Normalize(v, List(e)) == Some(v) <==> !HoldsTimestamp(v, List(e))
    decreases List(e), 0
  {
    forall i | 0 <= i < |v.items|
      ensures Normalize(v.items[i], e) == Some(v.items[i]) <==> !HoldsTimestamp(v.items[i], e)
    {
      NormalizeIsIdentity(v.items[i], e, true);
    }
    if !HoldsTimestamp(v, List(e)) {
      assert Normalized(v, List(e)).items == v.items;
    } else if CanNormalize(v, List(e)) {
      var i :| 0 <= i < |v.items| && HoldsTimestamp(v.items[i], e);
      assert Normalized(v, List(e)).items[i] != v.items[i];
    }
  }

  /** A member is left alone by normalization. */
  predicate Untouched(m: Member, fs: seq<Field>) {
    HasField(fs, m.name) ==> Normalize(m.value, TypeOf(fs, m.name)) == Some(m.value)
  }

  lemma {:induction false} UntouchedIsStampless(ms: seq<Member>, fs: seq<Field>, i: nat)
    requires WellFormed(Struct(fs)) && DistinctNames(ms) && DomStruct(ms, fs) && i < |ms| && NoRepeats(ms[i].value)
    ensures HasField(fs, ms[i].name)
    ensures Untouched(ms[i], fs) <==> !HoldsTimestamp(ms[i].value, TypeOf(fs, ms[i].name))
    decreases Struct(fs), 0
  {
    var k := FieldIndex(fs, ms[i].name);
    IndexOfUnique(ms, i);
    assert HasField(fs, ms[i].name);
    assert DomValue(ms[IndexOf(ms, fs[k].name)].value, fs[k].dataType, fs[k].nullable);
    NormalizeIsIdentity(ms[i].value, fs[k].dataType, fs[k].nullable);
  }

  /** An object is left alone exactly if all its members are. */
  lemma {:induction false} UntouchedObject(ms: seq<Member>, fs: seq<Field>)
    requires forall i | 0 <= i < |ms| :: HasField(fs, ms[i].name)
    ensures Normalize(Obj(ms), Struct(fs)) == Some(Obj(ms)) <==> forall i | 0 <= i < |ms| :: Untouched(ms[i], fs)
  {
    if forall i | 0 <= i < |ms| :: Untouched(ms[i], fs) {
      assert CanNormalize(Obj(ms), Struct(fs));
      assert Normalized(Obj(ms), Struct(fs)).members == ms;
    } else if CanNormalize(Obj(ms), Struct(fs)) {
      var i :| 0 <= i < |ms| && !Untouched(ms[i], fs);
      assert Normalized(Obj(ms), Struct(fs)).members[i] != ms[i];
    }
  }

  lemma {:induction false} NormalizeMembersIsIdentity(v: Json, fs: seq<Field>)
    requires WellFormed(Struct(fs)) && NoRepeats(v) && v.Obj? && DomStruct(v.members, fs)
    ensures Normalize(v, Struct(fs)) == Some(v) <==> !HoldsTimestamp(v, Struct(fs))
    decreases Struct(fs), 1
  {
    var ms := v.members;
    forall i | 0 <= i < |ms|
      ensures HasField(fs, ms[i].name)
      ensures Untouched(ms[i], fs) <==> !HoldsTimestamp(ms[i].value, TypeOf(fs, ms[i].name))
    {
      UntouchedIsStampless(ms, fs, i);
    }
    UntouchedObject(ms, fs);
  }

  lemma {:induction false} NormalizeKeepsDistinct(v: Json, t: LogicalType)
    requires NoRepeats(v) && CanNormalize(v, t)
    ensures NoRepeats(Normalized(v, t))
    decreases t
  {
    if !v.Null? {
      match t
      case List(e) =>
        forall i | 0 <= i < |v.items| ensures NoRepeats(Normalized(v.items[i], e)) {
          NormalizeKeepsDistinct(v.items[i], e);
        }
      case Struct(fs) =>
        forall i | 0 <= i < |v.members| && HasField(fs, v.members[i].name)
          ensures NoRepeats(Normalized(v.members[i].value, TypeOf(fs, v.members[i].name)))
        {
          NormalizeKeepsDistinct(v.members[i].value, TypeOf(fs, v.members[i].name));
        }
      case _ =>
    }
  }

  // --------------------------------------------------- what rewriting means

  /** The second value is the first with every timestamp text replaced by its count:
  the same nulls, lengths and names, and everything else as it was. */
  predicate Rewrites(v: Json, r: Json, t: LogicalType)
    decreases t
  {
    if v.Null? then r.Null?
    else match t
      case Timestamp(unit, tz) =>
        v.Str? && r.Num? && AsI64(r.number).Some? && IsCount(v.text, unit, tz, AsI64(r.number).value)
      case List(e) =>
        && v.Arr? && r.Arr? && |r.items| == |v.items|
        && forall i | 0 <= i < |v.items| :: Rewrites(v.items[i], r.items[i], e)
      case Struct(fs) =>
        && v.Obj? && r.Obj? && |r.members| == |v.members|
        && forall i | 0 <= i < |v.members| ::
             var m, n := v.members[i], r.members[i];
             && m.name == n.name
             && if HasField(fs, m.name) then Rewrites(m.value, n.value, TypeOf(fs, m.name)) else m == n
      case _ => r == v
  }

  lemma {:induction false} CountedNumber(n: Number, count: int)
    requires AsI64(n) == Some(count)
    ensures -0x8000_0000_0000_0000 <= count < 0x8000_0000_0000_0000 && n == FromI64(count)
  {
  }

  /** Normalization succeeds with a value exactly if that value rewrites the given one;
  so it fails exactly if some timestamp text has no count or a timestamp is no text. */
  lemma {:induction false} NormalizeExact(v: Json, r: Json, t: LogicalType)
    ensures Normalize(v, t) == Some(r) <==> Rewrites(v, r, t)
    decreases t, 1
  {
    if v.Null? || (!t.Timestamp? && !t.List? && !t.Struct?) {
      NormalizeOther(v, r, t);
    } else {
      match t
      case Timestamp(unit, tz) => NormalizeStampExact(v, r, unit, tz);
      case List(e) => NormalizeItemsExact(v, r, e);
      case Struct(fs) => NormalizeMembersExact(v, r, fs);
    }
  }

  lemma {:induction false} NormalizeOther(v: Json, r: Json, t: LogicalType)
    requires v.Null? || (!t.Timestamp? && !t.List? && !t.Struct?)
    ensures Normalize(v, t) == Some(r) <==> Rewrites(v, r, t)
  {
  }

  lemma {:induction false} NormalizeStampExact(v: Json, r: Json, unit: TimeUnit, tz: Option<string>)
    requires !v.Null?
    ensures Normalize(v, Timestamp(unit, tz)) == Some(r) <==> Rewrites(v, r, Timestamp(unit, tz))
  {
    if v.Str? {
      if r.Num? && AsI64(r.number).Some? {
        CountedNumber(r.number, AsI64(r.number).value);
        EpochIsFloor(v.text, unit, tz, AsI64(r.number).value);
      }
    }
  }

  lemma {:induction false} ArrayRewrites(items: seq<Json>, rs: seq<Json>, e: LogicalType)
    ensures Normalize(Arr(items), List(e)) == Some(Arr(rs))
       <==> |rs| == |items| && forall i | 0 <= i < |items| :: Normalize(items[i], e) == Some(rs[i])
  {
    if |rs| == |items| && forall i | 0 <= i < |items| :: Normalize(items[i], e) == Some(rs[i]) {
      assert CanNormalize(Arr(items), List(e));
      assert Normalized(Arr(items), List(e)).items == rs;
    }
  }

  lemma {:induction false} NormalizeItemsExact(v: Json, r: Json, e: LogicalType)
    ensures Normalize(v, List(e)) == Some(r) <==> Rewrites(v, r, List(e))
    decreases List(e), 0
  {
    if v.Arr? && r.Arr? {
      ArrayRewrites(v.items, r.items, e);
      if |r.items| == |v.items| {
        forall i | 0 <= i < |v.items|
          ensures Normalize(v.items[i], e) == Some(r.items[i]) <==> Rewrites(v.items[i], r.items[i], e)
        {
          NormalizeExact(v.items[i], r.items[i], e);
        }
      }
    }
  }

  /** One member against its rewriting. */
  predicate MemberRewrites(m: Member, n: Member, fs: seq<Field>) {
    m.name == n.name && if HasField(fs, m.name) then Normalize(m.value, TypeOf(fs, m.name)) == Some(n.value) else m == n
  }

  lemma {:induction false} ObjectRewrites(ms: seq<Member>, ns: seq<Member>, fs: seq<Field>)
    ensures Normalize(Obj(ms), Struct(fs)) == Some(Obj(ns))
       <==> |ns| == |ms| && forall i | 0 <= i < |ms| :: MemberRewrites(ms[i], ns[i], fs)
  {
    if |ns| == |ms| && forall i | 0 <= i < |ms| :: MemberRewrites(ms[i], ns[i], fs) {
      assert CanNormalize(Obj(ms), Struct(fs));
      assert Normalized(Obj(ms), Struct(fs)).members == ns;
    }
  }

  lemma {:induction false} NormalizeMembersExact(v: Json, r: Json, fs: seq<Field>)
    ensures Normalize(v, Struct(fs)) == Some(r) <==> Rewrites(v, r, Struct(fs))
    decreases Struct(fs), 0
  {
    if v.Obj? && r.Obj? {
      ObjectRewrites(v.members, r.members, fs);
      if |r.members| == |v.members| {
        forall i | 0 <= i < |v.members|
          ensures var m, n := v.members[i], r.members[i];
                  HasField(fs, m.name) ==>
                    (Normalize(m.value, TypeOf(fs, m.name)) == Some(n.value)
                     <==> Rewrites(m.value, n.value, TypeOf(fs, m.name)))
        {
          if HasField(fs, v.members[i].name) {
            NormalizeExact(v.members[i].value, r.members[i].value, TypeOf(fs, v.members[i].name));
          }
        }
      }
    }
  }

  // ------------------------------------------------------ rewriting in place

  /** Rewrites a value the way the reader does it: elements in turn, and for an
  object one schema field at a time, looking each field up in the object. */
  method NormalizeInPlace(v: Json, t: LogicalType) returns (r: Option<Json>)
    requires WellFormed(t) && NoRepeats(v)
    ensures r == Normalize(v, t)
    decreases t, 1
  {
    if v.Null? { return Some(v); }
    match t
    case Timestamp(unit, tz) =>
      if !v.Str? { return None; }
      var epoch := Epoch(v.text, unit, tz);
      if epoch.None? { return None; }
      return Some(Num(FromI64(epoch.value)));
    case List(e) =>
      if !v.Arr? { return None; }
      var items := v.items;
      for i := 0 to |v.items|
        invariant |items| == |v.items|
        invariant forall j | 0 <= j < i :: CanNormalize(v.items[j], e) && items[j] == Normalized(v.items[j], e)
        invariant forall j | i <= j < |items| :: items[j] == v.items[j]
      {
        var item := NormalizeInPlace(items[i], e);
        if item.None? { return None; }
        items := items[i := item.value];
      }
      assert items == Normalized(v, t).items;
      return Some(Arr(items));
    case Struct(fs) =>
      if !v.Obj? { return None; }
      var members := NormalizeFields(v.members, fs);
      if members.None? { return None; }
      return Some(Obj(members.value));
    case _ => return Some(v);
  }

  /** Where a member stands after the first `j` fields have been looked up. */
  predicate Processed(m: Member, r: Member, fs: seq<Field>, j: nat)
    requires j <= |fs|
  {
    && r.name == m.name
    && if FieldIndex(fs, m.name) < j
       then CanNormalize(m.value, TypeOf(fs, m.name)) && r.value == Normalized(m.value, TypeOf(fs, m.name))
       else r == m
  }

  predicate AllProcessed(ms: seq<Member>, rs: seq<Member>, fs: seq<Field>, j: nat)
    requires j <= |fs|
  {
    |rs| == |ms| && forall i | 0 <= i < |ms| :: Processed(ms[i], rs[i], fs, j)
  }

  lemma {:induction false} NormalizedFields(ms: seq<Member>, rs: seq<Member>, fs: seq<Field>)
    requires AllProcessed(ms, rs, fs, |fs|)
    ensures CanNormalize(Obj(ms), Struct(fs))
    ensures rs == Normalized(Obj(ms), Struct(fs)).members
  {
  }

  /** Looking up a field that no member has changes nothing, */
  lemma {:induction false} ProcessAbsent(ms: seq<Member>, rs: seq<Member>, fs: seq<Field>, j: nat)
    requires j < |fs| && AllProcessed(ms, rs, fs, j) && IndexOf(rs, fs[j].name) == |rs|
    ensures AllProcessed(ms, rs, fs, j + 1)
  {
    forall i | 0 <= i < |ms| ensures Processed(ms[i], rs[i], fs, j + 1) {
      assert Processed(ms[i], rs[i], fs, j) && rs[i].name != fs[j].name;
    }
  }

  /** and one that a member has touches that member only. */
  lemma {:induction false} ProcessPresent(ms: seq<Member>, rs: seq<Member>, fs: seq<Field>, j: nat, k: nat)
    requires j < |fs| && WellFormed(Struct(fs)) && DistinctNames(ms) && AllProcessed(ms, rs, fs, j)
    requires k < |ms| && rs[k].name == fs[j].name
    ensures rs[k] == ms[k] && ms[k].name == fs[j].name && TypeOf(fs, ms[k].name) == fs[j].dataType
    ensures CanNormalize(ms[k].value, fs[j].dataType) ==>
              AllProcessed(ms, rs[k := Member(fs[j].name, Normalized(ms[k].value, fs[j].dataType))], fs, j + 1)
  {
    FieldIndexUnique(fs, j);
    assert Processed(ms[k], rs[k], fs, j);
    if CanNormalize(ms[k].value, fs[j].dataType) {
      var after := rs[k := Member(fs[j].name, Normalized(ms[k].value, fs[j].dataType))];
      forall i | 0 <= i < |ms| ensures Processed(ms[i], after[i], fs, j + 1) {
        assert Processed(ms[i], rs[i], fs, j);
        if i != k {
          assert after[i] == rs[i] && ms[i].name != fs[j].name;
        }
      }
    }
  }

  method NormalizeFields(ms: seq<Member>, fs: seq<Field>) returns (r: Option<seq<Member>>)
    requires WellFormed(Struct(fs)) && NoRepeats(Obj(ms))
    ensures r.Some? == CanNormalize(Obj(ms), Struct(fs))
    ensures r.Some? ==> r.value == Normalized(Obj(ms), Struct(fs)).members
    decreases Struct(fs), 0
  {
    var members := ms;
    for j := 0 to |fs|
      invariant AllProcessed(ms, members, fs, j)
    {
      var k := IndexOf(members, fs[j].name);
      if k < |members| {
        ProcessPresent(ms, members, fs, j, k);
        var value := NormalizeInPlace(members[k].value, fs[j].dataType);
        if value.None? {
          assert !CanNormalize(ms[k].value, TypeOf(fs, ms[k].name));
          return None;
        }
        members := members[k := Member(fs[j].name, value.value)];
      } else {
        ProcessAbsent(ms, members, fs, j);
      }
    }
    NormalizedFields(ms, members, fs);
    return Some(members);
  }
}
