/** Inference against the reader: every sampled row is accepted under the schema
inferred from the sample, by both row paths; and the sampling loops that build
that schema. */
module InferredReads {
  import opened JsonTree
  import opened Options
  import opened LogicalTypes
  import opened ObservedTypes
  import opened MergeLaws
  import opened Inference
  import opened SampleMeaning
  import opened Temporal
  import opened RowFrame
  import opened Validation
  import opened ProjectedRows

  // ----------------------------------------------------------- materializing

  function Materialize(o: Observed): (t: LogicalType) {
    match o
    case ONull => NullType
    case OBoolean => Boolean
    case OInt64 => Int64
    case OUInt64 => UInt64
    case OFloat64 => Float64
    case OUtf8 => Utf8
    case OList(e) => List(Materialize(e))
    case OStruct(fs) =>
      Struct(seq(|fs|, i requires 0 <= i < |fs| => Field(fs[i].name, Materialize(fs[i].dataType), fs[i].nullable)))
  }

  function MaterializeFields(fs: seq<OField>): (r: seq<Field>)
    ensures |r| == |fs|
    ensures forall i | 0 <= i < |fs| :: r[i] == Field(fs[i].name, Materialize(fs[i].dataType), fs[i].nullable)
    ensures Materialize(OStruct(fs)) == Struct(r)
  {
    Materialize(OStruct(fs)).fields
  }

  lemma {:induction false} MaterializeWellFormed(o: Observed)
    requires Proper(o)
    ensures WellFormed(Materialize(o)) && !ContainsTimestamp(Materialize(o))
    decreases o
  {
    match o
    case OList(e) => MaterializeWellFormed(e);
    case OStruct(fs) =>
      var r := MaterializeFields(fs);
      forall i | 0 <= i < |fs| ensures WellFormed(r[i].dataType) && !ContainsTimestamp(r[i].dataType) {
        MaterializeWellFormed(fs[i].dataType);
      }
    case _ =>
  }

  // -------------------------------------------------------------- acceptance

  /** A struct accepts an object: each member meets its field, and what is not
  there is nullable. The same as `DomStruct`, field by field. */
  predicate AcceptsAt(ms: seq<Member>, f: Option<OField>, name: string) {
    match f
    case None => !HasName(ms, name)
    case Some(x) =>
      if HasName(ms, name)
      then DomValue(ms[IndexOf(ms, name)].value, Materialize(x.dataType), x.nullable)
      else x.nullable
  }

  lemma {:induction false} StructAccepts(ms: seq<Member>, fs: seq<OField>)
    requires Distinct(fs)
    ensures DomStruct(ms, MaterializeFields(fs)) <==> forall n :: AcceptsAt(ms, At(fs, n), n)
  {
    var r := MaterializeFields(fs);
    if DomStruct(ms, r) {
      forall n ensures AcceptsAt(ms, At(fs, n), n) {
        var k := Position(fs, n);
        if k < |fs| {
          assert r[k].name == n;
        } else {
          assert !HasField(r, n);
          assert forall i | 0 <= i < |ms| :: HasField(r, ms[i].name);
        }
      }
    }
    if forall n :: AcceptsAt(ms, At(fs, n), n) {
      forall i | 0 <= i < |ms| ensures HasField(r, ms[i].name) {
        assert AcceptsAt(ms, At(fs, ms[i].name), ms[i].name);
      }
      forall j | 0 <= j < |r|
        ensures var k := IndexOf(ms, r[j].name);
                if k < |ms| then DomValue(ms[k].value, r[j].dataType, r[j].nullable) else r[j].nullable
      {
        PositionUnique(fs, j);
        assert AcceptsAt(ms, At(fs, fs[j].name), fs[j].name);
      }
    }
  }

  /** Everything accepted under `a` is accepted under `c`. */
  ghost predicate Widens(a: Observed, c: Observed) {
    forall v :: DomType(v, Materialize(a)) ==> DomType(v, Materialize(c))
  }

  ghost predicate FieldWidens(a: Option<OField>, c: Option<OField>) {
    match (a, c)
    case (None, None) => true
    case (None, Some(z)) => z.nullable
    case (Some(x), Some(z)) =>
      Widens(x.dataType, z.dataType) && (x.nullable ==> z.nullable) && (x.dataType.ONull? ==> z.nullable)
    case (Some(_), None) => false
  }

  lemma {:induction false} AcceptsWider(ms: seq<Member>, a: Option<OField>, c: Option<OField>, name: string)
    requires FieldWidens(a, c) && AcceptsAt(ms, a, name)
    ensures AcceptsAt(ms, c, name)
  {
  }

  lemma {:induction false} StructWidens(x: seq<OField>, m: seq<OField>)
    requires Distinct(x) && Distinct(m)
    requires forall n :: FieldWidens(At(x, n), At(m, n))
    ensures Widens(OStruct(x), OStruct(m))
  {
    forall v | DomType(v, Materialize(OStruct(x))) ensures DomType(v, Materialize(OStruct(m))) {
      StructAccepts(v.members, x);
      forall n ensures AcceptsAt(v.members, At(m, n), n) {
        AcceptsWider(v.members, At(x, n), At(m, n), n);
      }
      StructAccepts(v.members, m);
    }
  }

  lemma {:induction false} ListWidens(x: Observed, e: Observed)
    requires Widens(x, e)
    ensures Widens(OList(x), OList(e))
  {
  }

  lemma {:induction false} ScalarWidens(a: Observed)
    ensures Widens(ONull, a)
    ensures Numeric(a) ==> Widens(a, OFloat64)
    ensures Widens(a, a)
  {
  }

  /** A merge is an upper bound: it accepts what either side accepts. */
  lemma {:induction false} MergeWidens(a: Observed, b: Observed)
    requires Proper(a) && Proper(b) && Merge(a, b).Some?
    ensures Widens(a, Merge(a, b).value) && Widens(b, Merge(a, b).value)
    decreases a
  {
    ScalarWidens(a);
    ScalarWidens(b);
    match (a, b)
    case (OList(x), OList(y)) =>
      ListMerge(x, y);
      MergeWidens(x, y);
      ListWidens(x, Merge(x, y).value);
      ListWidens(y, Merge(x, y).value);
    case (OStruct(x), OStruct(y)) =>
      StructMerge(x, y);
      var m := MergeFields(x, y).value;
      MergeFieldsDistinct(x, y);
      forall n ensures FieldWidens(At(x, n), At(m, n)) && FieldWidens(At(y, n), At(m, n)) {
        MergeFieldsAt(x, y, n);
        if At(x, n).Some? { ScalarWidens(At(x, n).value.dataType); }
        if At(y, n).Some? { ScalarWidens(At(y, n).value.dataType); }
        if At(x, n).Some? && At(y, n).Some? {
          MergeWidens(At(x, n).value.dataType, At(y, n).value.dataType);
        }
      }
      StructWidens(x, m);
      StructWidens(y, m);
    case _ => MergeKinds(a, b);
  }

  /** A value is accepted under the type observed from it alone, */
  lemma {:induction false} ObservedAccepts(v: Json)
    requires IsDom(v) && Observe(v).Some? && !v.Null?
    ensures DomType(v, Materialize(Observe(v).value))
    decreases v, 1
  {
    match v
    case Arr(items) =>
      ItemsDom(v);
      SampleAccepted(items);
    case Obj(ms) =>
      var fs := Observe(v).value.fields;
      ObserveProper(v);
      forall n ensures AcceptsAt(ms, At(fs, n), n) {
        ObservedObjectAt(v, n);
        if HasName(ms, n) {
          var k := IndexOf(ms, n);
          if !ms[k].value.Null? { ObservedAccepts(ms[k].value); }
        }
      }
      StructAccepts(ms, fs);
    case _ =>
  }

  /** and under the type inferred from any sample that contains it. */
  lemma {:induction false} SampleAccepted(vs: seq<Json>)
    requires AllDom(vs) && ObserveAll(vs).Some?
    ensures forall i | 0 <= i < |vs| :: vs[i].Null? || DomType(vs[i], Materialize(ObserveAll(vs).value))
    decreases vs, 0
  {
    if vs != [] {
      var front, last := vs[..|vs| - 1], vs[|vs| - 1];
      var f, l := ObserveAll(front).value, Observe(last).value;
      SampleAccepted(front);
      ObserveAllProper(front);
      ObserveProper(last);
      MergeWidens(f, l);
      forall i | 0 <= i < |vs| ensures vs[i].Null? || DomType(vs[i], Materialize(ObserveAll(vs).value)) {
        if !vs[i].Null? {
          if i < |front| {
            assert vs[i] == front[i];
            assert DomType(vs[i], Materialize(f));
          } else {
            ObservedAccepts(last);
          }
        }
      }
    }
  }

  // ------------------------------------------------------------- rows and reads

  /** The object a row's text denotes, tokens and all. */
  function RowTokens(row: Row): (v: Json)
    requires row.Row?
  {
    Obj(seq(|row.members|, i requires 0 <= i < |row.members| => Member(row.members[i].name, row.members[i].value)))
  }

  /** A row the sampler can parse. */
  predicate Sampled(row: Row) {
    row.Row? && Readable(RowTokens(row))
  }

  predicate TopDistinct(row: Row)
    requires row.Row?
  {
    DistinctNames(RowTokens(row).members)
  }

  /** No name repeats at the top level, nor inside a value that is not projected. */
  predicate ReadsUnder(row: Row, names: seq<string>)
    requires row.Row?
  {
    && TopDistinct(row)
    && forall i | 0 <= i < |row.members| :: row.members[i].name in names || NoRepeats(row.members[i].value)
  }

  predicate AllSampled(rows: seq<Row>) {
    forall i | 0 <= i < |rows| :: Sampled(rows[i])
  }

  /** What the sampler observes: the parsed objects. */
  function SampleOf(rows: seq<Row>): (vs: seq<Json>)
    requires AllSampled(rows)
    ensures |vs| == |rows|
  {
    seq(|rows|, i requires 0 <= i < |rows| => Collapse(RowTokens(rows[i])))
  }

  lemma {:induction false} CollapseReadable(v: Json)
    requires Readable(v)
    ensures Readable(Collapse(v))
    decreases v, 1
  {
    match v
    case Arr(items) =>
      forall i | 0 <= i < |items| ensures Readable(Collapse(items[i])) { CollapseReadable(items[i]); }
    case Obj(ms) =>
      var r := CollapseMembers(ms);
      forall k | 0 <= k < |r| ensures Readable(r[k].value) {
        assert HasName(r, r[k].name);
        IndexOfUnique(r, k);
        CollapseTakesLast(ms, r[k].name);
        CollapseReadable(ms[LastIndexOf(ms, r[k].name)].value);
      }
    case _ =>
  }

  lemma {:induction false} SampleIsDom(rows: seq<Row>)
    requires AllSampled(rows)
    ensures AllDom(SampleOf(rows))
  {
    forall i | 0 <= i < |rows| ensures IsDom(SampleOf(rows)[i]) {
      CollapseReadable(RowTokens(rows[i]));
      CollapseHasNoRepeats(RowTokens(rows[i]));
    }
  }

  /** A member of an accepted row has a field, and its collapsed value meets it. */
  lemma {:induction false} MemberMeetsField(row: Row, fs: seq<OField>, i: nat)
    requires Sampled(row) && TopDistinct(row) && i < |row.members|
    requires DomStruct(CollapseMembers(RowTokens(row).members), MaterializeFields(fs))
    ensures var schema, m := MaterializeFields(fs), row.members[i];
            var k := FieldIndex(schema, m.name);
            k < |schema| && DomValue(Collapse(m.value), schema[k].dataType, schema[k].nullable)
  {
    var schema := MaterializeFields(fs);
    var ms := RowTokens(row).members;
    assert ms[i] == Member(row.members[i].name, row.members[i].value);
    var r := CollapseMembers(ms);
    assert HasName(ms, ms[i].name);
    var p := IndexOf(r, ms[i].name);
    CollapseTakesLast(ms, ms[i].name);
    assert LastIndexOf(ms, ms[i].name) == i;
    assert HasField(schema, r[p].name);
    var k := FieldIndex(schema, ms[i].name);
    assert DomValue(r[IndexOf(r, schema[k].name)].value, schema[k].dataType, schema[k].nullable);
  }

  lemma {:induction false} SelectedReads(v: Json, f: Field)
    requires Readable(v) && WellFormed(f.dataType) && !ContainsTimestamp(f.dataType)
    requires DomValue(Collapse(v), f.dataType, f.nullable)
    ensures GenericCell(v, f).Some?
  {
    CollapseHasNoRepeats(v);
    NoTimestampType(Collapse(v), f.dataType);
    NormalizeIsIdentity(Collapse(v), f.dataType, f.nullable);
  }

  /** One member of a row that was part of the sample is accepted when selected;
  when it is not, exactly if its value repeats no name. */
  lemma {:induction false} MemberAccepted(row: Row, fs: seq<OField>, names: seq<string>, i: nat)
    requires Sampled(row) && TopDistinct(row) && i < |row.members| && ProperFields(fs)
    requires DomStruct(CollapseMembers(RowTokens(row).members), MaterializeFields(fs))
    ensures GenericEntry(row.members[i], MaterializeFields(fs), names).cell.Some?
       <==> row.members[i].name in names || NoRepeats(row.members[i].value)
  {
    var schema, m := MaterializeFields(fs), row.members[i];
    MemberMeetsField(row, fs, i);
    var k := FieldIndex(schema, m.name);
    MaterializeWellFormed(fs[k].dataType);
    assert Readable(RowTokens(row).members[i].value);
    if m.name in names {
      SelectedReads(m.value, schema[k]);
    } else {
      if NoRepeats(m.value) {
        CollapseOfDistinct(m.value);
      }
      RejectModeExact(m.value, schema[k].dataType, schema[k].nullable);
    }
  }

  lemma {:induction false} RowAccepted(row: Row, fs: seq<OField>, names: seq<string>)
    requires Sampled(row) && ProperFields(fs)
    requires DomStruct(CollapseMembers(RowTokens(row).members), MaterializeFields(fs))
    ensures GenericRow(row, MaterializeFields(fs), names).Some? <==> ReadsUnder(row, names)
  {
    var schema := MaterializeFields(fs);
    var es := GenericEntries(row.members, schema, names);
    RowNamesFit(row, schema, names);
    if TopDistinct(row) {
      forall i | 0 <= i < |es|
        ensures es[i].cell.Some? <==> row.members[i].name in names || NoRepeats(row.members[i].value)
      {
        MemberAccepted(row, fs, names, i);
      }
    }
  }

  /** The names of the entries are those of the row, and every required one is
  there. */
  lemma {:induction false} RowNamesFit(row: Row, schema: seq<Field>, names: seq<string>)
    requires Sampled(row) && DomStruct(CollapseMembers(RowTokens(row).members), schema)
    ensures var es := GenericEntries(row.members, schema, names);
            (DistinctEntries(es, |es|) <==> TopDistinct(row)) && Required(schema) <= EntryNames(es, |es|)
  {
    var es := GenericEntries(row.members, schema, names);
    var ms := RowTokens(row).members;
    assert forall i | 0 <= i < |es| :: es[i].name == ms[i].name;
    forall n | n in Required(schema) ensures n in EntryNames(es, |es|) {
      var j :| 0 <= j < |schema| && !schema[j].nullable && schema[j].name == n;
      assert HasName(CollapseMembers(ms), schema[j].name);
      var i := IndexOf(ms, n);
      assert es[i].name == n;
    }
  }

  /** Whenever inference succeeds on a sample of rows, a sampled row reads under the
  inferred schema and any projection exactly if no name repeats at its top level nor
  inside a value that is not projected; on either path, with the same record. */
  lemma {:induction false} SampledRowsRead(rows: seq<Row>, fs: seq<OField>, names: seq<string>, i: nat)
    requires AllSampled(rows)
    requires ObserveAll(SampleOf(rows)) == Some(OStruct(fs)) && i < |rows|
    ensures GenericRow(rows[i], MaterializeFields(fs), names).Some? <==> ReadsUnder(rows[i], names)
    ensures DirectRow(rows[i], MaterializeFields(fs), names) == GenericRow(rows[i], MaterializeFields(fs), names)
  {
    var vs := SampleOf(rows);
    SampleIsDom(rows);
    SampleAccepted(vs);
    ObserveAllProper(vs);
    assert vs[i] == Collapse(RowTokens(rows[i]));
    assert DomStruct(CollapseMembers(RowTokens(rows[i]).members), MaterializeFields(fs));
    RowAccepted(rows[i], fs, names);
    InferredSchemaWellFormed(fs);
    DirectMatchesWithoutTimestamps(rows[i], MaterializeFields(fs), names);
  }

  lemma {:induction false} InferredSchemaWellFormed(fs: seq<OField>)
    requires ProperFields(fs)
    ensures WellFormedFields(MaterializeFields(fs))
    ensures forall j | 0 <= j < |fs| :: !ContainsTimestamp(MaterializeFields(fs)[j].dataType)
  {
    forall j | 0 <= j < |fs|
      ensures WellFormed(MaterializeFields(fs)[j].dataType) && !ContainsTimestamp(MaterializeFields(fs)[j].dataType)
    {
      MaterializeWellFormed(fs[j].dataType);
    }
  }

  // -------------------------------------------------------- the sampling loops

  /** Observes one value: array elements merge in turn, object members become
  fields. */
  method ObserveValue(v: Json) returns (o: Option<Observed>)
    requires IsDom(v)
    ensures o == Observe(v)
    decreases v, 1
  {
    match v
    case Null => return Some(ONull);
    case Bool(_) => return Some(OBoolean);
    case Num(n) =>
      return Some(if AsI64(n).Some? then OInt64 else if AsU64(n).Some? then OUInt64 else OFloat64);
    case Str(_) => return Some(OUtf8);
    case Arr(items) =>
      ItemsDom(v);
      var element := ObserveItems(v, items);
      return if element.None? then None else Some(OList(element.value));
    case Obj(ms) =>
      var fs := ObserveMembers(v, ms);
      return if fs.None? then None else Some(OStruct(fs.value));
  }

  method ObserveItems(ghost v: Json, items: seq<Json>) returns (o: Option<Observed>)
    requires v == Arr(items) && AllDom(items)
    ensures o == ObserveAll(items)
    decreases v, 0
  {
    var element := ONull;
    for i := 0 to |items|
      invariant ObserveAll(items[..i]) == Some(element)
    {
      assert items[..i + 1][..i] == items[..i];
      AbsorbFailure(items, i + 1);
      var item := ObserveValue(items[i]);
      if item.None? { return None; }
      ObserveAllProper(items[..i]);
      ObserveProper(items[i]);
      var merged := MergeType(element, item.value);
      if merged.None? { return None; }
      element := merged.value;
    }
    assert items[..|items|] == items;
    return Some(element);
  }

  method ObserveMembers(ghost v: Json, ms: seq<Member>) returns (fs: Option<seq<OField>>)
    requires v == Obj(ms) && IsDom(v)
    ensures Observe(v) == if fs.None? then None else Some(OStruct(fs.value))
    decreases v, 0
  {
    var fields: seq<OField> := [];
    for i := 0 to |ms|
      invariant |fields| == i
      invariant forall j | 0 <= j < i ::
                  Observe(ms[j].value).Some?
                  && fields[j] == OField(ms[j].name, Observe(ms[j].value).value, Observe(ms[j].value).value.ONull?)
    {
      var t := ObserveValue(ms[i].value);
      if t.None? { return None; }
      fields := fields + [OField(ms[i].name, t.value, t.value.ONull?)];
    }
    assert fields == Observe(v).value.fields;
    return Some(fields);
  }

  /** Once merging has failed it stays failed. */
  lemma {:induction false} AbsorbFailure(vs: seq<Json>, n: nat)
    requires n <= |vs|
    ensures ObserveAll(vs[..n]).None? ==> ObserveAll(vs).None?
    decreases |vs| - n
  {
    if n == |vs| {
      assert vs[..n] == vs;
    } else {
      assert vs[..n + 1][..n] == vs[..n];
      AbsorbFailure(vs, n + 1);
    }
  }

  /** The record under construction. `sample` is the list of objects merged so
  far; it is kept for specification only. */
  class ObservedRecord {
    var fields: seq<OField>
    var rows: nat
    ghost var sample: seq<Json>

    ghost predicate Valid()
      reads this
    {
      && AllDom(sample) && |sample| == rows
      && ObserveAll(sample) == Some(if rows == 0 then ONull else OStruct(fields))
      && (rows == 0 ==> fields == [])
    }

    constructor ()
      ensures Valid() && sample == []
    {
      fields, rows, sample := [], 0, [];
    }

    /** Takes in one object: the first is stored, later ones are merged. On
    failure no merge of the enlarged sample exists. */
    method ObserveJson(value: Json) returns (ok: bool)
      requires Valid() && IsDom(value) && value.Obj?
      modifies this
      ensures ok <==> ObserveAll(old(sample) + [value]).Some?
      ensures ok ==> Valid() && sample == old(sample) + [value]
    {
      assert (sample + [value])[..|sample|] == sample;
      var observed := ObserveValue(value);
      if observed.None? { return false; }
      ObserveAllProper(sample);
      ObserveProper(value);
      if rows == 0 {
        MergeKinds(ONull, observed.value);
        fields := observed.value.fields;
      } else {
        var merged := MergeType(OStruct(fields), observed.value);
        if merged.None? { return false; }
        MergeKinds(OStruct(fields), observed.value);
        fields := merged.value.fields;
      }
      rows := rows + 1;
      sample := sample + [value];
      ok := true;
    }
  }

  function Sample(objects: seq<Json>, maxRows: nat): seq<Json> {
    if |objects| < maxRows then objects else objects[..maxRows]
  }

  /** The schema of a sample: none if it does not merge, empty if it is empty. */
  function SchemaOf(sample: seq<Json>): Option<seq<Field>> {
    match ObserveAll(sample)
    case Some(OStruct(fs)) => Some(MaterializeFields(fs))
    case Some(_) => Some([])
    case None => None
  }

  // ------------------------------------------------------ what a schema means

  /** The type says of which classes the values are: exact for every scalar, and for
  lists and structs all the way down. Field order is the order of first appearance. */
  predicate Describes(t: LogicalType, vs: seq<Json>)
    requires AllDom(vs)
    decreases t
  {
    match t
    case NullType => Classes(vs) == {}
    case Boolean => Classes(vs) == {Truth}
    case Int64 => Classes(vs) == {Signed}
    case UInt64 => Classes(vs) == {Unsigned}
    case Float64 => {} < Classes(vs) <= {Signed, Unsigned, Fractional} && Classes(vs) !in {{Signed}, {Unsigned}}
    case Utf8 => Classes(vs) == {Textual}
    case List(e) => Classes(vs) == {Listing} && AllDom(ItemValues(vs)) && Describes(e, ItemValues(vs))
    case Struct(fs) =>
      && Classes(vs) == {Record} && NamesIn(vs) == SchemaNames(fs)
      && forall k | 0 <= k < |fs| ::
           var values := FieldValues(vs, fs[k].name);
           AllDom(values) && Describes(fs[k].dataType, values) && (fs[k].nullable <==> SomeNullOrAbsent(vs, fs[k].name))
    case _ => false
  }

  function SchemaNames(fs: seq<Field>): (names: seq<string>) {
    seq(|fs|, i requires 0 <= i < |fs| => fs[i].name)
  }

  lemma {:induction false} MaterializedDescribes(vs: seq<Json>, o: Observed)
    requires AllDom(vs) && ObserveAll(vs) == Some(o)
    ensures Describes(Materialize(o), vs)
    decreases o
  {
    SampleMeans(vs);
    match o
    case OList(e) =>
      ListExplained(vs);
      MaterializedDescribes(ItemValues(vs), e);
    case OStruct(fs) =>
      FieldOrder(vs);
      ObserveAllProper(vs);
      var r := MaterializeFields(fs);
      assert SchemaNames(r) == FieldNames(fs);
      forall k | 0 <= k < |fs|
        ensures var values := FieldValues(vs, r[k].name);
                && AllDom(values) && Describes(r[k].dataType, values)
                && (r[k].nullable <==> SomeNullOrAbsent(vs, r[k].name))
      {
        StructExplained(vs, fs[k].name);
        PositionUnique(fs, k);
        FieldValuesDom(vs, fs[k].name);
        MaterializedDescribes(FieldValues(vs, fs[k].name), fs[k].dataType);
      }
    case _ =>
  }

  /** The logical type at a path, and what it says of the values found there. */
  function LogicalAt(t: LogicalType, path: seq<PathStep>): (r: Option<LogicalType>)
    decreases |path|
  {
    if path == [] then Some(t)
    else match (path[0], t)
      case (Elements, List(e)) => LogicalAt(e, path[1..])
      case (Into(n), Struct(fs)) =>
        if HasField(fs, n) then LogicalAt(fs[FieldIndex(fs, n)].dataType, path[1..]) else None
      case _ => None
  }

  lemma {:induction false} DescribesAtPath(t: LogicalType, vs: seq<Json>, path: seq<PathStep>)
    requires AllDom(vs) && Describes(t, vs) && LogicalAt(t, path).Some?
    ensures AllDom(ValuesAt(vs, path)) && Describes(LogicalAt(t, path).value, ValuesAt(vs, path))
    decreases |path|
  {
    if path != [] {
      match path[0]
      case Elements => DescribesAtPath(t.element, ItemValues(vs), path[1..]);
      case Into(n) => DescribesAtPath(t.fields[FieldIndex(t.fields, n)].dataType, FieldValues(vs, n), path[1..]);
    }
  }

  /** No other type describes the same values: sampling leaves nothing open. */
  lemma {:induction false} DescriptionUnique(t: LogicalType, u: LogicalType, vs: seq<Json>)
    requires AllDom(vs) && Describes(t, vs) && Describes(u, vs)
    ensures t == u
    decreases t
  {
    match t
    case List(e) => DescriptionUnique(e, u.element, ItemValues(vs));
    case Struct(fs) =>
      assert SchemaNames(fs) == SchemaNames(u.fields);
      forall k | 0 <= k < |fs| ensures fs[k] == u.fields[k] {
        assert SchemaNames(fs)[k] == SchemaNames(u.fields)[k];
        DescriptionUnique(fs[k].dataType, u.fields[k].dataType, FieldValues(vs, fs[k].name));
      }
    case _ =>
  }

  /** The schema of a sample of objects: there is one exactly if the values mix at every
  path, and then it is the one that describes them. */
  ghost predicate Explains(r: Option<seq<Field>>, sample: seq<Json>)
    requires AllDom(sample)
  {
    && (r.Some? <==> MixesEverywhere(sample))
    && (r.Some? && sample != [] ==> Describes(Struct(r.value), sample))
    && (sample == [] ==> r == Some([]))
  }

  lemma {:induction false} SchemaMeans(sample: seq<Json>)
    requires AllDom(sample) && forall i | 0 <= i < |sample| :: sample[i].Obj?
    ensures Explains(SchemaOf(sample), sample)
  {
    InferenceSucceedsExactly(sample);
    if ObserveAll(sample).Some? && sample != [] {
      var o := ObserveAll(sample).value;
      SampleMeans(sample);
      assert ClassOf(sample[0]) in Classes(sample);
      MaterializedDescribes(sample, o);
    }
  }

  lemma {:induction false} SampleGrows(objects: seq<Json>, maxRows: nat, i: nat)
    requires i < |objects| && i <= |Sample(objects, maxRows)| && i != maxRows
    ensures var sample := Sample(objects, maxRows);
            i < |sample| && sample[..i + 1] == sample[..i] + [objects[i]]
  {
  }

  lemma {:induction false} RecordSchema(fields: seq<OField>, sample: seq<Json>)
    requires ObserveAll(sample) == Some(if sample == [] then ONull else OStruct(fields))
    requires sample == [] ==> fields == []
    ensures SchemaOf(sample) == Some(MaterializeFields(fields))
  {
  }

  /** The sampling loop: the observed fields of at most `maxRows` objects. */
  method ObserveRows(objects: seq<Json>, maxRows: nat) returns (r: Option<seq<OField>>)
    requires AllDom(objects) && forall i | 0 <= i < |objects| :: objects[i].Obj?
    ensures SchemaOf(Sample(objects, maxRows)) == if r.None? then None else Some(MaterializeFields(r.value))
  {
    ghost var sample := Sample(objects, maxRows);
    var record := new ObservedRecord();
    var i := 0;
    while i < |objects| && record.rows != maxRows
      invariant 0 <= i <= |sample| && record.Valid() && record.rows == i
      invariant record.sample == sample[..i]
      invariant fresh(record)
    {
      SampleGrows(objects, maxRows, i);
      var ok := record.ObserveJson(objects[i]);
      if !ok {
        AbsorbFailure(sample, i + 1);
        return None;
      }
      i := i + 1;
    }
    assert sample[..i] == sample;
    RecordSchema(record.fields, sample);
    return Some(record.fields);
  }

  /** Infers a schema from at most `maxRows` objects. */
  method InferJson(objects: seq<Json>, maxRows: nat) returns (r: Option<seq<Field>>)
    requires AllDom(objects) && forall i | 0 <= i < |objects| :: objects[i].Obj?
    ensures r == SchemaOf(Sample(objects, maxRows))
    ensures AllDom(Sample(objects, maxRows)) && Explains(r, Sample(objects, maxRows))
  {
    var fields := ObserveRows(objects, maxRows);
    SchemaMeans(Sample(objects, maxRows));
    return if fields.None? then None else Some(MaterializeFields(fields.value));
  }
}
