/** The two ways of turning one JSON row into its projected record.

The generic path reads every selected value into a DOM, validates that and
re-encodes it. The direct path captures the selected token slices, validates
them by streaming, and falls back to a DOM only when it must. */
module ProjectedRows {
  import opened JsonTree
  import opened Options
  import opened LogicalTypes
  import opened Validation
  import opened Temporal
  import opened RowFrame

  /** One member of a row: its tokens, and two facts about how they are spelled.
  `controlByte` says some byte of the slice is below 0x20, `wideDigits` that it
  has a run of at least nineteen digits. */
  datatype RowMember = RowMember(name: string, value: Json, controlByte: bool, wideDigits: bool)

  datatype Row = NotAnObject | Row(members: seq<RowMember>)

  // ---------------------------------------------------- one selected value

  /** The generic path's cell: read, validate, normalize. */
  function GenericCell(v: Json, f: Field): (r: Option<Json>) {
    var dom := ReadDom(v);
    if dom.None? || !DomValue(dom.value, f.dataType, f.nullable) then None
    else Normalize(dom.value, f.dataType)
  }

  datatype Slot = Empty | Raw(tokens: Json) | Canonical(value: Json)

  function SlotValue(s: Slot): Json {
    match s
    case Empty => Null
    case Raw(tokens) => tokens
    case Canonical(value) => value
  }

  predicate IsSubtree(t: LogicalType) {
    t.List? || t.Struct?
  }

  predicate CanHoldNumbers(t: LogicalType) {
    !(t.Utf8? || t.Binary? || t.Boolean? || t.Date32? || t.Timestamp? || t.NullType?)
  }

  predicate NeedsCanonical(m: RowMember, t: LogicalType) {
    || !NoRepeats(m.value)
    || (IsSubtree(t) && m.controlByte)
    || (CanHoldNumbers(t) && m.wideDigits)
    || ContainsTimestamp(t)
  }

  /** The branch that lets the DOM overrule a failed streaming pass. */
  predicate Recovers(m: RowMember, f: Field) {
    && !StreamValue(m.value, f.dataType, f.nullable, Flag)
    && IsSubtree(f.dataType)
    && Readable(m.value)
    && DomValue(Collapse(m.value), f.dataType, f.nullable)
  }

  /** The direct path's slot. */
  function DirectSlot(m: RowMember, f: Field): (r: Option<Slot>) {
    if StreamValue(m.value, f.dataType, f.nullable, Flag) then
      if NeedsCanonical(m, f.dataType) then
        var cell := GenericCell(m.value, f);
        if cell.Some? then Some(Canonical(cell.value)) else None
      else Some(Raw(m.value))
    else if Recovers(m, f) then Some(Canonical(Collapse(m.value)))
    else None
  }

  /** A recovered value that still carries timestamp text: the recovery branch
  re-encodes it as it stands. */
  predicate Stale(m: RowMember, f: Field) {
    Recovers(m, f) && HoldsTimestamp(Collapse(m.value), f.dataType)
  }

  lemma {:induction false} ScalarStreamExact(v: Json, t: LogicalType, nullable: bool)
    requires !IsSubtree(t)
    ensures StreamValue(v, t, nullable, Flag) <==> Readable(v) && DomValue(Collapse(v), t, nullable)
  {
    match v
    case Num(n) => NumberViewsAgree(n, t);
    case _ =>
  }

  /** Slot against cell. Outside the stale case they hold the same value and
  agree on acceptance; a stale slot is accepted and never equals the cell. */
  lemma {:induction false} SlotAgainstCell(m: RowMember, f: Field)
    requires WellFormed(f.dataType)
    ensures GenericCell(m.value, f).Some? ==> DirectSlot(m, f).Some?
    ensures !Stale(m, f) ==>
              && (DirectSlot(m, f).Some? <==> GenericCell(m.value, f).Some?)
              && (DirectSlot(m, f).Some? ==> SlotValue(DirectSlot(m, f).value) == GenericCell(m.value, f).value)
    ensures Stale(m, f) ==>
              && DirectSlot(m, f).Some?
              && Some(SlotValue(DirectSlot(m, f).value)) != GenericCell(m.value, f)
  {
    var v, t := m.value, f.dataType;
    FlagModeSound(v, t, f.nullable);
    CollapseHasNoRepeats(v);
    if Readable(v) && DomValue(Collapse(v), t, f.nullable) {
      NormalizeIsIdentity(Collapse(v), t, f.nullable);
    }
    if StreamValue(v, t, f.nullable, Flag) {
      if !NeedsCanonical(m, t) {
        CollapseOfDistinct(v);
        NoTimestampType(v, t);
      }
    } else if !IsSubtree(t) {
      ScalarStreamExact(v, t, f.nullable);
    }
  }

  // ---------------------------------------------------------------- whole rows

  function Required(schema: seq<Field>): set<string> {
    set i | 0 <= i < |schema| && !schema[i].nullable :: schema[i].name
  }

  /** A member outside the schema is at fault; one that is not projected only has
  to stream without repeats. */
  function GenericEntry(m: RowMember, schema: seq<Field>, names: seq<string>): (e: Entry<Json>)
    ensures e.name == m.name
  {
    var k := FieldIndex(schema, m.name);
    Entry(m.name,
      if k == |schema| then None
      else if m.name in names then GenericCell(m.value, schema[k])
      else if StreamValue(m.value, schema[k].dataType, schema[k].nullable, Reject) then Some(Null)
      else None)
  }

  function DirectEntry(m: RowMember, schema: seq<Field>, names: seq<string>): (e: Entry<Slot>)
    ensures e.name == m.name
  {
    var k := FieldIndex(schema, m.name);
    Entry(m.name,
      if k == |schema| then None
      else if m.name in names then DirectSlot(m, schema[k])
      else if StreamValue(m.value, schema[k].dataType, schema[k].nullable, Reject) then Some(Empty)
      else None)
  }

  function GenericEntries(ms: seq<RowMember>, schema: seq<Field>, names: seq<string>): seq<Entry<Json>> {
    seq(|ms|, i requires 0 <= i < |ms| => GenericEntry(ms[i], schema, names))
  }

  function DirectEntries(ms: seq<RowMember>, schema: seq<Field>, names: seq<string>): seq<Entry<Slot>> {
    seq(|ms|, i requires 0 <= i < |ms| => DirectEntry(ms[i], schema, names))
  }

  /** The projected record: the value of each projected name in order, null where
  the row has no such member. */
  function GenericRow(row: Row, schema: seq<Field>, names: seq<string>): (r: Option<seq<Json>>) {
    if row.NotAnObject? then None
    else Record(GenericEntries(row.members, schema, names), Required(schema), names, Null)
  }

  function DirectSlots(row: Row, schema: seq<Field>, names: seq<string>): (r: Option<seq<Slot>>) {
    if row.NotAnObject? then None
    else Record(DirectEntries(row.members, schema, names), Required(schema), names, Empty)
  }

  function SlotValues(slots: seq<Slot>): seq<Json> {
    seq(|slots|, i requires 0 <= i < |slots| => SlotValue(slots[i]))
  }

  function DirectRow(row: Row, schema: seq<Field>, names: seq<string>): (r: Option<seq<Json>>) {
    var slots := DirectSlots(row, schema, names);
    if slots.None? then None else Some(SlotValues(slots.value))
  }

  predicate StaleAt(m: RowMember, schema: seq<Field>, names: seq<string>) {
    var k := FieldIndex(schema, m.name);
    m.name in names && k < |schema| && Stale(m, schema[k])
  }

  predicate StaleRow(row: Row, schema: seq<Field>, names: seq<string>) {
    row.Row? && exists i | 0 <= i < |row.members| :: StaleAt(row.members[i], schema, names)
  }

  /** Entry against entry, from `SlotAgainstCell`. */
  lemma {:induction false} EntryAgainstEntry(m: RowMember, schema: seq<Field>, names: seq<string>)
    requires WellFormedFields(schema)
    ensures var d, g := DirectEntry(m, schema, names).cell, GenericEntry(m, schema, names).cell;
            && (g.Some? ==> d.Some?)
            && (!StaleAt(m, schema, names) ==> (d.Some? <==> g.Some?) && (d.Some? ==> SlotValue(d.value) == g.value))
            && (StaleAt(m, schema, names) ==> d.Some? && Some(SlotValue(d.value)) != g)
  {
    var k := FieldIndex(schema, m.name);
    if k < |schema| {
      SlotAgainstCell(m, schema[k]);
    }
  }

  /** Both paths see the same names. */
  lemma {:induction false} SameNames(ms: seq<RowMember>, schema: seq<Field>, names: seq<string>)
    ensures var d, g := DirectEntries(ms, schema, names), GenericEntries(ms, schema, names);
            && DistinctEntries(d, |d|) == DistinctEntries(g, |g|)
            && EntryNames(d, |d|) == EntryNames(g, |g|)
            && forall s :: Index(d, s) == Index(g, s)
  {
    var d, g := DirectEntries(ms, schema, names), GenericEntries(ms, schema, names);
    assert forall i | 0 <= i < |ms| :: d[i].name == ms[i].name && g[i].name == ms[i].name;
  }

  /** The direct path never refuses a row the generic path accepts. */
  lemma {:induction false} DirectAcceptsMore(row: Row, schema: seq<Field>, names: seq<string>)
    requires WellFormedFields(schema)
    ensures GenericRow(row, schema, names).Some? ==> DirectRow(row, schema, names).Some?
  {
    if GenericRow(row, schema, names).Some? {
      SameNames(row.members, schema, names);
      var d, g := DirectEntries(row.members, schema, names), GenericEntries(row.members, schema, names);
      forall i | 0 <= i < |d| ensures d[i].cell.Some? {
        assert g[i].cell.Some?;
        EntryAgainstEntry(row.members[i], schema, names);
      }
    }
  }

  /** Without a stale member the two paths give the same record, or both refuse. */
  lemma {:induction false} DirectMatchesGeneric(row: Row, schema: seq<Field>, names: seq<string>)
    requires WellFormedFields(schema)
    requires !StaleRow(row, schema, names)
    ensures DirectRow(row, schema, names) == GenericRow(row, schema, names)
  {
    if row.Row? {
      SameNames(row.members, schema, names);
      var d, g := DirectEntries(row.members, schema, names), GenericEntries(row.members, schema, names);
      forall i | 0 <= i < |d|
        ensures d[i].cell.Some? <==> g[i].cell.Some?
        ensures d[i].cell.Some? ==> SlotValue(d[i].cell.value) == g[i].cell.value
      {
        EntryAgainstEntry(row.members[i], schema, names);
      }
      assert CellsPresent(d, |d|) == CellsPresent(g, |g|);
      if Accepts(d, Required(schema)) {
        assert DirectRow(row, schema, names).value == GenericRow(row, schema, names).value;
      }
    }
  }

  // ------------------------------------------------------ what a record holds

  /** How a path reads one selected value under its field. */
  type Reading = (RowMember, Field) -> Option<Json>

  function GenericReading(): Reading {
    (m: RowMember, f: Field) => GenericCell(m.value, f)
  }

  function DirectReading(): Reading {
    (m: RowMember, f: Field) =>
      var slot := DirectSlot(m, f);
      if slot.Some? then Some(SlotValue(slot.value)) else None
  }

  /** Member names are distinct and known, and every required field is there. */
  predicate NamesInOrder(ms: seq<RowMember>, schema: seq<Field>) {
    && (forall i, j | 0 <= i < j < |ms| :: ms[i].name != ms[j].name)
    && (forall i | 0 <= i < |ms| :: HasField(schema, ms[i].name))
    && (forall k | 0 <= k < |schema| && !schema[k].nullable :: HasMember(ms, schema[k].name))
  }

  predicate HasMember(ms: seq<RowMember>, name: string) {
    exists i | 0 <= i < |ms| :: ms[i].name == name
  }

  /** Members that are not projected stream without repeats. */
  predicate OthersStream(ms: seq<RowMember>, schema: seq<Field>, names: seq<string>) {
    forall i, k | 0 <= i < |ms| && 0 <= k < |schema| && ms[i].name == schema[k].name && ms[i].name !in names ::
      StreamValue(ms[i].value, schema[k].dataType, schema[k].nullable, Reject)
  }

  /** At each position of the record stands the reading of the member that has the
  projected name, under the field of that name; null if the row has no such member. */
  ghost predicate ValuesInPlace(ms: seq<RowMember>, schema: seq<Field>, names: seq<string>, read: Reading,
                                record: seq<Json>)
  {
    && |record| == |names|
    && (forall p, i, k | 0 <= p < |names| && 0 <= i < |ms| && 0 <= k < |schema|
                         && ms[i].name == names[p] && schema[k].name == names[p] ::
          read(ms[i], schema[k]) == Some(record[p]))
    && (forall p | 0 <= p < |names| && !HasMember(ms, names[p]) :: record[p] == Null)
  }

  ghost predicate Projects(row: Row, schema: seq<Field>, names: seq<string>, read: Reading, record: seq<Json>) {
    && row.Row? && NamesInOrder(row.members, schema) && OthersStream(row.members, schema, names)
    && ValuesInPlace(row.members, schema, names, read, record)
  }

  function ReadEntry(m: RowMember, schema: seq<Field>, names: seq<string>, read: Reading): (e: Entry<Json>)
    ensures e.name == m.name
  {
    var k := FieldIndex(schema, m.name);
    Entry(m.name,
      if k == |schema| then None
      else if m.name in names then read(m, schema[k])
      else if StreamValue(m.value, schema[k].dataType, schema[k].nullable, Reject) then Some(Null)
      else None)
  }

  function ReadEntries(ms: seq<RowMember>, schema: seq<Field>, names: seq<string>, read: Reading): seq<Entry<Json>> {
    seq(|ms|, i requires 0 <= i < |ms| => ReadEntry(ms[i], schema, names, read))
  }

  /** An accepted entry, by its field. */
  lemma {:induction false} EntryAccepted(m: RowMember, schema: seq<Field>, names: seq<string>, read: Reading, k: nat)
    requires DistinctFields(schema) && k < |schema| && schema[k].name == m.name
    ensures ReadEntry(m, schema, names, read).cell ==
            if m.name in names then read(m, schema[k])
            else if StreamValue(m.value, schema[k].dataType, schema[k].nullable, Reject) then Some(Null)
            else None
  {
    FieldIndexUnique(schema, k);
  }

  lemma {:induction false} NamesOfEntries(ms: seq<RowMember>, schema: seq<Field>, names: seq<string>, read: Reading)
    ensures var es := ReadEntries(ms, schema, names, read);
            && (forall name :: name in EntryNames(es, |es|) <==> HasMember(ms, name))
            && (NamesInOrder(ms, schema) <==>
                DistinctEntries(es, |es|) && Required(schema) <= EntryNames(es, |es|)
                && forall i | 0 <= i < |ms| :: HasField(schema, ms[i].name))
  {
    var es := ReadEntries(ms, schema, names, read);
    assert |es| == |ms| && forall i | 0 <= i < |ms| :: es[i].name == ms[i].name;
    forall name ensures name in EntryNames(es, |es|) <==> HasMember(ms, name) {
      if HasMember(ms, name) {
        var i :| 0 <= i < |ms| && ms[i].name == name;
        assert es[i].name == name;
      }
    }
    if NamesInOrder(ms, schema) {
      forall name | name in Required(schema) ensures name in EntryNames(es, |es|) {
        var k :| 0 <= k < |schema| && !schema[k].nullable && schema[k].name == name;
        assert HasMember(ms, name);
      }
    }
    if Required(schema) <= EntryNames(es, |es|) {
      forall k | 0 <= k < |schema| && !schema[k].nullable ensures HasMember(ms, schema[k].name) {
        assert schema[k].name in Required(schema);
      }
    }
  }

  /** From the entries of an accepted record to the row. */
  lemma {:induction false} ListedProjects(ms: seq<RowMember>, schema: seq<Field>, names: seq<string>, read: Reading,
                                          record: seq<Json>)
    requires DistinctFields(schema)
    requires var es := ReadEntries(ms, schema, names, read);
             Accepts(es, Required(schema)) && Lists(es, names, Null, record)
    ensures Projects(Row(ms), schema, names, read, record)
  {
    var es := ReadEntries(ms, schema, names, read);
    NamesOfEntries(ms, schema, names, read);
    assert |es| == |ms| && forall i | 0 <= i < |ms| :: es[i] == ReadEntry(ms[i], schema, names, read);
    forall i, k | 0 <= i < |ms| && 0 <= k < |schema| && ms[i].name == schema[k].name
      ensures ms[i].name !in names ==>
                StreamValue(ms[i].value, schema[k].dataType, schema[k].nullable, Reject)
      ensures ms[i].name in names ==> es[i].cell == read(ms[i], schema[k])
    {
      EntryAccepted(ms[i], schema, names, read, k);
      assert es[i].cell.Some?;
    }
    forall i | 0 <= i < |ms| ensures HasField(schema, ms[i].name) {
      assert es[i].cell.Some?;
    }
    assert forall p, i | 0 <= p < |names| && 0 <= i < |es| && es[i].name == names[p] :: es[i].cell == Some(record[p]);
  }

  /** And back. */
  lemma {:induction false} ProjectedLists(ms: seq<RowMember>, schema: seq<Field>, names: seq<string>, read: Reading,
                                          record: seq<Json>)
    requires DistinctFields(schema) && Projects(Row(ms), schema, names, read, record)
    ensures var es := ReadEntries(ms, schema, names, read);
            Accepts(es, Required(schema)) && Lists(es, names, Null, record)
  {
    var es := ReadEntries(ms, schema, names, read);
    NamesOfEntries(ms, schema, names, read);
    forall i | 0 <= i < |es|
      ensures es[i].cell.Some?
      ensures forall p | 0 <= p < |names| && es[i].name == names[p] :: es[i].cell == Some(record[p])
    {
      var k := FieldIndex(schema, ms[i].name);
      assert HasField(schema, ms[i].name);
      EntryAccepted(ms[i], schema, names, read, k);
      if ms[i].name in names {
        var p :| 0 <= p < |names| && names[p] == ms[i].name;
        assert read(ms[i], schema[k]) == Some(record[p]);
      }
    }
  }

  lemma {:induction false} RecordProjects(ms: seq<RowMember>, schema: seq<Field>, names: seq<string>, read: Reading,
                                          record: seq<Json>)
    requires DistinctFields(schema)
    ensures Record(ReadEntries(ms, schema, names, read), Required(schema), names, Null) == Some(record)
       <==> Projects(Row(ms), schema, names, read, record)
  {
    RecordLists(ReadEntries(ms, schema, names, read), Required(schema), names, Null, record);
    if Projects(Row(ms), schema, names, read, record) {
      ProjectedLists(ms, schema, names, read, record);
    } else if Record(ReadEntries(ms, schema, names, read), Required(schema), names, Null) == Some(record) {
      ListedProjects(ms, schema, names, read, record);
    }
  }

  /** The generic path answers with a record exactly if the row projects to it. */
  lemma {:induction false} GenericRowExact(row: Row, schema: seq<Field>, names: seq<string>, record: seq<Json>)
    requires DistinctFields(schema)
    ensures GenericRow(row, schema, names) == Some(record)
       <==> Projects(row, schema, names, GenericReading(), record)
  {
    if row.Row? {
      RecordProjects(row.members, schema, names, GenericReading(), record);
      assert GenericEntries(row.members, schema, names) == ReadEntries(row.members, schema, names, GenericReading());
    }
  }

  lemma {:induction false} SlotsConvert(ms: seq<RowMember>, schema: seq<Field>, names: seq<string>)
    ensures AllConverted(DirectEntries(ms, schema, names), ReadEntries(ms, schema, names, DirectReading()),
                         (slot: Slot) => SlotValue(slot))
  {
  }

  lemma {:induction false} DirectRowRecord(ms: seq<RowMember>, schema: seq<Field>, names: seq<string>)
    ensures DirectRow(Row(ms), schema, names)
         == Record(ReadEntries(ms, schema, names, DirectReading()), Required(schema), names, Null)
  {
    var d, g := DirectEntries(ms, schema, names), ReadEntries(ms, schema, names, DirectReading());
    var value := (slot: Slot) => SlotValue(slot);
    SlotsConvert(ms, schema, names);
    ConvertedAccepts(d, g, value, Required(schema));
    if Accepts(d, Required(schema)) {
      ConvertedRecord(d, g, value, Required(schema), names, Empty);
      assert DirectRow(Row(ms), schema, names).value == Record(g, Required(schema), names, Null).value;
    }
  }

  /** So does the direct path, with its own reading of a value. */
  lemma {:induction false} DirectRowExact(row: Row, schema: seq<Field>, names: seq<string>, record: seq<Json>)
    requires DistinctFields(schema)
    ensures DirectRow(row, schema, names) == Some(record)
       <==> Projects(row, schema, names, DirectReading(), record)
  {
    if row.Row? {
      RecordProjects(row.members, schema, names, DirectReading(), record);
      DirectRowRecord(row.members, schema, names);
    }
  }

  /** The row is in order but for its stale members: names are distinct, required
  ones are there, and every other member is acceptable to the generic path. */
  predicate OtherwiseFits(row: Row, schema: seq<Field>, names: seq<string>)
    requires row.Row?
  {
    var g := GenericEntries(row.members, schema, names);
    && DistinctEntries(g, |g|)
    && Required(schema) <= EntryNames(g, |g|)
    && forall i | 0 <= i < |g| :: StaleAt(row.members[i], schema, names) || g[i].cell.Some?
  }

  /** The direct path accepts exactly the rows that fit but for stale members. */
  lemma {:induction false} DirectAcceptsExactly(row: Row, schema: seq<Field>, names: seq<string>)
    requires WellFormedFields(schema) && row.Row?
    ensures DirectRow(row, schema, names).Some? <==> OtherwiseFits(row, schema, names)
  {
    SameNames(row.members, schema, names);
    var d, g := DirectEntries(row.members, schema, names), GenericEntries(row.members, schema, names);
    forall i | 0 <= i < |d|
      ensures d[i].cell.Some? <==> StaleAt(row.members[i], schema, names) || g[i].cell.Some?
    {
      EntryAgainstEntry(row.members[i], schema, names);
    }
    assert CellsPresent(d, |d|) <==>
           forall i | 0 <= i < |g| :: StaleAt(row.members[i], schema, names) || g[i].cell.Some?;
  }

  /** A stale member of an accepted row makes the records differ. */
  lemma {:induction false} StaleDiffers(row: Row, schema: seq<Field>, names: seq<string>)
    requires WellFormedFields(schema) && StaleRow(row, schema, names) && DirectRow(row, schema, names).Some?
    ensures DirectRow(row, schema, names) != GenericRow(row, schema, names)
  {
    var ms := row.members;
    if GenericRow(row, schema, names).Some? {
      var d, g := DirectEntries(ms, schema, names), GenericEntries(ms, schema, names);
      var i :| 0 <= i < |ms| && StaleAt(ms[i], schema, names);
      EntryAgainstEntry(ms[i], schema, names);
      IndexOfDistinct(d, i);
      IndexOfDistinct(g, i);
      var p :| 0 <= p < |names| && names[p] == ms[i].name;
      assert DirectRow(row, schema, names).value[p] == SlotValue(d[i].cell.value);
      assert GenericRow(row, schema, names).value[p] == g[i].cell.value;
    }
  }

  /** Exactly when the two paths differ: some selected member is stale and the row
  is otherwise in order. */
  lemma {:induction false} DirectDiffersExactly(row: Row, schema: seq<Field>, names: seq<string>)
    requires WellFormedFields(schema)
    ensures DirectRow(row, schema, names) != GenericRow(row, schema, names)
       <==> StaleRow(row, schema, names) && OtherwiseFits(row, schema, names)
  {
    if StaleRow(row, schema, names) {
      DirectAcceptsExactly(row, schema, names);
      DirectAcceptsMore(row, schema, names);
      if DirectRow(row, schema, names).Some? {
        StaleDiffers(row, schema, names);
      }
    } else {
      DirectMatchesGeneric(row, schema, names);
    }
  }

  /** Types without a timestamp: the two paths are the same function. */
  lemma {:induction false} DirectMatchesWithoutTimestamps(row: Row, schema: seq<Field>, names: seq<string>)
    requires WellFormedFields(schema)
    requires forall j | 0 <= j < |schema| && schema[j].name in names :: !ContainsTimestamp(schema[j].dataType)
    ensures DirectRow(row, schema, names) == GenericRow(row, schema, names)
  {
    if row.Row? {
      forall i | 0 <= i < |row.members| ensures !StaleAt(row.members[i], schema, names) {
        var k := FieldIndex(schema, row.members[i].name);
        if row.members[i].name in names && k < |schema| {
          NoTimestampType(Collapse(row.members[i].value), schema[k].dataType);
        }
      }
    }
    DirectMatchesGeneric(row, schema, names);
  }

  lemma {:induction false} SlotHasNoRepeats(m: RowMember, f: Field)
    requires DirectSlot(m, f).Some?
    ensures NoRepeats(SlotValue(DirectSlot(m, f).value))
  {
    CollapseHasNoRepeats(m.value);
    if CanNormalize(Collapse(m.value), f.dataType) {
      NormalizeKeepsDistinct(Collapse(m.value), f.dataType);
    }
  }

  /** A record has one value per projected name, and no object in it repeats a
  name whatever the row repeated. */
  lemma {:induction false} DirectRowShape(row: Row, schema: seq<Field>, names: seq<string>)
    requires DirectRow(row, schema, names).Some?
    ensures var r := DirectRow(row, schema, names).value;
            |r| == |names| && forall p | 0 <= p < |r| :: NoRepeats(r[p])
  {
    var r := DirectRow(row, schema, names).value;
    var ms := row.members;
    var d := DirectEntries(ms, schema, names);
    forall p | 0 <= p < |r| ensures NoRepeats(r[p]) {
      var k := Index(d, names[p]);
      if k < |ms| {
        assert r[p] == SlotValue(d[k].cell.value);
        assert ms[k].name == names[p];
        SlotHasNoRepeats(ms[k], schema[FieldIndex(schema, ms[k].name)]);
      }
    }
  }

  lemma {:induction false} OverwriteCollapses(name: string, first: Json, last: Json)
    requires first.Num? && last.Str?
    ensures CollapseMembers([Member(name, first), Member(name, last)]) == [Member(name, last)]
  {
    var a, b := Member(name, first), Member(name, last);
    assert [a, b][..1] == [a] && [a][..0] == [];
    assert CollapseMembers([a]) == [a];
    assert IndexOf([a], name) == 0;
  }

  lemma {:induction false} DomOfStruct(ms: seq<Member>, fs: seq<Field>, nullable: bool)
    ensures DomValue(Obj(ms), Struct(fs), nullable) == DomStruct(ms, fs)
  {
  }

  /** A struct with one nullable millisecond timestamp, and a member whose value
  overwrites a number with timestamp text under that name, such as
  `{"t":1,"t":"1970-01-01T00:00:01"}`. */
  function StampFields(name: string): seq<Field> {
    [Field(name, Timestamp(Millisecond, None), true)]
  }

  function StampField(name: string): Field {
    Field(name, Struct(StampFields(name)), true)
  }

  function Overwritten(name: string, n: Number, text: Text): RowMember {
    RowMember(name, Obj([Member(name, Num(n)), Member(name, Str(text))]), false, false)
  }

  lemma {:induction false} OverwrittenFailsToStream(name: string, n: Number, text: Text)
    ensures !StreamValue(Overwritten(name, n, text).value, StampField(name).dataType, true, Flag)
  {
    var ms := [Member(name, Num(n)), Member(name, Str(text))];
    assert !StreamStruct(ms, StampFields(name), Flag) by {
      assert !StreamMember(ms, 0, StampFields(name), Flag);
    }
  }

  lemma {:induction false} OverwrittenRecovers(name: string, n: Number, text: Text)
    requires text.naive.Some?
    ensures Recovers(Overwritten(name, n, text), StampField(name))
    ensures Collapse(Overwritten(name, n, text).value) == Obj([Member(name, Str(text))])
  {
    var b := Member(name, Str(text));
    OverwrittenFailsToStream(name, n, text);
    OverwriteCollapses(name, Num(n), Str(text));
    assert DomStruct([b], StampFields(name)) by {
      assert StampFields(name)[0].name == name;
      assert IndexOf([b], name) == 0;
    }
    DomOfStruct([b], StampFields(name), true);
  }

  /** Such values are stale: the direct path accepts each with its text kept, which
  the generic path never does. */
  lemma {:induction false} StaleFamily(name: string, n: Number, text: Text)
    requires text.naive.Some?
    ensures var m, f, kept := Overwritten(name, n, text), StampField(name), Obj([Member(name, Str(text))]);
            Stale(m, f) && DirectSlot(m, f) == Some(Canonical(kept)) && GenericCell(m.value, f) != Some(kept)
  {
    var m, f, b := Overwritten(name, n, text), StampField(name), Member(name, Str(text));
    OverwrittenRecovers(name, n, text);
    assert HoldsTimestamp(Obj([b]), f.dataType) by {
      assert HoldsTimestamp([b][0].value, TypeOf(StampFields(name), name));
    }
    SlotAgainstCell(m, f);
  }

  /** A row that holds such a value: the direct writer accepts it with the text in
  the record, and the generic path gives another record or none. */
  lemma {:induction false} StaleRowFamily(name: string, n: Number, text: Text)
    requires text.naive.Some?
    ensures var row, schema := Row([Overwritten(name, n, text)]), [StampField(name)];
            && DirectRow(row, schema, [name]) == Some([Obj([Member(name, Str(text))])])
            && DirectRow(row, schema, [name]) != GenericRow(row, schema, [name])
  {
    var m, schema, names := Overwritten(name, n, text), [StampField(name)], [name];
    var d, g := DirectEntries([m], schema, names), GenericEntries([m], schema, names);
    StaleFamily(name, n, text);
    assert FieldIndex(schema, name) == 0;
    assert d[0] == Entry(name, DirectSlot(m, schema[0])) && g[0] == Entry(name, GenericCell(m.value, schema[0]));
    assert Index(d, name) == 0 && Index(g, name) == 0;
    assert Required(schema) == {};
    var record := DirectRow(Row([m]), schema, names).value;
    assert record[0] == SlotValue(d[0].cell.value);
    assert record == [record[0]];
  }

  // -------------------------------------------------------- the generic reader

  method ReadCell(v: Json, f: Field) returns (r: Option<Json>)
    requires WellFormed(f.dataType)
    ensures r == GenericCell(v, f)
  {
    if !Readable(v) { return None; }
    var value := Collapse(v);
    if !DomValue(value, f.dataType, f.nullable) { return None; }
    CollapseHasNoRepeats(v);
    r := NormalizeInPlace(value, f.dataType);
  }

  method ReadMember(m: RowMember, schema: seq<Field>, names: seq<string>) returns (cell: Option<Json>)
    requires WellFormedFields(schema)
    ensures cell == GenericEntry(m, schema, names).cell
  {
    var k := FieldIndex(schema, m.name);
    if k == |schema| { return None; }
    if m.name in names {
      cell := ReadCell(m.value, schema[k]);
    } else {
      var valid, _ := VisitValue(m.value, schema[k].dataType, schema[k].nullable, Reject, false);
      return if valid then Some(Null) else None;
    }
  }

  /** The generic path as it runs: one pass over the members into a map, then one
  pass over the projected names. */
  method ParseProjectedObject(row: Row, schema: seq<Field>, names: seq<string>) returns (r: Option<seq<Json>>)
    requires WellFormedFields(schema)
    ensures r == GenericRow(row, schema, names)
    ensures forall record :: r == Some(record) <==> Projects(row, schema, names, GenericReading(), record)
  {
    forall record
      ensures GenericRow(row, schema, names) == Some(record)
         <==> Projects(row, schema, names, GenericReading(), record)
    {
      GenericRowExact(row, schema, names, record);
    }
    if row.NotAnObject? { return None; }
    var ms := row.members;
    ghost var es := GenericEntries(ms, schema, names);
    var output: map<string, Json> := map[];
    var seen: set<string> := {};
    for i := 0 to |ms|
      invariant seen == EntryNames(es, i) && DistinctEntries(es, i) && CellsPresent(es, i)
      invariant forall s | s in output :: s in names
      invariant MapHolds(es, i, names, Null, output)
    {
      TakeEntry(es, i);
      var cell := ReadMember(ms[i], schema, names);
      if cell.None? || ms[i].name in seen {
        return None;
      }
      FillMap(es, i, names, Null, output);
      seen := seen + {ms[i].name};
      if ms[i].name in names {
        output := output[ms[i].name := cell.value];
      }
    }
    if !(Required(schema) <= seen) { return None; }
    var ordered := OrderCells(es, names, output, Null);
    r := Some(ordered);
  }

  // --------------------------------------------------------- the direct writer

  /** Captures one selected value: stream it, canonicalize if it needs that, and
  let the DOM decide when a list or struct fails to stream. */
  method CaptureSlot(m: RowMember, f: Field) returns (slot: Option<Slot>)
    requires WellFormed(f.dataType)
    ensures slot == DirectSlot(m, f)
  {
    var ok, repeats := VisitValue(m.value, f.dataType, f.nullable, Flag, false);
    var subtree := IsSubtree(f.dataType);
    CollapseHasNoRepeats(m.value);
    if ok {
      var canonicalize := repeats
        || (subtree && m.controlByte)
        || (CanHoldNumbers(f.dataType) && m.wideDigits)
        || ContainsTimestamp(f.dataType);
      if !canonicalize { return Some(Raw(m.value)); }
      if !Readable(m.value) { return None; }
      var dom := Collapse(m.value);
      if !DomValue(dom, f.dataType, f.nullable) { return None; }
      var normalized := NormalizeInPlace(dom, f.dataType);
      if normalized.None? { return None; }
      return Some(Canonical(normalized.value));
    }
    if subtree && Readable(m.value) {
      var dom := Collapse(m.value);
      if DomValue(dom, f.dataType, f.nullable) { return Some(Canonical(dom)); }
    }
    return None;
  }

  method WriteSlots(slots: seq<Slot>) returns (r: seq<Json>)
    ensures r == SlotValues(slots)
  {
    r := [];
    for p := 0 to |slots|
      invariant |r| == p && forall q | 0 <= q < p :: r[q] == SlotValue(slots[q])
    {
      r := r + [SlotValue(slots[p])];
    }
  }

  /** Per-batch scratch of the direct writer: the projected names, the slot each
  name fills, and the slots of the row being written. */
  class ProjectedRowAssembler {
    const names: seq<string>
    const slotOf: map<string, nat>
    var slots: seq<Slot>

    ghost predicate Valid()
      reads this
    {
      && DistinctStrings(names)
      && |slots| == |names|
      && (forall s | s in slotOf :: slotOf[s] < |names| && names[slotOf[s]] == s)
      && forall i | 0 <= i < |names| :: names[i] in slotOf
    }

    constructor (names: seq<string>)
      requires DistinctStrings(names)
      ensures Valid() && this.names == names
    {
      this.names := names;
      var index: map<string, nat> := map[];
      for i := 0 to |names|
        invariant forall s | s in index :: index[s] < i && names[index[s]] == s
        invariant forall j | 0 <= j < i :: names[j] in index
      {
        index := index[names[i] := i];
      }
      this.slotOf := index;
      this.slots := seq(|names|, _ => Empty);
    }

    method VisitMember(m: RowMember, schema: seq<Field>) returns (cell: Option<Slot>)
      requires Valid() && WellFormedFields(schema)
      ensures cell == DirectEntry(m, schema, names).cell
    {
      var k := FieldIndex(schema, m.name);
      if k == |schema| { return None; }
      if m.name in slotOf {
        cell := CaptureSlot(m, schema[k]);
      } else {
        var valid, _ := VisitValue(m.value, schema[k].dataType, schema[k].nullable, Reject, false);
        return if valid then Some(Empty) else None;
      }
    }

    /** Clears the slots and fills them from a row's members, stopping at the
    first fault. Nothing of an earlier row can reach this one. */
    method FillSlots(ms: seq<RowMember>, schema: seq<Field>) returns (ok: bool)
      requires Valid() && WellFormedFields(schema)
      modifies this`slots
      ensures Valid()
      ensures (if ok then Some(slots) else None) == DirectSlots(Row(ms), schema, names)
      ensures ok ==> Lists(DirectEntries(ms, schema, names), names, Empty, slots)
    {
      ghost var es := DirectEntries(ms, schema, names);
      slots := seq(|names|, _ => Empty);
      var seen: set<string> := {};
      for i := 0 to |ms|
        invariant |es| == |ms| && |slots| == |names|
        invariant seen == EntryNames(es, i) && DistinctEntries(es, i) && CellsPresent(es, i)
        invariant SlotsHold(es, i, names, Empty, slots)
      {
        TakeEntry(es, i);
        var cell := VisitMember(ms[i], schema);
        assert es[i] == Entry(ms[i].name, cell);
        if cell.None? || ms[i].name in seen {
          FaultRefuses(es, i, Required(schema), names, Empty);
          return false;
        }
        seen := seen + {ms[i].name};
        if ms[i].name in slotOf {
          FillSlot(es, i, names, Empty, slots, slotOf[ms[i].name]);
          slots := slots[slotOf[ms[i].name] := cell.value];
        } else {
          SkipSlot(es, i, names, Empty, slots);
        }
      }
      ok := Required(schema) <= seen;
      if ok {
        SlotsComplete(es, Required(schema), names, Empty, slots);
        RecordLists(es, Required(schema), names, Empty, slots);
      }
    }

    /** Validates one row and returns its projected record. */
    method EncodeRow(row: Row, schema: seq<Field>) returns (r: Option<seq<Json>>)
      requires Valid() && WellFormedFields(schema)
      modifies this`slots
      ensures Valid()
      ensures r == DirectRow(row, schema, names)
      ensures forall record :: r == Some(record) <==> Projects(row, schema, names, DirectReading(), record)
    {
      forall record
        ensures DirectRow(row, schema, names) == Some(record)
           <==> Projects(row, schema, names, DirectReading(), record)
      {
        DirectRowExact(row, schema, names, record);
      }
      if row.NotAnObject? { return None; }
      var ok := FillSlots(row.members, schema);
      if !ok { return None; }
      var written := WriteSlots(slots);
      r := Some(written);
    }
  }
}
