/** The event loop that inspects an OpenDocument content stream, against the
sheets the stream describes. */
module OdsDocument {
  import opened Options
  import opened Arithmetic
  import opened OdsPreflight

  // -------------------------------------------------------------- event machine

  datatype Attribute<T> = Malformed | Given(value: T)

  datatype Event =
    | TableStart(name: Attribute<Option<string>>)
    | TableEmpty
    | RowStart(repeats: Attribute<U64>)
    | RowEmpty(repeats: Attribute<U64>)
    | CellTag(repeats: Attribute<U64>, materialized: Attribute<bool>)
    | Shapes
    | RowEnd
    | TableEnd
    | Other

  datatype OpenSheet = OpenSheet(name: Option<string>, shapes: bool, bounds: SheetBox)
  datatype OpenRow = OpenRow(repeats: nat, bounds: RowBox)
  datatype State = State(sheet: Option<OpenSheet>, row: Option<OpenRow>, unsupported: set<string>)

  const START := State(None, None, {})

  function FinishIn(st: State, row: RowBox, repeats: nat, maxCells: nat): (r: Option<State>)
    requires st.sheet.Some?
  {
    match FinishRow(st.sheet.value.bounds, row, repeats, maxCells)
    case None => None
    case Some(bounds) => Some(st.(sheet := Some(st.sheet.value.(bounds := bounds))))
  }

  function PushIn(st: State, repeats: nat, materialized: bool): (r: Option<State>)
    requires st.row.Some?
  {
    match PushCell(st.row.value.bounds, repeats, materialized)
    case None => None
    case Some(bounds) => Some(st.(row := Some(st.row.value.(bounds := bounds))))
  }

  /** Sheets of drawings only, by name. */
  function Unsupported(sheet: OpenSheet): (names: set<string>) {
    if sheet.shapes && sheet.bounds.box.None? && sheet.name.Some? then {sheet.name.value} else {}
  }

  /** One event; none where the stream is refused. */
  function Handle(st: State, e: Event, maxCells: nat): (r: Option<State>) {
    match e
    case TableStart(name) =>
      if name.Malformed? || st.sheet.Some? then None
      else Some(st.(sheet := Some(OpenSheet(name.value, false, NEW_SHEET))))
    case TableEmpty => Some(st)
    case RowStart(repeats) =>
      if st.sheet.None? then Some(st)
      else if st.row.Some? || repeats.Malformed? then None
      else Some(st.(row := Some(OpenRow(repeats.value, NEW_ROW))))
    case RowEmpty(repeats) =>
      if st.sheet.None? then Some(st)
      else if repeats.Malformed? then None
      else FinishIn(st, NEW_ROW, repeats.value, maxCells)
    case CellTag(repeats, materialized) =>
      if st.row.None? then Some(st)
      else if repeats.Malformed? || materialized.Malformed? then None
      else PushIn(st, repeats.value, materialized.value)
    case Shapes =>
      if st.sheet.None? then Some(st) else Some(st.(sheet := Some(st.sheet.value.(shapes := true))))
    case RowEnd =>
      if st.sheet.None? || st.row.None? then Some(st.(row := None))
      else FinishIn(st.(row := None), st.row.value.bounds, st.row.value.repeats, maxCells)
    case TableEnd =>
      if st.row.Some? || st.sheet.None? then None
      else Some(State(None, None, st.unsupported + Unsupported(st.sheet.value)))
    case Other => Some(st)
  }

  /** The state after the first `n` events. */
  function RunTo(st: State, events: seq<Event>, n: nat, maxCells: nat): (r: Option<State>)
    requires n <= |events|
  {
    if n == 0 then Some(st)
    else match RunTo(st, events, n - 1, maxCells)
      case None => None
      case Some(s) => Handle(s, events[n - 1], maxCells)
  }

  function Run(st: State, events: seq<Event>, maxCells: nat): (r: Option<State>) {
    RunTo(st, events, |events|, maxCells)
  }

  /** The names of unsupported sheets; none when the stream is refused or stops
  inside a sheet. */
  function Validate(events: seq<Event>, maxCells: nat): (r: Option<set<string>>) {
    match Run(START, events, maxCells)
    case None => None
    case Some(st) => if st.sheet.None? && st.row.None? then Some(st.unsupported) else None
  }

  // ------------------------------------------------------------------ documents

  datatype SheetPart = Row(run: RowRun, selfClosed: bool) | Drawing
  datatype Sheet = Sheet(name: Option<string>, parts: seq<SheetPart>)

  /** A count as an attribute: numbers past the 64-bit range do not parse. */
  function Count(n: nat): (a: Attribute<U64>) {
    if n <= U64_MAX then Given(n) else Malformed
  }

  function RenderCells(cells: seq<CellRun>, n: nat): (events: seq<Event>)
    requires n <= |cells|
  {
    if n == 0 then []
    else RenderCells(cells, n - 1) + [CellTag(Count(cells[n - 1].repeats), Given(cells[n - 1].materialized))]
  }

  function RenderPart(part: SheetPart): (events: seq<Event>) {
    match part
    case Drawing => [Shapes]
    case Row(run, selfClosed) =>
      if selfClosed && run.cells == [] then [RowEmpty(Count(run.repeats))]
      else [RowStart(Count(run.repeats))] + RenderCells(run.cells, |run.cells|) + [RowEnd]
  }

  function RenderParts(parts: seq<SheetPart>, n: nat): (events: seq<Event>)
    requires n <= |parts|
  {
    if n == 0 then [] else RenderParts(parts, n - 1) + RenderPart(parts[n - 1])
  }

  function RenderSheet(sheet: Sheet): (events: seq<Event>) {
    [TableStart(Given(sheet.name))] + RenderParts(sheet.parts, |sheet.parts|) + [TableEnd]
  }

  function Render(doc: seq<Sheet>, n: nat): (events: seq<Event>)
    requires n <= |doc|
  {
    if n == 0 then [] else Render(doc, n - 1) + RenderSheet(doc[n - 1])
  }

  function RowsOf(parts: seq<SheetPart>, n: nat): (rows: seq<RowRun>)
    requires n <= |parts|
  {
    if n == 0 then []
    else RowsOf(parts, n - 1) + if parts[n - 1].Row? then [parts[n - 1].run] else []
  }

  predicate HasDrawing(parts: seq<SheetPart>, n: nat)
    requires n <= |parts|
  {
    exists i | 0 <= i < n :: parts[i].Drawing?
  }

  function Rows(sheet: Sheet): (rows: seq<RowRun>) {
    RowsOf(sheet.parts, |sheet.parts|)
  }

  /** The sheet written out. */
  function GridOf(sheet: Sheet): (grid: Grid) {
    ExpandRows(Rows(sheet), |Rows(sheet)|)
  }

  ghost predicate SheetFits(sheet: Sheet, maxCells: nat) {
    RowsFit(Rows(sheet), |Rows(sheet)|, maxCells)
  }

  /** Drawings but no materialized cell. */
  ghost predicate DrawingsOnly(sheet: Sheet) {
    HasDrawing(sheet.parts, |sheet.parts|) && BoxOf(GridOf(sheet), None)
  }

  // ---------------------------------------------------------- running a document

  lemma {:induction false} RunPrefix(st: State, a: seq<Event>, b: seq<Event>, n: nat, maxCells: nat)
    requires n <= |a|
    ensures RunTo(st, a + b, n, maxCells) == RunTo(st, a, n, maxCells)
  {
    if n > 0 {
      RunPrefix(st, a, b, n - 1, maxCells);
      assert (a + b)[n - 1] == a[n - 1];
    }
  }

  lemma {:induction false} RunSuffix(st: State, a: seq<Event>, b: seq<Event>, n: nat, maxCells: nat)
    requires n <= |b|
    ensures RunTo(st, a + b, |a| + n, maxCells) ==
            match Run(st, a, maxCells)
            case None => None
            case Some(s) => RunTo(s, b, n, maxCells)
  {
    if n == 0 {
      RunPrefix(st, a, b, |a|, maxCells);
    } else {
      RunSuffix(st, a, b, n - 1, maxCells);
      assert (a + b)[|a| + n - 1] == b[n - 1];
    }
  }

  lemma {:induction false} RunAppend(st: State, a: seq<Event>, b: seq<Event>, maxCells: nat)
    ensures Run(st, a + b, maxCells) ==
            match Run(st, a, maxCells)
            case None => None
            case Some(s) => Run(s, b, maxCells)
  {
    RunSuffix(st, a, b, |b|, maxCells);
  }

  lemma {:induction false} RunJoined(st: State, a: seq<Event>, b: seq<Event>, maxCells: nat, s: Option<State>,
                                     r: Option<State>)
    requires Run(st, a, maxCells) == s
    requires if s.None? then r == None else Run(s.value, b, maxCells) == r
    ensures Run(st, a + b, maxCells) == r
  {
    RunAppend(st, a, b, maxCells);
  }

  lemma {:induction false} RunOne(st: State, e: Event, maxCells: nat)
    ensures Run(st, [e], maxCells) == Handle(st, e, maxCells)
  {
    assert RunTo(st, [e], 0, maxCells) == Some(st);
  }

  lemma {:induction false} RunCells(st: State, cells: seq<CellRun>, n: nat, maxCells: nat)
    requires n <= |cells| && st.row.Some? && st.row.value.bounds == NEW_ROW
    ensures Run(st, RenderCells(cells, n), maxCells) ==
            match RowBounds(cells, n)
            case None => None
            case Some(row) => Some(st.(row := Some(st.row.value.(bounds := row))))
  {
    if n > 0 {
      RunCells(st, cells, n - 1, maxCells);
      var tag := CellTag(Count(cells[n - 1].repeats), Given(cells[n - 1].materialized));
      RunAppend(st, RenderCells(cells, n - 1), [tag], maxCells);
      if RowBounds(cells, n - 1).Some? {
        RunOne(st.(row := Some(st.row.value.(bounds := RowBounds(cells, n - 1).value))), tag, maxCells);
      }
    }
  }

  /** What one row run does to an open sheet. */
  function AfterRun(st: State, run: RowRun, maxCells: nat): (r: Option<State>)
    requires st.sheet.Some?
  {
    match RowBounds(run.cells, |run.cells|)
    case None => None
    case Some(row) => FinishIn(st, row, run.repeats, maxCells)
  }

  /** A start tag, a body and an end tag, one after the other. */
  function Bracketed(st: State, first: Event, body: seq<Event>, last: Event, maxCells: nat): (r: Option<State>) {
    match Handle(st, first, maxCells)
    case None => None
    case Some(s) =>
      match Run(s, body, maxCells)
      case None => None
      case Some(t) => Handle(t, last, maxCells)
  }

  lemma {:induction false} RunBracketed(st: State, first: Event, body: seq<Event>, last: Event, maxCells: nat)
    ensures Run(st, [first] + body + [last], maxCells) == Bracketed(st, first, body, last, maxCells)
  {
    RunAppend(st, [first] + body, [last], maxCells);
    RunAppend(st, [first], body, maxCells);
    RunOne(st, first, maxCells);
    var t := Run(st, [first] + body, maxCells);
    if t.Some? {
      RunOne(t.value, last, maxCells);
    }
  }

  lemma {:induction false} RunRow(st: State, run: RowRun, selfClosed: bool, maxCells: nat)
    requires st.sheet.Some? && st.row.None?
    ensures Run(st, RenderPart(Row(run, selfClosed)), maxCells) == AfterRun(st, run, maxCells)
  {
    var count := Count(run.repeats);
    if selfClosed && run.cells == [] {
      RunOne(st, RowEmpty(count), maxCells);
    } else {
      var cells := RenderCells(run.cells, |run.cells|);
      RunBracketed(st, RowStart(count), cells, RowEnd, maxCells);
      if count.Given? {
        RunCells(st.(row := Some(OpenRow(run.repeats, NEW_ROW))), run.cells, |run.cells|, maxCells);
      }
    }
  }

  /** Bounds of some rows do not depend on the rows that follow. */
  lemma {:induction false} SheetBoundsLocal(rows: seq<RowRun>, more: seq<RowRun>, n: nat, maxCells: nat)
    requires n <= |rows|
    ensures SheetBounds(rows + more, n, maxCells) == SheetBounds(rows, n, maxCells)
  {
    if n > 0 {
      SheetBoundsLocal(rows, more, n - 1, maxCells);
      assert (rows + more)[n - 1] == rows[n - 1];
    }
  }

  /** An open sheet after its first `n` parts. */
  function AfterParts(st: State, parts: seq<SheetPart>, n: nat, maxCells: nat): (r: Option<State>)
    requires st.sheet.Some? && n <= |parts|
  {
    match SheetBounds(RowsOf(parts, n), |RowsOf(parts, n)|, maxCells)
    case None => None
    case Some(bounds) => Some(st.(sheet := Some(OpenSheet(st.sheet.value.name, HasDrawing(parts, n), bounds))))
  }

  lemma {:induction false} MoreRows(parts: seq<SheetPart>, n: nat, maxCells: nat)
    requires 0 < n <= |parts| && parts[n - 1].Row?
    ensures var rows := RowsOf(parts, n - 1);
            var run := parts[n - 1].run;
            SheetBounds(RowsOf(parts, n), |RowsOf(parts, n)|, maxCells) ==
            match SheetBounds(rows, |rows|, maxCells)
            case None => None
            case Some(sheet) =>
              match RowBounds(run.cells, |run.cells|)
              case None => None
              case Some(row) => FinishRow(sheet, row, run.repeats, maxCells)
    ensures HasDrawing(parts, n) == HasDrawing(parts, n - 1)
  {
    var rows, run := RowsOf(parts, n - 1), parts[n - 1].run;
    SheetBoundsLocal(rows, [run], |rows|, maxCells);
    assert (rows + [run])[|rows|] == run;
  }

  lemma {:induction false} OneMorePart(st: State, parts: seq<SheetPart>, n: nat, maxCells: nat)
    requires 0 < n <= |parts| && st.sheet.Some? && st.row.None?
    ensures AfterParts(st, parts, n, maxCells) ==
            match AfterParts(st, parts, n - 1, maxCells)
            case None => None
            case Some(s) => Run(s, RenderPart(parts[n - 1]), maxCells)
  {
    var s := AfterParts(st, parts, n - 1, maxCells);
    if parts[n - 1].Row? {
      MoreRows(parts, n, maxCells);
      if s.Some? {
        RunRow(s.value, parts[n - 1].run, parts[n - 1].selfClosed, maxCells);
      }
    } else {
      assert RowsOf(parts, n) == RowsOf(parts, n - 1);
      if s.Some? {
        RunOne(s.value, Shapes, maxCells);
      }
    }
  }

  lemma {:induction false} RunParts(st: State, parts: seq<SheetPart>, n: nat, maxCells: nat)
    requires n <= |parts| && st.row.None? && st.sheet.Some?
    requires !st.sheet.value.shapes && st.sheet.value.bounds == NEW_SHEET
    ensures Run(st, RenderParts(parts, n), maxCells) == AfterParts(st, parts, n, maxCells)
  {
    if n == 0 {
    } else {
      RunParts(st, parts, n - 1, maxCells);
      OneMorePart(st, parts, n, maxCells);
      RunJoined(st, RenderParts(parts, n - 1), RenderPart(parts[n - 1]), maxCells,
                AfterParts(st, parts, n - 1, maxCells), AfterParts(st, parts, n, maxCells));
    }
  }

  /** The names a sheet adds to the unsupported ones. */
  ghost function Flagged(sheet: Sheet): (names: set<string>) {
    if DrawingsOnly(sheet) && sheet.name.Some? then {sheet.name.value} else {}
  }

  lemma {:induction false} SheetFlag(sheet: Sheet, maxCells: nat)
    requires SheetFits(sheet, maxCells)
    ensures var bounds := SheetBounds(Rows(sheet), |Rows(sheet)|, maxCells);
            && bounds.Some?
            && Unsupported(OpenSheet(sheet.name, HasDrawing(sheet.parts, |sheet.parts|), bounds.value))
               == Flagged(sheet)
  {
    SheetBoundsExact(Rows(sheet), |Rows(sheet)|, maxCells);
  }

  lemma {:induction false} RunSheet(st: State, sheet: Sheet, maxCells: nat)
    requires st.sheet.None? && st.row.None?
    ensures Run(st, RenderSheet(sheet), maxCells) ==
            if SheetFits(sheet, maxCells) then Some(State(None, None, st.unsupported + Flagged(sheet))) else None
  {
    var parts, rows := sheet.parts, Rows(sheet);
    RunBracketed(st, TableStart(Given(sheet.name)), RenderParts(parts, |parts|), TableEnd, maxCells);
    RunParts(st.(sheet := Some(OpenSheet(sheet.name, false, NEW_SHEET))), parts, |parts|, maxCells);
    if SheetFits(sheet, maxCells) {
      SheetFlag(sheet, maxCells);
    } else {
      SheetBoundsExact(rows, |rows|, maxCells);
    }
  }

  ghost predicate AllFit(doc: seq<Sheet>, n: nat, maxCells: nat)
    requires n <= |doc|
  {
    forall i | 0 <= i < n :: SheetFits(doc[i], maxCells)
  }

  ghost function AllFlagged(doc: seq<Sheet>, n: nat): (names: set<string>)
    requires n <= |doc|
  {
    if n == 0 then {} else AllFlagged(doc, n - 1) + Flagged(doc[n - 1])
  }

  lemma {:induction false} FlaggedNames(doc: seq<Sheet>, n: nat, name: string)
    requires n <= |doc|
    ensures name in AllFlagged(doc, n) <==> exists i | 0 <= i < n :: doc[i].name == Some(name) && DrawingsOnly(doc[i])
  {
    if n > 0 {
      FlaggedNames(doc, n - 1, name);
    }
  }

  /** The outcome of the first `n` sheets. */
  ghost function Outcome(doc: seq<Sheet>, n: nat, maxCells: nat): (r: Option<State>)
    requires n <= |doc|
  {
    if AllFit(doc, n, maxCells) then Some(State(None, None, AllFlagged(doc, n))) else None
  }

  lemma {:induction false} OutcomeStep(doc: seq<Sheet>, n: nat, maxCells: nat)
    requires 0 < n <= |doc|
    ensures Outcome(doc, n, maxCells) ==
            if Outcome(doc, n - 1, maxCells).None? then None
            else if SheetFits(doc[n - 1], maxCells)
                 then Some(State(None, None, AllFlagged(doc, n - 1) + Flagged(doc[n - 1]))) else None
  {
  }

  lemma {:induction false} RunDocument(doc: seq<Sheet>, n: nat, maxCells: nat)
    requires n <= |doc|
    ensures Run(START, Render(doc, n), maxCells) == Outcome(doc, n, maxCells)
  {
    if n > 0 {
      var before := Outcome(doc, n - 1, maxCells);
      RunDocument(doc, n - 1, maxCells);
      OutcomeStep(doc, n, maxCells);
      if before.Some? {
        RunSheet(before.value, doc[n - 1], maxCells);
      }
      RunJoined(START, Render(doc, n - 1), RenderSheet(doc[n - 1]), maxCells, before, Outcome(doc, n, maxCells));
    }
  }

  /** Events that stand for nothing: text, styles, and empty tables. */
  predicate Noise(e: Event) {
    e.Other? || e.TableEmpty?
  }

  function Significant(events: seq<Event>, n: nat): (r: seq<Event>)
    requires n <= |events|
  {
    if n == 0 then []
    else Significant(events, n - 1) + if Noise(events[n - 1]) then [] else [events[n - 1]]
  }

  lemma {:induction false} NoiseIgnored(st: State, events: seq<Event>, n: nat, maxCells: nat)
    requires n <= |events|
    ensures RunTo(st, events, n, maxCells) == Run(st, Significant(events, n), maxCells)
  {
    if n > 0 {
      NoiseIgnored(st, events, n - 1, maxCells);
      var kept, e := Significant(events, n - 1), events[n - 1];
      if Noise(e) {
        assert Significant(events, n) == kept;
      } else {
        RunAppend(st, kept, [e], maxCells);
        var s := Run(st, kept, maxCells);
        if s.Some? {
          RunOne(s.value, e, maxCells);
        }
      }
    }
  }

  lemma {:induction false} ValidateDocument(events: seq<Event>, doc: seq<Sheet>, maxCells: nat)
    requires Significant(events, |events|) == Render(doc, |doc|)
    ensures Validate(events, maxCells) ==
            if AllFit(doc, |doc|, maxCells) then Some(AllFlagged(doc, |doc|)) else None
  {
    NoiseIgnored(START, events, |events|, maxCells);
    RunDocument(doc, |doc|, maxCells);
  }

  /** A stream that describes a document is accepted exactly when every sheet,
  written out, fits; and the names reported are those of the sheets that hold
  drawings and no materialized cell. */
  lemma {:induction false} DocumentExact(events: seq<Event>, doc: seq<Sheet>, maxCells: nat)
    requires Significant(events, |events|) == Render(doc, |doc|)
    ensures Validate(events, maxCells).Some? <==> forall i | 0 <= i < |doc| :: SheetFits(doc[i], maxCells)
    ensures Validate(events, maxCells).Some? ==>
              forall name :: name in Validate(events, maxCells).value <==>
                exists i | 0 <= i < |doc| :: doc[i].name == Some(name) && DrawingsOnly(doc[i])
  {
    ValidateDocument(events, doc, maxCells);
    forall name ensures name in AllFlagged(doc, |doc|) <==>
        exists i | 0 <= i < |doc| :: doc[i].name == Some(name) && DrawingsOnly(doc[i])
    {
      FlaggedNames(doc, |doc|, name);
    }
  }

  // ------------------------------------------------------------------- the loop

  class OdsRowBounds {
    var nextColumn: nat
    var firstMaterialized: Option<nat>
    var lastMaterialized: Option<nat>

    ghost predicate Valid()
      reads this
    {
      && nextColumn <= MAX_ODS_COLUMNS && (firstMaterialized.Some? <==> lastMaterialized.Some?)
      && (firstMaterialized.Some? ==> firstMaterialized.value <= lastMaterialized.value <= nextColumn)
    }

    function View(): (row: RowBox)
      requires Valid()
      reads this
    {
      RowBox(nextColumn,
             if firstMaterialized.Some? then Some((firstMaterialized.value, lastMaterialized.value)) else None)
    }

    constructor ()
      ensures Valid() && View() == NEW_ROW
    {
      nextColumn, firstMaterialized, lastMaterialized := 0, None, None;
    }

    /** Adds a run of cells. The 64-bit sum cannot wrap unnoticed. */
    method PushCell(repeats: nat, materialized: bool) returns (ok: bool)
      requires Valid() && repeats <= U64_MAX
      modifies this
      ensures ok <==> OdsPreflight.PushCell(old(View()), repeats, materialized).Some?
      ensures ok ==> Valid() && Some(View()) == OdsPreflight.PushCell(old(View()), repeats, materialized)
    {
      if repeats == 0 {
        return false;
      }
      var start := nextColumn;
      if nextColumn + repeats > U64_MAX || nextColumn + repeats > MAX_ODS_COLUMNS {
        return false;
      }
      nextColumn := nextColumn + repeats;
      if materialized {
        if firstMaterialized.None? {
          firstMaterialized := Some(start);
        }
        lastMaterialized := Some(nextColumn);
      }
      return true;
    }
  }

  lemma {:induction false} ProductFits(rows: nat, columns: nat)
    requires rows <= MAX_ODS_ROWS && columns <= MAX_ODS_COLUMNS
    ensures rows * columns <= U64_MAX
  {
    TimesMonotone(rows, MAX_ODS_ROWS, columns);
  }

  class OdsSheetBounds {
    const name: Option<string>
    var hasShapes: bool
    var nextRow: nat
    var firstMaterializedRow: Option<nat>
    var lastMaterializedRow: nat
    var firstMaterializedColumn: Option<nat>
    var lastMaterializedColumn: nat

    ghost predicate Valid()
      reads this
    {
      && nextRow <= MAX_ODS_ROWS && lastMaterializedRow <= nextRow
      && (firstMaterializedRow.Some? <==> firstMaterializedColumn.Some?)
      && (firstMaterializedRow.Some? ==>
            && firstMaterializedRow.value <= lastMaterializedRow
            && firstMaterializedColumn.value <= lastMaterializedColumn <= MAX_ODS_COLUMNS)
      && (firstMaterializedRow.None? ==> lastMaterializedRow == 0 && lastMaterializedColumn == 0)
    }

    ghost function View(): (sheet: SheetBox)
      requires Valid()
      reads this
    {
      SheetBox(nextRow,
               if firstMaterializedRow.None? then None
               else Some(Box(firstMaterializedRow.value, lastMaterializedRow,
                             firstMaterializedColumn.value, lastMaterializedColumn)))
    }

    constructor (name: Option<string>)
      ensures Valid() && View() == NEW_SHEET && !hasShapes && this.name == name
    {
      this.name, hasShapes, nextRow := name, false, 0;
      firstMaterializedRow, lastMaterializedRow := None, 0;
      firstMaterializedColumn, lastMaterializedColumn := None, 0;
    }

    /** Adds a run of rows. No subtraction or product leaves the 64-bit range. */
    method FinishRow(row: RowBox, repeats: nat, maxCells: nat) returns (ok: bool)
      requires Valid() && repeats <= U64_MAX
      requires row.span.Some? ==> row.span.value.0 <= row.span.value.1 <= MAX_ODS_COLUMNS
      modifies this
      ensures hasShapes == old(hasShapes)
      ensures ok <==> OdsPreflight.FinishRow(old(View()), row, repeats, maxCells).Some?
      ensures ok ==> Valid() && Some(View()) == OdsPreflight.FinishRow(old(View()), row, repeats, maxCells)
    {
      if repeats == 0 {
        return false;
      }
      var start := nextRow;
      if nextRow + repeats > U64_MAX || nextRow + repeats > MAX_ODS_ROWS {
        return false;
      }
      nextRow := nextRow + repeats;
      if row.span.None? {
        return true;
      }
      var (first, last) := row.span.value;
      if firstMaterializedRow.None? {
        firstMaterializedRow := Some(start);
      }
      lastMaterializedRow := nextRow;
      firstMaterializedColumn :=
        Some(if firstMaterializedColumn.None? then first else Min(firstMaterializedColumn.value, first));
      lastMaterializedColumn := Max(lastMaterializedColumn, last);
      var rows: nat := lastMaterializedRow - firstMaterializedRow.value;
      var columns: nat := lastMaterializedColumn - firstMaterializedColumn.value;
      ProductFits(rows, columns);
      return rows * columns <= maxCells;
    }
  }

  /** The state held in the open sheet and row. */
  ghost function Held(sheet: OdsSheetBounds?, row: OdsRowBounds?, repeats: nat, unsupported: set<string>): (st: State)
    requires sheet != null ==> sheet.Valid()
    requires row != null ==> row.Valid()
    reads sheet, row
  {
    State(if sheet == null then None else Some(OpenSheet(sheet.name, sheet.hasShapes, sheet.View())),
          if row == null then None else Some(OpenRow(repeats, row.View())),
          unsupported)
  }

  /** One turn of the inspection loop. */
  method HandleEvent(e: Event, sheet0: OdsSheetBounds?, row0: OdsRowBounds?, repeats0: U64, unsupported0: set<string>,
                     maxCells: nat)
    returns (ok: bool, sheet: OdsSheetBounds?, row: OdsRowBounds?, repeats: U64, unsupported: set<string>)
    requires sheet0 != null ==> sheet0.Valid()
    requires row0 != null ==> row0.Valid()
    modifies sheet0, row0
    ensures sheet != null && sheet != sheet0 ==> fresh(sheet)
    ensures row != null && row != row0 ==> fresh(row)
    ensures ok ==> (sheet != null ==> sheet.Valid()) && (row != null ==> row.Valid())
    ensures ok ==>
              Handle(old(Held(sheet0, row0, repeats0, unsupported0)), e, maxCells)
              == Some(Held(sheet, row, repeats, unsupported))
    ensures !ok ==> Handle(old(Held(sheet0, row0, repeats0, unsupported0)), e, maxCells).None?
  {
    ok, sheet, row, repeats, unsupported := true, sheet0, row0, repeats0, unsupported0;
    match e {
      case TableStart(name) =>
        if name.Malformed? || sheet != null {
          ok := false;
        } else {
          sheet := new OdsSheetBounds(name.value);
        }
      case RowStart(count) =>
        if sheet != null {
          if row != null || count.Malformed? {
            ok := false;
          } else {
            row := new OdsRowBounds();
            repeats := count.value;
          }
        }
      case RowEmpty(count) =>
        if sheet != null {
          if count.Malformed? {
            ok := false;
          } else {
            ok := sheet.FinishRow(NEW_ROW, count.value, maxCells);
          }
        }
      case CellTag(count, materialized) =>
        if row != null {
          if count.Malformed? || materialized.Malformed? {
            ok := false;
          } else {
            ok := row.PushCell(count.value, materialized.value);
          }
        }
      case Shapes =>
        if sheet != null {
          sheet.hasShapes := true;
        }
      case RowEnd =>
        if sheet != null && row != null {
          ok := sheet.FinishRow(row.View(), repeats, maxCells);
        }
        row := null;
      case TableEnd =>
        if row != null || sheet == null {
          ok := false;
        } else {
          assert unsupported + {} == unsupported;
          if sheet.hasShapes && sheet.firstMaterializedRow.None? && sheet.name.Some? {
            unsupported := unsupported + {sheet.name.value};
          }
          sheet := null;
        }
      case TableEmpty =>
      case Other =>
    }
  }

  /** The inspection loop computes `Validate`. */
  method ValidateOdsRepeats(events: seq<Event>, maxCells: nat) returns (r: Option<set<string>>)
    ensures r == Validate(events, maxCells)
  {
    var sheet: OdsSheetBounds? := null;
    var row: OdsRowBounds? := null;
    var repeats: U64 := 0;
    var unsupported: set<string> := {};
    for i := 0 to |events|
      invariant sheet != null ==> fresh(sheet) && sheet.Valid()
      invariant row != null ==> fresh(row) && row.Valid()
      invariant RunTo(START, events, i, maxCells) == Some(Held(sheet, row, repeats, unsupported))
    {
      var ok;
      ok, sheet, row, repeats, unsupported := HandleEvent(events[i], sheet, row, repeats, unsupported, maxCells);
      if !ok {
        RefusedStays(START, events, i + 1, |events|, maxCells);
        return None;
      }
    }
    return if sheet == null && row == null then Some(unsupported) else None;
  }

  lemma {:induction false} RefusedStays(st: State, events: seq<Event>, i: nat, n: nat, maxCells: nat)
    requires i <= n <= |events| && RunTo(st, events, i, maxCells).None?
    ensures RunTo(st, events, n, maxCells).None?
    decreases n
  {
    if i < n {
      RefusedStays(st, events, i, n - 1, maxCells);
    }
  }
}
