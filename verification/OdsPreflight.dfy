/** Bounding an OpenDocument sheet from its run-length rows and cells, without
expanding it: the running bounds are those of the expanded grid, and a document
is accepted exactly when every expanded sheet is within the limits. */
module OdsPreflight {
  import opened Options
  import opened Arithmetic

  const MAX_ODS_ROWS: nat := 1_048_576
  const MAX_ODS_COLUMNS: nat := 16_384

  // ------------------------------------------------------------- running bounds

  /** Columns declared so far in a row, and the span of the materialized ones. */
  datatype RowBox = RowBox(next: nat, span: Option<(nat, nat)>)

  /** Rows declared so far, and the span of materialized rows and columns. */
  datatype SheetBox = SheetBox(next: nat, box: Option<Box>)

  datatype Box = Box(top: nat, bottom: nat, left: nat, right: nat)

  const NEW_ROW := RowBox(0, None)
  const NEW_SHEET := SheetBox(0, None)

  function PushCell(row: RowBox, repeats: nat, materialized: bool): (r: Option<RowBox>) {
    var next := row.next + repeats;
    if repeats == 0 || next > MAX_ODS_COLUMNS then None
    else if !materialized then Some(RowBox(next, row.span))
    else Some(RowBox(next, Some((if row.span.Some? then row.span.value.0 else row.next, next))))
  }

  function Grown(box: Option<Box>, top: nat, bottom: nat, left: nat, right: nat): (r: Box) {
    match box
    case None => Box(top, bottom, left, right)
    case Some(b) => Box(b.top, bottom, Min(b.left, left), Max(b.right, right))
  }

  predicate AreaFits(b: Box, maxCells: nat) {
    b.top <= b.bottom && b.left <= b.right && (b.bottom - b.top) * (b.right - b.left) <= maxCells
  }

  function FinishRow(sheet: SheetBox, row: RowBox, repeats: nat, maxCells: nat): (r: Option<SheetBox>) {
    var next := sheet.next + repeats;
    if repeats == 0 || next > MAX_ODS_ROWS then None
    else match row.span
      case None => Some(SheetBox(next, sheet.box))
      case Some((first, last)) =>
        var box := Grown(sheet.box, sheet.next, next, first, last);
        if AreaFits(box, maxCells) then Some(SheetBox(next, Some(box))) else None
  }

  // ---------------------------------------------------------------- expansion

  datatype CellRun = CellRun(repeats: nat, materialized: bool)
  datatype RowRun = RowRun(repeats: nat, cells: seq<CellRun>)

  type Bits = seq<bool>
  type Grid = seq<Bits>

  function Times<T>(x: T, n: nat): (s: seq<T>)
    ensures |s| == n && forall i | 0 <= i < n :: s[i] == x
  {
    seq(n, _ => x)
  }

  /** The first `n` cell runs written out, `true` where materialized. */
  function ExpandCells(cells: seq<CellRun>, n: nat): (bits: Bits)
    requires n <= |cells|
  {
    if n == 0 then [] else ExpandCells(cells, n - 1) + Times(cells[n - 1].materialized, cells[n - 1].repeats)
  }

  /** The first `n` row runs written out. */
  function ExpandRows(rows: seq<RowRun>, n: nat): (grid: Grid)
    requires n <= |rows|
  {
    if n == 0 then []
    else ExpandRows(rows, n - 1) + Times(ExpandCells(rows[n - 1].cells, |rows[n - 1].cells|), rows[n - 1].repeats)
  }

  /** The span holds the materialized columns and starts and ends with one. */
  predicate SpanOf(bits: Bits, span: Option<(nat, nat)>) {
    match span
    case None => forall c | 0 <= c < |bits| :: !bits[c]
    case Some((first, last)) =>
      && first < last <= |bits| && bits[first] && bits[last - 1]
      && forall c | 0 <= c < |bits| && bits[c] :: first <= c < last
  }

  predicate Materialized(grid: Grid, r: nat, c: nat) {
    r < |grid| && c < |grid[r]| && grid[r][c]
  }

  ghost predicate InRow(grid: Grid, r: nat) {
    exists c :: Materialized(grid, r, c)
  }

  ghost predicate InColumn(grid: Grid, c: nat) {
    exists r :: Materialized(grid, r, c)
  }

  /** The box holds the materialized cells and one lies on each of its sides. */
  ghost predicate BoxOf(grid: Grid, box: Option<Box>) {
    match box
    case None => forall r: nat, c: nat :: !Materialized(grid, r, c)
    case Some(b) =>
      && b.top < b.bottom && b.left < b.right
      && InRow(grid, b.top) && InRow(grid, b.bottom - 1) && InColumn(grid, b.left) && InColumn(grid, b.right - 1)
      && forall r: nat, c: nat | Materialized(grid, r, c) :: b.top <= r < b.bottom && b.left <= c < b.right
  }

  /** The bounds of the first `n` cell runs; none once a limit is passed. */
  function RowBounds(cells: seq<CellRun>, n: nat): (r: Option<RowBox>)
    requires n <= |cells|
  {
    if n == 0 then Some(NEW_ROW)
    else match RowBounds(cells, n - 1)
      case Some(row) => PushCell(row, cells[n - 1].repeats, cells[n - 1].materialized)
      case None => None
  }

  predicate CellsFit(cells: seq<CellRun>, n: nat)
    requires n <= |cells|
  {
    (forall i | 0 <= i < n :: cells[i].repeats > 0) && |ExpandCells(cells, n)| <= MAX_ODS_COLUMNS
  }

  /** Cell runs are accepted exactly when the written-out row fits, and then the
  bounds are those of the written-out row. */
  lemma {:induction false} RowBoundsExact(cells: seq<CellRun>, n: nat)
    requires n <= |cells|
    ensures RowBounds(cells, n).Some? <==> CellsFit(cells, n)
    ensures RowBounds(cells, n).Some? ==>
              && RowBounds(cells, n).value.next == |ExpandCells(cells, n)|
              && SpanOf(ExpandCells(cells, n), RowBounds(cells, n).value.span)
  {
    if n > 0 {
      RowBoundsExact(cells, n - 1);
      if RowBounds(cells, n).Some? {
        var row := RowBounds(cells, n - 1).value;
      }
    }
  }

  /** Rows appended to a grid. */
  lemma {:induction false} MoreRows(grid: Grid, bits: Bits, repeats: nat, r: nat, c: nat)
    ensures Materialized(grid + Times(bits, repeats), r, c) <==>
            Materialized(grid, r, c) || (|grid| <= r < |grid| + repeats && c < |bits| && bits[c])
  {
  }

  lemma {:induction false} KeptRow(grid: Grid, bits: Bits, repeats: nat, r: nat)
    requires InRow(grid, r)
    ensures InRow(grid + Times(bits, repeats), r)
  {
    var c :| Materialized(grid, r, c);
    MoreRows(grid, bits, repeats, r, c);
  }

  lemma {:induction false} KeptColumn(grid: Grid, bits: Bits, repeats: nat, c: nat)
    requires InColumn(grid, c)
    ensures InColumn(grid + Times(bits, repeats), c)
  {
    var r :| Materialized(grid, r, c);
    MoreRows(grid, bits, repeats, r, c);
  }

  lemma {:induction false} NewRow(grid: Grid, bits: Bits, repeats: nat, r: nat, c: nat)
    requires |grid| <= r < |grid| + repeats && c < |bits| && bits[c]
    ensures InRow(grid + Times(bits, repeats), r) && InColumn(grid + Times(bits, repeats), c)
  {
    MoreRows(grid, bits, repeats, r, c);
    assert Materialized(grid + Times(bits, repeats), r, c);
  }

  /** Adding a row run grows the box. */
  lemma {:induction false} BoxGrows(grid: Grid, box: Option<Box>, bits: Bits, first: nat, last: nat, repeats: nat)
    requires BoxOf(grid, box) && SpanOf(bits, Some((first, last))) && repeats > 0
    ensures BoxOf(grid + Times(bits, repeats), Some(Grown(box, |grid|, |grid| + repeats, first, last)))
  {
    var more, n := grid + Times(bits, repeats), |grid|;
    var b := Grown(box, n, n + repeats, first, last);
    NewRow(grid, bits, repeats, n, first);
    NewRow(grid, bits, repeats, n + repeats - 1, last - 1);
    if box.Some? {
      KeptRow(grid, bits, repeats, box.value.top);
      KeptColumn(grid, bits, repeats, box.value.left);
      KeptColumn(grid, bits, repeats, box.value.right - 1);
    }
    forall r: nat, c: nat | Materialized(more, r, c) ensures b.top <= r < b.bottom && b.left <= c < b.right {
      MoreRows(grid, bits, repeats, r, c);
    }
  }

  lemma {:induction false} BoxKept(grid: Grid, box: Option<Box>, bits: Bits, repeats: nat)
    requires BoxOf(grid, box) && SpanOf(bits, None)
    ensures BoxOf(grid + Times(bits, repeats), box)
  {
    var more := grid + Times(bits, repeats);
    forall r: nat, c: nat ensures Materialized(more, r, c) <==> Materialized(grid, r, c) {
      MoreRows(grid, bits, repeats, r, c);
    }
    if box.Some? {
      KeptRow(grid, bits, repeats, box.value.top);
      KeptRow(grid, bits, repeats, box.value.bottom - 1);
      KeptColumn(grid, bits, repeats, box.value.left);
      KeptColumn(grid, bits, repeats, box.value.right - 1);
    }
  }

  lemma {:induction false} BoxUnique(grid: Grid, a: Box, b: Option<Box>)
    requires BoxOf(grid, Some(a)) && BoxOf(grid, b)
    ensures b == Some(a)
  {
  }

  /** The bounds of the first `n` row runs; none once a limit is passed. */
  function SheetBounds(rows: seq<RowRun>, n: nat, maxCells: nat): (r: Option<SheetBox>)
    requires n <= |rows|
  {
    if n == 0 then Some(NEW_SHEET)
    else match SheetBounds(rows, n - 1, maxCells)
      case None => None
      case Some(sheet) =>
        match RowBounds(rows[n - 1].cells, |rows[n - 1].cells|)
        case None => None
        case Some(row) => FinishRow(sheet, row, rows[n - 1].repeats, maxCells)
  }

  predicate RunFits(run: RowRun) {
    run.repeats > 0 && CellsFit(run.cells, |run.cells|)
  }

  /** Every box of the grid, of which there is at most one, is small enough. */
  ghost predicate BoxFits(grid: Grid, maxCells: nat) {
    forall b | BoxOf(grid, Some(b)) :: AreaFits(b, maxCells)
  }

  ghost predicate RowsFit(rows: seq<RowRun>, n: nat, maxCells: nat)
    requires n <= |rows|
  {
    && (forall i | 0 <= i < n :: RunFits(rows[i]))
    && |ExpandRows(rows, n)| <= MAX_ODS_ROWS
    && BoxFits(ExpandRows(rows, n), maxCells)
  }

  lemma {:induction false} AreaMonotone(a: Box, b: Box, maxCells: nat)
    requires AreaFits(b, maxCells) && a.top <= a.bottom && a.left <= a.right
    requires b.top <= a.top && a.bottom <= b.bottom && b.left <= a.left && a.right <= b.right
    ensures AreaFits(a, maxCells)
  {
    var h, w, k, l := a.bottom - a.top, a.right - a.left, b.bottom - b.top, b.right - b.left;
    TimesMonotone(h, k, w);
    TimesMonotone(w, l, k);
    assert h * w <= k * w == w * k <= l * k;
  }

  /** A grid that fits still fits with its last row run left out. */
  lemma {:induction false} FitsEarlier(grid: Grid, bits: Bits, span: Option<(nat, nat)>, repeats: nat, maxCells: nat)
    requires BoxFits(grid + Times(bits, repeats), maxCells) && SpanOf(bits, span) && repeats > 0
    ensures BoxFits(grid, maxCells)
  {
    forall b | BoxOf(grid, Some(b)) ensures AreaFits(b, maxCells) {
      match span
      case None => BoxKept(grid, Some(b), bits, repeats);
      case Some((first, last)) =>
        BoxGrows(grid, Some(b), bits, first, last, repeats);
        AreaMonotone(b, Grown(Some(b), |grid|, |grid| + repeats, first, last), maxCells);
    }
  }

  /** One row run: accepted exactly when the longer grid fits, and then bounded
  exactly. */
  lemma {:induction false} FinishRowExact(grid: Grid, sheet: SheetBox, bits: Bits, row: RowBox, repeats: nat,
                                          maxCells: nat)
    requires sheet.next == |grid| && BoxOf(grid, sheet.box) && SpanOf(bits, row.span) && BoxFits(grid, maxCells)
    ensures var more := grid + Times(bits, repeats);
            var r := FinishRow(sheet, row, repeats, maxCells);
            && (r.Some? <==> repeats > 0 && |more| <= MAX_ODS_ROWS && BoxFits(more, maxCells))
            && (r.Some? ==> r.value.next == |more| && BoxOf(more, r.value.box))
  {
    var more := grid + Times(bits, repeats);
    if repeats > 0 {
      match row.span
      case None =>
        BoxKept(grid, sheet.box, bits, repeats);
        forall b | BoxOf(more, Some(b)) ensures AreaFits(b, maxCells) {
          BoxUnique(more, b, sheet.box);
        }
      case Some((first, last)) =>
        BoxGrows(grid, sheet.box, bits, first, last, repeats);
        var box := Grown(sheet.box, |grid|, |grid| + repeats, first, last);
        forall b | BoxOf(more, Some(b)) ensures b == box {
          BoxUnique(more, b, Some(box));
        }
    }
  }

  /** Row runs are accepted exactly when the written-out sheet fits, and then the
  bounds are the bounding box of its materialized cells. */
  lemma {:induction false} SheetBoundsExact(rows: seq<RowRun>, n: nat, maxCells: nat)
    requires n <= |rows|
    ensures SheetBounds(rows, n, maxCells).Some? <==> RowsFit(rows, n, maxCells)
    ensures SheetBounds(rows, n, maxCells).Some? ==>
              var sheet := SheetBounds(rows, n, maxCells).value;
              sheet.next == |ExpandRows(rows, n)| && BoxOf(ExpandRows(rows, n), sheet.box)
  {
    if n > 0 {
      SheetBoundsExact(rows, n - 1, maxCells);
      var run, grid := rows[n - 1], ExpandRows(rows, n - 1);
      var bits := ExpandCells(run.cells, |run.cells|);
      RowBoundsExact(run.cells, |run.cells|);
      if RunFits(run) {
        var row := RowBounds(run.cells, |run.cells|).value;
        if RowsFit(rows, n, maxCells) {
          FitsEarlier(grid, bits, row.span, run.repeats, maxCells);
        }
        if RowsFit(rows, n - 1, maxCells) {
          FinishRowExact(grid, SheetBounds(rows, n - 1, maxCells).value, bits, row, run.repeats, maxCells);
        }
      }
    }
  }
}
