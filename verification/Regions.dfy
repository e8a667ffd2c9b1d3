/** Splitting the populated cells of a sheet into rectangular regions: maximal
bands of populated rows, in each band maximal bands of populated columns, and in
each such rectangle the box around its populated cells. */
module Regions {
  import opened Options
  import opened Arithmetic

  /** Positions of the non-empty cells, counted from the corner of the range. */
  type Cell = (nat, nat)
  type Cells = set<Cell>

  /** Rows and columns from first to last, both included. */
  datatype Rect = Rect(top: nat, left: nat, bottom: nat, right: nat)

  predicate In(p: Cell, r: Rect) {
    r.top <= p.0 <= r.bottom && r.left <= p.1 <= r.right
  }

  predicate Apart(a: Rect, b: Rect) {
    a.bottom < b.top || b.bottom < a.top || a.right < b.left || b.right < a.left
  }

  predicate Inside(a: Rect, b: Rect) {
    b.top <= a.top && b.left <= a.left && a.bottom <= b.bottom && a.right <= b.right
  }

  function CellsIn(cells: Cells, r: Rect): (s: Cells) {
    set p | p in cells && In(p, r)
  }

  /** The cells of the window that is analysed. */
  function Window(cells: Cells, height: nat, width: nat): (s: Cells) {
    set p | p in cells && p.0 < height && p.1 < width
  }

  // -------------------------------------------------------------------- bands

  datatype Band = Band(first: nat, last: nat)

  /** The bands are runs of `true` in order, with a gap between any two, and no
  `true` among the first `n` values is outside them. */
  predicate IsBands(values: seq<bool>, n: nat, bands: seq<Band>)
    requires n <= |values|
  {
    && (forall k | 0 <= k < |bands| :: bands[k].first <= bands[k].last < n)
    && (forall k, i | 0 <= k < |bands| && bands[k].first <= i <= bands[k].last :: values[i])
    && (forall k | 0 < k < |bands| :: bands[k - 1].last + 1 < bands[k].first)
    && (forall i | 0 <= i < n && values[i] :: InBands(bands, i))
  }

  predicate InBands(bands: seq<Band>, i: nat) {
    exists k | 0 <= k < |bands| :: bands[k].first <= i <= bands[k].last
  }

  lemma {:induction false} InMoreBands(bands: seq<Band>, b: Band, i: nat)
    ensures InBands(bands + [b], i) <==> InBands(bands, i) || b.first <= i <= b.last
  {
    if InBands(bands, i) {
      var k :| 0 <= k < |bands| && bands[k].first <= i <= bands[k].last;
      assert (bands + [b])[k] == bands[k];
    }
    if b.first <= i <= b.last {
      assert (bands + [b])[|bands|] == b;
    }
  }

  lemma {:induction false} AddBand(values: seq<bool>, n: nat, bands: seq<Band>, first: nat, end: nat)
    requires n <= first < end <= |values| && IsBands(values, n, bands)
    requires forall i | n <= i < end :: values[i] <==> first <= i
    requires bands != [] ==> bands[|bands| - 1].last + 1 < first
    ensures IsBands(values, end, bands + [Band(first, end - 1)])
  {
    forall i | 0 <= i < end && values[i] ensures InBands(bands + [Band(first, end - 1)], i) {
      InMoreBands(bands, Band(first, end - 1), i);
    }
  }

  lemma {:induction false} SkipFalse(values: seq<bool>, n: nat, bands: seq<Band>)
    requires n < |values| && IsBands(values, n, bands) && !values[n]
    ensures IsBands(values, n + 1, bands)
  {
  }

  /** Bands found up to `n`, the last of them closed by a gap. */
  predicate ClosedBands(values: seq<bool>, n: nat, bands: seq<Band>)
    requires n <= |values|
  {
    IsBands(values, n, bands) && (bands != [] ==> bands[|bands| - 1].last + 1 < n)
  }

  method TrueBands(values: seq<bool>) returns (bands: seq<Band>)
    ensures IsBands(values, |values|, bands)
  {
    bands := [];
    var start: Option<nat> := None;
    for i := 0 to |values|
      invariant start.Some? ==> start.value < i && forall k | start.value <= k < i :: values[k]
      invariant ClosedBands(values, if start.Some? then start.value else i, bands)
    {
      if start.None? && values[i] {
        start := Some(i);
      } else if start.Some? && !values[i] {
        AddBand(values, start.value, bands, start.value, i);
        bands := bands + [Band(start.value, i - 1)];
        start := None;
        SkipFalse(values, i, bands);
      } else if start.None? {
        SkipFalse(values, i, bands);
      }
    }
    if start.Some? {
      AddBand(values, start.value, bands, start.value, |values|);
      bands := bands + [Band(start.value, |values| - 1)];
    }
  }

  // ----------------------------------------------------------------- trimming

  /** The box touches its cells on every side and leaves none of them out. */
  predicate Bounds(seen: Cells, box: Rect) {
    && (forall p | p in seen :: In(p, box))
    && (exists p | p in seen :: p.0 == box.top) && (exists p | p in seen :: p.1 == box.left)
    && (exists p | p in seen :: p.0 == box.bottom) && (exists p | p in seen :: p.1 == box.right)
  }

  const NOTHING: Rect := Rect(USIZE_MAX, USIZE_MAX, 0, 0)

  function Extended(box: Rect, p: Cell): Rect {
    Rect(Min(box.top, p.0), Min(box.left, p.1), Max(box.bottom, p.0), Max(box.right, p.1))
  }

  /** Running minima and maxima over the cells seen. */
  predicate Running(seen: Cells, box: Rect) {
    if seen == {} then box == NOTHING else Bounds(seen, box)
  }

  /** Cells of an area that come before a position, row by row. */
  function Seen(cells: Cells, area: Rect, row: nat, column: nat): (s: Cells) {
    set p | p in cells && In(p, area) && (p.0 < row || (p.0 == row && p.1 < column))
  }

  lemma {:induction false} SeenStep(cells: Cells, area: Rect, row: nat, column: nat)
    requires In((row, column), area)
    ensures (row, column) !in Seen(cells, area, row, column)
    ensures Seen(cells, area, row, column + 1)
         == Seen(cells, area, row, column) + if (row, column) in cells then {(row, column)} else {}
  {
  }

  lemma {:induction false} SeenRow(cells: Cells, area: Rect, row: nat)
    ensures Seen(cells, area, row, area.right + 1) == Seen(cells, area, row + 1, area.left)
  {
  }

  lemma {:induction false} SeenEnds(cells: Cells, area: Rect)
    ensures Seen(cells, area, area.top, area.left) == {}
    ensures Seen(cells, area, area.bottom + 1, area.left) == CellsIn(cells, area)
  {
  }

  datatype Trimmed = Empty | TooMany | Box(rect: Rect, count: nat)

  lemma {:induction false} Smaller(a: Cells, b: Cells)
    requires a <= b
    ensures |a| <= |b|
  {
    assert b == a + (b - a);
  }

  /** Box and count of the cells before a position. */
  predicate Counted(cells: Cells, area: Rect, row: nat, column: nat, box: Rect, count: nat) {
    Running(Seen(cells, area, row, column), box) && count == |Seen(cells, area, row, column)|
  }

  lemma {:induction false} CountedStep(cells: Cells, area: Rect, row: nat, column: nat, box: Rect, count: nat)
    requires Counted(cells, area, row, column, box, count) && In((row, column), area)
    requires row <= USIZE_MAX && column <= USIZE_MAX
    ensures if (row, column) in cells
            then Counted(cells, area, row, column + 1, Extended(box, (row, column)), count + 1)
            else Counted(cells, area, row, column + 1, box, count)
    ensures (row, column) in cells ==> count + 1 <= |CellsIn(cells, area)|
  {
    SeenStep(cells, area, row, column);
    if (row, column) in cells {
      Smaller(Seen(cells, area, row, column + 1), CellsIn(cells, area));
    }
  }

  lemma {:induction false} CountedAll(cells: Cells, area: Rect, box: Rect, count: nat)
    requires Counted(cells, area, area.bottom + 1, area.left, box, count)
    ensures count == |CellsIn(cells, area)|
    ensures count > 0 ==> Bounds(CellsIn(cells, area), box)
  {
    SeenEnds(cells, area);
  }

  lemma {:induction false} CountedRow(cells: Cells, area: Rect, row: nat, box: Rect, count: nat)
    requires Counted(cells, area, row, area.right + 1, box, count)
    ensures Counted(cells, area, row + 1, area.left, box, count)
  {
    SeenRow(cells, area, row);
  }

  /** One row of the area: `ok` unless the count no longer fits. */
  method TrimRow(cells: Cells, area: Rect, row: nat, box0: Rect, count0: nat) returns (ok: bool, box: Rect, count: nat)
    requires area.top <= row <= area.bottom <= USIZE_MAX && area.left <= area.right <= USIZE_MAX
    requires Counted(cells, area, row, area.left, box0, count0) && count0 <= U64_MAX
    ensures ok ==> Counted(cells, area, row + 1, area.left, box, count) && count <= U64_MAX
    ensures !ok ==> |CellsIn(cells, area)| > U64_MAX
  {
    ok, box, count := true, box0, count0;
    for column := area.left to area.right + 1
      invariant Counted(cells, area, row, column, box, count) && count <= U64_MAX
    {
      CountedStep(cells, area, row, column, box, count);
      if (row, column) in cells {
        if count + 1 > U64_MAX {
          return false, box, count;
        }
        box, count := Extended(box, (row, column)), count + 1;
      }
    }
    CountedRow(cells, area, row, box, count);
  }

  /** The box around the cells of an area, and how many there are. */
  method TrimRegion(cells: Cells, area: Rect) returns (r: Trimmed)
    requires area.top <= area.bottom <= USIZE_MAX && area.left <= area.right <= USIZE_MAX
    ensures r.Empty? <==> |CellsIn(cells, area)| == 0
    ensures r.TooMany? <==> |CellsIn(cells, area)| > U64_MAX
    ensures r.Box? ==> Bounds(CellsIn(cells, area), r.rect) && r.count == |CellsIn(cells, area)|
  {
    var box := NOTHING;
    var nonEmpty: nat := 0;
    for row := area.top to area.bottom + 1
      invariant Counted(cells, area, row, area.left, box, nonEmpty) && nonEmpty <= U64_MAX
    {
      var ok;
      ok, box, nonEmpty := TrimRow(cells, area, row, box, nonEmpty);
      if !ok {
        return TooMany;
      }
    }
    CountedAll(cells, area, box, nonEmpty);
    return if nonEmpty == 0 then Empty else Box(box, nonEmpty);
  }

  // ------------------------------------------------------------ region search

  datatype Region = Region(range: Rect, count: nat)

  /** Areas that share no position and leave no cell out. */
  predicate Splits(cells: Cells, areas: seq<Rect>) {
    && AllApart(areas)
    && (forall p {:trigger Covered(p, areas)} | p in cells :: Covered(p, areas))
  }

  predicate AllApart(areas: seq<Rect>) {
    forall i, j | 0 <= i < j < |areas| :: Apart(areas[i], areas[j])
  }

  predicate RowEmpty(cells: Cells, r: nat) {
    forall p | p in cells :: p.0 != r
  }

  predicate ColumnEmpty(cells: Cells, c: nat, top: nat, bottom: nat) {
    forall p | p in cells :: p.1 != c || p.0 < top || bottom < p.0
  }

  /** An empty row lies between the two, or a column that is empty over all the
  rows they reach. */
  predicate Gapped(cells: Cells, a: Rect, b: Rect) {
    || (exists r | a.bottom < r < b.top :: RowEmpty(cells, r))
    || (exists c | a.right < c < b.left :: ColumnEmpty(cells, c, Min(a.top, b.top), Max(a.bottom, b.bottom)))
  }

  /** No two areas could be joined. */
  predicate AllGapped(cells: Cells, areas: seq<Rect>) {
    forall i, j | 0 <= i < j < |areas| :: Gapped(cells, areas[i], areas[j])
  }

  /** Every row of the area holds a cell of the window, and every column holds one
  in those rows. */
  predicate Solid(cells: Cells, area: Rect) {
    && (forall r | area.top <= r <= area.bottom :: !RowEmpty(cells, r))
    && (forall c | area.left <= c <= area.right :: !ColumnEmpty(cells, c, area.top, area.bottom))
  }

  /** A maximal band of populated rows and in it a maximal band of populated columns. */
  predicate Area(cells: Cells, area: Rect) {
    && area.top <= area.bottom && area.left <= area.right && Solid(cells, area)
    && (area.top > 0 ==> RowEmpty(cells, area.top - 1)) && RowEmpty(cells, area.bottom + 1)
    && (area.left > 0 ==> ColumnEmpty(cells, area.left - 1, area.top, area.bottom))
    && ColumnEmpty(cells, area.right + 1, area.top, area.bottom)
  }

  predicate AllAreas(cells: Cells, areas: seq<Rect>) {
    forall i | 0 <= i < |areas| :: Area(cells, areas[i])
  }

  /** A position is in one such area at most, */
  lemma {:induction false} SameArea(cells: Cells, a: Rect, b: Rect, p: Cell)
    requires Area(cells, a) && Area(cells, b) && In(p, a) && In(p, b)
    ensures a == b
  {
  }

  /** so areas that leave no cell out are all there are. */
  lemma {:induction false} NoOtherArea(cells: Cells, areas: seq<Rect>, a: Rect)
    requires Splits(cells, areas) && AllAreas(cells, areas) && Area(cells, a)
    ensures a in areas
  {
    assert !ColumnEmpty(cells, a.left, a.top, a.bottom);
    var p :| p in cells && p.1 == a.left && a.top <= p.0 <= a.bottom;
    assert Covered(p, areas);
    var i :| 0 <= i < |areas| && In(p, areas[i]);
    SameArea(cells, a, areas[i], p);
  }

  predicate Covered(p: Cell, areas: seq<Rect>) {
    exists i | 0 <= i < |areas| :: In(p, areas[i])
  }

  /** The region found in an area. */
  predicate Trims(cells: Cells, area: Rect, box: Rect, count: nat) {
    && CellsIn(cells, area) != {} && Bounds(CellsIn(cells, area), box) && count == |CellsIn(cells, area)| <= U64_MAX
    && box.top <= box.bottom && box.left <= box.right
  }

  function Sum(counts: seq<nat>, n: nat): (total: nat)
    requires n <= |counts|
  {
    if n == 0 then 0 else Sum(counts, n - 1) + counts[n - 1]
  }

  lemma {:induction false} BoundsInside(cells: Cells, area: Rect, box: Rect)
    requires Bounds(CellsIn(cells, area), box)
    ensures Inside(box, area) && CellsIn(cells, box) == CellsIn(cells, area)
  {
  }

  /** Cells in one of the first `n` areas. */
  function CellsInFirst(cells: Cells, areas: seq<Rect>, n: nat): (s: Cells)
    requires n <= |areas|
  {
    set p | p in cells && exists i | 0 <= i < n :: In(p, areas[i])
  }

  lemma {:induction false} OneMoreArea(cells: Cells, areas: seq<Rect>, n: nat)
    requires n < |areas| && AllApart(areas)
    ensures |CellsInFirst(cells, areas, n + 1)| == |CellsInFirst(cells, areas, n)| + |CellsIn(cells, areas[n])|
  {
    var before, last := CellsInFirst(cells, areas, n), CellsIn(cells, areas[n]);
    assert before !! last by {
      forall p | p in before ensures p !in last {
        var i :| 0 <= i < n && In(p, areas[i]);
        assert Apart(areas[i], areas[n]);
      }
    }
    assert CellsInFirst(cells, areas, n + 1) == before + last;
  }

  predicate Counts(cells: Cells, areas: seq<Rect>, counts: seq<nat>) {
    |counts| == |areas| && forall i | 0 <= i < |areas| :: counts[i] == |CellsIn(cells, areas[i])|
  }

  /** Every cell is counted in exactly one area. */
  lemma {:induction false} CountsAddUp(cells: Cells, areas: seq<Rect>, counts: seq<nat>, n: nat)
    requires AllApart(areas) && Counts(cells, areas, counts) && n <= |areas|
    ensures Sum(counts, n) == |CellsInFirst(cells, areas, n)|
  {
    if n == 0 {
      assert CellsInFirst(cells, areas, 0) == {};
    } else {
      CountsAddUp(cells, areas, counts, n - 1);
      OneMoreArea(cells, areas, n - 1);
      assert counts[n - 1] == |CellsIn(cells, areas[n - 1])|;
    }
  }

  predicate AreaFits(rows: nat, columns: nat) {
    rows * columns <= U64_MAX
  }

  /** A box at its place in the sheet; refused when a coordinate or the area does
  not fit. */
  function Placed(box: Rect, start: Cell): (r: Option<Rect>)
    requires box.top <= box.bottom && box.left <= box.right
  {
    if start.0 + box.bottom > U32_MAX || start.1 + box.right > U32_MAX then None
    else if !AreaFits(box.bottom - box.top + 1, box.right - box.left + 1) then None
    else Some(Rect(start.0 + box.top, start.1 + box.left, start.0 + box.bottom, start.1 + box.right))
  }

  /** A region that cannot be reported: its cells cannot be counted, or its box has
  no place. */
  ghost predicate Refused(cells: Cells, start: Cell, area: Rect) {
    || |CellsIn(cells, area)| > U64_MAX
    || exists box | Bounds(CellsIn(cells, area), box) :: Unplaceable(box, start)
  }

  /** In the sheet the box would reach past the last row or column number, or its
  area past 64 bits. */
  predicate Unplaceable(box: Rect, start: Cell) {
    && box.top <= box.bottom && box.left <= box.right
    && (|| start.0 + box.bottom >= 0x1_0000_0000 || start.1 + box.right >= 0x1_0000_0000
        || !AreaFits(box.bottom - box.top + 1, box.right - box.left + 1))
  }

  ghost predicate SomeRefused(cells: Cells, start: Cell) {
    exists area :: Area(cells, area) && Refused(cells, start, area)
  }

  lemma {:induction false} OneBox(seen: Cells, a: Rect, b: Rect)
    requires Bounds(seen, a) && Bounds(seen, b)
    ensures a == b
  {
  }

  lemma {:induction false} PlacedIsPlaceable(box: Rect, start: Cell)
    requires box.top <= box.bottom && box.left <= box.right
    ensures Placed(box, start).None? <==> Unplaceable(box, start)
  {
  }

  lemma {:induction false} OnlyPlaceable(seen: Cells, start: Cell, box: Rect)
    requires Bounds(seen, box) && !Unplaceable(box, start)
    ensures forall other | Bounds(seen, other) :: !Unplaceable(other, start)
  {
    forall other | Bounds(seen, other) ensures other == box {
      OneBox(seen, box, other);
    }
  }

  lemma {:induction false} TrimmedIsNotRefused(cells: Cells, start: Cell, area: Rect, box: Rect, count: nat)
    requires Trims(cells, area, box, count) && Placed(box, start).Some?
    ensures !Refused(cells, start, area)
  {
    PlacedIsPlaceable(box, start);
    OnlyPlaceable(CellsIn(cells, area), start, box);
  }

  /** Only sheets that reach past these limits can hold such a region. */
  predicate Oversized(cells: Cells, start: Cell, height: nat, width: nat) {
    start.0 + height > U32_MAX || start.1 + width > U32_MAX || |cells| > U64_MAX
  }

  lemma {:induction false} SmallAreaFits(rows: nat, columns: nat)
    requires rows <= U32_MAX && columns <= U32_MAX
    ensures AreaFits(rows, columns)
  {
    TimesMonotone(rows, U32_MAX, columns);
  }

  lemma {:induction false} PlaceableUnlessOversized(cells: Cells, start: Cell, height: nat, width: nat, box: Rect)
    requires box.bottom < height && box.right < width && !Oversized(cells, start, height, width)
    ensures !Unplaceable(box, start)
  {
    if box.top <= box.bottom && box.left <= box.right {
      SmallAreaFits(box.bottom - box.top + 1, box.right - box.left + 1);
    }
  }

  lemma {:induction false} BoxInWindow(seen: Cells, box: Rect, height: nat, width: nat)
    requires Bounds(seen, box) && forall p | p in seen :: p.0 < height && p.1 < width
    ensures box.bottom < height && box.right < width
  {
  }

  lemma {:induction false} RefusedOnlyOversized(cells: Cells, start: Cell, height: nat, width: nat)
    requires SomeRefused(cells, start) && forall p | p in cells :: p.0 < height && p.1 < width
    ensures Oversized(cells, start, height, width)
  {
    var area :| Area(cells, area) && Refused(cells, start, area);
    Smaller(CellsIn(cells, area), cells);
    if |CellsIn(cells, area)| <= U64_MAX && !Oversized(cells, start, height, width) {
      var box :| Bounds(CellsIn(cells, area), box) && Unplaceable(box, start);
      BoxInWindow(CellsIn(cells, area), box, height, width);
      PlaceableUnlessOversized(cells, start, height, width, box);
    }
  }

  /** What the search found: in each of the first areas the trimmed region, put
  in its place. */
  predicate Found(cells: Cells, start: Cell, areas: seq<Rect>, boxes: seq<Rect>, regions: seq<Region>) {
    && |boxes| == |regions| <= |areas|
    && forall i | 0 <= i < |boxes| ::
         Trims(cells, areas[i], boxes[i], regions[i].count) && Placed(boxes[i], start) == Some(regions[i].range)
  }

  lemma {:induction false} FoundMore(cells: Cells, start: Cell, areas: seq<Rect>, boxes: seq<Rect>,
                                     regions: seq<Region>, more: seq<Rect>, moreBoxes: seq<Rect>,
                                     moreRegions: seq<Region>)
    requires Found(cells, start, areas, boxes, regions) && |boxes| == |areas|
    requires Found(cells, start, more, moreBoxes, moreRegions)
    ensures Found(cells, start, areas + more, boxes + moreBoxes, regions + moreRegions)
  {
    var n := |boxes|;
    forall i | 0 <= i < n + |moreBoxes|
      ensures Trims(cells, (areas + more)[i], (boxes + moreBoxes)[i], (regions + moreRegions)[i].count)
      ensures Placed((boxes + moreBoxes)[i], start) == Some((regions + moreRegions)[i].range)
    {
      if i >= n {
        assert (areas + more)[i] == more[i - n] && (boxes + moreBoxes)[i] == moreBoxes[i - n];
        assert (regions + moreRegions)[i] == moreRegions[i - n];
      }
    }
  }

  function AreasOf(rows: Band, columns: seq<Band>): (areas: seq<Rect>) {
    seq(|columns|, k requires 0 <= k < |columns| => Rect(rows.first, columns[k].first, rows.last, columns[k].last))
  }

  function InRows(cells: Cells, first: nat, end: nat): (s: Cells) {
    set p | p in cells && first <= p.0 < end
  }

  /** Which columns hold a cell in some rows. */
  predicate ColumnFlags(cells: Cells, rows: Band, flags: seq<bool>) {
    forall c | 0 <= c < |flags| :: flags[c] <==> exists r | rows.first <= r <= rows.last :: (r, c) in cells
  }

  predicate RowFlags(cells: Cells, width: nat, flags: seq<bool>) {
    forall r | 0 <= r < |flags| :: flags[r] <==> exists c | 0 <= c < width :: (r, c) in cells
  }

  lemma {:induction false} BandsInOrder(values: seq<bool>, n: nat, bands: seq<Band>, i: nat, j: nat)
    requires n <= |values| && IsBands(values, n, bands) && i < j < |bands|
    ensures bands[i].last + 1 < bands[j].first
    decreases j
  {
    if i < j - 1 {
      BandsInOrder(values, n, bands, i, j - 1);
    }
  }

  /** The column bands of some rows split the cells of those rows, and none of
  the areas is empty. */
  lemma {:induction false} BandSplits(cells: Cells, rows: Band, flags: seq<bool>, columns: seq<Band>)
    requires ColumnFlags(cells, rows, flags) && IsBands(flags, |flags|, columns)
    requires forall p | p in cells :: p.1 < |flags|
    ensures Splits(InRows(cells, rows.first, rows.last + 1), AreasOf(rows, columns))
    ensures forall k | 0 <= k < |columns| :: CellsIn(cells, AreasOf(rows, columns)[k]) != {}
  {
    var areas := AreasOf(rows, columns);
    forall i, j | 0 <= i < j < |areas| ensures Apart(areas[i], areas[j]) {
      BandsInOrder(flags, |flags|, columns, i, j);
    }
    forall p | p in InRows(cells, rows.first, rows.last + 1) ensures Covered(p, areas) {
      assert (p.0, p.1) in cells && flags[p.1];
      assert InBands(columns, p.1);
      var k :| 0 <= k < |columns| && columns[k].first <= p.1 <= columns[k].last;
      assert In(p, areas[k]);
    }
    forall k | 0 <= k < |columns| ensures CellsIn(cells, areas[k]) != {} {
      var c := columns[k].first;
      assert flags[c];
      var r :| rows.first <= r <= rows.last && (r, c) in cells;
      assert (r, c) in CellsIn(cells, areas[k]);
    }
  }

  /** An empty column separates two column bands. */
  lemma {:induction false} BandGapped(cells: Cells, rows: Band, flags: seq<bool>, columns: seq<Band>)
    requires ColumnFlags(cells, rows, flags) && IsBands(flags, |flags|, columns) && rows.first <= rows.last
    ensures AllGapped(cells, AreasOf(rows, columns))
  {
    var areas := AreasOf(rows, columns);
    forall i, j | 0 <= i < j < |areas| ensures Gapped(cells, areas[i], areas[j]) {
      var c := columns[i].last + 1;
      BandsInOrder(flags, |flags|, columns, i, j);
      BandEnds(flags, columns, i);
      FlaggedColumn(cells, rows, flags, c);
      var a, b := areas[i], areas[j];
      assert a.right < c < b.left && ColumnEmpty(cells, c, Min(a.top, b.top), Max(a.bottom, b.bottom));
    }
  }

  lemma {:induction false} FlaggedColumn(cells: Cells, rows: Band, flags: seq<bool>, c: nat)
    requires ColumnFlags(cells, rows, flags) && c < |flags|
    ensures flags[c] <==> !ColumnEmpty(cells, c, rows.first, rows.last)
  {
    if flags[c] {
      var r :| rows.first <= r <= rows.last && (r, c) in cells;
      assert (r, c).1 == c;
    } else {
      forall p | p in cells ensures p.1 != c || p.0 < rows.first || rows.last < p.0 {
        assert (p.0, p.1) in cells;
      }
    }
  }

  lemma {:induction false} FlaggedRow(cells: Cells, width: nat, flags: seq<bool>, r: nat)
    requires RowFlags(cells, width, flags) && r < |flags|
    requires forall p | p in cells :: p.1 < width
    ensures flags[r] <==> !RowEmpty(cells, r)
  {
    if flags[r] {
      var c :| 0 <= c < width && (r, c) in cells;
      assert (r, c).0 == r;
    } else {
      forall p | p in cells ensures p.0 != r {
        assert (p.0, p.1) in cells;
      }
    }
  }

  /** A maximal band of populated rows. */
  predicate RowBand(cells: Cells, rows: Band) {
    && rows.first <= rows.last && (forall r | rows.first <= r <= rows.last :: !RowEmpty(cells, r))
    && (rows.first > 0 ==> RowEmpty(cells, rows.first - 1)) && RowEmpty(cells, rows.last + 1)
  }

  lemma {:induction false} BandArea(cells: Cells, rows: Band, flags: seq<bool>, columns: seq<Band>, k: nat)
    requires ColumnFlags(cells, rows, flags) && IsBands(flags, |flags|, columns) && k < |columns|
    requires RowBand(cells, rows) && forall p | p in cells :: p.1 < |flags|
    ensures Area(cells, AreasOf(rows, columns)[k])
  {
    var band := columns[k];
    forall c | band.first <= c <= band.last ensures !ColumnEmpty(cells, c, rows.first, rows.last) {
      assert flags[c];
      FlaggedColumn(cells, rows, flags, c);
    }
    BandEnds(flags, columns, k);
    if band.first > 0 {
      FlaggedColumn(cells, rows, flags, band.first - 1);
    }
    if band.last + 1 < |flags| {
      FlaggedColumn(cells, rows, flags, band.last + 1);
    }
  }

  lemma {:induction false} BandRows(cells: Cells, width: nat, flags: seq<bool>, bands: seq<Band>, k: nat)
    requires RowFlags(cells, width, flags) && IsBands(flags, |flags|, bands) && k < |bands|
    requires forall p | p in cells :: p.0 < |flags| && p.1 < width
    ensures RowBand(cells, bands[k])
  {
    var band := bands[k];
    forall r | band.first <= r <= band.last ensures !RowEmpty(cells, r) {
      assert flags[r];
      FlaggedRow(cells, width, flags, r);
    }
    BandEnds(flags, bands, k);
    if band.first > 0 {
      FlaggedRow(cells, width, flags, band.first - 1);
    }
    if band.last + 1 < |flags| {
      FlaggedRow(cells, width, flags, band.last + 1);
    }
  }

  lemma {:induction false} OutsideBand(values: seq<bool>, bands: seq<Band>, i: nat, n: nat)
    requires IsBands(values, |values|, bands) && i < |bands| && n < |values|
    requires n + 1 == bands[i].first || n == bands[i].last + 1
    ensures !values[n]
  {
    if values[n] {
      assert InBands(bands, n);
      var k :| 0 <= k < |bands| && bands[k].first <= n <= bands[k].last;
      if k < i {
        BandsInOrder(values, |values|, bands, k, i);
      } else if k > i {
        BandsInOrder(values, |values|, bands, i, k);
      }
    }
  }

  /** A band begins and ends where the values turn. */
  lemma {:induction false} BandEnds(values: seq<bool>, bands: seq<Band>, i: nat)
    requires IsBands(values, |values|, bands) && i < |bands|
    ensures bands[i].first > 0 ==> !values[bands[i].first - 1]
    ensures bands[i].last + 1 < |values| ==> !values[bands[i].last + 1]
  {
    if bands[i].first > 0 {
      OutsideBand(values, bands, i, bands[i].first - 1);
    }
    if bands[i].last + 1 < |values| {
      OutsideBand(values, bands, i, bands[i].last + 1);
    }
  }

  lemma {:induction false} GappedMore(cells: Cells, r: nat, areas: seq<Rect>, more: seq<Rect>)
    requires AllGapped(cells, areas) && AllGapped(cells, more) && (areas != [] ==> RowEmpty(cells, r))
    requires forall i | 0 <= i < |areas| :: areas[i].bottom < r
    requires forall i | 0 <= i < |more| :: areas != [] ==> r < more[i].top
    ensures AllGapped(cells, areas + more)
  {
  }

  lemma {:induction false} SplitsMore(cells: Cells, limit: nat, end: nat, areas: seq<Rect>, more: seq<Rect>)
    requires limit <= end && Splits(InRows(cells, 0, limit), areas) && Splits(InRows(cells, limit, end), more)
    requires forall i | 0 <= i < |areas| :: areas[i].bottom < limit
    requires forall i | 0 <= i < |more| :: limit <= more[i].top
    ensures Splits(InRows(cells, 0, end), areas + more)
  {
    var all := areas + more;
    forall p | p in InRows(cells, 0, end) ensures Covered(p, all) {
      if p.0 < limit {
        assert p in InRows(cells, 0, limit);
        assert Covered(p, areas);
        var i :| 0 <= i < |areas| && In(p, areas[i]);
        assert In(p, all[i]);
      } else {
        assert p in InRows(cells, limit, end);
        assert Covered(p, more);
        var i :| 0 <= i < |more| && In(p, more[i]);
        assert In(p, all[|areas| + i]);
      }
    }
  }

  /** Rows without cells add nothing. */
  lemma {:induction false} SplitsGap(cells: Cells, limit: nat, end: nat, areas: seq<Rect>)
    requires limit <= end && Splits(InRows(cells, 0, limit), areas) && InRows(cells, limit, end) == {}
    ensures Splits(InRows(cells, 0, end), areas)
  {
    forall p | p in InRows(cells, 0, end) ensures Covered(p, areas) {
      assert p !in InRows(cells, limit, end);
      assert p in InRows(cells, 0, limit);
    }
  }

  method PopulatedColumns(cells: Cells, rows: Band, width: nat) returns (flags: seq<bool>)
    ensures |flags| == width && ColumnFlags(cells, rows, flags)
  {
    var populated := new bool[width];
    for c := 0 to width
      invariant forall k | 0 <= k < c :: populated[k] <==> exists r | rows.first <= r <= rows.last :: (r, k) in cells
    {
      populated[c] := exists r | rows.first <= r <= rows.last :: (r, c) in cells;
    }
    return populated[..];
  }

  method PopulatedRows(cells: Cells, height: nat, width: nat) returns (flags: seq<bool>)
    ensures |flags| == height && RowFlags(cells, width, flags)
  {
    var populated := new bool[height];
    for r := 0 to height
      invariant forall k | 0 <= k < r :: populated[k] <==> exists c | 0 <= c < width :: (k, c) in cells
    {
      populated[r] := exists c | 0 <= c < width :: (r, c) in cells;
    }
    return populated[..];
  }

  /** The trimmed region of one area that holds a cell. */
  method RegionIn(cells: Cells, start: Cell, area: Rect) returns (ok: bool, ghost box: Rect, region: Region)
    requires area.top <= area.bottom <= USIZE_MAX && area.left <= area.right <= USIZE_MAX
    requires CellsIn(cells, area) != {}
    ensures ok ==> Found(cells, start, [area], [box], [region])
    ensures !ok ==> Refused(cells, start, area)
  {
    var trimmed := TrimRegion(cells, area);
    box, region := NOTHING, Region(NOTHING, 0);
    match trimmed
    case TooMany =>
      ok := false;
    case Box(rect, count) =>
      BoundsInside(cells, area, rect);
      var range := Placed(rect, start);
      ok := range.Some?;
      if ok {
        box, region := rect, Region(range.value, count);
      }
  }

  method RegionsInBand(cells: Cells, start: Cell, rows: Band, width: nat)
    returns (ok: bool, regions: seq<Region>, ghost boxes: seq<Rect>, ghost areas: seq<Rect>)
    requires RowBand(cells, rows) && rows.last <= USIZE_MAX && width <= USIZE_MAX
    requires forall p | p in cells :: p.1 < width
    ensures !ok ==> SomeRefused(cells, start)
    ensures ok ==> Found(cells, start, areas, boxes, regions) && |boxes| == |areas|
    ensures Splits(InRows(cells, rows.first, rows.last + 1), areas) && AllGapped(cells, areas)
    ensures forall i | 0 <= i < |areas| :: areas[i].top == rows.first && areas[i].bottom == rows.last
    ensures AllAreas(cells, areas)
  {
    var flags := PopulatedColumns(cells, rows, width);
    var columns := TrueBands(flags);
    BandSplits(cells, rows, flags, columns);
    BandGapped(cells, rows, flags, columns);
    areas := AreasOf(rows, columns);
    forall k | 0 <= k < |areas| ensures Area(cells, areas[k]) {
      BandArea(cells, rows, flags, columns, k);
    }
    ok, regions, boxes := true, [], [];
    for k := 0 to |columns|
      invariant |boxes| == k && Found(cells, start, areas[..k], boxes, regions)
    {
      ghost var box;
      var region;
      var area := Rect(rows.first, columns[k].first, rows.last, columns[k].last);
      assert area == AreasOf(rows, columns)[k];
      ok, box, region := RegionIn(cells, start, area);
      if !ok {
        return;
      }
      FoundMore(cells, start, areas[..k], boxes, regions, [areas[k]], [box], [region]);
      assert areas[..k] + [areas[k]] == areas[..k + 1];
      regions, boxes := regions + [region], boxes + [box];
    }
    assert areas[..|columns|] == areas;
  }

  /** Where the rows done so far end. */
  function RowsDone(bands: seq<Band>, k: nat): (limit: nat)
    requires k <= |bands|
  {
    if k == 0 then 0 else bands[k - 1].last + 1
  }

  /** No cell lies between two row bands, before the first or after the last. */
  lemma {:induction false} NothingBetween(cells: Cells, width: nat, flags: seq<bool>, bands: seq<Band>, k: nat)
    requires RowFlags(cells, width, flags) && IsBands(flags, |flags|, bands) && k <= |bands|
    requires forall p | p in cells :: p.0 < |flags| && p.1 < width
    ensures InRows(cells, RowsDone(bands, k), if k < |bands| then bands[k].first else |flags|) == {}
  {
    var end := if k < |bands| then bands[k].first else |flags|;
    forall p | p in InRows(cells, RowsDone(bands, k), end) ensures false {
      assert (p.0, p.1) in cells;
      assert flags[p.0];
      assert InBands(bands, p.0);
      var i :| 0 <= i < |bands| && bands[i].first <= p.0 <= bands[i].last;
      if i < k - 1 {
        BandsInOrder(flags, |flags|, bands, i, k - 1);
      } else if i > k {
        BandsInOrder(flags, |flags|, bands, k, i);
      }
    }
  }

  lemma {:induction false} RowBetween(cells: Cells, width: nat, flags: seq<bool>, bands: seq<Band>, k: nat)
    requires RowFlags(cells, width, flags) && IsBands(flags, |flags|, bands) && 0 < k < |bands|
    requires forall p | p in cells :: p.1 < width
    ensures RowsDone(bands, k) < bands[k].first && RowEmpty(cells, RowsDone(bands, k))
  {
    assert bands[k - 1].last + 1 < bands[k].first;
    BandEnds(flags, bands, k - 1);
    FlaggedRow(cells, width, flags, RowsDone(bands, k));
  }

  /** All regions of the window, before the candidates are put in order. `boxes`
  are their ranges counted from the corner of the window. */
  method SearchWindow(cells: Cells, start: Cell, height: nat, width: nat)
    returns (ok: bool, regions: seq<Region>, ghost boxes: seq<Rect>, ghost areas: seq<Rect>)
    requires height <= USIZE_MAX && width <= USIZE_MAX
    requires forall p | p in cells :: p.0 < height && p.1 < width
    ensures !ok ==> SomeRefused(cells, start)
    ensures ok ==> Splits(cells, areas) && AllGapped(cells, areas) && AllAreas(cells, areas)
    ensures ok ==> Found(cells, start, areas, boxes, regions) && |boxes| == |areas|
  {
    var flags := PopulatedRows(cells, height, width);
    var bands := TrueBands(flags);
    ok, regions, boxes, areas := true, [], [], [];
    for k := 0 to |bands|
      invariant Splits(InRows(cells, 0, RowsDone(bands, k)), areas) && AllGapped(cells, areas)
      invariant k == 0 ==> areas == []
      invariant AllAreas(cells, areas)
      invariant Found(cells, start, areas, boxes, regions) && |boxes| == |areas|
      invariant forall i | 0 <= i < |areas| :: areas[i].bottom < RowsDone(bands, k)
    {
      ghost var moreBoxes, more;
      var moreRegions;
      BandRows(cells, width, flags, bands, k);
      ok, moreRegions, moreBoxes, more := RegionsInBand(cells, start, bands[k], width);
      if !ok {
        return;
      }
      NothingBetween(cells, width, flags, bands, k);
      if k > 0 {
        RowBetween(cells, width, flags, bands, k);
      }
      GappedMore(cells, RowsDone(bands, k), areas, more);
      SplitsGap(cells, RowsDone(bands, k), bands[k].first, areas);
      SplitsMore(cells, bands[k].first, bands[k].last + 1, areas, more);
      FoundMore(cells, start, areas, boxes, regions, more, moreBoxes, moreRegions);
      regions, boxes, areas := regions + moreRegions, boxes + moreBoxes, areas + more;
    }
    NothingBetween(cells, width, flags, bands, |bands|);
    SplitsGap(cells, RowsDone(bands, |bands|), height, areas);
    assert InRows(cells, 0, height) == cells;
  }

  function CountsOf(regions: seq<Region>): (counts: seq<nat>) {
    seq(|regions|, i requires 0 <= i < |regions| => regions[i].count)
  }

  /** The regions share no position and no two could be joined; every cell is in
  one of them; each is the exact box around its own cells and counts them; and
  the counts add up. */
  predicate Partition(cells: Cells, start: Cell, boxes: seq<Rect>, regions: seq<Region>) {
    && |boxes| == |regions|
    && Splits(cells, boxes) && AllGapped(cells, boxes)
    && (forall i | 0 <= i < |boxes| :: Trims(cells, boxes[i], boxes[i], regions[i].count))
    && (forall i | 0 <= i < |boxes| :: Placed(boxes[i], start) == Some(regions[i].range))
    && Sum(CountsOf(regions), |regions|) == |cells|
  }

  /** The areas are those of the window, and each region is in its own. */
  ghost predicate FromAreas(cells: Cells, areas: seq<Rect>, boxes: seq<Rect>) {
    && |areas| == |boxes| && (forall a :: Area(cells, a) <==> a in areas)
    && forall i | 0 <= i < |boxes| :: Inside(boxes[i], areas[i])
  }

  /** A box inside its area that leaves out none of the area's cells. */
  predicate Shrinks(cells: Cells, area: Rect, box: Rect) {
    Inside(box, area) && CellsIn(cells, box) == CellsIn(cells, area)
  }

  lemma {:induction false} ShrunkCovers(cells: Cells, areas: seq<Rect>, boxes: seq<Rect>, p: Cell)
    requires |boxes| == |areas| && forall i | 0 <= i < |boxes| :: Shrinks(cells, areas[i], boxes[i])
    requires p in cells && Covered(p, areas)
    ensures Covered(p, boxes)
  {
    var i :| 0 <= i < |areas| && In(p, areas[i]);
    assert Shrinks(cells, areas[i], boxes[i]);
    assert p in CellsIn(cells, areas[i]) && p in CellsIn(cells, boxes[i]);
    assert In(p, boxes[i]);
  }

  lemma {:induction false} ShrunkGapped(cells: Cells, a: Rect, b: Rect, c: Rect, d: Rect)
    requires Gapped(cells, a, b) && Inside(c, a) && Inside(d, b)
    ensures Gapped(cells, c, d)
  {
    if r :| a.bottom < r < b.top && RowEmpty(cells, r) {
      assert c.bottom < r < d.top;
    } else {
      var k :| a.right < k < b.left && ColumnEmpty(cells, k, Min(a.top, b.top), Max(a.bottom, b.bottom));
      assert c.right < k < d.left && ColumnEmpty(cells, k, Min(c.top, d.top), Max(c.bottom, d.bottom));
    }
  }

  lemma {:induction false} BoxesSplit(cells: Cells, areas: seq<Rect>, boxes: seq<Rect>)
    requires Splits(cells, areas) && AllGapped(cells, areas) && |boxes| == |areas|
    requires forall i | 0 <= i < |boxes| :: Shrinks(cells, areas[i], boxes[i])
    ensures Splits(cells, boxes) && AllGapped(cells, boxes)
  {
    forall p | p in cells ensures Covered(p, boxes) {
      assert Covered(p, areas);
      ShrunkCovers(cells, areas, boxes, p);
    }
    forall i, j | 0 <= i < j < |boxes| ensures Apart(boxes[i], boxes[j]) && Gapped(cells, boxes[i], boxes[j]) {
      assert Apart(areas[i], areas[j]) && Gapped(cells, areas[i], areas[j]);
      ShrunkGapped(cells, areas[i], areas[j], boxes[i], boxes[j]);
    }
  }

  lemma {:induction false} FoundPartition(cells: Cells, start: Cell, areas: seq<Rect>, boxes: seq<Rect>,
                                          regions: seq<Region>)
    requires Splits(cells, areas) && AllGapped(cells, areas)
    requires Found(cells, start, areas, boxes, regions) && |boxes| == |areas|
    ensures Partition(cells, start, boxes, regions)
    ensures forall i | 0 <= i < |boxes| :: Inside(boxes[i], areas[i])
  {
    BoxesSplit(cells, areas, boxes);
    CountsAddUp(cells, boxes, CountsOf(regions), |boxes|);
    forall p | p in cells ensures p in CellsInFirst(cells, boxes, |boxes|) {
      assert Covered(p, boxes);
    }
    assert CellsInFirst(cells, boxes, |boxes|) == cells;
  }

  lemma {:induction false} FoundAreas(cells: Cells, start: Cell, areas: seq<Rect>, boxes: seq<Rect>,
                                      regions: seq<Region>)
    requires Splits(cells, areas) && AllAreas(cells, areas)
    requires Found(cells, start, areas, boxes, regions) && |boxes| == |areas|
    ensures forall a :: Area(cells, a) <==> a in areas
    ensures !SomeRefused(cells, start)
  {
    forall a | Area(cells, a) ensures a in areas && !Refused(cells, start, a) {
      NoOtherArea(cells, areas, a);
      var i :| 0 <= i < |areas| && areas[i] == a;
      TrimmedIsNotRefused(cells, start, a, boxes[i], regions[i].count);
    }
  }

  // ------------------------------------------------------ in sheet coordinates

  function Shift(p: Cell, start: Cell): (q: Cell) {
    (start.0 + p.0, start.1 + p.1)
  }

  /** The cells at their places in the sheet. */
  function Shifted(cells: Cells, start: Cell): (sheet: Cells) {
    set p | p in cells :: Shift(p, start)
  }

  function RangesOf(regions: seq<Region>): (ranges: seq<Rect>) {
    seq(|regions|, i requires 0 <= i < |regions| => regions[i].range)
  }

  /** Exactly one of the ranges holds the position. */
  predicate InOneRange(q: Cell, regions: seq<Region>) {
    exists i | 0 <= i < |regions| ::
      In(q, regions[i].range) && forall j | 0 <= j < |regions| && j != i :: !In(q, regions[j].range)
  }

  /** What is reported, about the sheet alone: every cell is in exactly one range, each
  range is the exact box around its own cells and counts them, ranges share no
  position and are separated by an empty row or column, and the counts add up. */
  predicate Reports(sheet: Cells, regions: seq<Region>) {
    && (forall q {:trigger InOneRange(q, regions)} | q in sheet :: InOneRange(q, regions))
    && (forall i | 0 <= i < |regions| :: Trims(sheet, regions[i].range, regions[i].range, regions[i].count))
    && AllApart(RangesOf(regions)) && AllGapped(sheet, RangesOf(regions))
    && Sum(CountsOf(regions), |regions|) == |sheet|
  }

  predicate IsShiftOf(range: Rect, box: Rect, start: Cell) {
    && range.top == start.0 + box.top && range.left == start.1 + box.left
    && range.bottom == start.0 + box.bottom && range.right == start.1 + box.right
  }

  lemma {:induction false} ShiftedCount(cells: Cells, start: Cell)
    ensures |Shifted(cells, start)| == |cells|
    decreases |cells|
  {
    if cells != {} {
      var p :| p in cells;
      ShiftedCount(cells - {p}, start);
      assert Shift(p, start) !in Shifted(cells - {p}, start);
      assert Shifted(cells, start) == Shifted(cells - {p}, start) + {Shift(p, start)};
    }
  }

  lemma {:induction false} ShiftedIn(cells: Cells, start: Cell, box: Rect, range: Rect)
    requires IsShiftOf(range, box, start)
    ensures CellsIn(Shifted(cells, start), range) == Shifted(CellsIn(cells, box), start)
  {
    forall q | q in CellsIn(Shifted(cells, start), range) ensures q in Shifted(CellsIn(cells, box), start) {
      var p :| p in cells && Shift(p, start) == q;
      assert p in CellsIn(cells, box);
    }
    forall q | q in Shifted(CellsIn(cells, box), start) ensures q in CellsIn(Shifted(cells, start), range) {
      var p :| p in CellsIn(cells, box) && Shift(p, start) == q;
      assert p in cells;
    }
  }

  lemma {:induction false} ShiftedBounds(seen: Cells, start: Cell, box: Rect, range: Rect)
    requires IsShiftOf(range, box, start) && Bounds(seen, box)
    ensures Bounds(Shifted(seen, start), range)
  {
    var sheet := Shifted(seen, start);
    var t :| t in seen && t.0 == box.top;
    var l :| l in seen && l.1 == box.left;
    var b :| b in seen && b.0 == box.bottom;
    var r :| r in seen && r.1 == box.right;
    assert Shift(t, start) in sheet && Shift(l, start) in sheet;
    assert Shift(b, start) in sheet && Shift(r, start) in sheet;
  }

  lemma {:induction false} ShiftedTrims(cells: Cells, start: Cell, box: Rect, range: Rect, count: nat)
    requires IsShiftOf(range, box, start) && Trims(cells, box, box, count)
    ensures Trims(Shifted(cells, start), range, range, count)
  {
    ShiftedIn(cells, start, box, range);
    ShiftedBounds(CellsIn(cells, box), start, box, range);
    ShiftedCount(CellsIn(cells, box), start);
    var p :| p in CellsIn(cells, box);
    assert Shift(p, start) in Shifted(CellsIn(cells, box), start);
  }

  lemma {:induction false} ShiftedGapped(cells: Cells, start: Cell, a: Rect, b: Rect, c: Rect, d: Rect)
    requires Gapped(cells, a, b) && IsShiftOf(c, a, start) && IsShiftOf(d, b, start)
    ensures Gapped(Shifted(cells, start), c, d)
  {
    var sheet := Shifted(cells, start);
    if r :| a.bottom < r < b.top && RowEmpty(cells, r) {
      assert RowEmpty(sheet, start.0 + r);
      assert c.bottom < start.0 + r < d.top;
    } else {
      var k :| a.right < k < b.left && ColumnEmpty(cells, k, Min(a.top, b.top), Max(a.bottom, b.bottom));
      assert ColumnEmpty(sheet, start.1 + k, Min(c.top, d.top), Max(c.bottom, d.bottom));
      assert c.right < start.1 + k < d.left;
    }
  }

  /** A cell of the window is in exactly one range, at its place in the sheet. */
  lemma {:induction false} ShiftedOnce(cells: Cells, start: Cell, boxes: seq<Rect>, regions: seq<Region>, p: Cell)
    requires |boxes| == |regions| && forall i | 0 <= i < |boxes| :: IsShiftOf(regions[i].range, boxes[i], start)
    requires AllApart(boxes) && Covered(p, boxes)
    ensures InOneRange(Shift(p, start), regions)
  {
    var i :| 0 <= i < |boxes| && In(p, boxes[i]);
    assert In(Shift(p, start), regions[i].range);
    forall j | 0 <= j < |regions| && j != i ensures !In(Shift(p, start), regions[j].range) {
      assert if i < j then Apart(boxes[i], boxes[j]) else Apart(boxes[j], boxes[i]);
    }
  }

  /** The partition of the window is one of the sheet. */
  lemma {:induction false} PartitionReports(cells: Cells, start: Cell, boxes: seq<Rect>, regions: seq<Region>)
    requires Partition(cells, start, boxes, regions)
    ensures Reports(Shifted(cells, start), regions)
  {
    var sheet, ranges := Shifted(cells, start), RangesOf(regions);
    forall i | 0 <= i < |boxes| ensures IsShiftOf(regions[i].range, boxes[i], start) {
      assert Trims(cells, boxes[i], boxes[i], regions[i].count);
    }
    ShiftedCount(cells, start);
    forall q | q in sheet ensures InOneRange(q, regions) {
      var p :| p in cells && Shift(p, start) == q;
      assert Covered(p, boxes);
      ShiftedOnce(cells, start, boxes, regions, p);
    }
    forall i | 0 <= i < |regions| ensures Trims(sheet, regions[i].range, regions[i].range, regions[i].count) {
      ShiftedTrims(cells, start, boxes[i], regions[i].range, regions[i].count);
    }
    forall i, j | 0 <= i < j < |ranges| ensures Apart(ranges[i], ranges[j]) && Gapped(sheet, ranges[i], ranges[j]) {
      assert Apart(boxes[i], boxes[j]) && Gapped(cells, boxes[i], boxes[j]);
      ShiftedGapped(cells, start, boxes[i], boxes[j], ranges[i], ranges[j]);
    }
  }

  /** The search over the window of at most `maxRows` by `maxColumns`. It refuses a
  sheet if and only if one of its regions cannot be reported. */
  method FindRegions(cells: Cells, start: Cell, height: nat, width: nat, maxRows: nat, maxColumns: nat)
    returns (regions: Option<seq<Region>>, truncated: bool, ghost boxes: seq<Rect>, ghost areas: seq<Rect>)
    requires height <= USIZE_MAX && width <= USIZE_MAX
    ensures truncated <==> height > maxRows || width > maxColumns
    ensures var window := Window(cells, Min(height, maxRows), Min(width, maxColumns));
            && (regions.None? <==> SomeRefused(window, start))
            && (regions.Some? ==> Reports(Shifted(window, start), regions.value))
            && (regions.Some? ==> Partition(window, start, boxes, regions.value) && FromAreas(window, areas, boxes))
    ensures regions.None? ==> Oversized(cells, start, height, width)
  {
    var h, w := Min(height, maxRows), Min(width, maxColumns);
    truncated := height > h || width > w;
    boxes, areas := [], [];
    var window := Window(cells, h, w);
    if h == 0 || w == 0 {
      FoundPartition(window, start, [], [], []);
      FoundAreas(window, start, [], [], []);
      PartitionReports(window, start, [], []);
      return Some([]), truncated, [], [];
    }
    var ok, found;
    ok, found, boxes, areas := SearchWindow(window, start, h, w);
    if !ok {
      Smaller(window, cells);
      RefusedOnlyOversized(window, start, h, w);
      return None, truncated, [], [];
    }
    FoundPartition(window, start, areas, boxes, found);
    FoundAreas(window, start, areas, boxes, found);
    PartitionReports(window, start, boxes, found);
    return Some(found), truncated, boxes, areas;
  }
}
