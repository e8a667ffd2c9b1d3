/** The bookkeeping both row paths share: each member of a row either faults or
yields a cell, names may not repeat, required names must appear, and the record
lists the projected names in order. */
module RowFrame {
  import opened Options

  /** A member's name and its cell, or no cell if the member is at fault. */
  datatype Entry<T> = Entry(name: string, cell: Option<T>)

  predicate DistinctStrings(names: seq<string>) {
    forall i, j | 0 <= i < j < |names| :: names[i] != names[j]
  }

  /** Position of the first entry called `name`, or the length if there is none. */
  function Index<T>(es: seq<Entry<T>>, name: string): (k: nat)
    ensures k <= |es|
    ensures k < |es| ==> es[k].name == name
    ensures forall i | 0 <= i < k :: es[i].name != name
  {
    if es == [] then 0
    else if es[0].name == name then 0
    else 1 + Index(es[1..], name)
  }

  predicate DistinctEntries<T>(es: seq<Entry<T>>, n: nat)
    requires n <= |es|
  {
    forall i, j | 0 <= i < j < n :: es[i].name != es[j].name
  }

  function EntryNames<T>(es: seq<Entry<T>>, n: nat): set<string>
    requires n <= |es|
  {
    set i | 0 <= i < n :: es[i].name
  }

  predicate CellsPresent<T>(es: seq<Entry<T>>, n: nat)
    requires n <= |es|
  {
    forall i | 0 <= i < n :: es[i].cell.Some?
  }

  predicate Accepts<T>(es: seq<Entry<T>>, required: set<string>) {
    CellsPresent(es, |es|) && DistinctEntries(es, |es|) && required <= EntryNames(es, |es|)
  }

  /** The cell the first `n` entries give to a name. */
  function CellUpTo<T>(es: seq<Entry<T>>, n: nat, name: string, absent: T): T
    requires n <= |es| && CellsPresent(es, n)
  {
    var k := Index(es, name);
    if k < n then es[k].cell.value else absent
  }

  function Record<T>(es: seq<Entry<T>>, required: set<string>, names: seq<string>, absent: T): (r: Option<seq<T>>) {
    if Accepts(es, required) then
      Some(seq(|names|, i requires 0 <= i < |names| => CellUpTo(es, |es|, names[i], absent)))
    else None
  }

  /** A record lists what the entries give: under each name the cell of the entry
  called so, and the absent value where there is none. */
  ghost predicate Lists<T>(es: seq<Entry<T>>, names: seq<string>, absent: T, record: seq<T>) {
    && |record| == |names|
    && (forall p, i | 0 <= p < |names| && 0 <= i < |es| && es[i].name == names[p] :: es[i].cell == Some(record[p]))
    && (forall p | 0 <= p < |names| && names[p] !in EntryNames(es, |es|) :: record[p] == absent)
  }

  lemma {:induction false} RecordLists<T>(es: seq<Entry<T>>, required: set<string>, names: seq<string>, absent: T,
                                          record: seq<T>)
    ensures Record(es, required, names, absent) == Some(record)
       <==> Accepts(es, required) && Lists(es, names, absent, record)
  {
    if Accepts(es, required) {
      var r := Record(es, required, names, absent).value;
      assert Lists(es, names, absent, r);
      if Lists(es, names, absent, record) {
        forall p | 0 <= p < |names| ensures record[p] == r[p] {
          var k := Index(es, names[p]);
          if k < |es| {
            assert es[k].name == names[p] && es[k].cell == Some(record[p]);
          } else {
            assert names[p] !in EntryNames(es, |es|);
          }
        }
        assert record == r;
      }
    }
  }

  /** The second entry is the first with its cell converted. */
  ghost predicate Converted<S, T>(d: Entry<S>, g: Entry<T>, f: S -> T) {
    d.name == g.name && g.cell == if d.cell.Some? then Some(f(d.cell.value)) else None
  }

  ghost predicate AllConverted<S, T>(d: seq<Entry<S>>, g: seq<Entry<T>>, f: S -> T) {
    |d| == |g| && forall i | 0 <= i < |d| :: Converted(d[i], g[i], f)
  }

  lemma {:induction false} ConvertedAccepts<S, T>(d: seq<Entry<S>>, g: seq<Entry<T>>, f: S -> T, required: set<string>)
    requires AllConverted(d, g, f)
    ensures Accepts(d, required) <==> Accepts(g, required)
  {
    assert forall i | 0 <= i < |d| :: Converted(d[i], g[i], f);
    assert EntryNames(d, |d|) == EntryNames(g, |g|);
    assert CellsPresent(d, |d|) <==> CellsPresent(g, |g|);
    assert DistinctEntries(d, |d|) <==> DistinctEntries(g, |g|);
  }

  lemma {:induction false} ConvertedIndex<S, T>(d: seq<Entry<S>>, g: seq<Entry<T>>, f: S -> T, name: string)
    requires AllConverted(d, g, f)
    ensures Index(d, name) == Index(g, name)
  {
    var i, j := Index(d, name), Index(g, name);
    if i < |d| {
      assert Converted(d[i], g[i], f);
    }
    if j < |g| {
      assert Converted(d[j], g[j], f);
    }
  }

  /** Converting the entries converts the record. */
  lemma {:induction false} ConvertedRecord<S, T>(d: seq<Entry<S>>, g: seq<Entry<T>>, f: S -> T, required: set<string>,
                                                 names: seq<string>, absent: S)
    requires AllConverted(d, g, f) && Accepts(d, required) && Accepts(g, required)
    ensures var x, y := Record(d, required, names, absent).value, Record(g, required, names, f(absent)).value;
            forall p | 0 <= p < |names| :: y[p] == f(x[p])
  {
    forall p | 0 <= p < |names|
      ensures CellUpTo(g, |g|, names[p], f(absent)) == f(CellUpTo(d, |d|, names[p], absent))
    {
      ConvertedIndex(d, g, f, names[p]);
      var k := Index(d, names[p]);
      if k < |d| {
        assert Converted(d[k], g[k], f);
      }
    }
  }

  /** What taking in one more entry changes. */
  lemma {:induction false} TakeEntry<T>(es: seq<Entry<T>>, n: nat)
    requires n < |es|
    ensures EntryNames(es, n + 1) == EntryNames(es, n) + {es[n].name}
    ensures DistinctEntries(es, n + 1) <==> DistinctEntries(es, n) && es[n].name !in EntryNames(es, n)
  {
  }

  lemma {:induction false} IndexOfNew<T>(es: seq<Entry<T>>, n: nat)
    requires n < |es| && es[n].name !in EntryNames(es, n)
    ensures Index(es, es[n].name) == n
  {
  }

  /** Slots, one per projected name, hold what the first `n` entries gave. */
  ghost predicate SlotsHold<T>(es: seq<Entry<T>>, n: nat, names: seq<string>, absent: T, slots: seq<T>)
    requires n <= |es| && CellsPresent(es, n)
  {
    |slots| == |names| && forall p | 0 <= p < |names| :: slots[p] == CellUpTo(es, n, names[p], absent)
  }

  /** Slots that hold all the entries are the record. */
  lemma {:induction false} SlotsComplete<T>(es: seq<Entry<T>>, required: set<string>, names: seq<string>, absent: T,
                                            slots: seq<T>)
    requires Accepts(es, required) && SlotsHold(es, |es|, names, absent, slots)
    ensures Record(es, required, names, absent) == Some(slots)
  {
    assert slots == Record(es, required, names, absent).value;
  }

  /** An entry at fault, or one that repeats a name, is enough to refuse. */
  lemma {:induction false} FaultRefuses<T>(es: seq<Entry<T>>, n: nat, required: set<string>, names: seq<string>,
                                           absent: T)
    requires n < |es| && (es[n].cell.None? || es[n].name in EntryNames(es, n))
    ensures Record(es, required, names, absent).None?
  {
  }

  lemma {:induction false} FillSlot<T>(es: seq<Entry<T>>, n: nat, names: seq<string>, absent: T, slots: seq<T>, q: nat)
    requires n < |es| && CellsPresent(es, n + 1) && es[n].name !in EntryNames(es, n)
    requires CellsPresent(es, n) && SlotsHold(es, n, names, absent, slots)
    requires DistinctStrings(names) && q < |names| && names[q] == es[n].name
    ensures SlotsHold(es, n + 1, names, absent, slots[q := es[n].cell.value])
  {
  }

  lemma {:induction false} SkipSlot<T>(es: seq<Entry<T>>, n: nat, names: seq<string>, absent: T, slots: seq<T>)
    requires n < |es| && CellsPresent(es, n + 1) && es[n].name !in names
    requires CellsPresent(es, n) && SlotsHold(es, n, names, absent, slots)
    ensures SlotsHold(es, n + 1, names, absent, slots)
  {
  }

  /** A map holds, for the projected names only, what the first `n` entries gave. */
  ghost predicate MapHolds<T>(es: seq<Entry<T>>, n: nat, names: seq<string>, absent: T, output: map<string, T>)
    requires n <= |es| && CellsPresent(es, n)
  {
    && (forall s | s in output :: output[s] == CellUpTo(es, n, s, absent))
    && forall s | s in names && s !in output :: CellUpTo(es, n, s, absent) == absent
  }

  lemma {:induction false} FillMap<T>(es: seq<Entry<T>>, n: nat, names: seq<string>, absent: T, output: map<string, T>)
    requires n < |es| && CellsPresent(es, n + 1) && es[n].name !in EntryNames(es, n)
    requires CellsPresent(es, n) && MapHolds(es, n, names, absent, output)
    requires forall s | s in output :: s in names
    ensures MapHolds(es, n + 1, names, absent,
              if es[n].name in names then output[es[n].name := es[n].cell.value] else output)
  {
    IndexOfNew(es, n);
  }

  /** Lists the cells in projection order, absent names included. */
  method OrderCells<T>(ghost es: seq<Entry<T>>, names: seq<string>, output: map<string, T>, absent: T)
    returns (r: seq<T>)
    requires CellsPresent(es, |es|) && MapHolds(es, |es|, names, absent, output)
    ensures r == seq(|names|, i requires 0 <= i < |names| => CellUpTo(es, |es|, names[i], absent))
  {
    r := [];
    for p := 0 to |names|
      invariant |r| == p && forall q | 0 <= q < p :: r[q] == CellUpTo(es, |es|, names[q], absent)
    {
      r := r + [if names[p] in output then output[names[p]] else absent];
    }
  }

  lemma {:induction false} IndexOfDistinct<T>(es: seq<Entry<T>>, i: nat)
    requires i < |es| && DistinctEntries(es, |es|)
    ensures Index(es, es[i].name) == i
  {
  }

}
