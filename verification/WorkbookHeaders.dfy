/** The header repair of a workbook region. */
module WorkbookHeaders {
  import opened Options
  import opened Arithmetic
  import opened Numerals
  import opened Headers

  datatype Header = NoHeader | HeaderRow(cells: seq<string>)

  /** Names are numbered from the second occurrence on. */
  function Numbered(base: string, k: nat): (name: string) {
    if k <= 1 then base else base + "_" + Decimal(k)
  }

  lemma {:induction false} NumberedInjective(base: string, j: nat, k: nat)
    requires j >= 1 && k >= 1 && Numbered(base, j) == Numbered(base, k)
    ensures j == k
  {
    if j > 1 && k > 1 {
      var n := |base| + 1;
      assert Decimal(j) == Numbered(base, j)[n..] == Numbered(base, k)[n..] == Decimal(k);
      DecimalInjective(j, k);
    }
  }

  /** What a column is called before repeats are told apart. `clean` trims and
  shortens the text of a header cell. */
  function BaseOf(header: Header, clean: string -> string, i: nat): (base: string)
    requires header.HeaderRow? ==> i < |header.cells|
  {
    match header
    case NoHeader => "column_" + Decimal(i + 1)
    case HeaderRow(cells) => if clean(cells[i]) == "" then "column_" + Decimal(i + 1) else clean(cells[i])
  }

  /** Whatever the header row holds, also names that look numbered already, the
  columns get pairwise distinct names, each the first free form of its own. */
  method RegionColumnNames(header: Header, clean: string -> string, columns: nat) returns (r: Option<seq<string>>)
    requires header.HeaderRow? ==> columns == |header.cells|
    ensures columns <= USIZE_MAX ==> r.Some?
    ensures r.Some? ==> |r.value| == columns && forall i, j | 0 <= i < j < columns :: r.value[i] != r.value[j]
    ensures r.Some? ==>
              Repaired(Numbered, seq(columns, i requires 0 <= i < columns => BaseOf(header, clean, i)), r.value)
  {
    forall base: string, j: nat, k: nat | j >= 1 && k >= 1 && Numbered(base, j) == Numbered(base, k) ensures j == k {
      NumberedInjective(base, j, k);
    }
    var bases := seq(columns, i requires 0 <= i < columns => BaseOf(header, clean, i));
    r := ColumnNames(Numbered, bases);
  }
}
