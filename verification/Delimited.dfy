/** Closing a cut delimited text at its last whole record. */
module Delimited {
  import opened Options
  import opened ArrayFraming
  import opened Concatenation

  const NEWLINE: Byte := 0x0A

  /** Quote bytes among the first `i`. */
  function Quotes(b: Bytes, i: nat): (n: nat)
    requires i <= |b|
  {
    if i == 0 then 0 else Quotes(b, i - 1) + if b[i - 1] == QUOTE then 1 else 0
  }

  /** A record ends at `e`: a newline stands before it, outside quotes. */
  predicate Boundary(b: Bytes, e: nat)
    requires e <= |b|
  {
    e > 0 && b[e - 1] == NEWLINE && Quotes(b, e - 1) % 2 == 0
  }

  /** The last record end up to `i`, or 0. */
  function LastBoundary(b: Bytes, i: nat): (e: nat)
    requires i <= |b|
    ensures e <= i
  {
    if i == 0 || Boundary(b, i) then i else LastBoundary(b, i - 1)
  }

  lemma {:induction false} LastBoundaryIsLast(b: Bytes, i: nat, e: nat)
    requires e <= i <= |b| && (e == 0 || Boundary(b, e))
    requires forall k | e < k <= i :: !Boundary(b, k)
    ensures LastBoundary(b, i) == e
  {
    if e < i {
      LastBoundaryIsLast(b, i - 1, e);
    }
  }

  /** The whole records among the first `i` bytes. */
  function Records(b: Bytes, i: nat): (rs: seq<Bytes>)
    requires i <= |b|
  {
    if i == 0 then []
    else if Boundary(b, i) then Records(b, i - 1) + [b[LastBoundary(b, i - 1)..i]]
    else Records(b, i - 1)
  }

  /** The whole records are the text up to the last boundary, nothing lost. */
  lemma {:induction false} RecordsCover(b: Bytes, i: nat)
    requires i <= |b|
    ensures Flat(Records(b, i)) == b[..LastBoundary(b, i)]
  {
    if i > 0 {
      RecordsCover(b, i - 1);
      if Boundary(b, i) {
        var last := LastBoundary(b, i - 1);
        FlatOne(Records(b, i - 1), b[last..i]);
        assert b[..last] + b[last..i] == b[..i];
      }
    }
  }

  lemma {:induction false} RecordsUpToLast(b: Bytes, i: nat)
    requires i <= |b|
    ensures Records(b, i) == [] <==> LastBoundary(b, i) == 0
    ensures Records(b, i) == Records(b, LastBoundary(b, i))
  {
    if i > 0 && !Boundary(b, i) {
      RecordsUpToLast(b, i - 1);
    }
  }

  lemma {:induction false} RecordsGrow(b: Bytes, i: nat, j: nat)
    requires i <= j <= |b|
    ensures Records(b, i) <= Records(b, j)
    decreases j
  {
    if i < j {
      RecordsGrow(b, i, j - 1);
    }
  }

  /** A cut has the quotes, the boundaries and the records of the full text. */
  lemma {:induction false} CutAgrees(b: Bytes, cut: nat, i: nat)
    requires i <= cut <= |b|
    ensures Quotes(b[..cut], i) == Quotes(b, i)
    ensures Boundary(b[..cut], i) == Boundary(b, i)
    ensures LastBoundary(b[..cut], i) == LastBoundary(b, i)
    ensures Records(b[..cut], i) == Records(b, i)
    decreases i
  {
    if i > 0 {
      CutAgrees(b, cut, i - 1);
      var last := LastBoundary(b, i - 1);
      assert b[..cut][last..i] == b[last..i];
    }
  }

  /** The text up to its last record end; refused if it has none. */
  function Close(b: Bytes): (r: Option<Bytes>) {
    var e := LastBoundary(b, |b|);
    if e == 0 then None else Some(b[..e])
  }

  /** The source's scan, which steps over a doubled quote inside quotes. */
  method CloseDelimitedPrefix(bytes: Bytes) returns (r: Option<Bytes>)
    ensures r == Close(bytes)
    ensures r.None? <==> forall e | 0 < e <= |bytes| :: !Boundary(bytes, e)
    ensures r.Some? ==>
              && r.value <= bytes && Boundary(bytes, |r.value|)
              && forall e | |r.value| < e <= |bytes| :: !Boundary(bytes, e)
  {
    var inQuotes := false;
    var lastBoundary: nat := 0;
    var index := 0;
    while index < |bytes|
      invariant index <= |bytes|
      invariant inQuotes == (Quotes(bytes, index) % 2 == 1)
      invariant lastBoundary <= index && (lastBoundary == 0 || Boundary(bytes, lastBoundary))
      invariant forall e | lastBoundary < e <= index :: !Boundary(bytes, e)
    {
      if bytes[index] == QUOTE && inQuotes && index + 1 < |bytes| && bytes[index + 1] == QUOTE {
        assert Quotes(bytes, index + 2) == Quotes(bytes, index + 1) + 1 == Quotes(bytes, index) + 2;
        index := index + 1;
      } else if bytes[index] == QUOTE {
        inQuotes := !inQuotes;
      } else if bytes[index] == NEWLINE && !inQuotes {
        lastBoundary := index + 1;
      }
      index := index + 1;
    }
    LastBoundaryIsLast(bytes, |bytes|, lastBoundary);
    return if lastBoundary == 0 then None else Some(bytes[..lastBoundary]);
  }

  lemma {:induction false} LastIsBoundary(b: Bytes, i: nat)
    requires i <= |b|
    ensures LastBoundary(b, i) > 0 ==> Boundary(b, LastBoundary(b, i))
  {
    if i > 0 && !Boundary(b, i) {
      LastIsBoundary(b, i - 1);
    }
  }

  lemma {:induction false} ClosedCut(b: Bytes, cut: nat)
    requires cut <= |b|
    ensures var e := LastBoundary(b, cut);
            Close(b[..cut]) == if e == 0 then None else Some(b[..e])
  {
    CutAgrees(b, cut, cut);
    var e := LastBoundary(b, cut);
    assert b[..cut][..e] == b[..e];
  }

  lemma {:induction false} ClosedTwice(b: Bytes, e: nat)
    requires e <= |b| && Boundary(b, e)
    ensures Close(b[..e]) == Some(b[..e])
  {
    ClosedCut(b, e);
  }

  /** Closing a cut keeps exactly the records of the full text that end inside
  it, byte for byte and nothing else; it refuses when there is none; and closing
  again changes nothing. */
  lemma {:induction false} ClosedCutRecords(b: Bytes, cut: nat)
    requires cut <= |b|
    ensures Records(b, cut) <= Records(b, |b|)
    ensures Close(b[..cut]).None? <==> Records(b, cut) == []
    ensures Close(b[..cut]).Some? ==>
              var p := Close(b[..cut]).value;
              p <= b && Records(p, |p|) == Records(b, cut) && Flat(Records(p, |p|)) == p && Close(p) == Some(p)
  {
    var e := LastBoundary(b, cut);
    ClosedCut(b, cut);
    RecordsUpToLast(b, cut);
    RecordsGrow(b, cut, |b|);
    if e > 0 {
      LastIsBoundary(b, cut);
      ClosedTwice(b, e);
      CutAgrees(b, e, e);
      RecordsCover(b, cut);
    }
  }
}
