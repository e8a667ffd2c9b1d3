/** Pages over the partitions of an artifact: following the cursor from the start
visits every partition once, in order. */
module Paging {
  import opened Options

  /** A partition as listed, with the memory its decoded batch takes. */
  datatype Partition = Partition(sequence: nat, rows: nat, storedBytes: nat, batchBytes: nat)

  datatype Page = Page(batches: seq<Partition>, next: Option<nat>)

  /** The snapshot lists its partitions by strictly increasing sequence. */
  predicate Increasing(ps: seq<Partition>) {
    forall i, j | 0 <= i < j < |ps| :: ps[i].sequence < ps[j].sequence
  }

  predicate Passed(p: Partition, after: Option<nat>) {
    after.Some? && p.sequence <= after.value
  }

  predicate WithinBounds(p: Partition, maxRows: nat, maxBytes: nat) {
    p.rows <= maxRows && p.storedBytes <= maxBytes
  }

  /** The first partition from `i` on that the cursor has not passed. */
  function Due(ps: seq<Partition>, after: Option<nat>, i: nat): (lo: nat)
    requires i <= |ps|
    ensures i <= lo <= |ps|
    decreases |ps| - i
  {
    if i == |ps| || !Passed(ps[i], after) then i else Due(ps, after, i + 1)
  }

  /** Rows and memory of the partitions from `lo` up to `hi`. */
  function Rows(ps: seq<Partition>, lo: nat, hi: nat): (n: nat)
    requires lo <= hi <= |ps|
    decreases hi
  {
    if lo == hi then 0 else Rows(ps, lo, hi - 1) + ps[hi - 1].rows
  }

  function BatchBytes(ps: seq<Partition>, lo: nat, hi: nat): (n: nat)
    requires lo <= hi <= |ps|
    decreases hi
  {
    if lo == hi then 0 else BatchBytes(ps, lo, hi - 1) + ps[hi - 1].batchBytes
  }

  /** The partition at `hi` does not fit behind those from `lo` on. */
  predicate Overflows(ps: seq<Partition>, lo: nat, hi: nat, maxRows: nat, maxBytes: nat)
    requires lo <= hi < |ps|
  {
    || Rows(ps, lo, hi) + ps[hi].rows > maxRows
    || BatchBytes(ps, lo, hi) + ps[hi].storedBytes > maxBytes
  }

  /** Where a page that starts at `lo` ends when it has taken everything up to `i`. */
  function PageEnd(ps: seq<Partition>, lo: nat, i: nat, maxRows: nat, maxBytes: nat): (hi: nat)
    requires lo <= i <= |ps|
    ensures i <= hi <= |ps|
    decreases |ps| - i
  {
    if i == |ps| || !WithinBounds(ps[i], maxRows, maxBytes) || Overflows(ps, lo, i, maxRows, maxBytes) then i
    else PageEnd(ps, lo, i + 1, maxRows, maxBytes)
  }

  /** The page of the partitions from `lo` up to `hi`, with the cursor to go on from
  unless they are the last. */
  function PageOf(ps: seq<Partition>, lo: nat, hi: nat): (page: Page)
    requires lo <= hi <= |ps|
  {
    Page(ps[lo..hi], if lo < hi < |ps| then Some(ps[hi - 1].sequence) else None)
  }

  /** A page takes at least one partition if the first one due fits by itself, never
  more rows than asked for, and stops only where the next one would not fit. */
  lemma {:induction false} PageTakes(ps: seq<Partition>, lo: nat, i: nat, maxRows: nat, maxBytes: nat)
    requires lo <= i <= |ps| && Rows(ps, lo, i) <= maxRows
    ensures var hi := PageEnd(ps, lo, i, maxRows, maxBytes);
            && Rows(ps, lo, hi) <= maxRows
            && (i == lo < |ps| && WithinBounds(ps[lo], maxRows, maxBytes) ==> lo < hi)
            && (hi < |ps| ==> Overflows(ps, lo, hi, maxRows, maxBytes))
    decreases |ps| - i
  {
    if i < |ps| && WithinBounds(ps[i], maxRows, maxBytes) && !Overflows(ps, lo, i, maxRows, maxBytes) {
      PageTakes(ps, lo, i + 1, maxRows, maxBytes);
    }
  }

  method SkipPassed(ps: seq<Partition>, after: Option<nat>) returns (lo: nat)
    ensures lo == Due(ps, after, 0)
  {
    lo := 0;
    while lo < |ps| && Passed(ps[lo], after)
      invariant lo <= |ps| && Due(ps, after, 0) == Due(ps, after, lo)
    {
      lo := lo + 1;
    }
  }

  /** The partition loop, from the first one due: how far it gets, and the cursor
  it leaves. */
  method TakePartitions(ps: seq<Partition>, from: nat, maxRows: nat, maxBytes: nat)
    returns (batches: seq<Partition>, next: Option<nat>)
    requires from <= |ps|
    ensures Page(batches, next) == PageOf(ps, from, PageEnd(ps, from, from, maxRows, maxBytes))
  {
    batches, next := [], None;
    var rows, bytes := 0, 0;
    ghost var hi := PageEnd(ps, from, from, maxRows, maxBytes);
    for i := from to |ps|
      invariant Page(batches, next) == PageOf(ps, from, i) && PageEnd(ps, from, i, maxRows, maxBytes) == hi
      invariant rows == Rows(ps, from, i) && bytes == BatchBytes(ps, from, i)
    {
      if ps[i].rows > maxRows || ps[i].storedBytes > maxBytes {
        return;
      }
      if rows + ps[i].rows > maxRows || bytes + ps[i].storedBytes > maxBytes {
        return;
      }
      rows, bytes := rows + ps[i].rows, bytes + ps[i].batchBytes;
      batches := batches + [ps[i]];
      next := if i + 1 < |ps| then Some(ps[i].sequence) else None;
    }
  }

  /** One page; none when the first partition due exceeds the bounds by itself. */
  method ReadPage(ps: seq<Partition>, after: Option<nat>, maxRows: nat, maxBytes: nat)
    returns (r: Option<Page>)
    requires Increasing(ps)
    ensures r.None? <==> Due(ps, after, 0) < |ps| && !WithinBounds(ps[Due(ps, after, 0)], maxRows, maxBytes)
    ensures r.Some? ==>
              var lo := Due(ps, after, 0);
              r.value == PageOf(ps, lo, PageEnd(ps, lo, lo, maxRows, maxBytes))
  {
    var from := SkipPassed(ps, after);
    var batches, next := TakePartitions(ps, from, maxRows, maxBytes);
    if from < |ps| && !WithinBounds(ps[from], maxRows, maxBytes) {
      return None;
    }
    return Some(Page(batches, next));
  }

  /** The cursor of a page starts the next one right behind it. */
  lemma {:induction false} CursorStarts(ps: seq<Partition>, hi: nat, i: nat)
    requires Increasing(ps) && i <= hi && 0 < hi <= |ps|
    ensures Due(ps, Some(ps[hi - 1].sequence), i) == hi
    decreases hi - i
  {
    if i < hi {
      assert Passed(ps[i], Some(ps[hi - 1].sequence));
      CursorStarts(ps, hi, i + 1);
    }
  }

  /** Following the cursor until there is none visits every partition exactly once
  and in order, and ends after at most one page more than there are partitions. */
  method FollowPages(ps: seq<Partition>, maxRows: nat, maxBytes: nat)
    returns (visited: seq<Partition>, pages: nat)
    requires Increasing(ps) && forall i | 0 <= i < |ps| :: WithinBounds(ps[i], maxRows, maxBytes)
    ensures visited == ps
    ensures 0 < pages <= |ps| + 1
  {
    visited, pages := [], 0;
    var after: Option<nat> := None;
    ghost var at := 0;
    while true
      invariant at <= |ps| && visited == ps[..at] && Due(ps, after, 0) == at && pages <= at
      invariant pages > 0 ==> at < |ps|
      decreases |ps| - at
    {
      var page := ReadPage(ps, after, maxRows, maxBytes);
      ghost var hi := PageEnd(ps, at, at, maxRows, maxBytes);
      PageTakes(ps, at, at, maxRows, maxBytes);
      visited, pages, at := visited + page.value.batches, pages + 1, hi;
      if page.value.next.None? {
        return;
      }
      after := page.value.next;
      CursorStarts(ps, hi, 0);
    }
  }

  // ------------------------------------------------------------- decoded bytes

  /** The decoded batches of the page after a cursor fit the byte bound. */
  predicate DecodedFits(ps: seq<Partition>, after: Option<nat>, maxRows: nat, maxBytes: nat) {
    var lo := Due(ps, after, 0);
    BatchBytes(ps, lo, PageEnd(ps, lo, lo, maxRows, maxBytes)) <= maxBytes
  }

  lemma {:induction false} PageKeepsBytes(ps: seq<Partition>, lo: nat, i: nat, maxRows: nat, maxBytes: nat)
    requires lo <= i <= |ps| && BatchBytes(ps, lo, i) <= maxBytes
    requires forall k | 0 <= k < |ps| :: ps[k].batchBytes <= ps[k].storedBytes
    ensures BatchBytes(ps, lo, PageEnd(ps, lo, i, maxRows, maxBytes)) <= maxBytes
    decreases |ps| - i
  {
    if i < |ps| && WithinBounds(ps[i], maxRows, maxBytes) && !Overflows(ps, lo, i, maxRows, maxBytes) {
      PageKeepsBytes(ps, lo, i + 1, maxRows, maxBytes);
    }
  }

  lemma {:induction false} PageOnlyGrows(ps: seq<Partition>, lo: nat, i: nat, maxRows: nat, maxBytes: nat)
    requires lo <= i <= |ps|
    ensures BatchBytes(ps, lo, PageEnd(ps, lo, i, maxRows, maxBytes)) >= BatchBytes(ps, lo, i)
    decreases |ps| - i
  {
    if i < |ps| && WithinBounds(ps[i], maxRows, maxBytes) && !Overflows(ps, lo, i, maxRows, maxBytes) {
      PageOnlyGrows(ps, lo, i + 1, maxRows, maxBytes);
    }
  }

  /** A partition that decodes to more than its stored size breaks a byte bound of
  exactly that size. */
  lemma {:induction false} LargeBatchExceeds(ps: seq<Partition>, i: nat)
    requires Increasing(ps) && i < |ps| && ps[i].batchBytes > ps[i].storedBytes
    ensures var after := if i == 0 then None else Some(ps[i - 1].sequence);
            !DecodedFits(ps, after, ps[i].rows, ps[i].storedBytes)
  {
    var after := if i == 0 then None else Some(ps[i - 1].sequence);
    assert Due(ps, after, 0) == i by {
      if i > 0 { CursorStarts(ps, i, 0); }
    }
    assert !Overflows(ps, i, i, ps[i].rows, ps[i].storedBytes);
    PageOnlyGrows(ps, i, i + 1, ps[i].rows, ps[i].storedBytes);
    assert BatchBytes(ps, i, i + 1) == BatchBytes(ps, i, i) + ps[i].batchBytes;
  }

  /** The loop compares stored sizes while it adds decoded ones. So pages keep the
  byte bound on decoded data, for every cursor and all bounds, if and only if no
  partition decodes to more than its stored size. */
  lemma {:induction false} DecodedFitsExactly(ps: seq<Partition>)
    requires Increasing(ps)
    ensures (forall after, maxRows, maxBytes :: DecodedFits(ps, after, maxRows, maxBytes))
       <==> forall i | 0 <= i < |ps| :: ps[i].batchBytes <= ps[i].storedBytes
  {
    if forall i | 0 <= i < |ps| :: ps[i].batchBytes <= ps[i].storedBytes {
      forall after, maxRows, maxBytes ensures DecodedFits(ps, after, maxRows, maxBytes) {
        PageKeepsBytes(ps, Due(ps, after, 0), Due(ps, after, 0), maxRows, maxBytes);
      }
    } else {
      var i :| 0 <= i < |ps| && ps[i].batchBytes > ps[i].storedBytes;
      LargeBatchExceeds(ps, i);
    }
  }
}
