/** Bounded previews: the first rows of a source within a row and a byte limit. */
module Preview {
  import opened Options
  import opened Arithmetic
  import opened Concatenation
  import opened Rechunking

  const PREVIEW_BATCH_ROWS: nat := 1_024

  /** Memory size of a batch, as a function of its rows. */
  type Size<!T> = seq<T> -> nat

  /** More rows never take less memory. */
  ghost predicate Monotone<T(!new)>(size: Size<T>) {
    forall rows: seq<T>, n: nat | n <= |rows| :: size(rows[..n]) <= size(rows)
  }

  /** The midpoint, rounded up. */
  function Middle(low: nat, high: nat): (middle: nat)
    requires low < high
    ensures low < middle <= high
  {
    low + (high - low + 1) / 2
  }

  /** Where the binary search between two prefix lengths ends. */
  function Bisect(fits: nat -> bool, low: nat, high: nat): (fit: nat)
    requires low <= high
    ensures low <= fit <= high
    decreases high - low
  {
    if low == high then low
    else if fits(Middle(low, high)) then Bisect(fits, Middle(low, high), high)
    else Bisect(fits, low, Middle(low, high) - 1)
  }

  /** It ends where one more row would not fit. */
  lemma {:induction false} BisectEnds(fits: nat -> bool, low: nat, high: nat, bound: nat)
    requires low <= high <= bound
    requires low > 0 ==> fits(low)
    requires high < bound ==> !fits(high + 1)
    ensures var fit := Bisect(fits, low, high);
            (fit > 0 ==> fits(fit)) && (fit < bound ==> !fits(fit + 1))
    decreases high - low
  {
    if low < high {
      if fits(Middle(low, high)) {
        BisectEnds(fits, Middle(low, high), high, bound);
      } else {
        BisectEnds(fits, low, Middle(low, high) - 1, bound);
      }
    }
  }

  /** Whether the first `n` rows fit. */
  function FitsIn<T>(size: Size<T>, rows: seq<T>, limit: nat): nat -> bool {
    (n: nat) => n <= |rows| && size(rows[..n]) <= limit
  }

  /** How many of the rows are kept under a byte limit. */
  function Fit<T>(size: Size<T>, rows: seq<T>, limit: nat): (fit: nat)
    ensures fit <= |rows|
  {
    if size(rows) <= limit then |rows| else Bisect(FitsIn(size, rows, limit), 0, |rows|)
  }

  lemma {:induction false} FitEnds<T>(size: Size<T>, rows: seq<T>, limit: nat)
    ensures Fit(size, rows, limit) > 0 ==> size(rows[..Fit(size, rows, limit)]) <= limit
    ensures Fit(size, rows, limit) < |rows| ==> size(rows[..Fit(size, rows, limit) + 1]) > limit
  {
    assert rows[..|rows|] == rows;
    if size(rows) > limit {
      BisectEnds(FitsIn(size, rows, limit), 0, |rows|, |rows|);
    }
  }

  /** When sizes are monotone that is the largest prefix that fits. */
  lemma {:induction false} FitIsLargest<T(!new)>(size: Size<T>, rows: seq<T>, limit: nat, n: nat)
    requires Monotone(size) && Fit(size, rows, limit) < n <= |rows|
    ensures size(rows[..n]) > limit
  {
    var fit := Fit(size, rows, limit);
    FitEnds(size, rows, limit);
    assert rows[..n][..fit + 1] == rows[..fit + 1];
  }

  /** The binary search of the source. */
  method LargestFittingPrefix<T>(size: Size<T>, rows: seq<T>, limit: nat) returns (fit: nat)
    ensures fit == Fit(size, rows, limit)
    ensures fit > 0 ==> size(rows[..fit]) <= limit
    ensures fit < |rows| ==> size(rows[..fit + 1]) > limit
  {
    FitEnds(size, rows, limit);
    if size(rows) <= limit {
      return |rows|;
    }
    ghost var fits := FitsIn(size, rows, limit);
    var low, high := 0, |rows|;
    while low < high
      invariant 0 <= low <= high <= |rows|
      invariant Bisect(fits, low, high) == Bisect(fits, 0, |rows|)
    {
      var middle := Middle(low, high);
      if size(rows[..middle]) <= limit {
        low := middle;
      } else {
        high := middle - 1;
      }
    }
    return low;
  }

  datatype Data<T> = Data(
    batches: seq<Envelope<T>>,
    rowsReturned: nat,
    rowsTruncated: bool,
    bytesReturned: nat,
    bytesTruncated: bool)

  function RowsOf<T>(batches: seq<Envelope<T>>): (rows: seq<T>) {
    if batches == [] then [] else RowsOf(batches[..|batches| - 1]) + batches[|batches| - 1].rows
  }

  function BytesOf<T>(size: Size<T>, batches: seq<Envelope<T>>): (n: nat) {
    if batches == [] then 0 else BytesOf(size, batches[..|batches| - 1]) + size(batches[|batches| - 1].rows)
  }

  lemma {:induction false} MoreBatches<T>(size: Size<T>, batches: seq<Envelope<T>>, e: Envelope<T>)
    ensures RowsOf(batches + [e]) == RowsOf(batches) + e.rows
    ensures BytesOf(size, batches + [e]) == BytesOf(size, batches) + size(e.rows)
  {
  }

  /** How many rows of a batch are kept under a byte limit. */
  type Keep<!T> = (seq<T>, nat) -> nat

  /** The row at which a preview of these rows stops, when it has got to a batch that
  starts at `at` with so many bytes to go. */
  function Stop<T>(keep: Keep<T>, size: Size<T>, rows: seq<T>, at: nat, room: nat): (k: nat)
    requires at <= |rows|
    decreases |rows| - at
  {
    var n := Min(PREVIEW_BATCH_ROWS, |rows| - at);
    var part := rows[at..at + n];
    if n == 0 then at
    else if keep(part, room) < n then at + keep(part, room)
    else Stop(keep, size, rows, at + n, if size(part) <= room then room - size(part) else 0)
  }

  /** The rows asked for. */
  function Wanted<T>(source: seq<T>, rowLimit: nat): (rows: seq<T>) {
    source[..Min(rowLimit, |source|)]
  }

  /** A preview that has read so far is heading for row `stop`, or has stopped there
  at a row that could be returned by itself. */
  predicate Heading<T>(keep: Keep<T>, size: Size<T>, wanted: seq<T>, read: nat, byteLimit: nat, closed: bool,
                       returned: nat, bytes: nat, stop: nat)
  {
    if closed then returned == stop < |wanted| && size([wanted[stop]]) <= byteLimit
    else bytes <= byteLimit && Stop(keep, size, wanted, Min(read, |wanted|), byteLimit - bytes) == stop
  }

  /** What one batch, from row `read` on, decides. */
  lemma {:induction false} HeadingOn<T>(keep: Keep<T>, size: Size<T>, wanted: seq<T>, read: nat, byteLimit: nat,
                                        bytes: nat, stop: nat, part: seq<T>, more: nat)
    requires read < |wanted| && bytes <= byteLimit
    requires |part| == Min(PREVIEW_BATCH_ROWS, |wanted| - read) && part == wanted[read..read + |part|]
    requires Heading(keep, size, wanted, read, byteLimit, false, read, bytes, stop)
    requires |part| <= more && (|part| < more ==> read + |part| == |wanted|)
    ensures keep(part, byteLimit - bytes) < |part| ==>
              var k := keep(part, byteLimit - bytes);
              stop == read + k < |wanted| && wanted[stop] == part[k]
    ensures keep(part, byteLimit - bytes) >= |part| && size(part) <= byteLimit - bytes ==>
              Heading(keep, size, wanted, read + more, byteLimit, false, read + |part|, bytes + size(part), stop)
  {
  }

  /** Batches number their output from 0. */
  predicate InSequence<T>(batches: seq<Envelope<T>>) {
    forall i | 0 <= i < |batches| :: batches[i].sequence == i && batches[i].rows != []
  }

  /** The batch that started at row `s` could not take one more row. */
  predicate CrampedAt<T>(size: Size<T>, rows: seq<T>, returned: nat, bytes: nat, byteLimit: nat, s: nat)
    requires s <= returned < |rows|
  {
    var last := if s < returned then size(rows[s..returned]) else 0;
    last <= bytes && bytes - last + size(rows[s..returned + 1]) > byteLimit
  }

  predicate Cramped<T>(size: Size<T>, rows: seq<T>, returned: nat, bytes: nat, byteLimit: nat)
    requires returned < |rows|
  {
    exists s | 0 <= s <= returned :: CrampedAt(size, rows, returned, bytes, byteLimit, s)
  }

  /** What has been returned: a run of the first rows, all of them unless the byte
  limit closed the preview. */
  ghost predicate Returned<T>(size: Size<T>, rows: seq<T>, read: nat, rowLimit: nat, byteLimit: nat, closed: bool,
                              batches: seq<Envelope<T>>, returned: nat, bytes: nat)
    requires read <= |rows|
  {
    && returned <= Min(read, rowLimit) && RowsOf(batches) == rows[..returned] && InSequence(batches)
    && bytes == BytesOf(size, batches) <= byteLimit
    && (closed <==> returned < Min(read, rowLimit))
    && (closed ==> Cramped(size, rows, returned, bytes, byteLimit))
  }

  lemma {:induction false} ReturnedMore<T>(size: Size<T>, rows: seq<T>, read: nat, more: nat, rowLimit: nat,
                                           byteLimit: nat, batches: seq<Envelope<T>>, bytes: nat, fit: nat)
    requires read + more <= |rows| && read < rowLimit && 0 < fit <= Min(rowLimit - read, more)
    requires Returned(size, rows, read, rowLimit, byteLimit, false, batches, read, bytes)
    requires size(rows[read..read + fit]) <= byteLimit - bytes
    requires fit < Min(rowLimit - read, more) ==> size(rows[read..read + fit + 1]) > byteLimit - bytes
    ensures Returned(size, rows, read + more, rowLimit, byteLimit, fit < Min(rowLimit - read, more),
                     batches + [Envelope(|batches|, rows[read..read + fit])], read + fit,
                     bytes + size(rows[read..read + fit]))
  {
    MoreBatches(size, batches, Envelope(|batches|, rows[read..read + fit]));
    assert rows[..read] + rows[read..read + fit] == rows[..read + fit];
    if fit < Min(rowLimit - read, more) {
      assert CrampedAt(size, rows, read + fit, bytes + size(rows[read..read + fit]), byteLimit, read);
    }
  }

  /** Not even one row of a batch fits. */
  lemma {:induction false} ReturnedNoMore<T>(size: Size<T>, rows: seq<T>, read: nat, more: nat, rowLimit: nat,
                                             byteLimit: nat, batches: seq<Envelope<T>>, bytes: nat)
    requires read + more <= |rows| && read < rowLimit && more > 0
    requires Returned(size, rows, read, rowLimit, byteLimit, false, batches, read, bytes)
    requires size(rows[read..read + 1]) > byteLimit - bytes
    ensures Returned(size, rows, read + more, rowLimit, byteLimit, true, batches, read, bytes)
  {
    assert CrampedAt(size, rows, read, bytes, byteLimit, read);
  }

  /** Nothing is returned from a batch that comes after the limits. */
  lemma {:induction false} ReturnedPast<T>(size: Size<T>, rows: seq<T>, read: nat, more: nat, rowLimit: nat,
                                           byteLimit: nat, closed: bool, batches: seq<Envelope<T>>, returned: nat,
                                           bytes: nat)
    requires read + more <= |rows| && (closed || read >= rowLimit)
    requires Returned(size, rows, read, rowLimit, byteLimit, closed, batches, returned, bytes)
    ensures Returned(size, rows, read + more, rowLimit, byteLimit, closed, batches, returned, bytes)
  {
  }

  /** What is kept of a batch is what the search finds. */
  ghost predicate Searches<T(!new)>(keep: Keep<T>, size: Size<T>) {
    forall rows: seq<T>, limit: nat {:trigger Fit(size, rows, limit)} :: keep(rows, limit) == Fit(size, rows, limit)
  }

  /** How far one batch gets: the rows that fit, or a single row that never can. */
  method FitBatch<T(!new)>(ghost keep: Keep<T>, size: Size<T>, candidate: seq<T>, byteLimit: nat, bytes: nat)
    returns (ok: bool, fit: nat)
    requires bytes <= byteLimit && Searches(keep, size)
    ensures fit == keep(candidate, byteLimit - bytes) <= |candidate|
    ensures fit > 0 ==> size(candidate[..fit]) <= byteLimit - bytes
    ensures fit < |candidate| ==> size(candidate[..fit + 1]) > byteLimit - bytes
    ensures ok <==> fit < |candidate| ==> size([candidate[fit]]) <= byteLimit
  {
    fit := LargestFittingPrefix(size, candidate, byteLimit - bytes);
    ok := true;
    if fit < |candidate| {
      var single := [candidate[fit]];
      ok := size(single) <= byteLimit;
    }
  }

  /** What a preview promises of a source. */
  ghost predicate Previews<T>(size: Size<T>, source: seq<T>, rowLimit: nat, byteLimit: nat, d: Data<T>) {
    && d.rowsReturned <= |source| && RowsOf(d.batches) == source[..d.rowsReturned] && InSequence(d.batches)
    && d.rowsReturned <= rowLimit && d.bytesReturned == BytesOf(size, d.batches) <= byteLimit
    && (d.rowsTruncated <==> |source| > rowLimit)
    && (d.bytesTruncated <==> d.rowsReturned < Min(rowLimit, |source|))
    && (d.bytesTruncated ==> Cramped(size, source, d.rowsReturned, d.bytesReturned, byteLimit))
  }

  /** The state of a preview: what has been returned, and where it is heading. */
  ghost predicate Going<T>(keep: Keep<T>, size: Size<T>, source: seq<T>, wanted: seq<T>, read: nat, rowLimit: nat,
                           byteLimit: nat, closed: bool, batches: seq<Envelope<T>>, returned: nat, bytes: nat,
                           stop: nat)
    requires read <= |source|
  {
    && Returned(size, source, read, rowLimit, byteLimit, closed, batches, returned, bytes)
    && Heading(keep, size, wanted, read, byteLimit, closed, returned, bytes, stop)
  }

  lemma {:induction false} GoingAtStart<T>(keep: Keep<T>, size: Size<T>, source: seq<T>, rowLimit: nat, byteLimit: nat)
    ensures var wanted := Wanted(source, rowLimit);
            Going(keep, size, source, wanted, 0, rowLimit, byteLimit, false, [], 0, 0,
                  Stop(keep, size, wanted, 0, byteLimit))
  {
  }

  /** A batch past the limits changes nothing. */
  lemma {:induction false} GoingPast<T>(keep: Keep<T>, size: Size<T>, source: seq<T>, wanted: seq<T>, read: nat,
                                        more: nat, rowLimit: nat, byteLimit: nat, closed: bool,
                                        batches: seq<Envelope<T>>, returned: nat, bytes: nat, stop: nat)
    requires read + more <= |source| && wanted == Wanted(source, rowLimit) && (closed || read >= |wanted|)
    requires Going(keep, size, source, wanted, read, rowLimit, byteLimit, closed, batches, returned, bytes, stop)
    requires !closed ==> read >= rowLimit
    ensures Going(keep, size, source, wanted, read + more, rowLimit, byteLimit, closed, batches, returned, bytes, stop)
  {
    ReturnedPast(size, source, read, more, rowLimit, byteLimit, closed, batches, returned, bytes);
  }

  /** When everything has been read the promises hold and the stop was reached. */
  lemma {:induction false} GoingDone<T>(keep: Keep<T>, size: Size<T>, source: seq<T>, wanted: seq<T>, read: nat,
                                        rowLimit: nat, byteLimit: nat, closed: bool, batches: seq<Envelope<T>>,
                                        returned: nat, bytes: nat, stop: nat)
    requires read == Allowed(|source|, Some(rowLimit + 1)) && wanted == Wanted(source, rowLimit)
    requires Going(keep, size, source, wanted, read, rowLimit, byteLimit, closed, batches, returned, bytes, stop)
    ensures Previews(size, source, rowLimit, byteLimit, Data(batches, returned, read > rowLimit, bytes, closed))
    ensures returned == stop && (stop < |wanted| ==> size([wanted[stop]]) <= byteLimit)
  {
  }

  /** The reader's next batch, in a source of so many rows. */
  predicate BatchAt(total: nat, rowLimit: nat, read: nat, n: nat) {
    var allowed := Allowed(total, Some(rowLimit + 1));
    0 < n && read + n <= allowed && n == Min(PREVIEW_BATCH_ROWS, allowed - read)
  }

  /** The part of a batch of `more` rows that was asked for. */
  ghost predicate CandidateAt<T>(source: seq<T>, wanted: seq<T>, rowLimit: nat, read: nat, candidate: seq<T>,
                                 more: nat)
  {
    && read < |wanted| && read < rowLimit && read + more <= |source|
    && 0 < |candidate| == Min(rowLimit - read, more) == Min(PREVIEW_BATCH_ROWS, |wanted| - read)
    && candidate == source[read..read + |candidate|] == wanted[read..read + |candidate|]
    && (|candidate| < more ==> read + |candidate| == |wanted|)
  }

  lemma {:induction false} CandidateOf<T>(source: seq<T>, wanted: seq<T>, rowLimit: nat, read: nat, rows: seq<T>)
    requires BatchAt(|source|, rowLimit, read, |rows|) && rows == source[read..read + |rows|]
    requires wanted == Wanted(source, rowLimit) && read < rowLimit
    ensures CandidateAt(source, wanted, rowLimit, read, rows[..Min(rowLimit - read, |rows|)], |rows|)
  {
    var within := Min(rowLimit - read, |rows|);
    PrefixOf(source, read, rows, within);
    PrefixOfPrefix(source, |wanted|, read, within);
  }

  /** The part of a batch that was asked for; not `ok` when the row it stops at is too
  large on its own. `more` is the size of the batch. */
  method AddCandidate<T(!new)>(ghost keep: Keep<T>, size: Size<T>, ghost source: seq<T>, ghost wanted: seq<T>,
                               read: nat,
                               candidate: seq<T>, ghost more: nat, rowLimit: nat, byteLimit: nat,
                               batches0: seq<Envelope<T>>, returned0: nat, bytes0: nat, ghost stop: nat)
    returns (ok: bool, closed: bool, batches: seq<Envelope<T>>, returned: nat, bytes: nat)
    requires Searches(keep, size) && CandidateAt(source, wanted, rowLimit, read, candidate, more)
    requires Going(keep, size, source, wanted, read, rowLimit, byteLimit, false, batches0, returned0, bytes0, stop)
    ensures ok ==>
              Going(keep, size, source, wanted, read + more, rowLimit, byteLimit, closed, batches, returned, bytes,
                    stop)
    ensures !ok ==> stop < |wanted| && size([wanted[stop]]) > byteLimit
  {
    batches, bytes := batches0, bytes0;
    var fit;
    ok, fit := FitBatch(keep, size, candidate, byteLimit, bytes0);
    closed, returned := fit < |candidate|, returned0 + fit;
    HeadingOn(keep, size, wanted, read, byteLimit, bytes0, stop, candidate, more);
    if !ok {
      return;
    }
    if fit < |candidate| {
      PrefixOf(source, read, candidate, fit + 1);
    }
    if fit == 0 {
      ReturnedNoMore(size, source, read, more, rowLimit, byteLimit, batches, bytes);
    } else {
      var payload := if fit == |candidate| then candidate else candidate[..fit];
      PrefixOf(source, read, candidate, fit);
      assert candidate[..|candidate|] == candidate;
      ReturnedMore(size, source, read, more, rowLimit, byteLimit, batches, bytes, fit);
      batches := batches + [Envelope(|batches|, payload)];
      bytes := bytes + size(payload);
    }
  }

  /** One batch of the preview loop. */
  method AddBatch<T(!new)>(ghost keep: Keep<T>, size: Size<T>, ghost source: seq<T>, ghost wanted: seq<T>,
                           read: nat, rows: seq<T>, rowLimit: nat, byteLimit: nat,
                           closed0: bool, batches0: seq<Envelope<T>>, returned0: nat, bytes0: nat, ghost stop: nat)
    returns (ok: bool, closed: bool, batches: seq<Envelope<T>>, returned: nat, bytes: nat)
    requires Searches(keep, size) && wanted == Wanted(source, rowLimit)
    requires BatchAt(|source|, rowLimit, read, |rows|) && rows == source[read..read + |rows|]
    requires Going(keep, size, source, wanted, read, rowLimit, byteLimit, closed0, batches0, returned0, bytes0, stop)
    ensures ok ==>
              Going(keep, size, source, wanted, read + |rows|, rowLimit, byteLimit, closed, batches, returned,
                    bytes, stop)
    ensures !ok ==> stop < |wanted| && size([wanted[stop]]) > byteLimit
  {
    ok, closed, batches, returned, bytes := true, closed0, batches0, returned0, bytes0;
    var within := Min(if read < rowLimit then rowLimit - read else 0, |rows|);
    if closed || within == 0 {
      GoingPast(keep, size, source, wanted, read, |rows|, rowLimit, byteLimit, closed, batches, returned, bytes, stop);
      return;
    }
    var candidate := rows[..within];
    CandidateOf(source, wanted, rowLimit, read, rows);
    ok, closed, batches, returned, bytes :=
      AddCandidate(keep, size, source, wanted, read, candidate, |rows|, rowLimit, byteLimit, batches, returned,
                   bytes, stop);
  }

  /** A reader that looks one row past the limit and has handed out `read` rows. */
  ghost predicate ReaderAt<T>(reader: PreparedReader<T>, source: seq<T>, rowLimit: nat, read: nat)
    reads reader
  {
    && reader.Valid() && reader.batchSize == PREVIEW_BATCH_ROWS && reader.maxRows == Some(rowLimit + 1)
    && reader.rowsEmitted == read <= |source| && reader.Left() == source[read..]
  }

  method ReadBatch<T>(reader: PreparedReader<T>, ghost source: seq<T>, rowLimit: nat, ghost read: nat)
    returns (batch: Option<seq<T>>)
    requires ReaderAt(reader, source, rowLimit, read)
    modifies reader
    ensures batch.None? ==> read == Allowed(|source|, Some(rowLimit + 1))
    ensures batch.Some? ==>
              var rows := batch.value;
              && BatchAt(|source|, rowLimit, read, |rows|) && rows == source[read..read + |rows|]
              && ReaderAt(reader, source, rowLimit, read + |rows|)
  {
    SliceOf(source, read, reader.NextCount());
    var envelope := reader.NextEnvelope();
    if envelope.None? {
      return None;
    }
    return Some(envelope.value.rows);
  }

  /** The preview loop. */
  method PreviewLoop<T(!new)>(ghost keep: Keep<T>, size: Size<T>, reader: PreparedReader<T>, ghost source: seq<T>,
                              ghost wanted: seq<T>, rowLimit: nat, byteLimit: nat, ghost stop: nat)
    returns (r: Option<Data<T>>)
    requires Searches(keep, size) && ReaderAt(reader, source, rowLimit, 0) && wanted == Wanted(source, rowLimit)
    requires Going(keep, size, source, wanted, 0, rowLimit, byteLimit, false, [], 0, 0, stop)
    modifies reader
    ensures r.Some? ==> Previews(size, source, rowLimit, byteLimit, r.value)
    ensures r.None? ==> stop < |wanted| && size([wanted[stop]]) > byteLimit
    ensures r.Some? ==> r.value.rowsReturned == stop && (stop < |wanted| ==> size([wanted[stop]]) <= byteLimit)
  {
    var batches: seq<Envelope<T>> := [];
    var read: nat, returned: nat, bytes: nat := 0, 0, 0;
    var closed := false;
    while true
      invariant ReaderAt(reader, source, rowLimit, read)
      invariant Going(keep, size, source, wanted, read, rowLimit, byteLimit, closed, batches, returned, bytes, stop)
      decreases |source| - read
    {
      var batch := ReadBatch(reader, source, rowLimit, read);
      if batch.None? {
        GoingDone(keep, size, source, wanted, read, rowLimit, byteLimit, closed, batches, returned, bytes, stop);
        return Some(Data(batches, returned, read > rowLimit, bytes, closed));
      }
      var ok;
      ok, closed, batches, returned, bytes :=
        AddBatch(keep, size, source, wanted, read, batch.value, rowLimit, byteLimit, closed, batches, returned,
                 bytes, stop);
      if !ok {
        return None;
      }
      read := read + |batch.value|;
    }
  }

  function FitOf<T>(size: Size<T>): Keep<T> {
    (rows: seq<T>, limit: nat) => Fit(size, rows, limit)
  }

  /** The preview of a source. It refuses if and only if the row at which it stops is
  too large on its own, and otherwise returns exactly the rows before that one. */
  method PreviewAsset<T(!new)>(size: Size<T>, frames: seq<seq<T>>, rowLimit: nat, byteLimit: nat)
    returns (r: Option<Data<T>>)
    ensures r.Some? ==> Previews(size, Flat(frames), rowLimit, byteLimit, r.value)
    ensures var wanted := Wanted(Flat(frames), rowLimit);
            var stop := Stop(FitOf(size), size, wanted, 0, byteLimit);
            && (r.None? <==> stop < |wanted| && size([wanted[stop]]) > byteLimit)
            && (r.Some? ==> r.value.rowsReturned == stop)
  {
    var reader := new PreparedReader(frames, PREVIEW_BATCH_ROWS, Some(rowLimit + 1));
    ghost var source := Flat(frames);
    ghost var wanted := Wanted(source, rowLimit);
    GoingAtStart(FitOf(size), size, source, rowLimit, byteLimit);
    r := PreviewLoop(FitOf(size), size, reader, source, wanted, rowLimit, byteLimit,
                     Stop(FitOf(size), size, wanted, 0, byteLimit));
  }

  lemma {:induction false} SliceOf<T>(s: seq<T>, at: nat, n: nat)
    requires at + n <= |s|
    ensures s[at..][..n] == s[at..at + n] && s[at..][n..] == s[at + n..]
  {
  }

  lemma {:induction false} PrefixOf<T>(s: seq<T>, at: nat, part: seq<T>, n: nat)
    requires at + |part| <= |s| && part == s[at..at + |part|] && n <= |part|
    ensures part[..n] == s[at..at + n]
  {
  }

  lemma {:induction false} PrefixOfPrefix<T>(s: seq<T>, m: nat, at: nat, n: nat)
    requires at + n <= m <= |s|
    ensures s[..m][at..at + n] == s[at..at + n]
  {
  }
}
