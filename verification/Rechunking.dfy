/** Decoded frames cut into output batches: the batches depend on the rows and the
batch size, not on how the decoder happened to frame them. */
module Rechunking {
  import opened Options
  import opened Arithmetic
  import opened Concatenation

  /** Rows cut into pieces of the batch size, the last of them shorter. */
  function Cut<T>(rows: seq<T>, size: nat): (batches: seq<seq<T>>)
    requires size > 0
    decreases |rows|
  {
    if rows == [] then [] else [rows[..Min(size, |rows|)]] + Cut(rows[Min(size, |rows|)..], size)
  }

  /** Cutting loses nothing; every piece but the last is full and none is empty. */
  lemma {:induction false} CutShape<T>(rows: seq<T>, size: nat)
    requires size > 0
    ensures Flat(Cut(rows, size)) == rows
    ensures forall i | 0 <= i < |Cut(rows, size)| ::
              0 < |Cut(rows, size)[i]| <= size && (i + 1 < |Cut(rows, size)| ==> |Cut(rows, size)[i]| == size)
    decreases |rows|
  {
    if rows != [] {
      var n := Min(size, |rows|);
      CutShape(rows[n..], size);
      FlatFront(rows[..n], Cut(rows[n..], size));
      assert rows[..n] + rows[n..] == rows;
      if n < size {
        assert rows[n..] == [];
      }
    }
  }

  datatype Envelope<T> = Envelope(sequence: nat, rows: seq<T>)

  /** Pieces numbered from a sequence number on. */
  function Numbered<T>(batches: seq<seq<T>>, from: nat): (r: seq<Envelope<T>>) {
    seq(|batches|, i requires 0 <= i < |batches| => Envelope(from + i, batches[i]))
  }

  /** How many of the rows to come may still be emitted, and which. */
  function Allowed(count: nat, quota: Option<nat>): (n: nat)
    ensures n <= count
  {
    if quota.None? then count else Min(quota.value, count)
  }

  function Visible<T>(rows: seq<T>, quota: Option<nat>): (r: seq<T>) {
    rows[..Allowed(|rows|, quota)]
  }

  /** A source of decoded frames. Each fill moves some of the frames to come into
  the pending queue; only an exhausted source fills nothing. */
  class PreparedReader<T> {
    const batchSize: nat
    const maxRows: Option<nat>
    var upcoming: seq<seq<T>>
    var pending: seq<seq<T>>
    var rowsEmitted: nat
    var sequence: nat

    ghost predicate Valid()
      reads `rowsEmitted
    {
      maxRows.Some? ==> rowsEmitted <= maxRows.value
    }

    /** The decoded rows not handed out yet. */
    ghost function Left(): (rows: seq<T>)
      reads `pending, `upcoming
    {
      Flat(pending + upcoming)
    }

    ghost function Quota(): (q: Option<nat>)
      requires Valid()
      reads `rowsEmitted
    {
      if maxRows.None? then None else Some(maxRows.value - rowsEmitted)
    }

    /** How many rows the next batch takes. */
    ghost function NextCount(): (n: nat)
      requires Valid()
      reads `rowsEmitted, `pending, `upcoming
    {
      Min(batchSize, Allowed(|Left()|, Quota()))
    }

    constructor (frames: seq<seq<T>>, batchSize: nat, maxRows: Option<nat>)
      ensures Valid() && Left() == Flat(frames) && Quota() == maxRows && sequence == 0 && rowsEmitted == 0
      ensures this.batchSize == batchSize && this.maxRows == maxRows
    {
      this.upcoming, this.batchSize, this.maxRows := frames, batchSize, maxRows;
      pending, rowsEmitted, sequence := [], 0, 0;
      new;
      assert pending + upcoming == frames;
    }

    method FillPending()
      modifies `pending, `upcoming
      ensures pending + upcoming == old(pending + upcoming)
      ensures pending == [] ==> upcoming == []
    {
      if upcoming != [] {
        var k: nat :| 1 <= k <= |upcoming|;
        assert pending + upcoming == pending + upcoming[..k] + upcoming[k..];
        pending, upcoming := pending + upcoming[..k], upcoming[k..];
      }
    }

    /** Takes the next frame, or as much of it as is wanted; the rest goes back. */
    method TakeFrame(wanted: nat) returns (frame: Option<seq<T>>)
      requires wanted > 0
      modifies `pending, `upcoming
      ensures frame.None? ==> old(Left()) == [] == Left()
      ensures frame.Some? ==> frame.value + Left() == old(Left()) && |frame.value| <= wanted
      ensures |pending + upcoming| <= |old(pending + upcoming)|
      ensures frame.Some? && |frame.value| < wanted ==> |pending + upcoming| < |old(pending + upcoming)|
    {
      if pending == [] {
        FillPending();
      }
      if pending == [] {
        return None;
      }
      var first, rest := pending[0], pending[1..];
      ghost var after := rest + upcoming;
      assert pending + upcoming == [first] + after;
      FlatFront(first, after);
      if wanted < |first| {
        pending := [first[wanted..]] + rest;
        assert pending + upcoming == [first[wanted..]] + after;
        FlatFront(first[wanted..], after);
        SplitFront(first, wanted, Flat(after));
        return Some(first[..wanted]);
      }
      pending := rest;
      return Some(first);
    }

    /** Collects rows until the target is reached or the source ends. */
    method NextOutputFrame() returns (r: Option<seq<T>>)
      requires Valid()
      modifies `pending, `upcoming
      ensures r.None? <==> old(NextCount()) == 0
      ensures r.Some? ==> r.value == old(Left())[..old(NextCount())]
      ensures Left() == old(Left())[old(NextCount())..]
    {
      var target := if maxRows.None? then batchSize else Min(batchSize, maxRows.value - rowsEmitted);
      if target == 0 {
        return None;
      }
      var output: seq<T> := [];
      while |output| < target
        invariant |output| <= target && output + Left() == old(Left())
        decreases |pending + upcoming|, target - |output|
      {
        var frame := TakeFrame(target - |output|);
        if frame.None? {
          break;
        }
        Reassociate(output, frame.value, Left());
        output := output + frame.value;
      }
      TakenAll(old(Left()), output, Left(), target);
      return if output == [] then None else Some(output);
    }

    /** The next numbered batch, and the rows it takes. */
    method NextEnvelope() returns (r: Option<Envelope<T>>)
      requires Valid()
      modifies this
      ensures Valid()
      ensures r.None? <==> old(NextCount()) == 0
      ensures r.Some? ==>
                r.value == Envelope(old(sequence), old(Left())[..old(NextCount())]) && sequence == old(sequence) + 1
      ensures Left() == old(Left())[old(NextCount())..] && rowsEmitted == old(rowsEmitted) + old(NextCount())
    {
      var frame := NextOutputFrame();
      if frame.None? {
        return None;
      }
      r := Some(Envelope(sequence, frame.value));
      sequence := sequence + 1;
      rowsEmitted := rowsEmitted + |frame.value|;
    }
  }

  /** Cutting what is visible, one batch at a time. */
  lemma {:induction false} CutStep<T>(rows: seq<T>, quota: Option<nat>, size: nat)
    requires size > 0
    ensures var n := Min(size, Allowed(|rows|, quota));
            var less := if quota.None? then None else Some(quota.value - n);
            Cut(Visible(rows, quota), size) ==
            if n == 0 then [] else [rows[..n]] + Cut(Visible(rows[n..], less), size)
  {
    var seen := Visible(rows, quota);
    var n := Min(size, |seen|);
    if n > 0 {
      assert seen[..n] == rows[..n];
      assert seen[n..] == Visible(rows[n..], if quota.None? then None else Some(quota.value - n));
    }
  }

  lemma {:induction false} NumberedMore<T>(a: seq<seq<T>>, b: seq<T>)
    ensures Numbered(a + [b], 0) == Numbered(a, 0) + [Envelope(|a|, b)]
  {
  }

  /** The batches so far and those still to be cut make up the whole. */
  predicate CutSoFar<T(==)>(all: seq<seq<T>>, batches: seq<seq<T>>, rows: seq<T>, quota: Option<nat>, size: nat)
    requires size > 0
  {
    all == batches + Cut(Visible(rows, quota), size)
  }

  lemma {:induction false} CutFurther<T>(all: seq<seq<T>>, batches: seq<seq<T>>, rows: seq<T>, quota: Option<nat>,
                                         size: nat, n: nat)
    requires size > 0 && n == Min(size, Allowed(|rows|, quota)) && CutSoFar(all, batches, rows, quota, size)
    ensures n == 0 ==> all == batches
    ensures var less := if quota.None? then None else Some(quota.value - n);
            n > 0 ==> CutSoFar(all, batches + [rows[..n]], rows[n..], less, size)
  {
    CutStep(rows, quota, size);
    if n > 0 {
      var rest := Cut(Visible(rows[n..], if quota.None? then None else Some(quota.value - n)), size);
      assert batches + ([rows[..n]] + rest) == batches + [rows[..n]] + rest;
    }
  }

  /** The envelopes of a whole read are the visible rows cut to size and numbered
  from 0, whatever the frames were. (With a batch size of 0 the first call already
  returns nothing.) */
  method ReadAll<T>(frames: seq<seq<T>>, batchSize: nat, maxRows: Option<nat>) returns (envelopes: seq<Envelope<T>>)
    requires batchSize > 0
    ensures envelopes == Numbered(Cut(Visible(Flat(frames), maxRows), batchSize), 0)
  {
    var reader := new PreparedReader(frames, batchSize, maxRows);
    envelopes := [];
    ghost var batches: seq<seq<T>> := [];
    ghost var all := Cut(Visible(Flat(frames), maxRows), batchSize);
    while true
      invariant reader.Valid() && fresh(reader) && reader.sequence == |batches| && envelopes == Numbered(batches, 0)
      invariant CutSoFar(all, batches, reader.Left(), reader.Quota(), batchSize)
      decreases |reader.Left()|
    {
      ghost var rows, n := reader.Left(), reader.NextCount();
      CutFurther(all, batches, rows, reader.Quota(), batchSize, n);
      var next := reader.NextEnvelope();
      if next.None? {
        return;
      }
      NumberedMore(batches, rows[..n]);
      batches := batches + [rows[..n]];
      envelopes := envelopes + [next.value];
    }
  }

  lemma {:induction false} Reassociate<T>(a: seq<T>, b: seq<T>, c: seq<T>)
    ensures a + (b + c) == a + b + c
  {
  }

  lemma {:induction false} TakenAll<T>(all: seq<T>, output: seq<T>, left: seq<T>, target: nat)
    requires output + left == all && |output| <= target && (|output| == target || left == [])
    ensures output == all[..Min(target, |all|)] && left == all[Min(target, |all|)..]
  {
  }

  lemma {:induction false} SplitFront<T>(f: seq<T>, n: nat, a: seq<T>)
    requires n <= |f|
    ensures f[..n] + (f[n..] + a) == f + a
  {
  }
}
