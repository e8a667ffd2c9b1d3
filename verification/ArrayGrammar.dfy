/** The documents that stream: an exact grammar of the accepted arrays, in terms of
their bytes. */
module ArrayGrammar {
  import opened Options
  import opened ArrayFraming

  /** Space, tab, line feed, form feed, carriage return. */
  predicate Blank(b: Byte) {
    b in {0x20, 0x09, 0x0A, 0x0C, 0x0D}
  }

  predicate AllBlank(b: Bytes, i: nat, j: nat) {
    i <= j <= |b| && forall k | i <= k < j :: Blank(b[k])
  }

  /** At `t`, after blanks from `i` on, stands a closing bracket with nothing but blanks
  behind it. */
  predicate ClosesAt(b: Bytes, i: nat, t: nat) {
    AllBlank(b, i, t) && t < |b| && b[t] == 0x5D && AllBlank(b, t + 1, |b|)
  }

  predicate ClosesAfter(b: Bytes, i: nat) {
    exists t | 0 <= t < |b| :: ClosesAt(b, i, t)
  }

  /** At `t`, after blanks from `i` on, stands a comma. */
  predicate CommaAt(b: Bytes, i: nat, t: nat) {
    AllBlank(b, i, t) && t < |b| && b[t] == 0x2C
  }

  function EndOf(fs: Frames): (e: nat)
    requires fs.Frame?
  {
    fs.start + |fs.raw|
  }

  /** The first object stands at its place, reads, and has only blanks before it. */
  predicate HeadSpread(valid: Bytes -> bool, b: Bytes, at: nat, fs: Frames) {
    && fs.Frame? && EndOf(fs) <= |b| && AllBlank(b, at, fs.start)
    && b[fs.start..EndOf(fs)] == fs.raw && Reads(valid, fs.raw)
  }

  /** From `at` on the document holds these objects, at least one: each reads, with blanks
  around it, and a comma between any two; after the last the array closes. */
  predicate Spread(valid: Bytes -> bool, b: Bytes, at: nat, fs: Frames)
    decreases fs
  {
    && HeadSpread(valid, b, at, fs)
    && if fs.rest.NoMore? then ClosesAfter(b, EndOf(fs))
       else exists t | 0 <= t < |b| :: CommaAt(b, EndOf(fs), t) && Spread(valid, b, t + 1, fs.rest)
  }

  /** An array from just behind its opening bracket: empty, or objects spread out. */
  predicate ArrayBody(valid: Bytes -> bool, b: Bytes, at: nat, fs: Frames) {
    if fs.NoMore? then ClosesAfter(b, at) else Spread(valid, b, at, fs)
  }

  /** The opening bracket ends at `n`, after an optional byte order mark and blanks. */
  predicate OpensAt(b: Bytes, n: nat) {
    && 0 < n <= |b| && b[n - 1] == 0x5B
    && AllBlank(b, if [0xEF, 0xBB, 0xBF] <= b then 3 else 0, n - 1)
  }

  lemma {:induction false} SkipTo(b: Bytes, i: nat, t: nat)
    requires AllBlank(b, i, t) && (t == |b| || !Blank(b[t]))
    ensures SkipSpace(b, i) == t
    decreases t - i
  {
    if i < t {
      SkipTo(b, i + 1, t);
    }
  }

  lemma {:induction false} SkippedBlank(b: Bytes, i: nat)
    requires i <= |b|
    ensures AllBlank(b, i, SkipSpace(b, i))
    ensures SkipSpace(b, i) < |b| ==> !Blank(b[SkipSpace(b, i)])
    decreases |b| - i
  {
    if i < |b| && IsSpace(b[i]) {
      SkippedBlank(b, i + 1);
    }
  }

  lemma {:induction false} ClosesExactly(b: Bytes, i: nat)
    requires i <= |b|
    ensures ClosesAfter(b, i) <==>
            var t := SkipSpace(b, i); t < |b| && b[t] == RBRACKET && SkipSpace(b, t + 1) == |b|
  {
    var t := SkipSpace(b, i);
    SkippedBlank(b, i);
    if t < |b| {
      SkippedBlank(b, t + 1);
      assert b[t] == RBRACKET && SkipSpace(b, t + 1) == |b| ==> ClosesAt(b, i, t);
    }
    if ClosesAfter(b, i) {
      var u :| 0 <= u < |b| && ClosesAt(b, i, u);
      SkipTo(b, i, u);
      SkipTo(b, u + 1, |b|);
    }
  }

  lemma {:induction false} CommaExactly(b: Bytes, i: nat, t: nat)
    requires i <= |b|
    ensures CommaAt(b, i, t) <==> t == SkipSpace(b, i) && t < |b| && b[t] == COMMA
  {
    SkippedBlank(b, i);
    if CommaAt(b, i, t) {
      SkipTo(b, i, t);
    }
  }

  /** An object that reads is found where it stands. */
  lemma {:induction false} ReadFrames(valid: Bytes -> bool, b: Bytes, s: nat, o: Bytes)
    requires Reads(valid, o) && s + |o| <= |b| && b[s..s + |o|] == o
    ensures s < |b| && b[s] == LBRACE && ObjectEnd(b, s, s + 1, Plain, 1) == Some(s + |o|)
  {
    assert b[s] == b[s..s + |o|][0];
    assert o[0..|o|] == o;
    ObjectEndLocal(o, 0, 1, Plain, 1, b, s, |o|);
  }

  /** What the element at a position is, from the bytes. */
  lemma {:induction false} SpreadElement(valid: Bytes -> bool, b: Bytes, at: nat, afterComma: bool, s: nat, o: Bytes,
                                         t: nat)
    requires AllBlank(b, at, s) && Reads(valid, o) && s + |o| <= |b| && b[s..s + |o|] == o
    requires CommaAt(b, s + |o|, t) || ClosesAt(b, s + |o|, t)
    ensures ElementAt(valid, b, at, afterComma) == Object(s, s + |o|, t)
  {
    ReadFrames(valid, b, s, o);
    SkipTo(b, at, s);
    SkipTo(b, s + |o|, t);
    if !CommaAt(b, s + |o|, t) {
      SkipTo(b, t + 1, |b|);
    }
  }

  /** Streaming one element and the rest. */
  lemma {:induction false} ElementStreams(valid: Bytes -> bool, b: Bytes, at: nat, afterComma: bool, s: nat, o: Bytes,
                                          t: nat, rest: Frames)
    requires at <= |b| && s + |o| <= t < |b| && b[s..s + |o|] == o
    requires ElementAt(valid, b, at, afterComma) == Object(s, s + |o|, t)
    requires if b[t] == RBRACKET then rest == NoMore else StreamFrom(valid, b, t + 1, true) == Some(rest)
    ensures StreamFrom(valid, b, at, afterComma) == Some(Frame(s, o, rest))
  {
  }

  lemma {:induction false} SpreadStep(valid: Bytes -> bool, b: Bytes, at: nat, afterComma: bool, s: nat, o: Bytes,
                                      t: nat, rest: Frames)
    requires at <= |b| && AllBlank(b, at, s) && Reads(valid, o) && s + |o| <= |b| && b[s..s + |o|] == o
    requires || (rest == NoMore && ClosesAt(b, s + |o|, t))
             || (CommaAt(b, s + |o|, t) && StreamFrom(valid, b, t + 1, true) == Some(rest))
    ensures StreamFrom(valid, b, at, afterComma) == Some(Frame(s, o, rest))
  {
    SpreadElement(valid, b, at, afterComma, s, o, t);
    ElementStreams(valid, b, at, afterComma, s, o, t, rest);
  }

  lemma {:induction false} SpreadLast(valid: Bytes -> bool, b: Bytes, at: nat, afterComma: bool, fs: Frames)
    requires at <= |b| && HeadSpread(valid, b, at, fs) && fs.rest.NoMore? && ClosesAfter(b, EndOf(fs))
    ensures StreamFrom(valid, b, at, afterComma) == Some(fs)
  {
    var t :| 0 <= t < |b| && ClosesAt(b, EndOf(fs), t);
    SpreadStep(valid, b, at, afterComma, fs.start, fs.raw, t, NoMore);
  }

  lemma {:induction false} SpreadMore(valid: Bytes -> bool, b: Bytes, at: nat, afterComma: bool, fs: Frames, t: nat)
    requires at <= |b| && HeadSpread(valid, b, at, fs) && CommaAt(b, EndOf(fs), t)
    requires StreamFrom(valid, b, t + 1, true) == Some(fs.rest)
    ensures StreamFrom(valid, b, at, afterComma) == Some(fs)
  {
    SpreadStep(valid, b, at, afterComma, fs.start, fs.raw, t, fs.rest);
  }

  /** Streaming as a function of the position and of whether a comma came before. */
  type Streaming = (nat, bool) -> Option<Frames>

  function StreamOf(valid: Bytes -> bool, b: Bytes): Streaming {
    (at: nat, afterComma: bool) => if at <= |b| then StreamFrom(valid, b, at, afterComma) else None
  }

  /** An element in terms of the bytes around it. */
  lemma {:induction false} ElementSpread(valid: Bytes -> bool, b: Bytes, at: nat, afterComma: bool)
    requires at <= |b| && ElementAt(valid, b, at, afterComma).Object?
    ensures var r := ElementAt(valid, b, at, afterComma);
            && AllBlank(b, at, r.start) && Reads(valid, b[r.start..r.end])
            && (if b[r.separator] == RBRACKET then ClosesAfter(b, r.end) else CommaAt(b, r.end, r.separator))
  {
    var r := ElementAt(valid, b, at, afterComma);
    SkippedBlank(b, at);
    ElementReads(valid, b, r.start, r.end);
    ClosesExactly(b, r.end);
    CommaExactly(b, r.end, r.separator);
  }

  /** The first streamed object and the position of the separator after it. */
  lemma {:induction false} StreamedHead(valid: Bytes -> bool, b: Bytes, at: nat, afterComma: bool, fs: Frames)
    returns (t: nat)
    requires at <= |b| && StreamFrom(valid, b, at, afterComma) == Some(fs) && fs.Frame?
    ensures HeadSpread(valid, b, at, fs) && t < |b|
    ensures if b[t] == RBRACKET then fs.rest.NoMore? && ClosesAfter(b, EndOf(fs))
            else CommaAt(b, EndOf(fs), t) && StreamOf(valid, b)(t + 1, true) == Some(fs.rest)
  {
    ElementSpread(valid, b, at, afterComma);
    t := ElementAt(valid, b, at, afterComma).separator;
  }

  lemma {:induction false} StreamedNone(valid: Bytes -> bool, b: Bytes, at: nat, afterComma: bool)
    requires at <= |b|
    ensures StreamFrom(valid, b, at, afterComma) == Some(NoMore) <==> !afterComma && ClosesAfter(b, at)
  {
    ClosesExactly(b, at);
  }

  /** An object, and then the end or, after a comma, what streams from there on. */
  ghost predicate HeadThen(stream: Streaming, valid: Bytes -> bool, b: Bytes, at: nat, fs: Frames) {
    && HeadSpread(valid, b, at, fs)
    && (|| (fs.rest.NoMore? && ClosesAfter(b, EndOf(fs)))
        || exists t | 0 <= t < |b| :: CommaAt(b, EndOf(fs), t) && stream(t + 1, true) == Some(fs.rest))
  }

  ghost predicate Unfolds(stream: Streaming, valid: Bytes -> bool, b: Bytes) {
    && (forall at: nat | at <= |b| :: stream(at, true) != Some(NoMore))
    && (forall at: nat, c: bool, fs: Frames | at <= |b| && fs.Frame? ::
          stream(at, c) == Some(fs) <==> HeadThen(stream, valid, b, at, fs))
  }

  lemma {:induction false} HeadStreams(valid: Bytes -> bool, b: Bytes, at: nat, c: bool, fs: Frames)
    requires at <= |b| && HeadThen(StreamOf(valid, b), valid, b, at, fs)
    ensures StreamOf(valid, b)(at, c) == Some(fs)
  {
    if fs.rest.NoMore? && ClosesAfter(b, EndOf(fs)) {
      SpreadLast(valid, b, at, c, fs);
    } else {
      var t :| 0 <= t < |b| && CommaAt(b, EndOf(fs), t) && StreamOf(valid, b)(t + 1, true) == Some(fs.rest);
      SpreadMore(valid, b, at, c, fs, t);
    }
  }

  lemma {:induction false} StreamsHead(valid: Bytes -> bool, b: Bytes, at: nat, c: bool, fs: Frames)
    requires at <= |b| && fs.Frame? && StreamOf(valid, b)(at, c) == Some(fs)
    ensures HeadThen(StreamOf(valid, b), valid, b, at, fs)
  {
    var t := StreamedHead(valid, b, at, c, fs);
    ThenComma(StreamOf(valid, b), valid, b, at, fs, t);
  }

  lemma {:induction false} ThenComma(stream: Streaming, valid: Bytes -> bool, b: Bytes, at: nat, fs: Frames, t: nat)
    requires HeadSpread(valid, b, at, fs) && t < |b|
    requires if b[t] == RBRACKET then fs.rest.NoMore? && ClosesAfter(b, EndOf(fs))
             else CommaAt(b, EndOf(fs), t) && stream(t + 1, true) == Some(fs.rest)
    ensures HeadThen(stream, valid, b, at, fs)
  {
  }

  lemma {:induction false} NoTrailingComma(valid: Bytes -> bool, b: Bytes, at: nat)
    requires at <= |b|
    ensures StreamOf(valid, b)(at, true) != Some(NoMore)
  {
    StreamedNone(valid, b, at, true);
  }

  lemma {:induction false} StreamUnfolds(valid: Bytes -> bool, b: Bytes)
    ensures Unfolds(StreamOf(valid, b), valid, b)
  {
    forall at: nat | at <= |b| ensures StreamOf(valid, b)(at, true) != Some(NoMore) {
      NoTrailingComma(valid, b, at);
    }
    forall at: nat, c: bool, fs: Frames | at <= |b| && fs.Frame? && StreamOf(valid, b)(at, c) == Some(fs)
      ensures HeadThen(StreamOf(valid, b), valid, b, at, fs)
    {
      StreamsHead(valid, b, at, c, fs);
    }
    forall at: nat, c: bool, fs: Frames | at <= |b| && HeadThen(StreamOf(valid, b), valid, b, at, fs)
      ensures StreamOf(valid, b)(at, c) == Some(fs)
    {
      HeadStreams(valid, b, at, c, fs);
    }
  }

  lemma {:induction false} SpreadExactly(stream: Streaming, valid: Bytes -> bool, b: Bytes, at: nat, c: bool,
                                         fs: Frames)
    requires Unfolds(stream, valid, b) && at <= |b| && fs.Frame?
    ensures stream(at, c) == Some(fs) <==> Spread(valid, b, at, fs)
    decreases fs
  {
    if fs.rest.Frame? {
      forall t | 0 <= t < |b| && CommaAt(b, EndOf(fs), t)
        ensures stream(t + 1, true) == Some(fs.rest) <==> Spread(valid, b, t + 1, fs.rest)
      {
        SpreadExactly(stream, valid, b, t + 1, true, fs.rest);
      }
    }
  }

  /** What is left of an array streams as these objects exactly if they are spread from
  here on, or there are none and the array closes; after a comma it may not. */
  lemma {:induction false} StreamFromExact(valid: Bytes -> bool, b: Bytes, at: nat, afterComma: bool, fs: Frames)
    requires at <= |b|
    ensures StreamFrom(valid, b, at, afterComma) == Some(fs)
       <==> if fs.NoMore? then !afterComma && ClosesAfter(b, at) else Spread(valid, b, at, fs)
  {
    if fs.NoMore? {
      StreamedNone(valid, b, at, afterComma);
    } else {
      StreamUnfolds(valid, b);
      SpreadExactly(StreamOf(valid, b), valid, b, at, afterComma, fs);
    }
  }

  lemma {:induction false} StartExact(b: Bytes, n: nat)
    ensures ArrayStart(b) == Some(n) <==> OpensAt(b, n)
  {
    var from := if BOM <= b then 3 else 0;
    SkippedBlank(b, from);
    if OpensAt(b, n) {
      SkipTo(b, from, n - 1);
    }
  }

  /** A document streams as these objects if and only if it is an array of them: an
  optional mark, blanks, an opening bracket, the objects with blanks and single commas
  between them, a closing bracket and blanks. A trailing comma is refused. */
  lemma {:induction false} DocumentStreamsExactly(valid: Bytes -> bool, b: Bytes, fs: Frames)
    ensures StreamAll(valid, b) == Some(fs) <==> exists n | 0 <= n <= |b| :: OpensAt(b, n) && ArrayBody(valid, b, n, fs)
  {
    if ArrayStart(b).Some? {
      var n := ArrayStart(b).value;
      StartExact(b, n);
      StreamFromExact(valid, b, n, false, fs);
    }
    if m :| 0 <= m <= |b| && OpensAt(b, m) && ArrayBody(valid, b, m, fs) {
      StartExact(b, m);
    }
  }

  // ------------------------------------------------------- which objects read

  /** The bracket counter keeps the number of open brackets. */
  lemma {:induction false} EndOfNested(raw: Bytes, i: nat)
    requires WellNested(raw) && 0 < i <= |raw| <= MAX_BATCH_BYTES
    requires NestAt(raw, i).Some?
    ensures var n := NestAt(raw, i).value; ObjectEnd(raw, 0, i, n.lex, |n.stack|) == Some(|raw|)
    decreases |raw| - i
  {
    if i < |raw| {
      var n := NestAt(raw, i).value;
      assert n.stack != [];
      assert NestAt(raw, i + 1) == NestStep(n, raw[i]);
      assert NestAt(raw, i + 1).Some?;
      EndOfNested(raw, i + 1);
    }
  }

  /** A valid object that is well nested and not too large reads, whatever its strings
  hold; and under a sound check no other does. */
  lemma {:induction false} ReadsExactly(valid: Bytes -> bool, raw: Bytes)
    requires Sound(valid)
    ensures Reads(valid, raw) <==> valid(raw) && WellNested(raw) && |raw| <= MAX_BATCH_BYTES
  {
    if valid(raw) && WellNested(raw) && |raw| <= MAX_BATCH_BYTES {
      assert NestAt(raw, 1) == NestStep(Nest(Plain, []), raw[0]);
      assert [] + [LBRACE] == [LBRACE];
      EndOfNested(raw, 1);
    }
    if Reads(valid, raw) {
      EndWithinBound(raw, 1, Plain, 1);
    }
  }

  lemma {:induction false} EndWithinBound(raw: Bytes, i: nat, lex: Lex, depth: nat)
    requires 0 < i <= |raw| && depth > 0 && ObjectEnd(raw, 0, i, lex, depth).Some?
    ensures ObjectEnd(raw, 0, i, lex, depth).value <= MAX_BATCH_BYTES
    decreases |raw| - i
  {
    var next := NextDepth(lex, depth, raw[i]);
    if next > 0 {
      EndWithinBound(raw, i + 1, NextLex(lex, raw[i]), next);
    }
  }
}
