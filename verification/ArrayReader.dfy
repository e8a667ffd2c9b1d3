/** The loops behind the framing functions: the stream that hands out one raw
object at a time, and the scan that closes a cut array. */
module ArrayReader {
  import opened Options
  import opened ArrayFraming

  function LexOf(inString: bool, escaped: bool): Lex {
    if !inString then Plain else if escaped then Escaped else InString
  }

  // ------------------------------------------------------------- closing a cut

  method FindStart(bytes: Bytes) returns (start: nat)
    ensures start == SkipPadding(bytes, 0)
  {
    start := 0;
    while start < |bytes| && IsPadding(bytes[start])
      invariant start <= |bytes| && SkipPadding(bytes, 0) == SkipPadding(bytes, start)
    {
      start := start + 1;
    }
  }

  /** The object being scanned, from where it starts up to `i`. */
  function Opened(bytes: Bytes, objectStart: Option<nat>, i: nat): (r: Option<Bytes>)
    requires i <= |bytes| && (objectStart.Some? ==> objectStart.value <= i)
  {
    if objectStart.Some? then Some(bytes[objectStart.value..i]) else None
  }

  lemma {:induction false} OpenedGrows(bytes: Bytes, objectStart: Option<nat>, i: nat)
    requires i < |bytes| && (objectStart.Some? ==> objectStart.value <= i)
    ensures Opened(bytes, objectStart, i + 1) == Keep(Opened(bytes, objectStart, i), bytes[i])
    ensures Opened(bytes, Some(i), i + 1) == Some([bytes[i]])
  {
    assert bytes[i..i + 1] == [bytes[i]];
    if objectStart.Some? {
      var s := objectStart.value;
      assert bytes[s..i + 1] == bytes[s..i] + [bytes[i]];
    }
  }

  method ScanPrefix(bytes: Bytes, from: nat) returns (objects: seq<Bytes>)
    requires from <= |bytes|
    ensures objects == ScanTo(bytes, from, |bytes|, Idle([])).objects
  {
    objects := [];
    var objectStart: Option<nat> := None;
    var curly, square := 0, 0;
    var inString, escaped := false, false;
    for i := from to |bytes|
      invariant objectStart.Some? ==> objectStart.value <= i
      invariant curly >= 0 && square >= 0
      invariant Scan(LexOf(inString, escaped), curly, square, Opened(bytes, objectStart, i), objects)
             == ScanTo(bytes, from, i, Idle([]))
    {
      var byte := bytes[i];
      OpenedGrows(bytes, objectStart, i);
      if inString {
        if escaped {
          escaped := false;
        } else if byte == BACKSLASH {
          escaped := true;
        } else if byte == QUOTE {
          inString := false;
        }
      } else if byte == QUOTE {
        inString, escaped := true, false;
      } else if byte == LBRACE {
        if curly == 0 && square == 0 {
          objectStart := Some(i);
        }
        curly := curly + 1;
      } else if byte == RBRACE && curly > 0 {
        curly := curly - 1;
        if curly == 0 && square == 0 {
          if objectStart.Some? {
            objects := objects + [bytes[objectStart.value..i + 1]];
            objectStart := None;
          }
        }
      } else if byte == LBRACKET && curly > 0 {
        square := square + 1;
      } else if byte == RBRACKET && square > 0 {
        square := square - 1;
      }
    }
  }

  method WriteArray(objects: seq<Bytes>) returns (output: Bytes)
    ensures output == Closed(objects)
  {
    output := [LBRACKET];
    for k := 0 to |objects|
      invariant output == [LBRACKET] + Joined(objects[..k])
    {
      assert objects[..k + 1][..k] == objects[..k];
      if k > 0 {
        output := output + [COMMA];
      }
      output := output + objects[k];
    }
    assert objects[..|objects|] == objects;
    output := output + [RBRACKET];
  }

  /** Closing a cut array byte by byte is the repair. */
  method CloseJsonArrayPrefix(bytes: Bytes) returns (r: Option<Bytes>)
    ensures r == Repair(bytes)
  {
    var start := FindStart(bytes);
    if start == |bytes| || bytes[start] != LBRACKET {
      return None;
    }
    var objects := ScanPrefix(bytes, start + 1);
    if objects == [] {
      return None;
    }
    var output := WriteArray(objects);
    return Some(output);
  }

  // ------------------------------------------------------- reading one by one

  datatype Outcome = Fault | End | Item(raw: Bytes)

  /** One object handed out: `before` is that object followed by `after`. */
  predicate Yields(before: Option<Frames>, raw: Bytes, after: Option<Frames>) {
    match before
    case None => after.None?
    case Some(fs) => fs.Frame? && fs.raw == raw && after == Some(fs.rest)
  }

  /** The objects handed out so far and those left make up the whole. */
  predicate Drained(all: Option<Frames>, raws: seq<Bytes>, left: Option<Frames>) {
    match all
    case None => left.None?
    case Some(fs) => left.Some? && Raws(fs) == raws + Raws(left.value)
  }

  lemma {:induction false} DrainedMore(all: Option<Frames>, raws: seq<Bytes>, before: Option<Frames>, raw: Bytes,
                                       after: Option<Frames>)
    requires Drained(all, raws, before) && Yields(before, raw, after)
    ensures Drained(all, raws + [raw], after)
  {
  }

  /** A reader positioned in a byte source that holds one array. */
  class JsonObjectStream {
    const bytes: Bytes
    const valid: Bytes -> bool
    var pos: nat
    var initialized: bool
    var finished: bool
    var afterComma: bool
    var row: nat

    ghost predicate Valid()
      reads this
    {
      pos <= |bytes| && (!initialized ==> pos == 0 && !afterComma && !finished)
    }

    /** What is still to come; none if that ends in a fault. */
    ghost function Remaining(): (r: Option<Frames>)
      requires Valid()
      reads this
    {
      if finished then Some(NoMore)
      else if !initialized then StreamAll(valid, bytes)
      else StreamFrom(valid, bytes, pos, afterComma)
    }

    constructor (bytes: Bytes, valid: Bytes -> bool)
      ensures Valid() && row == 0 && this.bytes == bytes && this.valid == valid
      ensures Remaining() == StreamAll(valid, bytes)
    {
      this.bytes, this.valid := bytes, valid;
      pos, row := 0, 0;
      initialized, finished, afterComma := false, false, false;
    }

    method SkipWhitespace()
      requires pos <= |bytes|
      modifies `pos
      ensures pos == SkipSpace(bytes, old(pos)) <= |bytes|
    {
      while pos < |bytes| && IsSpace(bytes[pos])
        invariant pos <= |bytes| && SkipSpace(bytes, old(pos)) == SkipSpace(bytes, pos)
      {
        pos := pos + 1;
      }
    }

    /** Reads up to the bracket that closes the object at the current position. */
    method ReadBalancedObject() returns (raw: Option<Bytes>)
      requires pos < |bytes|
      modifies `pos
      ensures pos <= |bytes|
      ensures raw.Some? <==> bytes[old(pos)] == LBRACE && ObjectEnd(bytes, old(pos), old(pos) + 1, Plain, 1).Some?
      ensures raw.Some? ==>
                && ObjectEnd(bytes, old(pos), old(pos) + 1, Plain, 1) == Some(pos)
                && raw.value == bytes[old(pos)..pos]
    {
      var start := pos;
      pos := pos + 1;
      if bytes[start] != LBRACE {
        return None;
      }
      var depth: nat := 1;
      var inString, escaped := false, false;
      while depth > 0
        invariant start < pos <= |bytes|
        invariant ObjectEnd(bytes, start, start + 1, Plain, 1)
               == ObjectEnd(bytes, start, pos, LexOf(inString, escaped), depth)
        invariant depth == 0 ==> !inString
        decreases |bytes| - pos
      {
        if pos == |bytes| || pos - start + 1 > MAX_BATCH_BYTES {
          return None;
        }
        var byte := bytes[pos];
        pos := pos + 1;
        if inString {
          if escaped {
            escaped := false;
          } else if byte == BACKSLASH {
            escaped := true;
          } else if byte == QUOTE {
            inString := false;
          }
        } else if byte == QUOTE {
          inString, escaped := true, false;
        } else if Opens(byte) {
          depth := depth + 1;
        } else if Closes(byte) {
          depth := depth - 1;
        }
      }
      return Some(bytes[start..pos]);
    }

    /** Nothing but space may follow the closing bracket. */
    method FinishArray() returns (ok: bool)
      requires pos <= |bytes|
      modifies `pos, `finished
      ensures old(pos) <= pos <= |bytes| && ok == (SkipSpace(bytes, old(pos)) == |bytes|)
      ensures finished == (ok || old(finished))
    {
      SkipWhitespace();
      ok := pos == |bytes|;
      if ok {
        finished := true;
      }
    }

    method OpenArray() returns (ok: bool)
      requires Valid() && !initialized
      modifies `pos, `initialized
      ensures ok == ArrayStart(bytes).Some?
      ensures ok ==> Valid() && initialized && ArrayStart(bytes) == Some(pos)
    {
      if BOM <= bytes {
        pos := 3;
      }
      SkipWhitespace();
      ok := pos < |bytes| && bytes[pos] == LBRACKET;
      if ok {
        pos := pos + 1;
        initialized := true;
      }
    }

    /** What may follow an object: a comma, or the end of the array. */
    method ReadSeparator() returns (ok: bool)
      requires pos <= |bytes| && !finished
      modifies `pos, `finished, `afterComma
      ensures var t := SkipSpace(bytes, old(pos));
              && (ok <==> t < |bytes| && (bytes[t] == COMMA ||
                                          (bytes[t] == RBRACKET && SkipSpace(bytes, t + 1) == |bytes|)))
              && (ok ==> old(pos) < pos <= |bytes| && finished == (bytes[t] == RBRACKET))
              && (ok && !finished ==> pos == t + 1 && afterComma)
    {
      SkipWhitespace();
      if pos == |bytes| || (bytes[pos] != COMMA && bytes[pos] != RBRACKET) {
        return false;
      }
      var comma := bytes[pos] == COMMA;
      pos := pos + 1;
      if comma {
        afterComma := true;
        return true;
      }
      ok := FinishArray();
    }

    /** One object and what follows it. */
    method ReadObject() returns (raw: Option<Bytes>)
      requires pos < |bytes| && !finished
      modifies `pos, `finished, `afterComma, `row
      ensures raw.Some? <==> ObjectAt(valid, bytes, old(pos)).Object?
      ensures raw.Some? ==>
                var element := ObjectAt(valid, bytes, old(pos));
                && raw.value == bytes[element.start..element.end]
                && old(pos) < pos <= |bytes| && row == old(row) + 1
                && finished == (bytes[element.separator] == RBRACKET)
                && (!finished ==> pos == element.separator + 1 && afterComma)
    {
      raw := ReadBalancedObject();
      if raw.None? || !valid(raw.value) {
        return None;
      }
      afterComma, row := false, row + 1;
      var separated := ReadSeparator();
      if !separated {
        return None;
      }
    }

    /** The next object, in an array whose bracket has been read. */
    method NextElement() returns (r: Outcome)
      requires Valid() && initialized && !finished
      modifies `pos, `finished, `afterComma, `row
      ensures r.Fault? <==> ElementAt(valid, bytes, old(pos), old(afterComma)).Faulty?
      ensures r.End? ==> ElementAt(valid, bytes, old(pos), old(afterComma)).Closing?
      ensures r.End? ==> Valid() && finished && row == old(row)
      ensures r.Item? ==>
                var element := ElementAt(valid, bytes, old(pos), old(afterComma));
                && element.Object? && r.raw == bytes[element.start..element.end]
                && Valid() && row == old(row) + 1 && pos > old(pos)
                && finished == (bytes[element.separator] == RBRACKET)
                && (!finished ==> pos == element.separator + 1 && afterComma)
    {
      SkipWhitespace();
      if pos == |bytes| {
        return Fault;
      }
      if bytes[pos] == RBRACKET {
        if afterComma {
          return Fault;
        }
        pos := pos + 1;
        var done := FinishArray();
        return if done then End else Fault;
      }
      var raw := ReadObject();
      return if raw.Some? then Item(raw.value) else Fault;
    }

    /** Each call hands out the first of the remaining objects and leaves the
    rest; a fault is reported only in a malformed source. */
    method NextRawObject() returns (r: Outcome)
      requires Valid()
      modifies this
      ensures r.Fault? ==> old(Remaining()).None?
      ensures r.End? ==> old(Remaining()) == Some(NoMore) && Valid() && Remaining() == Some(NoMore) && row == old(row)
      ensures r.Item? ==>
                && Valid() && row == old(row) + 1 && pos > old(pos)
                && Yields(old(Remaining()), r.raw, Remaining())
    {
      if finished {
        return End;
      }
      if !initialized {
        var ok := OpenArray();
        if !ok {
          return Fault;
        }
      }
      r := NextElement();
    }
  }

  /** Draining the stream gives the framing function's objects, or refuses. */
  method ReadAll(bytes: Bytes, valid: Bytes -> bool) returns (r: Option<seq<Bytes>>)
    ensures r.Some? <==> StreamAll(valid, bytes).Some?
    ensures r.Some? ==> r.value == Raws(StreamAll(valid, bytes).value)
  {
    var stream := new JsonObjectStream(bytes, valid);
    ghost var all := StreamAll(valid, bytes);
    var raws := [];
    while true
      invariant stream.Valid() && fresh(stream)
      invariant Drained(all, raws, stream.Remaining())
      decreases |bytes| - stream.pos
    {
      ghost var before := stream.Remaining();
      var next := stream.NextRawObject();
      match next
      case Fault => return None;
      case End => return Some(raws);
      case Item(raw) =>
        DrainedMore(all, raws, before, raw, stream.Remaining());
        raws := raws + [raw];
    }
  }
}
