/** Framing of a JSON array of objects: reading raw objects one at a time, and
closing an array that was cut off so that it can be read again.

Syntax checking of one raw object is a parameter; all that is used of it is that
a valid object is well nested. */
module ArrayFraming {
  import opened Options

  type Byte = b: int | 0 <= b < 256
  type Bytes = seq<Byte>

  const QUOTE: Byte := 0x22
  const COMMA: Byte := 0x2C
  const LBRACKET: Byte := 0x5B
  const BACKSLASH: Byte := 0x5C
  const RBRACKET: Byte := 0x5D
  const LBRACE: Byte := 0x7B
  const RBRACE: Byte := 0x7D
  const BOM: Bytes := [0xEF, 0xBB, 0xBF]
  const MAX_BATCH_BYTES: nat := 64 * 1024 * 1024

  predicate IsSpace(b: Byte) {
    b == 0x20 || b == 0x09 || b == 0x0A || b == 0x0C || b == 0x0D
  }

  // ------------------------------------------------------------ string state

  datatype Lex = Plain | InString | Escaped

  /** How one byte moves the string state. */
  function NextLex(lex: Lex, b: Byte): Lex {
    match lex
    case Plain => if b == QUOTE then InString else Plain
    case InString => if b == BACKSLASH then Escaped else if b == QUOTE then Plain else InString
    case Escaped => InString
  }

  predicate Opens(b: Byte) {
    b == LBRACE || b == LBRACKET
  }

  predicate Closes(b: Byte) {
    b == RBRACE || b == RBRACKET
  }

  // ------------------------------------------------------------- well nested

  /** Open brackets, outermost first. */
  datatype Nest = Nest(lex: Lex, stack: Bytes)

  function NestStep(n: Nest, b: Byte): (r: Option<Nest>) {
    if !n.lex.Plain? then Some(n.(lex := NextLex(n.lex, b)))
    else if Opens(b) then Some(n.(stack := n.stack + [b]))
    else if Closes(b) then
      var top := |n.stack| - 1;
      if n.stack != [] && n.stack[top] == (if b == RBRACE then LBRACE else LBRACKET)
      then Some(n.(stack := n.stack[..top])) else None
    else Some(n.(lex := NextLex(n.lex, b)))
  }

  /** Nesting after the first `i` bytes. */
  function NestAt(raw: Bytes, i: nat): (r: Option<Nest>)
    requires i <= |raw|
  {
    if i == 0 then Some(Nest(Plain, []))
    else match NestAt(raw, i - 1)
      case Some(n) => NestStep(n, raw[i - 1])
      case None => None
  }

  /** One bracketed object and nothing else: brackets match and the first one
  closes with the last byte. */
  predicate WellNested(raw: Bytes) {
    && raw != [] && raw[0] == LBRACE
    && NestAt(raw, |raw|) == Some(Nest(Plain, []))
    && forall i | 0 < i < |raw| :: NestAt(raw, i).Some? && NestAt(raw, i).value.stack != []
  }

  // ----------------------------------------------------------- reading objects

  /** First position from `i` on that holds no space. */
  function SkipSpace(b: Bytes, i: nat): (n: nat)
    requires i <= |b|
    ensures i <= n <= |b|
    decreases |b| - i
  {
    if i == |b| || !IsSpace(b[i]) then i else SkipSpace(b, i + 1)
  }

  lemma {:induction false} SkippedIsSpace(b: Bytes, i: nat)
    requires i <= |b|
    ensures forall k | i <= k < SkipSpace(b, i) :: IsSpace(b[k])
    decreases |b| - i
  {
    if i < |b| && IsSpace(b[i]) {
      SkippedIsSpace(b, i + 1);
    }
  }

  /** Brackets open after one more byte. Both kinds of bracket count alike. */
  function NextDepth(lex: Lex, depth: nat, b: Byte): (d: nat)
    requires depth > 0
  {
    if !lex.Plain? then depth
    else if Opens(b) then depth + 1
    else if Closes(b) then depth - 1
    else depth
  }

  /** Position just past the object that starts at `p`, when it has been read up
  to `i` with `depth` brackets open. */
  function ObjectEnd(b: Bytes, p: nat, i: nat, lex: Lex, depth: nat): (e: Option<nat>)
    requires p <= i <= |b|
    ensures e.Some? ==> i <= e.value <= |b|
    decreases |b| - i
  {
    if depth == 0 then Some(i)
    else if i == |b| || i - p + 1 > MAX_BATCH_BYTES then None
    else ObjectEnd(b, p, i + 1, NextLex(lex, b[i]), NextDepth(lex, depth, b[i]))
  }

  /** What stands at a position inside an array: a fault, the closing bracket, or
  an object with the position of the separator after it. */
  datatype Element = Faulty | Closing | Object(start: nat, end: nat, separator: nat)

  /** The object that starts at `s`, with the comma or the final bracket after it. */
  function ObjectAt(valid: Bytes -> bool, b: Bytes, s: nat): (r: Element)
    requires s < |b|
    ensures r.Faulty? || r.Object?
    ensures r.Object? ==>
              && r.start == s < r.end <= r.separator < |b|
              && b[s] == LBRACE && valid(b[s..r.end])
              && (b[r.separator] == COMMA || b[r.separator] == RBRACKET)
              && ObjectEnd(b, s, s + 1, Plain, 1) == Some(r.end)
  {
    if b[s] != LBRACE then Faulty
    else match ObjectEnd(b, s, s + 1, Plain, 1)
      case None => Faulty
      case Some(e) =>
        var t := SkipSpace(b, e);
        if !valid(b[s..e]) || t == |b| then Faulty
        else if b[t] == COMMA || (b[t] == RBRACKET && SkipSpace(b, t + 1) == |b|) then Object(s, e, t)
        else Faulty
  }

  function ElementAt(valid: Bytes -> bool, b: Bytes, at: nat, afterComma: bool): (r: Element)
    requires at <= |b|
    ensures r.Object? ==> at <= r.start < |b| && r == ObjectAt(valid, b, r.start)
  {
    var s := SkipSpace(b, at);
    if s == |b| then Faulty
    else if b[s] == RBRACKET then
      if !afterComma && SkipSpace(b, s + 1) == |b| then Closing else Faulty
    else ObjectAt(valid, b, s)
  }

  /** Raw objects in order, each with the offset it starts at. */
  datatype Frames = NoMore | Frame(start: nat, raw: Bytes, rest: Frames)

  /** The objects of an array from after its bracket or a comma; none if anything
  from here on is malformed. */
  function StreamFrom(valid: Bytes -> bool, b: Bytes, at: nat, afterComma: bool): (r: Option<Frames>)
    requires at <= |b|
    decreases |b| - at
  {
    match ElementAt(valid, b, at, afterComma)
    case Faulty => None
    case Closing => Some(NoMore)
    case Object(s, e, t) =>
      if b[t] == RBRACKET then Some(Frame(s, b[s..e], NoMore))
      else match StreamFrom(valid, b, t + 1, true)
        case Some(rest) => Some(Frame(s, b[s..e], rest))
        case None => None
  }

  /** Offset just past the opening bracket, after an optional byte order mark and
  space. */
  function ArrayStart(b: Bytes): (n: Option<nat>)
    ensures n.Some? ==> 0 < n.value <= |b| && b[n.value - 1] == LBRACKET
  {
    var s := SkipSpace(b, if BOM <= b then 3 else 0);
    if s < |b| && b[s] == LBRACKET then Some(s + 1) else None
  }

  function StreamAll(valid: Bytes -> bool, b: Bytes): (r: Option<Frames>) {
    match ArrayStart(b)
    case Some(n) => StreamFrom(valid, b, n, false)
    case None => None
  }

  function Raws(fs: Frames): (r: seq<Bytes>) {
    match fs
    case NoMore => []
    case Frame(_, raw, rest) => [raw] + Raws(rest)
  }

  /** The objects that lie wholly before an offset. */
  function Within(fs: Frames, cut: nat): (r: seq<Bytes>) {
    match fs
    case NoMore => []
    case Frame(start, raw, rest) => if start + |raw| > cut then [] else [raw] + Within(rest, cut)
  }

  // --------------------------------------------------------- scanning a prefix

  /** State of the repair scan: brackets by kind, the bytes of the object being
  read, and the complete objects so far. */
  datatype Scan = Scan(lex: Lex, curly: nat, square: nat, open: Option<Bytes>, objects: seq<Bytes>)

  function Keep(open: Option<Bytes>, b: Byte): Option<Bytes> {
    if open.Some? then Some(open.value + [b]) else None
  }

  function ScanByte(st: Scan, b: Byte): (r: Scan) {
    var kept := Keep(st.open, b);
    if !st.lex.Plain? then st.(lex := NextLex(st.lex, b), open := kept)
    else if b == LBRACE then
      st.(curly := st.curly + 1, open := if st.curly == 0 && st.square == 0 then Some([b]) else kept)
    else if b == RBRACE && st.curly > 0 then
      if st.curly == 1 && st.square == 0 then
        Scan(Plain, 0, 0, None, if kept.Some? then st.objects + [kept.value] else st.objects)
      else st.(curly := st.curly - 1, open := kept)
    else if b == LBRACKET && st.curly > 0 then st.(square := st.square + 1, open := kept)
    else if b == RBRACKET && st.square > 0 then st.(square := st.square - 1, open := kept)
    else st.(lex := NextLex(st.lex, b), open := kept)
  }

  /** The scan after the bytes from `i` up to `j`. */
  function ScanTo(b: Bytes, i: nat, j: nat, st: Scan): (r: Scan)
    requires i <= j <= |b|
    decreases j - i
  {
    if i == j then st else ScanByte(ScanTo(b, i, j - 1, st), b[j - 1])
  }

  function Idle(objects: seq<Bytes>): Scan {
    Scan(Plain, 0, 0, None, objects)
  }

  predicate IsPadding(b: Byte) {
    IsSpace(b) || b == 0xEF || b == 0xBB || b == 0xBF
  }

  function SkipPadding(b: Bytes, i: nat): (n: nat)
    requires i <= |b|
    ensures i <= n <= |b|
    decreases |b| - i
  {
    if i == |b| || !IsPadding(b[i]) then i else SkipPadding(b, i + 1)
  }

  lemma {:induction false} PaddingEnds(b: Bytes, i: nat, n: nat)
    requires i <= n <= |b| && (forall k | i <= k < n :: IsPadding(b[k])) && (n < |b| ==> !IsPadding(b[n]))
    ensures SkipPadding(b, i) == n
    decreases n - i
  {
    if i < n {
      PaddingEnds(b, i + 1, n);
    }
  }

  /** The objects separated by commas. */
  function Joined(objects: seq<Bytes>): (r: Bytes) {
    if objects == [] then []
    else if |objects| == 1 then objects[0]
    else Joined(objects[..|objects| - 1]) + [COMMA] + objects[|objects| - 1]
  }

  function Closed(objects: seq<Bytes>): (r: Bytes) {
    [LBRACKET] + (Joined(objects) + [RBRACKET])
  }

  /** Closing a cut array: keep the complete objects, refuse if there is none. */
  function Repair(b: Bytes): (r: Option<Bytes>) {
    var n := SkipPadding(b, 0);
    if n == |b| || b[n] != LBRACKET then None
    else
      var objects := ScanTo(b, n + 1, |b|, Idle([])).objects;
      if objects == [] then None else Some(Closed(objects))
  }

  // ------------------------------------------------------ scanning one object

  lemma {:induction false} ScanInParts(b: Bytes, i: nat, j: nat, k: nat, st: Scan)
    requires i <= j <= k <= |b|
    ensures ScanTo(b, i, k, st) == ScanTo(b, j, k, ScanTo(b, i, j, st))
    decreases k - j
  {
    if j < k {
      ScanInParts(b, i, j, k - 1, st);
    }
  }

  /** The scan looks only at the bytes it is given. */
  lemma {:induction false} ScanLocal(b: Bytes, c: Bytes, i: nat, j: nat, st: Scan)
    requires i <= j <= |b| && j <= |c| && forall k | i <= k < j :: b[k] == c[k]
    ensures ScanTo(b, i, j, st) == ScanTo(c, i, j, st)
    decreases j - i
  {
    if i < j {
      ScanLocal(b, c, i, j - 1, st);
    }
  }

  predicate IsGap(b: Byte) {
    IsSpace(b) || b == COMMA || b == RBRACKET
  }

  predicate Gap(b: Bytes, i: nat, j: nat)
    requires j <= |b|
  {
    forall k | i <= k < j :: IsGap(b[k])
  }

  lemma {:induction false} ScanGap(b: Bytes, i: nat, j: nat, objects: seq<Bytes>)
    requires i <= j <= |b| && Gap(b, i, j)
    ensures ScanTo(b, i, j, Idle(objects)) == Idle(objects)
    decreases j - i
  {
    if i < j {
      ScanGap(b, i, j - 1, objects);
      assert IsGap(b[j - 1]);
    }
  }

  function Count(stack: Bytes, b: Byte): (n: nat) {
    if stack == [] then 0
    else Count(stack[..|stack| - 1], b) + if stack[|stack| - 1] == b then 1 else 0
  }

  lemma {:induction false} CountPush(stack: Bytes, x: Byte, b: Byte)
    ensures Count(stack + [x], b) == Count(stack, b) + if x == b then 1 else 0
  {
  }

  lemma {:induction false} CountBottom(stack: Bytes)
    requires stack != [] && stack[0] == LBRACE
    ensures Count(stack, LBRACE) >= 1
  {
    if |stack| > 1 {
      CountBottom(stack[..|stack| - 1]);
    }
  }

  /** Brackets on the stack are of the two kinds and the outermost is a brace. */
  predicate InObject(n: Nest) {
    n.stack != [] && n.stack[0] == LBRACE && forall i | 0 <= i < |n.stack| :: Opens(n.stack[i])
  }

  lemma {:induction false} NestInObject(raw: Bytes, i: nat)
    requires WellNested(raw) && 0 < i < |raw|
    ensures InObject(NestAt(raw, i).value)
  {
    if i == 1 {
      assert NestAt(raw, 0) == Some(Nest(Plain, []));
    } else {
      NestInObject(raw, i - 1);
      assert NestAt(raw, i).value.stack != [];
    }
  }

  /** What the scan has once part of an object is read. */
  function Reading(n: Nest, read: Bytes, objects: seq<Bytes>): Scan {
    Scan(n.lex, Count(n.stack, LBRACE), Count(n.stack, LBRACKET), Some(read), objects)
  }

  /** One byte inside an object: the counters follow the stack. */
  lemma {:induction false} ScanInside(n: Nest, b: Byte, read: Bytes, objects: seq<Bytes>)
    requires InObject(n) && NestStep(n, b).Some?
    ensures var m := NestStep(n, b).value;
            ScanByte(Reading(n, read, objects), b) ==
            if m.stack == [] then Idle(objects + [read + [b]]) else Reading(m, read + [b], objects)
  {
    CountBottom(n.stack);
    if n.lex.Plain? && Opens(b) {
      CountPush(n.stack, b, LBRACE);
      CountPush(n.stack, b, LBRACKET);
    } else if n.lex.Plain? && Closes(b) {
      var top := |n.stack| - 1;
      assert n.stack == n.stack[..top] + [n.stack[top]];
      CountPush(n.stack[..top], n.stack[top], LBRACE);
      CountPush(n.stack[..top], n.stack[top], LBRACKET);
      if top > 0 {
        CountBottom(n.stack[..top]);
      }
    }
  }

  lemma {:induction false} FirstBrace(objects: seq<Bytes>)
    ensures ScanByte(Idle(objects), LBRACE) == Reading(Nest(Plain, [LBRACE]), [LBRACE], objects)
  {
    assert [] + [LBRACE] == [LBRACE];
    CountPush([], LBRACE, LBRACE);
    CountPush([], LBRACE, LBRACKET);
  }

  lemma {:induction false} NestFirst(raw: Bytes)
    requires raw != [] && raw[0] == LBRACE
    ensures NestAt(raw, 1) == Some(Nest(Plain, [LBRACE]))
  {
    assert NestAt(raw, 0) == Some(Nest(Plain, []));
    assert [] + [LBRACE] == [LBRACE];
  }

  /** Inside a well-nested object each byte is a step. */
  lemma {:induction false} NestOneMore(raw: Bytes, i: nat)
    requires WellNested(raw) && 0 < i < |raw|
    ensures NestAt(raw, i).Some? && InObject(NestAt(raw, i).value)
    ensures NestAt(raw, i + 1).Some? && NestAt(raw, i + 1) == NestStep(NestAt(raw, i).value, raw[i])
    ensures NestAt(raw, i + 1).value.stack == [] <==> i + 1 == |raw|
  {
    NestInObject(raw, i);
    if i + 1 < |raw| {
      assert NestAt(raw, i + 1).Some?;
    }
  }

  lemma {:induction false} ScanReads(b: Bytes, s: nat, i: nat, n: Nest, m: Nest, read: Bytes, objects: seq<Bytes>)
    requires s + i < |b| && InObject(n) && NestStep(n, b[s + i]) == Some(m) && m.stack != []
    requires ScanTo(b, s, s + i, Idle(objects)) == Reading(n, read, objects)
    ensures ScanTo(b, s, s + i + 1, Idle(objects)) == Reading(m, read + [b[s + i]], objects)
  {
    ScanInside(n, b[s + i], read, objects);
  }

  /** Part of an object read: the scan mirrors the nesting. */
  lemma {:induction false} ScanPartObject(b: Bytes, s: nat, raw: Bytes, i: nat, objects: seq<Bytes>)
    requires s + |raw| <= |b| && raw == b[s..s + |raw|] && WellNested(raw) && 0 < i < |raw|
    ensures ScanTo(b, s, s + i, Idle(objects)) == Reading(NestAt(raw, i).value, raw[..i], objects)
  {
    assert b[s + i - 1] == raw[i - 1];
    assert raw[..i - 1] + [raw[i - 1]] == raw[..i];
    if i == 1 {
      NestFirst(raw);
      FirstBrace(objects);
      assert ScanTo(b, s, s, Idle(objects)) == Idle(objects);
    } else {
      ScanPartObject(b, s, raw, i - 1, objects);
      NestOneMore(raw, i - 1);
      ScanReads(b, s, i - 1, NestAt(raw, i - 1).value, NestAt(raw, i).value, raw[..i - 1], objects);
    }
  }

  /** Scanning a whole object adds it, */
  lemma {:induction false} ScanObject(b: Bytes, s: nat, raw: Bytes, objects: seq<Bytes>)
    requires s + |raw| <= |b| && raw == b[s..s + |raw|] && WellNested(raw)
    ensures ScanTo(b, s, s + |raw|, Idle(objects)) == Idle(objects + [raw])
  {
    var i := |raw| - 1;
    NestFirst(raw);
    assert i > 0;
    assert b[s + i] == raw[i];
    ScanPartObject(b, s, raw, i, objects);
    NestOneMore(raw, i);
    ScanInside(NestAt(raw, i).value, raw[i], raw[..i], objects);
    assert raw[..i] + [raw[i]] == raw;
  }

  /** and scanning part of it adds nothing. */
  lemma {:induction false} ScanCutShort(b: Bytes, s: nat, raw: Bytes, c: nat, objects: seq<Bytes>)
    requires s + |raw| <= |b| && raw == b[s..s + |raw|] && WellNested(raw) && s <= c < s + |raw|
    ensures ScanTo(b, s, c, Idle(objects)).objects == objects
  {
    if s < c {
      ScanPartObject(b, s, raw, c - s, objects);
    }
  }

  // ------------------------------------------------------- scanning an array

  /** Finding an object's end looks at nothing past that end, and does not care
  where the object stands. */
  lemma {:induction false} ObjectEndLocal(b: Bytes, p: nat, k: nat, lex: Lex, depth: nat, c: Bytes, q: nat, n: nat)
    requires k <= n && p + n <= |b| && q + n <= |c| && c[q..q + n] == b[p..p + n]
    requires ObjectEnd(b, p, p + k, lex, depth) == Some(p + n)
    ensures ObjectEnd(c, q, q + k, lex, depth) == Some(q + n)
    decreases n - k
  {
    if depth > 0 {
      assert k < n;
      assert c[q + k] == c[q..q + n][k] == b[p..p + n][k] == b[p + k];
      ObjectEndLocal(b, p, k + 1, NextLex(lex, b[p + k]), NextDepth(lex, depth, b[p + k]), c, q, n);
    }
  }

  /** A valid object that ends where its bytes end. */
  predicate Reads(valid: Bytes -> bool, o: Bytes) {
    o != [] && o[0] == LBRACE && valid(o) && ObjectEnd(o, 0, 1, Plain, 1) == Some(|o|)
  }

  lemma {:induction false} ElementReads(valid: Bytes -> bool, b: Bytes, s: nat, e: nat)
    requires s < e <= |b| && b[s] == LBRACE && valid(b[s..e]) && ObjectEnd(b, s, s + 1, Plain, 1) == Some(e)
    ensures Reads(valid, b[s..e])
  {
    var o := b[s..e];
    assert o[0..e - s] == o;
    ObjectEndLocal(b, s, 1, Plain, 1, o, 0, e - s);
  }

  /** All that is used of the syntax check: of the byte strings the reader hands to
  it, those it accepts are well nested. It may accept other strings, such as bare
  values. */
  ghost predicate Sound(valid: Bytes -> bool) {
    forall raw :: Reads(valid, raw) ==> WellNested(raw)
  }

  /** From `at` on the document holds these objects with only gaps around them. */
  predicate Laid(b: Bytes, at: nat, fs: Frames)
    requires at <= |b|
    decreases fs
  {
    match fs
    case NoMore => Gap(b, at, |b|)
    case Frame(start, raw, rest) =>
      && at <= start && start + |raw| <= |b|
      && raw == b[start..start + |raw|]
      && Gap(b, at, start)
      && WellNested(raw)
      && Laid(b, start + |raw|, rest)
  }

  /** Bytes outside the objects are gaps. */
  lemma {:induction false} GapsAround(valid: Bytes -> bool, b: Bytes, at: nat, afterComma: bool)
    requires at <= |b|
    ensures match ElementAt(valid, b, at, afterComma)
            case Faulty => true
            case Closing => Gap(b, at, |b|)
            case Object(s, e, t) =>
              && Gap(b, at, s) && Gap(b, e, t + 1)
              && (b[t] == RBRACKET ==> Gap(b, e, |b|))
  {
    var s := SkipSpace(b, at);
    SkippedIsSpace(b, at);
    match ElementAt(valid, b, at, afterComma)
    case Faulty =>
    case Closing => SkippedIsSpace(b, s + 1);
    case Object(_, e, t) =>
      SkippedIsSpace(b, e);
      if b[t] == RBRACKET { SkippedIsSpace(b, t + 1); }
  }

  lemma {:induction false} LaidFrame(b: Bytes, at: nat, s: nat, e: nat, rest: Frames)
    requires at <= s <= e <= |b| && Gap(b, at, s) && WellNested(b[s..e]) && Laid(b, e, rest)
    ensures Laid(b, at, Frame(s, b[s..e], rest))
  {
  }

  lemma {:induction false} LaidEarlier(b: Bytes, at: nat, later: nat, fs: Frames)
    requires at <= later <= |b| && Gap(b, at, later) && Laid(b, later, fs)
    ensures Laid(b, at, fs)
  {
  }

  /** An element goes before what follows its separator. */
  lemma {:induction false} ElementLaid(valid: Bytes -> bool, b: Bytes, at: nat, afterComma: bool, rest: Frames)
    requires Sound(valid) && at <= |b| && ElementAt(valid, b, at, afterComma).Object?
    requires var t := ElementAt(valid, b, at, afterComma).separator;
             if b[t] == RBRACKET then rest == NoMore else Laid(b, t + 1, rest)
    ensures var r := ElementAt(valid, b, at, afterComma); Laid(b, at, Frame(r.start, b[r.start..r.end], rest))
  {
    var r := ElementAt(valid, b, at, afterComma);
    GapsAround(valid, b, at, afterComma);
    ElementReads(valid, b, r.start, r.end);
    if b[r.separator] != RBRACKET {
      LaidEarlier(b, r.end, r.separator + 1, rest);
    }
    LaidFrame(b, at, r.start, r.end, rest);
  }

  lemma {:induction false} StreamedLaid(valid: Bytes -> bool, b: Bytes, at: nat, afterComma: bool)
    requires Sound(valid) && at <= |b| && StreamFrom(valid, b, at, afterComma).Some?
    ensures Laid(b, at, StreamFrom(valid, b, at, afterComma).value)
    decreases |b| - at
  {
    match ElementAt(valid, b, at, afterComma)
    case Closing => GapsAround(valid, b, at, afterComma);
    case Object(s, e, t) =>
      if b[t] == RBRACKET {
        ElementLaid(valid, b, at, afterComma, NoMore);
      } else {
        StreamedLaid(valid, b, t + 1, true);
        ElementLaid(valid, b, at, afterComma, StreamFrom(valid, b, t + 1, true).value);
      }
  }

  /** Past the gap before an object the scan has found nothing. */
  lemma {:induction false} ScanToObject(b: Bytes, at: nat, s: nat, c: nat, objects: seq<Bytes>)
    requires at <= s <= c <= |b| && Gap(b, at, s)
    ensures ScanTo(b, at, c, Idle(objects)) == ScanTo(b, s, c, Idle(objects))
  {
    ScanGap(b, at, s, objects);
    ScanInParts(b, at, s, c, Idle(objects));
  }

  /** Scanning a cut that may end before, inside or after one object. */
  lemma {:induction false} ScanOneObject(b: Bytes, at: nat, s: nat, raw: Bytes, c: nat, objects: seq<Bytes>)
    requires at <= s && at <= c <= |b| && s + |raw| <= |b| && raw == b[s..s + |raw|] && WellNested(raw) && Gap(b, at, s)
    ensures c < s + |raw| ==> ScanTo(b, at, c, Idle(objects)).objects == objects
    ensures c >= s + |raw| ==>
              ScanTo(b, at, c, Idle(objects)) == ScanTo(b, s + |raw|, c, Idle(objects + [raw]))
  {
    if c <= s {
      assert Gap(b, at, c);
      ScanGap(b, at, c, objects);
    } else {
      ScanToObject(b, at, s, c, objects);
      if c < s + |raw| {
        ScanCutShort(b, s, raw, c, objects);
      } else {
        ScanObject(b, s, raw, objects);
        ScanInParts(b, s, s + |raw|, c, Idle(objects));
      }
    }
  }

  /** What the scan of a cut has found. */
  function Found(b: Bytes, i: nat, j: nat, objects: seq<Bytes>): (r: seq<Bytes>)
    requires i <= j <= |b|
  {
    ScanTo(b, i, j, Idle(objects)).objects
  }

  lemma {:induction false} FoundInGap(b: Bytes, i: nat, j: nat, c: nat, objects: seq<Bytes>)
    requires i <= c <= j <= |b| && Gap(b, i, j)
    ensures Found(b, i, c, objects) == objects
  {
    ScanGap(b, i, c, objects);
  }

  lemma {:induction false} FoundOne(b: Bytes, at: nat, fs: Frames, c: nat, objects: seq<Bytes>)
    requires at <= c <= |b| && fs.Frame? && Laid(b, at, fs)
    ensures c < fs.start + |fs.raw| ==> Found(b, at, c, objects) == objects
    ensures c >= fs.start + |fs.raw| ==>
              Found(b, at, c, objects) == Found(b, fs.start + |fs.raw|, c, objects + [fs.raw])
  {
    ScanOneObject(b, at, fs.start, fs.raw, c, objects);
  }

  /** Scanning a cut finds exactly the objects that lie wholly inside it. */
  lemma {:induction false} ScanCut(b: Bytes, at: nat, fs: Frames, c: nat, objects: seq<Bytes>)
    requires at <= c <= |b| && Laid(b, at, fs)
    ensures Found(b, at, c, objects) == objects + Within(fs, c)
    decreases fs
  {
    match fs
    case NoMore => FoundInGap(b, at, |b|, c, objects);
    case Frame(start, raw, rest) =>
      FoundOne(b, at, fs, c, objects);
      if start + |raw| <= c {
        ScanCut(b, start + |raw|, rest, c, objects + [raw]);
        assert objects + [raw] + Within(rest, c) == objects + ([raw] + Within(rest, c));
      }
  }

  // --------------------------------------------------- reading the repair back

  /** Every object of a list reads back. */
  predicate AllRead(valid: Bytes -> bool, fs: Frames) {
    match fs
    case NoMore => true
    case Frame(_, raw, rest) => Reads(valid, raw) && AllRead(valid, rest)
  }

  lemma {:induction false} StreamedReads(valid: Bytes -> bool, b: Bytes, at: nat, afterComma: bool)
    requires at <= |b| && StreamFrom(valid, b, at, afterComma).Some?
    ensures AllRead(valid, StreamFrom(valid, b, at, afterComma).value)
    decreases |b| - at
  {
    match ElementAt(valid, b, at, afterComma)
    case Closing =>
    case Object(s, e, t) =>
      ElementReads(valid, b, s, e);
      if b[t] == COMMA {
        StreamedReads(valid, b, t + 1, true);
      }
  }

  /** The array `b` holds the objects from position `at` on, each followed by a
  comma or, the last, by the closing bracket that ends the document. */
  predicate Holds(b: Bytes, at: nat, fs: Frames)
    decreases fs
  {
    fs.Frame? &&
    var n := |fs.raw|;
    && fs.start == at && at + n < |b|
    && b[at..at + n] == fs.raw
    && if fs.rest.NoMore? then b[at + n] == RBRACKET && at + n + 1 == |b|
       else b[at + n] == COMMA && Holds(b, at + n + 1, fs.rest)
  }

  /** A held object is the element at its position. */
  lemma {:induction false} HeldElement(valid: Bytes -> bool, b: Bytes, at: nat, afterComma: bool, o: Bytes)
    requires Reads(valid, o) && at + |o| < |b| && b[at..at + |o|] == o
    requires b[at + |o|] == COMMA || (b[at + |o|] == RBRACKET && at + |o| + 1 == |b|)
    ensures ElementAt(valid, b, at, afterComma) == Object(at, at + |o|, at + |o|)
  {
    assert b[at] == b[at..at + |o|][0];
    assert o[0..|o|] == o;
    ObjectEndLocal(o, 0, 1, Plain, 1, b, at, |o|);
  }

  lemma {:induction false} HeldStep(valid: Bytes -> bool, b: Bytes, at: nat, afterComma: bool, o: Bytes, rest: Frames)
    requires at + |o| < |b| && b[at..at + |o|] == o
    requires ElementAt(valid, b, at, afterComma) == Object(at, at + |o|, at + |o|)
    requires if b[at + |o|] == RBRACKET then rest == NoMore else StreamFrom(valid, b, at + |o| + 1, true) == Some(rest)
    ensures StreamFrom(valid, b, at, afterComma) == Some(Frame(at, o, rest))
  {
  }

  /** Such an array streams back as its objects. */
  lemma {:induction false} HeldStreams(valid: Bytes -> bool, b: Bytes, at: nat, afterComma: bool, fs: Frames)
    requires at <= |b| && Holds(b, at, fs) && AllRead(valid, fs)
    ensures StreamFrom(valid, b, at, afterComma) == Some(fs)
    decreases fs
  {
    HeldElement(valid, b, at, afterComma, fs.raw);
    if fs.rest.Frame? {
      HeldStreams(valid, b, at + |fs.raw| + 1, true, fs.rest);
    }
    HeldStep(valid, b, at, afterComma, fs.raw, fs.rest);
  }

  /** The frames of an array that holds just these objects from `at` on. */
  function Relaid(at: nat, objects: seq<Bytes>): (fs: Frames)
    decreases |objects|
  {
    if objects == [] then NoMore
    else Frame(at, objects[0], Relaid(at + |objects[0]| + 1, objects[1..]))
  }

  lemma {:induction false} RelaidRaws(at: nat, objects: seq<Bytes>)
    ensures Raws(Relaid(at, objects)) == objects
    decreases |objects|
  {
    if objects != [] {
      RelaidRaws(at + |objects[0]| + 1, objects[1..]);
      assert objects == [objects[0]] + objects[1..];
    }
  }

  lemma {:induction false} WithinReads(valid: Bytes -> bool, fs: Frames, cut: nat, at: nat)
    requires AllRead(valid, fs)
    ensures AllRead(valid, Relaid(at, Within(fs, cut)))
    decreases fs
  {
    match fs
    case NoMore =>
    case Frame(start, raw, rest) =>
      if start + |raw| <= cut {
        WithinReads(valid, rest, cut, at + |raw| + 1);
        assert Within(fs, cut)[1..] == Within(rest, cut);
      }
  }

  /** Joining is the same from the front. */
  lemma {:induction false} JoinedFront(objects: seq<Bytes>)
    requires |objects| > 1
    ensures Joined(objects) == objects[0] + [COMMA] + Joined(objects[1..])
  {
    var front, last := objects[..|objects| - 1], objects[|objects| - 1];
    if |objects| == 2 {
      assert front == [objects[0]] && objects[1..] == [last];
    } else {
      JoinedFront(front);
      assert front[1..] == objects[1..][..|objects| - 2];
      assert Joined(objects[1..]) == Joined(front[1..]) + [COMMA] + last;
      assert objects[0] + [COMMA] + Joined(front[1..]) + [COMMA] + last
          == objects[0] + [COMMA] + (Joined(front[1..]) + [COMMA] + last);
    }
  }

  /** The objects of a list separated by commas. */
  function Listed(fs: Frames): (r: Bytes) {
    match fs
    case NoMore => []
    case Frame(_, raw, NoMore) => raw
    case Frame(_, raw, rest) => raw + [COMMA] + Listed(rest)
  }

  lemma {:induction false} ListedIsJoined(at: nat, objects: seq<Bytes>)
    requires objects != []
    ensures Listed(Relaid(at, objects)) == Joined(objects)
    decreases |objects|
  {
    if |objects| > 1 {
      JoinedFront(objects);
      ListedIsJoined(at + |objects[0]| + 1, objects[1..]);
    }
  }

  /** Each object starts just past the separator of the one before. */
  predicate Packed(at: nat, fs: Frames)
    decreases fs
  {
    match fs
    case NoMore => true
    case Frame(start, raw, rest) => start == at && Packed(at + |raw| + 1, rest)
  }

  lemma {:induction false} RelaidPacked(at: nat, objects: seq<Bytes>)
    ensures Packed(at, Relaid(at, objects))
    decreases |objects|
  {
    if objects != [] {
      RelaidPacked(at + |objects[0]| + 1, objects[1..]);
    }
  }

  lemma {:induction false} ListedHolds(b: Bytes, at: nat, fs: Frames)
    requires fs.Frame? && Packed(at, fs) && at <= |b| && b[at..] == Listed(fs) + [RBRACKET]
    ensures Holds(b, at, fs)
    decreases fs
  {
    match fs.rest
    case NoMore =>
      assert fs.raw + [RBRACKET] + [] == fs.raw + [RBRACKET];
    case Frame(_, _, _) =>
      var tail := Listed(fs.rest) + [RBRACKET];
      assert fs.raw + [COMMA] + Listed(fs.rest) + [RBRACKET] == fs.raw + [COMMA] + tail;
      ListedHolds(b, at + |fs.raw| + 1, fs.rest);
  }

  // ------------------------------------------------------------------ theorems

  lemma {:induction false} WithinIsPrefix(fs: Frames, cut: nat)
    ensures Within(fs, cut) <= Raws(fs)
    decreases fs
  {
    match fs
    case NoMore =>
    case Frame(_, _, rest) => WithinIsPrefix(rest, cut);
  }

  /** Padding before the bracket is skipped alike by reader and repair. */
  lemma {:induction false} StartAgrees(b: Bytes, cut: nat)
    requires ArrayStart(b).Some? && cut <= |b|
    ensures var n := ArrayStart(b).value;
            SkipPadding(b[..cut], 0) == if cut < n then cut else n - 1
  {
    var n := ArrayStart(b).value;
    var bom := if BOM <= b then 3 else 0;
    SkippedIsSpace(b, bom);
    forall i | 0 <= i < n - 1 ensures IsPadding(b[i]) {
      if i < bom { assert b[i] == BOM[i]; }
    }
    PaddingEnds(b[..cut], 0, if cut < n then cut else n - 1);
  }

  lemma {:induction false} StartsAtBracket(b: Bytes)
    requires b != [] && b[0] == LBRACKET
    ensures ArrayStart(b) == Some(1)
  {
    assert BOM[0] != b[0];
  }

  lemma {:induction false} ClosedHolds(objects: seq<Bytes>)
    requires objects != []
    ensures Closed(objects)[0] == LBRACKET && Holds(Closed(objects), 1, Relaid(1, objects))
  {
    var r := Closed(objects);
    assert r[1..] == Joined(objects) + [RBRACKET];
    ListedIsJoined(1, objects);
    RelaidPacked(1, objects);
    ListedHolds(r, 1, Relaid(1, objects));
  }

  lemma {:induction false} ClosedStreams(valid: Bytes -> bool, objects: seq<Bytes>)
    requires objects != [] && AllRead(valid, Relaid(1, objects))
    ensures StreamAll(valid, Closed(objects)) == Some(Relaid(1, objects))
  {
    ClosedHolds(objects);
    StartsAtBracket(Closed(objects));
    HeldStreams(valid, Closed(objects), 1, false, Relaid(1, objects));
  }

  /** What the repair of a cut is, in terms of the objects laid out in it. */
  lemma {:induction false} RepairKeeps(doc: Bytes, n: nat, fs: Frames, cut: nat)
    requires 0 < n <= |doc| && cut <= |doc| && doc[n - 1] == LBRACKET && Laid(doc, n, fs)
    requires SkipPadding(doc[..cut], 0) == if cut < n then cut else n - 1
    ensures var kept := Within(fs, cut);
            Repair(doc[..cut]) == if kept == [] then None else Some(Closed(kept))
  {
    var head := doc[..cut];
    if cut < n {
      assert Within(fs, cut) == [];
    } else {
      assert head[n - 1] == LBRACKET;
      ScanLocal(doc, head, n, cut, Idle([]));
      ScanCut(doc, n, fs, cut, []);
      assert [] + Within(fs, cut) == Within(fs, cut);
    }
  }

  lemma {:induction false} CutStreams(valid: Bytes -> bool, doc: Bytes, n: nat, cut: nat)
    requires Sound(valid) && ArrayStart(doc) == Some(n) && StreamFrom(valid, doc, n, false).Some? && cut <= |doc|
    ensures var kept := Within(StreamFrom(valid, doc, n, false).value, cut);
            && Repair(doc[..cut]) == (if kept == [] then None else Some(Closed(kept)))
            && (kept != [] ==> StreamAll(valid, Closed(kept)) == Some(Relaid(1, kept)))
  {
    var fs := StreamFrom(valid, doc, n, false).value;
    StartAgrees(doc, cut);
    StreamedLaid(valid, doc, n, false);
    RepairKeeps(doc, n, fs, cut);
    if Within(fs, cut) != [] {
      StreamedReads(valid, doc, n, false);
      WithinReads(valid, fs, cut, 1);
      ClosedStreams(valid, Within(fs, cut));
    }
  }

  /** Cutting a streamable array anywhere, repairing the cut and streaming the
  result gives byte for byte the objects that lie wholly inside the cut, in
  order; and the repair refuses exactly when there is none. */
  lemma {:induction false} RepairedCutStreams(valid: Bytes -> bool, doc: Bytes, cut: nat)
    requires Sound(valid) && StreamAll(valid, doc).Some? && cut <= |doc|
    ensures var kept := Within(StreamAll(valid, doc).value, cut);
            && kept <= Raws(StreamAll(valid, doc).value)
            && (Repair(doc[..cut]).None? <==> kept == [])
            && (kept != [] ==>
                  && StreamAll(valid, Repair(doc[..cut]).value).Some?
                  && Raws(StreamAll(valid, Repair(doc[..cut]).value).value) == kept)
  {
    var kept := Within(StreamAll(valid, doc).value, cut);
    CutStreams(valid, doc, ArrayStart(doc).value, cut);
    WithinIsPrefix(StreamAll(valid, doc).value, cut);
    RelaidRaws(1, kept);
  }
}
