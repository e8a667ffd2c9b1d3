/** JSON values as the tabular readers see them.

An object keeps its members in source order and may repeat a name (RFC 8259
section 4). `Collapse` is the value that remains once a document has been read
into an insertion-ordered map: a repeated name keeps its first position and
takes its last value. */
module JsonTree {
  import opened Arithmetic
  import opened Options

  type NegI64 = i: int | -0x8000_0000_0000_0000 <= i < 0 witness -1

  /** The three classes a number token falls into once read. */
  datatype Number =
    | PosInt(u: U64)
    | NegInt(i: NegI64)
    | Float(f: real)

  /** Seconds since the epoch and the nanoseconds past them. */
  datatype Instant = Instant(seconds: int, nanos: nat)

  /** A string, together with what the calendar parsers make of it: whether it
  is a date, and the instant it names with and without an offset. */
  datatype Text = Text(chars: string, isDate: bool, zoned: Option<Instant>, naive: Option<Instant>)

  /** `Unreadable` is a token that is well-formed JSON but cannot be turned into
  a value: a number out of range or an unpaired surrogate escape. */
  datatype Json =
    | Null
    | Bool(b: bool)
    | Num(number: Number)
    | Str(text: Text)
    | Arr(items: seq<Json>)
    | Obj(members: seq<Member>)
    | Unreadable

  datatype Member = Member(name: string, value: Json)

  function Names(ms: seq<Member>): (ns: seq<string>)
    ensures |ns| == |ms|
    ensures forall i | 0 <= i < |ms| :: ns[i] == ms[i].name
  {
    seq(|ms|, i requires 0 <= i < |ms| => ms[i].name)
  }

  predicate HasName(ms: seq<Member>, name: string) {
    exists i | 0 <= i < |ms| :: ms[i].name == name
  }

  predicate DistinctNames(ms: seq<Member>) {
    forall i, j | 0 <= i < j < |ms| :: ms[i].name != ms[j].name
  }

  /** Position of the first member called `name`, or the length if there is none. */
  function IndexOf(ms: seq<Member>, name: string): (k: nat)
    ensures k <= |ms|
    ensures k < |ms| <==> HasName(ms, name)
    ensures k < |ms| ==> ms[k].name == name
    ensures forall i | 0 <= i < k :: ms[i].name != name
  {
    if ms == [] then 0
    else if ms[0].name == name then 0
    else 1 + IndexOf(ms[1..], name)
  }

  /** Map insertion that keeps the position of an entry it replaces. */
  function Put(ms: seq<Member>, name: string, value: Json): (r: seq<Member>) {
    var k := IndexOf(ms, name);
    if k < |ms| then ms[k := Member(name, value)] else ms + [Member(name, value)]
  }

  /** Every token can be turned into a value. */
  predicate Readable(v: Json) {
    match v
    case Unreadable => false
    case Arr(items) => forall i | 0 <= i < |items| :: Readable(items[i])
    case Obj(ms) => forall i | 0 <= i < |ms| :: Readable(ms[i].value)
    case _ => true
  }

  /** No object anywhere in the tree repeats a name. */
  predicate NoRepeats(v: Json) {
    match v
    case Arr(items) => forall i | 0 <= i < |items| :: NoRepeats(items[i])
    case Obj(ms) => DistinctNames(ms) && forall i | 0 <= i < |ms| :: NoRepeats(ms[i].value)
    case _ => true
  }

  function Collapse(v: Json): (r: Json)
    decreases v, 1
  {
    match v
    case Arr(items) => Arr(seq(|items|, i requires 0 <= i < |items| => Collapse(items[i])))
    case Obj(ms) => Obj(CollapseMembers(ms))
    case _ => v
  }

  function CollapseMembers(ms: seq<Member>): (r: seq<Member>)
    ensures DistinctNames(r)
    ensures forall n :: HasName(r, n) <==> HasName(ms, n)
    decreases ms, 0
  {
    if ms == [] then []
    else
      var last := ms[|ms| - 1];
      PutKeepsNames(CollapseMembers(ms[..|ms| - 1]), last.name, Collapse(last.value));
      Put(CollapseMembers(ms[..|ms| - 1]), last.name, Collapse(last.value))
  }

  lemma {:induction false} PutKeepsNames(ms: seq<Member>, name: string, value: Json)
    requires DistinctNames(ms)
    ensures DistinctNames(Put(ms, name, value))
    ensures forall n :: HasName(Put(ms, name, value), n) <==> n == name || HasName(ms, n)
  {
    var r := Put(ms, name, value);
    var k := IndexOf(ms, name);
    assert r[k].name == name;
    forall n | HasName(ms, n) ensures HasName(r, n) {
      var i := IndexOf(ms, n);
      assert r[i].name == n;
    }
  }

  /** The position of the last member called `name`. */
  function LastIndexOf(ms: seq<Member>, name: string): (k: nat)
    requires HasName(ms, name)
    ensures k < |ms| && ms[k].name == name
    ensures forall i | k < i < |ms| :: ms[i].name != name
  {
    if ms[|ms| - 1].name == name then |ms| - 1
    else
      assert HasName(ms[..|ms| - 1], name) by {
        var i := IndexOf(ms, name);
        assert ms[..|ms| - 1][i].name == name;
      }
      LastIndexOf(ms[..|ms| - 1], name)
  }

  /** A collapsed object holds, under each name, the collapse of the last value
  given to that name. */
  lemma {:induction false} CollapseTakesLast(ms: seq<Member>, name: string)
    requires HasName(ms, name)
    ensures var r := CollapseMembers(ms);
            r[IndexOf(r, name)].value == Collapse(ms[LastIndexOf(ms, name)].value)
  {
    var front := ms[..|ms| - 1];
    var last := ms[|ms| - 1];
    var inner := CollapseMembers(front);
    var r := CollapseMembers(ms);
    assert r == Put(inner, last.name, Collapse(last.value));
    if last.name == name {
      var k := IndexOf(inner, name);
      assert r[k] == Member(name, Collapse(last.value));
      assert IndexOf(r, name) == k;
    } else {
      assert HasName(front, name) by {
        var i := IndexOf(ms, name);
        assert front[i].name == name;
      }
      CollapseTakesLast(front, name);
      var k := IndexOf(inner, name);
      assert r[k] == inner[k];
      assert IndexOf(r, name) == k;
    }
  }

  /** Names in order of first appearance. */
  function FirstAppearances(ns: seq<string>): (r: seq<string>) {
    if ns == [] then []
    else
      var front := FirstAppearances(ns[..|ns| - 1]);
      if ns[|ns| - 1] in ns[..|ns| - 1] then front else front + [ns[|ns| - 1]]
  }

  /** A collapsed object lists its names in order of first appearance. */
  lemma {:induction false} CollapseKeepsFirstPositions(ms: seq<Member>)
    ensures Names(CollapseMembers(ms)) == FirstAppearances(Names(ms))
  {
    if ms != [] {
      var front := ms[..|ms| - 1];
      var last := ms[|ms| - 1];
      CollapseKeepsFirstPositions(front);
      assert Names(ms)[..|ms| - 1] == Names(front);
    }
  }

  /** Collapsing leaves no repeated name at any depth. */
  lemma {:induction false} CollapseHasNoRepeats(v: Json)
    ensures NoRepeats(Collapse(v))
    decreases v, 1
  {
    match v
    case Arr(items) =>
      forall i | 0 <= i < |items| ensures NoRepeats(Collapse(items[i])) {
        CollapseHasNoRepeats(items[i]);
      }
    case Obj(ms) => CollapseMembersHasNoRepeats(ms);
    case _ =>
  }

  lemma {:induction false} CollapseMembersHasNoRepeats(ms: seq<Member>)
    ensures forall m | m in CollapseMembers(ms) :: NoRepeats(m.value)
    decreases ms, 0
  {
    if ms != [] {
      CollapseMembersHasNoRepeats(ms[..|ms| - 1]);
      CollapseHasNoRepeats(ms[|ms| - 1].value);
    }
  }

  /** A tree without repeated names is its own collapse. */
  lemma {:induction false} CollapseOfDistinct(v: Json)
    requires NoRepeats(v)
    ensures Collapse(v) == v
    decreases v, 1
  {
    match v
    case Arr(items) =>
      forall i | 0 <= i < |items| ensures Collapse(items[i]) == items[i] {
        CollapseOfDistinct(items[i]);
      }
      assert Collapse(v).items == items;
    case Obj(ms) => CollapseMembersOfDistinct(ms);
    case _ =>
  }

  lemma {:induction false} CollapseMembersOfDistinct(ms: seq<Member>)
    requires DistinctNames(ms)
    requires forall i | 0 <= i < |ms| :: NoRepeats(ms[i].value)
    ensures CollapseMembers(ms) == ms
    decreases ms, 0
  {
    if ms != [] {
      var front := ms[..|ms| - 1];
      var last := ms[|ms| - 1];
      CollapseMembersOfDistinct(front);
      CollapseOfDistinct(last.value);
      assert !HasName(front, last.name);
      assert front + [last] == ms;
    }
  }

  /** Collapsing twice is collapsing once. */
  lemma {:induction false} CollapseIdempotent(v: Json)
    ensures Collapse(Collapse(v)) == Collapse(v)
  {
    CollapseHasNoRepeats(v);
    CollapseOfDistinct(Collapse(v));
  }

  /** The generic reader's value of a token tree: none if any token, kept or
  overwritten, cannot be read. */
  function ReadDom(v: Json): (r: Option<Json>) {
    if Readable(v) then Some(Collapse(v)) else None
  }
}
