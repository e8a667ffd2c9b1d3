/** How the streaming validator relates to the DOM validator, and the streaming
validator itself as the member-by-member visitor that carries a `seen` set and
a repeat flag. */
module Validation {
  import opened JsonTree
  import opened Options
  import opened LogicalTypes

  // ------------------------------------------------ flagging mode and the DOM

  /** Flagging mode looks at every occurrence, so what it accepts the DOM
  validator accepts after collapsing. */
  lemma {:induction false} FlagImpliesDom(v: Json, t: LogicalType, nullable: bool)
    requires WellFormed(t)
    requires StreamValue(v, t, nullable, Flag)
    ensures DomValue(Collapse(v), t, nullable)
    decreases v
  {
    match v
    case Arr(items) =>
      var w := Collapse(v);
      forall i | 0 <= i < |items| ensures w.items[i].Null? || DomType(w.items[i], t.element) {
        FlagImpliesDom(items[i], t.element, true);
      }
    case Obj(ms) =>
      var r := CollapseMembers(ms);
      forall j | 0 <= j < |t.fields| && HasName(r, t.fields[j].name)
        ensures DomValue(r[IndexOf(r, t.fields[j].name)].value, t.fields[j].dataType, t.fields[j].nullable)
      {
        var last := LastIndexOf(ms, t.fields[j].name);
        CollapseTakesLast(ms, t.fields[j].name);
        FieldIndexUnique(t.fields, j);
        assert StreamMember(ms, last, t.fields, Flag);
        FlagImpliesDom(ms[last].value, t.fields[j].dataType, t.fields[j].nullable);
      }
      forall i | 0 <= i < |r| ensures HasField(t.fields, r[i].name) {
        assert HasName(r, r[i].name);
        assert StreamMember(ms, IndexOf(ms, r[i].name), t.fields, Flag);
      }
      assert RequiredPresent(ms, t.fields);
      assert DomStruct(r, t.fields);
    case Num(n) => NumberViewsAgree(n, t);
    case _ =>
  }

  /** Without repeats the DOM validator looks at the same tokens. */
  lemma {:induction false} DomImpliesFlag(v: Json, t: LogicalType, nullable: bool)
    requires WellFormed(t) && NoRepeats(v) && Readable(v)
    requires DomValue(v, t, nullable)
    ensures StreamValue(v, t, nullable, Flag)
    decreases v
  {
    match v
    case Arr(items) =>
      forall i | 0 <= i < |items| ensures StreamValue(items[i], t.element, true, Flag) {
        DomImpliesFlag(items[i], t.element, true);
      }
    case Obj(ms) =>
      var fs := t.fields;
      assert DomStruct(ms, fs);
      forall i | 0 <= i < |ms| ensures StreamMember(ms, i, fs, Flag) {
        var k := FieldIndex(fs, ms[i].name);
        IndexOfUnique(ms, i);
        assert DomValue(ms[IndexOf(ms, fs[k].name)].value, fs[k].dataType, fs[k].nullable);
        DomImpliesFlag(ms[i].value, fs[k].dataType, fs[k].nullable);
      }
      assert StreamStruct(ms, fs, Flag);
    case Num(n) => NumberViewsAgree(n, t);
    case _ =>
  }

  /** Rejecting mode accepts exactly the readable trees without a repeated name
  that the DOM validator accepts. */
  lemma {:induction false} RejectModeExact(v: Json, t: LogicalType, nullable: bool)
    requires WellFormed(t)
    ensures StreamValue(v, t, nullable, Reject)
       <==> NoRepeats(v) && Readable(v) && DomValue(v, t, nullable)
  {
    RejectIsFlagWithoutRepeats(v, t, nullable);
    if StreamValue(v, t, nullable, Reject) {
      StreamReadable(v, t, nullable, Flag);
      FlagImpliesDom(v, t, nullable);
      CollapseOfDistinct(v);
    }
    if NoRepeats(v) && Readable(v) && DomValue(v, t, nullable) {
      DomImpliesFlag(v, t, nullable);
    }
  }

  /** Flagging mode is sound for the generic reader's value of the tokens, and
  complete when no name repeats. */
  lemma {:induction false} FlagModeSound(v: Json, t: LogicalType, nullable: bool)
    requires WellFormed(t)
    ensures StreamValue(v, t, nullable, Flag) ==> ReadDom(v).Some? && DomValue(Collapse(v), t, nullable)
    ensures NoRepeats(v) ==>
              (StreamValue(v, t, nullable, Flag) <==> ReadDom(v).Some? && DomValue(Collapse(v), t, nullable))
  {
    if StreamValue(v, t, nullable, Flag) {
      StreamReadable(v, t, nullable, Flag);
      FlagImpliesDom(v, t, nullable);
    }
    if NoRepeats(v) {
      CollapseOfDistinct(v);
      if Readable(v) && DomValue(v, t, nullable) {
        DomImpliesFlag(v, t, nullable);
      }
    }
  }

  // ------------------------------------- flagging mode over all resolutions

  /** `w` resolves the repeats of `v`: under every name it keeps one of the
  occurrences, itself resolved. */
  ghost predicate Resolves(w: Json, v: Json)
    decreases v, 1
  {
    match v
    case Arr(items) => w.Arr? && |w.items| == |items| && forall i | 0 <= i < |items| :: Resolves(w.items[i], items[i])
    case Obj(ms) =>
      && w.Obj?
      && DistinctNames(w.members)
      && (forall n :: HasName(w.members, n) <==> HasName(ms, n))
      && (forall k | 0 <= k < |w.members| :: FromOccurrence(w.members[k], ms))
    case _ => w == v
  }

  /** One member of a resolved object comes from one occurrence. */
  ghost predicate FromOccurrence(m: Member, ms: seq<Member>)
    decreases ms, 0
  {
    exists i | 0 <= i < |ms| :: ms[i].name == m.name && Resolves(m.value, ms[i].value)
  }

  /** The last-wins collapse is one of the resolutions. */
  lemma {:induction false} CollapseResolves(v: Json)
    ensures Resolves(Collapse(v), v)
    decreases v
  {
    match v
    case Arr(items) =>
      forall i | 0 <= i < |items| ensures Resolves(Collapse(items[i]), items[i]) {
        CollapseResolves(items[i]);
      }
    case Obj(ms) =>
      var r := CollapseMembers(ms);
      forall k | 0 <= k < |r|
        ensures FromOccurrence(r[k], ms)
      {
        assert HasName(r, r[k].name);
        IndexOfUnique(r, k);
        var last := LastIndexOf(ms, r[k].name);
        CollapseTakesLast(ms, r[k].name);
        CollapseResolves(ms[last].value);
      }
    case _ =>
  }

  /** Any occurrence of any name can be the one a resolution keeps. */
  lemma {:induction false} ResolutionKeeping(ms: seq<Member>, i: nat, w: Json) returns (r: Json)
    requires i < |ms| && Resolves(w, ms[i].value)
    ensures Resolves(r, Obj(ms))
    ensures var k := IndexOf(r.members, ms[i].name); k < |r.members| && r.members[k].value == w
  {
    CollapseResolves(Obj(ms));
    var base := CollapseMembers(ms);
    assert forall j | 0 <= j < |base| :: FromOccurrence(base[j], ms);
    assert HasName(ms, ms[i].name);
    var k := IndexOf(base, ms[i].name);
    PutKeepsNames(base, ms[i].name, w);
    var rs := Put(base, ms[i].name, w);
    assert rs == base[k := Member(ms[i].name, w)];
    IndexOfUnique(rs, k);
    assert FromOccurrence(rs[k], ms);
    assert forall j | 0 <= j < |rs| :: FromOccurrence(rs[j], ms);
    r := Obj(rs);
  }

  /** The exact meaning of flagging mode: a readable tree is accepted if and
  only if the DOM validator accepts every resolution of its repeats. */
  lemma {:induction false} FlagModeExact(v: Json, t: LogicalType, nullable: bool)
    requires WellFormed(t) && Readable(v)
    ensures StreamValue(v, t, nullable, Flag) <==> forall w | Resolves(w, v) :: DomValue(w, t, nullable)
  {
    if StreamValue(v, t, nullable, Flag) {
      forall w | Resolves(w, v) ensures DomValue(w, t, nullable) {
        FlagImpliesResolution(v, w, t, nullable);
      }
    } else {
      var w := RefutingResolution(v, t, nullable);
    }
  }

  lemma {:induction false} FlagImpliesResolution(v: Json, w: Json, t: LogicalType, nullable: bool)
    requires WellFormed(t) && Resolves(w, v)
    requires StreamValue(v, t, nullable, Flag)
    ensures DomValue(w, t, nullable)
    decreases v
  {
    match v
    case Arr(items) =>
      forall i | 0 <= i < |items| ensures w.items[i].Null? || DomType(w.items[i], t.element) {
        FlagImpliesResolution(items[i], w.items[i], t.element, true);
      }
    case Obj(ms) =>
      var r := w.members;
      var fs := t.fields;
      forall j | 0 <= j < |fs| && HasName(r, fs[j].name)
        ensures DomValue(r[IndexOf(r, fs[j].name)].value, fs[j].dataType, fs[j].nullable)
      {
        var k := IndexOf(r, fs[j].name);
        var i :| 0 <= i < |ms| && ms[i].name == r[k].name && Resolves(r[k].value, ms[i].value);
        FieldIndexUnique(fs, j);
        assert StreamMember(ms, i, fs, Flag);
        FlagImpliesResolution(ms[i].value, r[k].value, fs[j].dataType, fs[j].nullable);
      }
      forall i | 0 <= i < |r| ensures HasField(fs, r[i].name) {
        assert HasName(r, r[i].name);
        assert StreamMember(ms, IndexOf(ms, r[i].name), fs, Flag);
      }
      assert RequiredPresent(ms, fs);
      assert DomStruct(r, fs);
    case Num(n) => NumberViewsAgree(n, t);
    case _ =>
  }

  lemma {:induction false} RefutingResolution(v: Json, t: LogicalType, nullable: bool) returns (w: Json)
    requires WellFormed(t) && Readable(v)
    requires !StreamValue(v, t, nullable, Flag)
    ensures Resolves(w, v) && !DomValue(w, t, nullable)
    decreases v
  {
    CollapseResolves(v);
    w := Collapse(v);
    match v
    case Arr(items) =>
      if t.List? {
        var i :| 0 <= i < |items| && !StreamValue(items[i], t.element, true, Flag);
        var bad := RefutingResolution(items[i], t.element, true);
        w := Arr(w.items[i := bad]);
        assert !(w.items[i].Null? || DomType(w.items[i], t.element));
      }
    case Obj(ms) =>
      if t.Struct? {
        assert !StreamStruct(ms, t.fields, Flag);
        w := RefutingStruct(v, ms, t.fields);
      }
    case Num(n) => NumberViewsAgree(n, t);
    case _ =>
  }

  lemma {:induction false} RefutingStruct(v: Json, ms: seq<Member>, fs: seq<Field>) returns (w: Json)
    requires v == Obj(ms) && Readable(v) && WellFormedFields(fs)
    requires !StreamStruct(ms, fs, Flag)
    ensures Resolves(w, v) && !DomStruct(w.members, fs)
    decreases v, 0
  {
    CollapseResolves(v);
    w := Collapse(v);
    if i :| 0 <= i < |ms| && !StreamMember(ms, i, fs, Flag) {
      var k := FieldIndex(fs, ms[i].name);
      if k < |fs| {
        var bad := RefutingResolution(ms[i].value, fs[k].dataType, fs[k].nullable);
        w := ResolutionKeeping(ms, i, bad);
        assert !DomValue(w.members[IndexOf(w.members, fs[k].name)].value, fs[k].dataType, fs[k].nullable);
      } else {
        assert HasName(ms, ms[i].name);
        var j := IndexOf(w.members, ms[i].name);
        assert !HasField(fs, w.members[j].name);
      }
    } else {
      var j :| 0 <= j < |fs| && !fs[j].nullable && !HasName(ms, fs[j].name);
      assert IndexOf(w.members, fs[j].name) == |w.members|;
    }
  }

  // --------------------------------------------------------- the visitor loop

  function NamesUpTo(ms: seq<Member>, n: nat): set<string>
    requires n <= |ms|
  {
    set i | 0 <= i < n :: ms[i].name
  }

  predicate DistinctUpTo(ms: seq<Member>, n: nat)
    requires n <= |ms|
  {
    forall i, j | 0 <= i < j < n :: ms[i].name != ms[j].name
  }

  /** The first `n` members repeat no name and nothing below them does. */
  predicate QuietUpTo(ms: seq<Member>, n: nat)
    requires n <= |ms|
  {
    DistinctUpTo(ms, n) && forall i | 0 <= i < n :: NoRepeats(ms[i].value)
  }

  lemma {:induction false} VisitStep(ms: seq<Member>, n: nat)
    requires n < |ms|
    ensures NamesUpTo(ms, n + 1) == NamesUpTo(ms, n) + {ms[n].name}
    ensures DistinctUpTo(ms, n + 1) <==> DistinctUpTo(ms, n) && ms[n].name !in NamesUpTo(ms, n)
    ensures QuietUpTo(ms, n + 1) <==> QuietUpTo(ms, n) && ms[n].name !in NamesUpTo(ms, n) && NoRepeats(ms[n].value)
  {
  }

  /** Visits one value. `flagged` is the caller's flag, threaded through: it
  comes back raised exactly when it was raised already or some object inside an
  accepted value repeats a name. */
  method VisitValue(v: Json, t: LogicalType, nullable: bool, mode: Repeats, flagged: bool)
    returns (ok: bool, flag: bool)
    ensures ok == StreamValue(v, t, nullable, mode)
    ensures ok ==> flag == (flagged || !NoRepeats(v))
    decreases v, 1
  {
    flag := flagged;
    match v
    case Null => ok := nullable || t.NullType?;
    case Bool(_) => ok := t.Boolean?;
    case Num(n) => ok := StreamNumber(n, t);
    case Str(s) => ok := TextMatches(s, t);
    case Arr(items) =>
      if !t.List? { return false, flag; }
      ok, flag := VisitItems(v, items, t.element, mode, flagged);
    case Obj(ms) =>
      if !t.Struct? { return false, flag; }
      ok, flag := VisitMembers(v, ms, t.fields, mode, flagged);
    case Unreadable => ok := false;
  }

  method VisitItems(ghost v: Json, items: seq<Json>, element: LogicalType, mode: Repeats, flagged: bool)
    returns (ok: bool, flag: bool)
    requires v == Arr(items)
    ensures ok == StreamValue(v, List(element), true, mode)
    ensures ok ==> flag == (flagged || !NoRepeats(v))
    decreases v, 0
  {
    flag := flagged;
    for i := 0 to |items|
      invariant forall j | 0 <= j < i :: StreamValue(items[j], element, true, mode)
      invariant flag == (flagged || exists j | 0 <= j < i :: !NoRepeats(items[j]))
    {
      var inner;
      inner, flag := VisitValue(items[i], element, true, mode, flag);
      if !inner {
        return false, flag;
      }
    }
    ok := true;
  }

  method VisitMembers(ghost v: Json, ms: seq<Member>, fs: seq<Field>, mode: Repeats, flagged: bool)
    returns (ok: bool, flag: bool)
    requires v == Obj(ms)
    ensures ok == StreamStruct(ms, fs, mode)
    ensures ok ==> flag == (flagged || !NoRepeats(v))
    decreases v, 0
  {
    flag := flagged;
    var seen: set<string> := {};
    for i := 0 to |ms|
      invariant forall j | 0 <= j < i :: StreamMember(ms, j, fs, mode)
      invariant seen == NamesUpTo(ms, i)
      invariant mode.Reject? ==> DistinctUpTo(ms, i)
      invariant flag == (flagged || !QuietUpTo(ms, i))
    {
      VisitStep(ms, i);
      var k := FieldIndex(fs, ms[i].name);
      if k == |fs| {
        assert !StreamMember(ms, i, fs, mode);
        return false, flag;
      }
      if ms[i].name in seen {
        if mode.Reject? {
          assert !DistinctUpTo(ms, i + 1);
          assert !DistinctNames(ms);
          return false, flag;
        }
        flag := true;
      }
      seen := seen + {ms[i].name};
      var inner;
      inner, flag := VisitValue(ms[i].value, fs[k].dataType, fs[k].nullable, mode, flag);
      if !inner {
        assert !StreamMember(ms, i, fs, mode);
        return false, flag;
      }
    }
    ok := forall j | 0 <= j < |fs| :: fs[j].nullable || fs[j].name in seen;
  }
}
