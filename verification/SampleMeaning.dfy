/** What an inferred type says about the sampled values, and exactly when a sample
has none: classes of values at every path. */
module SampleMeaning {
  import opened JsonTree
  import opened Options
  import opened Arithmetic
  import opened LogicalTypes
  import opened ObservedTypes
  import opened MergeLaws
  import opened Inference

  // ------------------------------------------------------------------ classes

  datatype Class = Truth | Signed | Unsigned | Fractional | Textual | Listing | Record

  /** The class of a value that is not null. A number is signed if it is an integer
  of the signed 64-bit range, unsigned if only of the unsigned one. */
  function ClassOf(v: Json): (c: Class)
    requires IsDom(v) && !v.Null?
  {
    match v
    case Bool(_) => Truth
    case Num(n) => if AsI64(n).Some? then Signed else if AsU64(n).Some? then Unsigned else Fractional
    case Str(_) => Textual
    case Arr(_) => Listing
    case Obj(_) => Record
  }

  function Classes(vs: seq<Json>): (cs: set<Class>)
    requires AllDom(vs)
  {
    set i | 0 <= i < |vs| && !vs[i].Null? :: ClassOf(vs[i])
  }

  const NUMBERS: set<Class> := {Signed, Unsigned, Fractional}

  /** Values of these classes have a type in common. */
  predicate Mixable(cs: set<Class>) {
    cs <= NUMBERS || exists c :: cs == {c}
  }

  /** The classes an observed type stands for. */
  predicate Means(o: Observed, cs: set<Class>) {
    match o
    case ONull => cs == {}
    case OBoolean => cs == {Truth}
    case OInt64 => cs == {Signed}
    case OUInt64 => cs == {Unsigned}
    case OFloat64 => {} < cs <= NUMBERS && cs != {Signed} && cs != {Unsigned}
    case OUtf8 => cs == {Textual}
    case OList(_) => cs == {Listing}
    case OStruct(_) => cs == {Record}
  }

  lemma {:induction false} ClassesMore(front: seq<Json>, last: Json)
    requires AllDom(front) && IsDom(last)
    ensures AllDom(front + [last])
    ensures Classes(front + [last]) == Classes(front) + if last.Null? then {} else {ClassOf(last)}
  {
    var vs := front + [last];
    assert vs[|front|] == last;
    forall c | c in Classes(front) ensures c in Classes(vs) {
      var i :| 0 <= i < |front| && !front[i].Null? && ClassOf(front[i]) == c;
      assert vs[i] == front[i];
    }
    forall c | c in Classes(vs) ensures c in Classes(front) + if last.Null? then {} else {ClassOf(last)} {
      var i :| 0 <= i < |vs| && !vs[i].Null? && ClassOf(vs[i]) == c;
      if i < |front| {
        assert vs[i] == front[i];
      }
    }
  }

  lemma {:induction false} ObservedMeans(v: Json)
    requires IsDom(v) && Observe(v).Some?
    ensures Means(Observe(v).value, if v.Null? then {} else {ClassOf(v)})
  {
  }

  /** Merging adds classes. */
  lemma {:induction false} MergeMeans(a: Observed, b: Observed, x: set<Class>, y: set<Class>)
    requires Means(a, x) && Means(b, y) && Merge(a, b).Some?
    ensures Means(Merge(a, b).value, x + y)
  {
    MergeKinds(a, b);
    if a.ONull? {
      assert x + y == y;
    } else if b.ONull? {
      assert x + y == x;
    }
  }

  /** The type of a sample stands for the classes of its values. */
  lemma {:induction false} SampleMeans(vs: seq<Json>)
    requires AllDom(vs) && ObserveAll(vs).Some?
    ensures Means(ObserveAll(vs).value, Classes(vs))
  {
    if vs != [] {
      var front, last := vs[..|vs| - 1], vs[|vs| - 1];
      assert vs == front + [last];
      SampleMeans(front);
      ObservedMeans(last);
      ClassesMore(front, last);
      var added := if last.Null? then {} else {ClassOf(last)};
      MergeMeans(ObserveAll(front).value, Observe(last).value, Classes(front), added);
    }
  }

  lemma {:induction false} MeansMixable(o: Observed, cs: set<Class>)
    requires Means(o, cs)
    ensures Mixable(cs)
  {
  }

  // ---------------------------------------------------------------- one level

  lemma {:induction false} NoItems(vs: seq<Json>)
    requires forall i | 0 <= i < |vs| :: !vs[i].Arr?
    ensures ItemValues(vs) == []
  {
    if vs != [] {
      NoItems(vs[..|vs| - 1]);
    }
  }

  lemma {:induction false} NoMembers(vs: seq<Json>, name: string)
    requires forall i | 0 <= i < |vs| :: !vs[i].Obj?
    ensures FieldValues(vs, name) == []
  {
    if vs != [] {
      NoMembers(vs[..|vs| - 1], name);
    }
  }

  lemma {:induction false} ItemValuesDom(vs: seq<Json>)
    requires AllDom(vs)
    ensures AllDom(ItemValues(vs))
  {
    if vs != [] {
      ItemValuesDom(vs[..|vs| - 1]);
      ItemsDom(vs[|vs| - 1]);
    }
  }

  lemma {:induction false} ClassesAre(vs: seq<Json>, c: Class)
    requires AllDom(vs) && c !in Classes(vs)
    ensures forall i | 0 <= i < |vs| && !vs[i].Null? :: ClassOf(vs[i]) != c
  {
  }

  /** A sample with a type has one at the next level. */
  lemma {:induction false} TypedBelow(vs: seq<Json>, name: string)
    requires AllDom(vs) && ObserveAll(vs).Some?
    ensures ObserveAll(ItemValues(vs)).Some? && ObserveAll(FieldValues(vs, name)).Some?
  {
    SampleMeans(vs);
    var o := ObserveAll(vs).value;
    if o.OList? {
      ListExplained(vs);
    } else {
      ClassesAre(vs, Listing);
      NoItems(vs);
    }
    if o.OStruct? {
      StructExplained(vs, name);
    } else {
      ClassesAre(vs, Record);
      NoMembers(vs, name);
    }
  }

  /** What is asked of a sample one level down. */
  ghost predicate Below(vs: seq<Json>) {
    ObserveAll(ItemValues(vs)).Some? && forall name :: ObserveAll(FieldValues(vs, name)).Some?
  }

  lemma {:induction false} MixableLess(x: set<Class>, y: set<Class>)
    requires Mixable(x + y)
    ensures Mixable(x)
  {
    if !(x + y <= NUMBERS) {
      var c :| x + y == {c};
      assert x == {} || x == {c};
    }
  }

  lemma {:induction false} FrontBelow(front: seq<Json>, last: Json)
    requires AllDom(front) && IsDom(last) && Below(front + [last])
    ensures Below(front)
  {
    var vs := front + [last];
    assert vs[..|vs| - 1] == front;
    ItemValuesDom(front);
    ItemsDom(last);
    if last.Arr? {
      ObserveInParts(ItemValues(front), last.items);
    } else {
      assert ItemValues(vs) == ItemValues(front);
    }
    forall name ensures ObserveAll(FieldValues(front, name)).Some? {
      assert ObserveAll(FieldValues(vs, name)).Some?;
      if last.Obj? && HasName(last.members, name) {
        LastValue(FieldValues(front, name), last.members[IndexOf(last.members, name)].value);
      } else {
        assert FieldValues(vs, name) == FieldValues(front, name);
      }
    }
  }

  lemma {:induction false} LastValue(values: seq<Json>, x: Json)
    ensures ObserveAll(values + [x]) == Join(ObserveAll(values), Observe(x))
  {
    assert (values + [x])[..|values|] == values;
  }

  /** The last value has a type of its own. */
  lemma {:induction false} LastTyped(front: seq<Json>, last: Json)
    requires AllDom(front) && IsDom(last) && Below(front + [last])
    ensures Observe(last).Some?
  {
    var vs := front + [last];
    assert vs[..|vs| - 1] == front;
    match last
    case Arr(items) =>
      ItemValuesDom(front);
      ItemsDom(last);
      ObserveInParts(ItemValues(front), items);
    case Obj(ms) =>
      forall i | 0 <= i < |ms| ensures Observe(ms[i].value).Some? {
        IndexOfUnique(ms, i);
        assert ObserveAll(FieldValues(vs, ms[i].name)).Some?;
        LastValue(FieldValues(front, ms[i].name), ms[i].value);
      }
    case _ =>
  }

  lemma {:induction false} ListsMerge(front: seq<Json>, last: Json)
    requires AllDom(front) && IsDom(last) && Below(front + [last]) && last.Arr? && Observe(last).Some?
    requires ObserveAll(front).Some? && ObserveAll(front).value.OList?
    ensures Merge(ObserveAll(front).value, Observe(last).value).Some?
  {
    var vs := front + [last];
    assert vs[..|vs| - 1] == front;
    ListExplained(front);
    ItemsDom(last);
    ObserveInParts(ItemValues(front), last.items);
    ListMerge(ObserveAll(front).value.element, Observe(last).value.element);
  }

  lemma {:induction false} FieldMerges(front: seq<Json>, last: Json, fs: seq<OField>, ls: seq<OField>, i: nat)
    requires AllDom(front) && IsDom(last) && Below(front + [last]) && last.Obj?
    requires ObserveAll(front) == Some(OStruct(fs)) && Observe(last) == Some(OStruct(ls)) && Distinct(fs) && i < |fs|
    ensures MergeInto(fs, i, ls).Some?
  {
    var vs, name := front + [last], fs[i].name;
    assert vs[..|vs| - 1] == front;
    StructExplained(front, name);
    ObservedObjectAt(last, name);
    PositionUnique(fs, i);
    if HasName(last.members, name) {
      assert ObserveAll(FieldValues(vs, name)).Some?;
      LastValue(FieldValues(front, name), last.members[IndexOf(last.members, name)].value);
    }
  }

  lemma {:induction false} StructsMerge(front: seq<Json>, last: Json)
    requires AllDom(front) && IsDom(last) && Below(front + [last]) && last.Obj? && Observe(last).Some?
    requires ObserveAll(front).Some? && ObserveAll(front).value.OStruct?
    ensures Merge(ObserveAll(front).value, Observe(last).value).Some?
  {
    var fs, ls := ObserveAll(front).value.fields, Observe(last).value.fields;
    ObserveAllProper(front);
    forall i | 0 <= i < |fs| ensures MergeInto(fs, i, ls).Some? {
      FieldMerges(front, last, fs, ls, i);
    }
    StructMerge(fs, ls);
  }

  /** Values of mixable classes with types below merge. */
  lemma {:induction false} LastMerges(front: seq<Json>, last: Json)
    requires AllDom(front) && IsDom(last) && Below(front + [last]) && Observe(last).Some?
    requires Mixable(Classes(front) + if last.Null? then {} else {ClassOf(last)})
    requires ObserveAll(front).Some?
    ensures Merge(ObserveAll(front).value, Observe(last).value).Some?
  {
    var f, l := ObserveAll(front).value, Observe(last).value;
    SampleMeans(front);
    ObservedMeans(last);
    MergeKinds(f, l);
    if f.OList? && l.OList? {
      ListsMerge(front, last);
    } else if f.OStruct? && l.OStruct? {
      StructsMerge(front, last);
    }
  }

  /** A sample has a type exactly if its classes mix and everything one level down
  has one. */
  lemma {:induction false} OneLevel(vs: seq<Json>)
    requires AllDom(vs)
    ensures ObserveAll(vs).Some? <==> Mixable(Classes(vs)) && Below(vs)
    decreases |vs|
  {
    if ObserveAll(vs).Some? {
      SampleMeans(vs);
      MeansMixable(ObserveAll(vs).value, Classes(vs));
      forall name ensures ObserveAll(FieldValues(vs, name)).Some? {
        TypedBelow(vs, name);
      }
      TypedBelow(vs, "");
    } else if Mixable(Classes(vs)) && Below(vs) && vs != [] {
      var front, last := vs[..|vs| - 1], vs[|vs| - 1];
      assert vs == front + [last];
      ClassesMore(front, last);
      MixableLess(Classes(front), if last.Null? then {} else {ClassOf(last)});
      FrontBelow(front, last);
      OneLevel(front);
      LastTyped(front, last);
      LastMerges(front, last);
    }
  }

  // ---------------------------------------------------------------- all levels

  function Height(v: Json): (h: nat)
    decreases v, 1
  {
    match v
    case Arr(items) => 1 + HeightOf(items)
    case Obj(ms) => 1 + MembersHeight(ms)
    case _ => 0
  }

  function HeightOf(vs: seq<Json>): (h: nat)
    decreases vs, 0
  {
    if vs == [] then 0 else Max(HeightOf(vs[..|vs| - 1]), Height(vs[|vs| - 1]))
  }

  function MembersHeight(ms: seq<Member>): (h: nat)
    decreases ms, 0
  {
    if ms == [] then 0 else Max(MembersHeight(ms[..|ms| - 1]), Height(ms[|ms| - 1].value))
  }

  lemma {:induction false} HeightOfSum(xs: seq<Json>, ys: seq<Json>)
    ensures HeightOf(xs + ys) == Max(HeightOf(xs), HeightOf(ys))
    decreases |ys|
  {
    if ys == [] {
      assert xs + ys == xs;
    } else {
      var front := ys[..|ys| - 1];
      assert (xs + ys)[..|xs + ys| - 1] == xs + front;
      HeightOfSum(xs, front);
    }
  }

  lemma {:induction false} MemberHeight(ms: seq<Member>, i: nat)
    requires i < |ms|
    ensures Height(ms[i].value) <= MembersHeight(ms)
    decreases |ms|
  {
    if i < |ms| - 1 {
      MemberHeight(ms[..|ms| - 1], i);
    }
  }

  /** Going down a level loses height. */
  lemma {:induction false} ItemsLower(vs: seq<Json>)
    ensures ItemValues(vs) != [] ==> HeightOf(ItemValues(vs)) < HeightOf(vs)
  {
    if vs != [] {
      var front, last := vs[..|vs| - 1], vs[|vs| - 1];
      ItemsLower(front);
      HeightOfSum(ItemValues(front), if last.Arr? then last.items else []);
    }
  }

  lemma {:induction false} FieldsLower(vs: seq<Json>, name: string)
    ensures FieldValues(vs, name) != [] ==> HeightOf(FieldValues(vs, name)) < HeightOf(vs)
  {
    if vs != [] {
      var front, last := vs[..|vs| - 1], vs[|vs| - 1];
      FieldsLower(front, name);
      if last.Obj? && HasName(last.members, name) {
        var k := IndexOf(last.members, name);
        MemberHeight(last.members, k);
        HeightOfSum(FieldValues(front, name), [last.members[k].value]);
        assert HeightOf([last.members[k].value]) == Height(last.members[k].value) by {
          assert [last.members[k].value][..0] == [];
        }
      } else {
        assert FieldValues(vs, name) == FieldValues(front, name);
      }
    }
  }

  lemma {:induction false} ValuesAtDom(vs: seq<Json>, path: seq<PathStep>)
    requires AllDom(vs)
    ensures AllDom(ValuesAt(vs, path))
    decreases |path|
  {
    if path != [] {
      match path[0]
      case Elements =>
        ItemValuesDom(vs);
        ValuesAtDom(ItemValues(vs), path[1..]);
      case Into(n) =>
        FieldValuesDom(vs, n);
        ValuesAtDom(FieldValues(vs, n), path[1..]);
    }
  }

  /** At this path the values found have a type in common. */
  predicate MixesAt(vs: seq<Json>, path: seq<PathStep>) {
    AllDom(ValuesAt(vs, path)) && Mixable(Classes(ValuesAt(vs, path)))
  }

  ghost predicate MixesEverywhere(vs: seq<Json>) {
    forall path :: MixesAt(vs, path)
  }

  lemma {:induction false} TypedMixes(vs: seq<Json>, path: seq<PathStep>)
    requires AllDom(vs) && ObserveAll(vs).Some?
    ensures MixesAt(vs, path)
    decreases |path|
  {
    if path == [] {
      OneLevel(vs);
    } else {
      match path[0]
      case Elements =>
        TypedBelow(vs, "");
        ItemValuesDom(vs);
        TypedMixes(ItemValues(vs), path[1..]);
      case Into(n) =>
        TypedBelow(vs, n);
        FieldValuesDom(vs, n);
        TypedMixes(FieldValues(vs, n), path[1..]);
    }
  }

  lemma {:induction false} FirstStep(vs: seq<Json>, first: PathStep, path: seq<PathStep>)
    ensures ValuesAt(vs, [first] + path) == ValuesAt(ValuesAt(vs, [first]), path)
  {
    assert ([first] + path)[1..] == path && [first][1..] == [];
  }

  lemma {:induction false} MixesBelow(vs: seq<Json>, first: PathStep)
    requires MixesEverywhere(vs)
    ensures MixesEverywhere(ValuesAt(vs, [first]))
  {
    var below := ValuesAt(vs, [first]);
    forall path ensures MixesAt(below, path) {
      assert MixesAt(vs, [first] + path);
      FirstStep(vs, first, path);
    }
  }

  lemma {:induction false} MixingTyped(vs: seq<Json>)
    requires AllDom(vs) && MixesEverywhere(vs)
    ensures ObserveAll(vs).Some?
    decreases HeightOf(vs)
  {
    assert MixesAt(vs, []);
    MixesBelow(vs, Elements);
    assert ValuesAt(vs, [Elements]) == ItemValues(vs);
    if ItemValues(vs) != [] {
      ItemsLower(vs);
      ItemValuesDom(vs);
      MixingTyped(ItemValues(vs));
    }
    forall name ensures ObserveAll(FieldValues(vs, name)).Some? {
      MixesBelow(vs, Into(name));
      assert ValuesAt(vs, [Into(name)]) == FieldValues(vs, name);
      if FieldValues(vs, name) != [] {
        FieldsLower(vs, name);
        FieldValuesDom(vs, name);
        MixingTyped(FieldValues(vs, name));
      }
    }
    OneLevel(vs);
  }

  /** Inference succeeds if and only if at every path, through lists and structs, the
  values found are all of one class or all numbers. */
  lemma {:induction false} InferenceSucceedsExactly(vs: seq<Json>)
    requires AllDom(vs)
    ensures ObserveAll(vs).Some? <==> MixesEverywhere(vs)
  {
    if ObserveAll(vs).Some? {
      forall path ensures MixesAt(vs, path) {
        TypedMixes(vs, path);
      }
    } else if MixesEverywhere(vs) {
      MixingTyped(vs);
    }
  }

  // -------------------------------------------------------------- field order

  /** The names of the sampled objects in order of first appearance. */
  function NamesIn(vs: seq<Json>): (names: seq<string>) {
    if vs == [] then []
    else
      var front, last := NamesIn(vs[..|vs| - 1]), vs[|vs| - 1];
      front + if last.Obj? then Minus(Names(last.members), front) else []
  }

  lemma {:induction false} NoNames(vs: seq<Json>)
    requires forall i | 0 <= i < |vs| :: !vs[i].Obj?
    ensures NamesIn(vs) == []
  {
    if vs != [] {
      NoNames(vs[..|vs| - 1]);
    }
  }

  lemma {:induction false} MinusNothing(names: seq<string>)
    ensures Minus(names, []) == names
  {
    if names != [] {
      MinusNothing(names[1..]);
      assert names == [names[0]] + names[1..];
    }
  }

  lemma {:induction false} FieldOrder(vs: seq<Json>)
    requires AllDom(vs) && ObserveAll(vs).Some? && ObserveAll(vs).value.OStruct?
    ensures FieldNames(ObserveAll(vs).value.fields) == NamesIn(vs)
    decreases |vs|
  {
    var front, last := vs[..|vs| - 1], vs[|vs| - 1];
    var f, l, fs := ObserveAll(front).value, Observe(last).value, ObserveAll(vs).value.fields;
    ObserveAllProper(front);
    ObservedFrom(last);
    MergedStruct(f, l, fs);
    if last.Obj? {
      assert FieldNames(l.fields) == Names(last.members);
    }
    if f.ONull? {
      OnlyNulls(front);
      NoNames(front);
      MinusNothing(Names(last.members));
    } else {
      FieldOrder(front);
      if !l.ONull? {
        MergeFieldsNames(f.fields, l.fields);
      }
    }
  }
}
