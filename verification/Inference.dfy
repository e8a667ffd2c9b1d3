/** Schema inference over sampled JSON values: observing, folding, and what the
fold means at every depth. Values here are DOM values: readable, and without
repeated names. */
module Inference {
  import opened JsonTree
  import opened Options
  import opened LogicalTypes
  import opened ObservedTypes
  import opened MergeLaws

  /** A value as the sampling parser hands it over. */
  predicate IsDom(v: Json) {
    Readable(v) && NoRepeats(v)
  }

  predicate AllDom(vs: seq<Json>) {
    forall i | 0 <= i < |vs| :: IsDom(vs[i])
  }

  // --------------------------------------------------------------- observing

  function Observe(v: Json): (o: Option<Observed>)
    decreases v, 1
  {
    match v
    case Null => Some(ONull)
    case Bool(_) => Some(OBoolean)
    case Num(n) => Some(if AsI64(n).Some? then OInt64 else if AsU64(n).Some? then OUInt64 else OFloat64)
    case Str(_) => Some(OUtf8)
    case Arr(items) => (match ObserveAll(items) case Some(e) => Some(OList(e)) case None => None)
    case Obj(ms) =>
      if forall i | 0 <= i < |ms| :: Observe(ms[i].value).Some? then
        Some(OStruct(seq(|ms|, i requires 0 <= i < |ms| =>
          var t := Observe(ms[i].value).value; OField(ms[i].name, t, t.ONull?))))
      else None
    case Unreadable => None
  }

  /** The merge of everything seen, starting from null. */
  function ObserveAll(vs: seq<Json>): (o: Option<Observed>)
    decreases vs, 0
  {
    if vs == [] then Some(ONull)
    else Join(ObserveAll(vs[..|vs| - 1]), Observe(vs[|vs| - 1]))
  }

  lemma {:induction false} ObserveProper(v: Json)
    requires IsDom(v) && Observe(v).Some?
    ensures Proper(Observe(v).value)
    ensures Observe(v).value.ONull? <==> v.Null?
    decreases v, 1
  {
    match v
    case Arr(items) => ObserveAllProper(items);
    case Obj(ms) =>
      var fs := Observe(v).value.fields;
      forall i | 0 <= i < |ms| ensures Proper(fs[i].dataType) {
        ObserveProper(ms[i].value);
      }
    case _ =>
  }

  lemma {:induction false} ObserveAllProper(vs: seq<Json>)
    requires AllDom(vs) && ObserveAll(vs).Some?
    ensures Proper(ObserveAll(vs).value)
    decreases vs, 0
  {
    if vs != [] {
      ObserveAllProper(vs[..|vs| - 1]);
      ObserveProper(vs[|vs| - 1]);
      MergeProper(ObserveAll(vs[..|vs| - 1]).value, Observe(vs[|vs| - 1]).value);
    }
  }

  // ---------------------------------------------------------- folding in parts

  /** Sampling in two parts and merging is sampling in one go. */
  lemma {:induction false} ObserveInParts(xs: seq<Json>, ys: seq<Json>)
    requires AllDom(xs) && AllDom(ys)
    ensures ObserveAll(xs + ys) == Join(ObserveAll(xs), ObserveAll(ys))
    decreases |ys|
  {
    if ys == [] {
      assert xs + ys == xs;
      if ObserveAll(xs).Some? { MergeKinds(ObserveAll(xs).value, ONull); }
    } else {
      var front, last := ys[..|ys| - 1], ys[|ys| - 1];
      ObserveInParts(xs, front);
      assert (xs + ys)[..|xs + ys| - 1] == xs + front;
      var x, f, l := ObserveAll(xs), ObserveAll(front), Observe(last);
      assert ObserveAll(xs + ys) == Join(Join(x, f), l);
      if x.Some? && f.Some? && l.Some? {
        ObserveAllProper(xs);
        ObserveAllProper(front);
        ObserveProper(last);
        MergeAssociative(x.value, f.value, l.value);
      }
    }
  }

  // ------------------------------------------------------------- order of rows

  /** Joining depends on the sides only through their shapes. */
  lemma {:induction false} JoinRespectsShape(a: Option<Observed>, a': Option<Observed>, b: Option<Observed>)
    requires a.Some? ==> Proper(a.value)
    requires a'.Some? ==> Proper(a'.value)
    requires b.Some? ==> Proper(b.value)
    requires ShapeOption(a) == ShapeOption(a')
    ensures ShapeOption(Join(a, b)) == ShapeOption(Join(a', b))
  {
    if a.Some? && b.Some? {
      MergeRespectsShape(a.value, a'.value, b.value);
    }
  }

  lemma {:induction false} JoinCommutative(a: Option<Observed>, b: Option<Observed>)
    requires a.Some? ==> Proper(a.value)
    requires b.Some? ==> Proper(b.value)
    ensures ShapeOption(Join(a, b)) == ShapeOption(Join(b, a))
  {
    if a.Some? && b.Some? {
      MergeCommutative(a.value, b.value);
    }
  }

  lemma {:induction false} ObserveAllOptionProper(vs: seq<Json>)
    requires AllDom(vs)
    ensures ObserveAll(vs).Some? ==> Proper(ObserveAll(vs).value)
  {
    if ObserveAll(vs).Some? { ObserveAllProper(vs); }
  }

  /** Moving one value to the end does not change the shape. */
  lemma {:induction false} MoveToEnd(p: seq<Json>, x: Json, q: seq<Json>)
    requires AllDom(p) && IsDom(x) && AllDom(q)
    ensures ShapeOption(ObserveAll(p + [x] + q)) == ShapeOption(ObserveAll(p + q + [x]))
  {
    assert AllDom([x]) && AllDom([x] + q) && AllDom(q + [x]);
    assert p + [x] + q == p + ([x] + q);
    assert p + q + [x] == p + (q + [x]);
    ObserveInParts(p, [x] + q);
    ObserveInParts(p, q + [x]);
    ObserveInParts([x], q);
    ObserveInParts(q, [x]);
    ObserveAllOptionProper(p);
    ObserveAllOptionProper([x]);
    ObserveAllOptionProper(q);
    ObserveAllOptionProper([x] + q);
    ObserveAllOptionProper(q + [x]);
    JoinCommutative(ObserveAll([x]), ObserveAll(q));
    JoinCommutative(ObserveAll(p), ObserveAll([x] + q));
    JoinRespectsShape(ObserveAll([x] + q), ObserveAll(q + [x]), ObserveAll(p));
    JoinCommutative(ObserveAll(q + [x]), ObserveAll(p));
  }

  /** One value can be taken out of any rearrangement. */
  lemma {:induction false} WithoutOneOf(ws: seq<Json>, j: nat)
    requires j < |ws|
    ensures ws == ws[..j] + [ws[j]] + ws[j + 1..]
    ensures multiset(ws) == multiset(ws[..j] + ws[j + 1..]) + multiset{ws[j]}
  {
    var p, q := ws[..j], ws[j + 1..];
    assert ws == p + [ws[j]] + q;
    assert multiset(p + [ws[j]] + q) == multiset(p) + multiset{ws[j]} + multiset(q);
  }

  lemma {:induction false} TakeOut(front: seq<Json>, x: Json, ws: seq<Json>) returns (p: seq<Json>, q: seq<Json>)
    requires multiset(front + [x]) == multiset(ws)
    ensures ws == p + [x] + q && multiset(front) == multiset(p + q)
  {
    assert multiset(front + [x]) == multiset(front) + multiset{x};
    assert x in multiset(ws);
    var j :| 0 <= j < |ws| && ws[j] == x;
    p, q := ws[..j], ws[j + 1..];
    WithoutOneOf(ws, j);
    CancelOne(multiset(front), multiset(p + q), x);
  }

  lemma {:induction false} CancelOne(a: multiset<Json>, b: multiset<Json>, x: Json)
    requires a + multiset{x} == b + multiset{x}
    ensures a == b
  {
    assert a == a + multiset{x} - multiset{x};
    assert b == b + multiset{x} - multiset{x};
  }

  lemma {:induction false} DomParts(p: seq<Json>, x: Json, q: seq<Json>)
    requires AllDom(p + [x] + q)
    ensures AllDom(p) && IsDom(x) && AllDom(q) && AllDom(p + q)
  {
    var ws := p + [x] + q;
    assert ws[|p|] == x;
    forall i | 0 <= i < |p| ensures IsDom(p[i]) { assert ws[i] == p[i]; }
    forall i | 0 <= i < |q| ensures IsDom(q[i]) { assert ws[|p| + 1 + i] == q[i]; }
  }

  lemma {:induction false} ExtendSameShape(xs: seq<Json>, ys: seq<Json>, x: Json)
    requires AllDom(xs) && AllDom(ys) && IsDom(x)
    requires ShapeOption(ObserveAll(xs)) == ShapeOption(ObserveAll(ys))
    ensures ShapeOption(ObserveAll(xs + [x])) == ShapeOption(ObserveAll(ys + [x]))
  {
    assert (xs + [x])[..|xs|] == xs && (ys + [x])[..|ys|] == ys;
    ObserveAllOptionProper(xs);
    ObserveAllOptionProper(ys);
    if Observe(x).Some? { ObserveProper(x); }
    JoinRespectsShape(ObserveAll(xs), ObserveAll(ys), Observe(x));
  }

  /** Reordering the sample changes nothing but field order: it fails or
  succeeds alike, with one shape. */
  lemma {:induction false} SampleOrderIrrelevant(vs: seq<Json>, ws: seq<Json>)
    requires AllDom(vs) && AllDom(ws) && multiset(vs) == multiset(ws)
    ensures ShapeOption(ObserveAll(vs)) == ShapeOption(ObserveAll(ws))
    decreases |vs|
  {
    assert |multiset(vs)| == |multiset(ws)|;
    if vs != [] {
      var front, x := vs[..|vs| - 1], vs[|vs| - 1];
      assert vs == front + [x];
      var p, q := TakeOut(front, x, ws);
      DomParts(p, x, q);
      SampleOrderIrrelevant(front, p + q);
      ExtendSameShape(front, p + q, x);
      MoveToEnd(p, x, q);
    }
  }

  // ------------------------------------------------------------ what it means

  /** The values given to `name` by the objects among `vs`. */
  function FieldValues(vs: seq<Json>, name: string): (r: seq<Json>) {
    if vs == [] then []
    else
      var last := vs[|vs| - 1];
      FieldValues(vs[..|vs| - 1], name)
      + if last.Obj? && HasName(last.members, name) then [last.members[IndexOf(last.members, name)].value] else []
  }

  /** The elements of the arrays among `vs`. */
  function ItemValues(vs: seq<Json>): (r: seq<Json>) {
    if vs == [] then []
    else ItemValues(vs[..|vs| - 1]) + if vs[|vs| - 1].Arr? then vs[|vs| - 1].items else []
  }

  /** An object among `vs` lacks `name` or gives it null. */
  predicate NullOrAbsent(v: Json, name: string) {
    v.Obj? && (!HasName(v.members, name) || v.members[IndexOf(v.members, name)].value.Null?)
  }

  predicate SomeNullOrAbsent(vs: seq<Json>, name: string) {
    exists i | 0 <= i < |vs| :: NullOrAbsent(vs[i], name)
  }

  /** What a field list says about one name, given the values it was built from. */
  predicate FieldExplained(vs: seq<Json>, f: Option<OField>, name: string) {
    && (f.None? <==> FieldValues(vs, name) == [])
    && (f.Some? ==> ObserveAll(FieldValues(vs, name)) == Some(f.value.dataType))
    && (f.Some? ==> (f.value.nullable <==> SomeNullOrAbsent(vs, name)))
  }

  lemma {:induction false} ObservedObjectAt(v: Json, name: string)
    requires v.Obj? && IsDom(v) && Observe(v).Some?
    ensures var f := At(Observe(v).value.fields, name);
            && (f.Some? <==> HasName(v.members, name))
            && (f.Some? ==> var x := v.members[IndexOf(v.members, name)].value;
                  Observe(x) == Some(f.value.dataType) && (f.value.nullable <==> x.Null?))
  {
    var fs := Observe(v).value.fields;
    var ms := v.members;
    var k := IndexOf(ms, name);
    assert forall i | 0 <= i < |ms| :: fs[i].name == ms[i].name;
    assert Position(fs, name) == k;
    if k < |ms| {
      ObserveProper(ms[k].value);
    }
  }

  /** Where a merged struct or list can come from. */
  lemma {:induction false} MergedStruct(f: Observed, l: Observed, fs: seq<OField>)
    requires Proper(f) && Merge(f, l) == Some(OStruct(fs))
    ensures || (f.ONull? && l == OStruct(fs))
            || (l.ONull? && f == OStruct(fs))
            || (f.OStruct? && l.OStruct? && MergeFields(f.fields, l.fields) == Some(fs))
  {
    MergeKinds(f, l);
    if f.OStruct? && l.OStruct? {
      StructMerge(f.fields, l.fields);
    }
  }

  /** What kind of value an observation comes from. */
  lemma {:induction false} ObservedFrom(v: Json)
    requires Observe(v).Some?
    ensures Observe(v).value.ONull? <==> v.Null?
    ensures Observe(v).value.OStruct? <==> v.Obj?
    ensures Observe(v).value.OList? <==> v.Arr?
    ensures v.Arr? ==> ObserveAll(v.items) == Some(Observe(v).value.element)
  {
  }

  /** A sample that merges to a struct consists of objects and nulls, and each
  field of the struct is the merge of exactly the values under that name; it is
  nullable if and only if some object had null there or nothing. */
  lemma {:induction false} StructExplained(vs: seq<Json>, name: string)
    requires AllDom(vs) && ObserveAll(vs).Some? && ObserveAll(vs).value.OStruct?
    ensures FieldExplained(vs, At(ObserveAll(vs).value.fields, name), name)
    ensures HasObject(vs)
    decreases |vs|
  {
    var front, last := vs[..|vs| - 1], vs[|vs| - 1];
    assert vs == front + [last];
    var f, l, fs := ObserveAll(front).value, Observe(last).value, ObserveAll(vs).value.fields;
    ObserveAllProper(front);
    ObservedFrom(last);
    MergedStruct(f, l, fs);
    if f.ONull? {
      FirstObject(front, last, name);
      assert vs[|vs| - 1].Obj?;
    } else {
      StructExplained(front, name);
      var o :| 0 <= o < |front| && front[o].Obj?;
      assert vs[o].Obj?;
      if l.ONull? {
        LastDecides(vs, name);
        assert FieldValues(vs, name) == FieldValues(front, name);
      } else {
        FieldMerged(front, f.fields, last, l.fields, fs, name, o);
      }
    }
  }

  predicate HasObject(vs: seq<Json>) {
    exists i | 0 <= i < |vs| :: vs[i].Obj?
  }

  lemma {:induction false} LastDecides(vs: seq<Json>, name: string)
    requires vs != []
    ensures SomeNullOrAbsent(vs, name)
       <==> SomeNullOrAbsent(vs[..|vs| - 1], name) || NullOrAbsent(vs[|vs| - 1], name)
  {
  }

  /** The first object explains its own fields. */
  lemma {:induction false} FirstObject(front: seq<Json>, last: Json, name: string)
    requires AllDom(front) && ObserveAll(front) == Some(ONull)
    requires IsDom(last) && last.Obj? && Observe(last).Some?
    ensures FieldExplained(front + [last], At(Observe(last).value.fields, name), name)
  {
    var vs := front + [last];
    assert vs[..|vs| - 1] == front;
    OnlyNulls(front);
    FieldValuesOfNulls(front, name);
    LastDecides(vs, name);
    ObservedObjectAt(last, name);
    if HasName(last.members, name) {
      var x := last.members[IndexOf(last.members, name)].value;
      assert FieldValues(vs, name) == [x] && [x][..0] == [];
      MergeKinds(ONull, Observe(x).value);
    }
  }

  /** One more object keeps every field explained. */
  lemma {:induction false} FieldMerged(front: seq<Json>, fs: seq<OField>, last: Json, ls: seq<OField>,
                                       m: seq<OField>, name: string, o: nat)
    requires o < |front| && front[o].Obj? && IsDom(last) && last.Obj?
    requires Observe(last) == Some(OStruct(ls))
    requires Distinct(fs) && MergeFields(fs, ls) == Some(m)
    requires FieldExplained(front, At(fs, name), name)
    ensures FieldExplained(front + [last], At(m, name), name)
  {
    var vs := front + [last];
    assert vs[..|vs| - 1] == front;
    var values := FieldValues(front, name);
    LastDecides(vs, name);
    ObservedObjectAt(last, name);
    MergeFieldsAt(fs, ls, name);
    if HasName(last.members, name) {
      var x := last.members[IndexOf(last.members, name)].value;
      assert FieldValues(vs, name) == values + [x];
      assert (values + [x])[..|values|] == values;
      assert ObserveAll(values + [x]) == Join(ObserveAll(values), Observe(x));
      if values == [] {
        MergeKinds(ONull, Observe(x).value);
        NoValuesMeansAbsent(front, name, o);
      }
    } else {
      assert FieldValues(vs, name) == values;
    }
  }

  lemma {:induction false} OnlyNulls(vs: seq<Json>)
    requires AllDom(vs) && ObserveAll(vs) == Some(ONull)
    ensures forall i | 0 <= i < |vs| :: vs[i].Null?
  {
    if vs != [] {
      var front, last := vs[..|vs| - 1], vs[|vs| - 1];
      ObserveAllProper(front);
      ObserveProper(last);
      MergeProper(ObserveAll(front).value, Observe(last).value);
      OnlyNulls(front);
    }
  }

  lemma {:induction false} FieldValuesOfNulls(vs: seq<Json>, name: string)
    requires forall i | 0 <= i < |vs| :: vs[i].Null?
    ensures FieldValues(vs, name) == [] && !SomeNullOrAbsent(vs, name)
  {
    if vs != [] {
      FieldValuesOfNulls(vs[..|vs| - 1], name);
    }
  }

  lemma {:induction false} NoValuesMeansAbsent(vs: seq<Json>, name: string, o: nat)
    requires FieldValues(vs, name) == [] && o < |vs| && vs[o].Obj?
    ensures SomeNullOrAbsent(vs, name)
  {
    if o == |vs| - 1 {
      assert NullOrAbsent(vs[o], name);
    } else {
      var front := vs[..|vs| - 1];
      NoValuesMeansAbsent(front, name, o);
      var i :| 0 <= i < |front| && NullOrAbsent(front[i], name);
      assert NullOrAbsent(vs[i], name);
    }
  }

  /** A sample that merges to a list: its element type is the merge of all the
  elements of all the arrays. */
  lemma {:induction false} ListExplained(vs: seq<Json>)
    requires AllDom(vs) && ObserveAll(vs).Some? && ObserveAll(vs).value.OList?
    ensures ObserveAll(ItemValues(vs)) == Some(ObserveAll(vs).value.element)
    ensures AllDom(ItemValues(vs))
    decreases |vs|
  {
    var front, last := vs[..|vs| - 1], vs[|vs| - 1];
    var f, l, e := ObserveAll(front).value, Observe(last).value, ObserveAll(vs).value.element;
    ObservedFrom(last);
    ItemsDom(last);
    if f.ONull? {
      OnlyNulls(front);
      ItemValuesOfNulls(front);
      assert ItemValues(vs) == last.items;
    } else {
      ListExplained(front);
      if l.ONull? {
        assert ItemValues(vs) == ItemValues(front);
      } else {
        ObserveInParts(ItemValues(front), last.items);
      }
    }
  }

  lemma {:induction false} ItemsDom(v: Json)
    requires IsDom(v)
    ensures v.Arr? ==> AllDom(v.items)
  {
  }

  lemma {:induction false} ItemValuesOfNulls(vs: seq<Json>)
    requires forall i | 0 <= i < |vs| :: vs[i].Null?
    ensures ItemValues(vs) == []
  {
    if vs != [] {
      ItemValuesOfNulls(vs[..|vs| - 1]);
    }
  }

  // ------------------------------------------------------------- at any depth

  /** One step down: into a field, or into the elements. */
  datatype PathStep = Into(name: string) | Elements

  function TypeAt(o: Observed, path: seq<PathStep>): (r: Option<Observed>)
    decreases |path|
  {
    if path == [] then Some(o)
    else match (path[0], o)
      case (Elements, OList(e)) => TypeAt(e, path[1..])
      case (Into(n), OStruct(fs)) => (match At(fs, n) case Some(f) => TypeAt(f.dataType, path[1..]) case None => None)
      case _ => None
  }

  function ValuesAt(vs: seq<Json>, path: seq<PathStep>): (r: seq<Json>)
    decreases |path|
  {
    if path == [] then vs
    else match path[0]
      case Elements => ValuesAt(ItemValues(vs), path[1..])
      case Into(n) => ValuesAt(FieldValues(vs, n), path[1..])
  }

  lemma {:induction false} FieldValuesDom(vs: seq<Json>, name: string)
    requires AllDom(vs)
    ensures AllDom(FieldValues(vs, name))
  {
    if vs != [] {
      FieldValuesDom(vs[..|vs| - 1], name);
    }
  }

  /** At every path the inferred type is the merge of exactly the values found
  there. */
  lemma {:induction false} InferredAtPath(vs: seq<Json>, path: seq<PathStep>)
    requires AllDom(vs) && ObserveAll(vs).Some? && TypeAt(ObserveAll(vs).value, path).Some?
    ensures ObserveAll(ValuesAt(vs, path)) == TypeAt(ObserveAll(vs).value, path)
    ensures AllDom(ValuesAt(vs, path))
    decreases |path|
  {
    if path != [] {
      match path[0]
      case Elements =>
        ListExplained(vs);
        InferredAtPath(ItemValues(vs), path[1..]);
      case Into(n) =>
        StructExplained(vs, n);
        FieldValuesDom(vs, n);
        InferredAtPath(FieldValues(vs, n), path[1..]);
    }
  }

  /** At every depth a field ends nullable if and only if it was null or absent
  in some sampled instance of its parent object. */
  lemma {:induction false} NullableIffMissingSomewhere(vs: seq<Json>, path: seq<PathStep>, name: string)
    requires AllDom(vs) && ObserveAll(vs).Some?
    requires TypeAt(ObserveAll(vs).value, path).Some? && TypeAt(ObserveAll(vs).value, path).value.OStruct?
    requires At(TypeAt(ObserveAll(vs).value, path).value.fields, name).Some?
    ensures At(TypeAt(ObserveAll(vs).value, path).value.fields, name).value.nullable
       <==> SomeNullOrAbsent(ValuesAt(vs, path), name)
  {
    InferredAtPath(vs, path);
    StructExplained(ValuesAt(vs, path), name);
  }
}
