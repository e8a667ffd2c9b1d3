/** The laws of merging: exact associativity, commutativity up to field order,
and the in-place merge that computes it. */
module MergeLaws {
  import opened Options
  import opened ObservedTypes

  // -------------------------------------------------------------- properness

  lemma {:induction false} MergeProper(l: Observed, r: Observed)
    requires Proper(l) && Proper(r) && Merge(l, r).Some?
    ensures Proper(Merge(l, r).value)
    ensures Merge(l, r).value.ONull? ==> l.ONull? && r.ONull?
    decreases l
  {
    if l != r {
      match (l, r)
      case (OList(a), OList(b)) => MergeProper(a, b);
      case (OStruct(a), OStruct(b)) =>
        var m := MergeFields(a, b).value;
        MergeFieldsDistinct(a, b);
        forall i | 0 <= i < |m|
          ensures Proper(m[i].dataType) && (m[i].dataType.ONull? ==> m[i].nullable)
        {
          PositionUnique(m, i);
          MergeFieldsAt(a, b, m[i].name);
          var x, y := At(a, m[i].name), At(b, m[i].name);
          assert At(m, m[i].name) == Some(m[i]);
          if x.Some? && y.Some? {
            MergeProper(x.value.dataType, y.value.dataType);
          }
        }
      case _ =>
    }
  }

  lemma {:induction false} MergeFieldsDistinct(l: seq<OField>, r: seq<OField>)
    requires Distinct(l) && Distinct(r) && MergeFields(l, r).Some?
    ensures Distinct(MergeFields(l, r).value)
  {
    var m := MergeFields(l, r).value;
    MissingDistinct(r, l);
    var extra := Missing(r, l);
    forall i, j | 0 <= i < j < |m| ensures m[i].name != m[j].name {
      if i < |l| {
        assert m[i].name == l[i].name;
        if j < |l| {
          assert m[j].name == l[j].name;
        } else {
          assert m[j] == extra[j - |l|];
          MissingAt(r, l, m[j].name);
          assert Has(extra, m[j].name);
        }
      } else {
        assert m[i] == extra[i - |l|] && m[j] == extra[j - |l|];
      }
    }
  }

  lemma {:induction false} MissingDistinct(r: seq<OField>, l: seq<OField>)
    requires Distinct(r)
    ensures Distinct(Missing(r, l))
  {
    if r != [] {
      MissingDistinct(r[1..], l);
      if !Has(l, r[0].name) {
        MissingAt(r[1..], l, r[0].name);
        assert !Has(r[1..], r[0].name);
        assert !Has(Missing(r[1..], l), r[0].name);
      }
    }
  }

  // ---------------------------------------------------- structs, no shortcut

  /** The equality shortcut changes nothing: two structs merge field by field. */
  lemma {:induction false} StructMerge(a: seq<OField>, b: seq<OField>)
    requires Distinct(a)
    ensures Merge(OStruct(a), OStruct(b)) ==
            if MergeFields(a, b).Some? then Some(OStruct(MergeFields(a, b).value)) else None
  {
    if a == b {
      forall i | 0 <= i < |a| ensures MergeInto(a, i, a) == Some(a[i]) {
        PositionUnique(a, i);
      }
      NothingMissing(a, a);
      assert seq(|a|, i requires 0 <= i < |a| => MergeInto(a, i, a).value) == a;
      assert a + [] == a;
      assert MergeFields(a, a) == Some(a);
    }
  }

  lemma {:induction false} NothingMissing(r: seq<OField>, l: seq<OField>)
    requires forall i | 0 <= i < |r| :: Has(l, r[i].name)
    ensures Missing(r, l) == []
  {
    if r != [] {
      NothingMissing(r[1..], l);
    }
  }

  // ----------------------------------------------------------- associativity

  /** Grouping never matters, not even for field order, and failure is the same
  failure: `(a v b) v c == a v (b v c)`. */
  lemma {:induction false} MergeAssociative(a: Observed, b: Observed, c: Observed)
    requires Proper(a) && Proper(b) && Proper(c)
    ensures Join(Merge(a, b), Some(c)) == Join(Some(a), Merge(b, c))
    decreases a
  {
    match (a, b, c)
    case (OList(x), OList(y), OList(z)) =>
      ListMerge(x, y);
      ListMerge(y, z);
      if Merge(x, y).Some? { ListMerge(Merge(x, y).value, z); }
      if Merge(y, z).Some? { ListMerge(x, Merge(y, z).value); }
      MergeAssociative(x, y, z);
    case (OStruct(x), OStruct(y), OStruct(z)) =>
      forall n | At(x, n).Some? && At(y, n).Some? && At(z, n).Some?
        ensures var p, q, s := At(x, n).value.dataType, At(y, n).value.dataType, At(z, n).value.dataType;
                Join(Merge(p, q), Some(s)) == Join(Some(p), Merge(q, s))
      {
        MergeAssociative(At(x, n).value.dataType, At(y, n).value.dataType, At(z, n).value.dataType);
      }
      StructsAssociate(x, y, z);
    case _ =>
      MixedAssociative(a, b, c);
  }

  lemma {:induction false} ListMerge(x: Observed, y: Observed)
    ensures Merge(OList(x), OList(y)) == if Merge(x, y).Some? then Some(OList(Merge(x, y).value)) else None
  {
  }

  /** Everything but three lists or three structs. */
  lemma {:induction false} MixedAssociative(a: Observed, b: Observed, c: Observed)
    requires !(a.OList? && b.OList? && c.OList?) && !(a.OStruct? && b.OStruct? && c.OStruct?)
    ensures Join(Merge(a, b), Some(c)) == Join(Some(a), Merge(b, c))
  {
    MergeKinds(a, b);
    MergeKinds(b, c);
    if a.ONull? || c.ONull? {
    } else if b.ONull? {
      MergeKinds(a, c);
    } else if KindOf(a) == KindOf(b) == KindOf(c) {
    } else if KindOf(a) == KindOf(b) {
      if Merge(a, b).Some? { MergeKinds(Merge(a, b).value, c); }
    } else if Merge(b, c).Some? {
      MergeKinds(a, Merge(b, c).value);
    }
  }

  datatype Kind = KNull | KBoolean | KNumber | KUtf8 | KList | KStruct

  function KindOf(o: Observed): Kind {
    match o
    case ONull => KNull
    case OBoolean => KBoolean
    case OUtf8 => KUtf8
    case OList(_) => KList
    case OStruct(_) => KStruct
    case _ => KNumber
  }

  /** Null is neutral, unlike kinds fail, and scalars of one kind always merge. */
  lemma {:induction false} MergeKinds(a: Observed, b: Observed)
    ensures a.ONull? ==> Merge(a, b) == Some(b)
    ensures b.ONull? ==> Merge(a, b) == Some(a)
    ensures !a.ONull? && !b.ONull? && KindOf(a) != KindOf(b) ==> Merge(a, b).None?
    ensures Merge(a, b).Some? && !a.ONull? && !b.ONull? ==> KindOf(Merge(a, b).value) == KindOf(a)
    ensures KindOf(a) == KindOf(b) && !a.OList? && !a.OStruct? ==>
              Merge(a, b) == Some(if a == b then a else OFloat64)
  {
  }

  /** The types that three field lists hold under one name associate. */
  predicate AssociatesAt(x: Option<OField>, y: Option<OField>, z: Option<OField>) {
    x.Some? && y.Some? && z.Some? ==>
      Join(Merge(x.value.dataType, y.value.dataType), Some(z.value.dataType)) ==
      Join(Some(x.value.dataType), Merge(y.value.dataType, z.value.dataType))
  }

  /** One name: merging left to right or right to left is possible together and
  gives the same field. */
  lemma {:induction false} FieldAssociates(x: Option<OField>, y: Option<OField>, z: Option<OField>)
    requires AssociatesAt(x, y, z)
    requires x.Some? && y.Some? ==> x.value.name == y.value.name
    ensures (Compatible(x, y) && Compatible(MergeAt(x, y), z)) <==> (Compatible(y, z) && Compatible(x, MergeAt(y, z)))
    ensures Compatible(x, y) && Compatible(MergeAt(x, y), z) ==>
              MergeAt(MergeAt(x, y), z) == MergeAt(x, MergeAt(y, z))
  {
  }

  lemma {:induction false} StructsAssociate(x: seq<OField>, y: seq<OField>, z: seq<OField>)
    requires Distinct(x) && Distinct(y) && Distinct(z)
    requires forall n :: AssociatesAt(At(x, n), At(y, n), At(z, n))
    ensures Join(Merge(OStruct(x), OStruct(y)), Some(OStruct(z))) ==
            Join(Some(OStruct(x)), Merge(OStruct(y), OStruct(z)))
  {
    StructMerge(x, y);
    StructMerge(y, z);
    var xy, yz := MergeFields(x, y), MergeFields(y, z);
    if xy.Some? { MergeFieldsDistinct(x, y); StructMerge(xy.value, z); }
    if yz.Some? { StructMerge(x, yz.value); }
    StructsSucceedTogether(x, y, z);
    if xy.Some? && MergeFields(xy.value, z).Some? {
      StructsAgree(x, y, z);
    }
  }

  lemma {:induction false} StructsSucceedTogether(x: seq<OField>, y: seq<OField>, z: seq<OField>)
    requires Distinct(x) && Distinct(y) && Distinct(z)
    requires forall n :: AssociatesAt(At(x, n), At(y, n), At(z, n))
    ensures (MergeFields(x, y).Some? && MergeFields(MergeFields(x, y).value, z).Some?)
       <==> (MergeFields(y, z).Some? && MergeFields(x, MergeFields(y, z).value).Some?)
  {
    MergeFieldsSucceeds(x, y);
    MergeFieldsSucceeds(y, z);
    if MergeFields(x, y).Some? {
      var xy := MergeFields(x, y).value;
      MergeFieldsDistinct(x, y);
      MergeFieldsSucceeds(xy, z);
      if MergeFields(xy, z).Some? {
        forall n ensures Compatible(At(y, n), At(z, n)) && Compatible(At(x, n), MergeAt(At(y, n), At(z, n))) {
          assert Compatible(At(xy, n), At(z, n));
          MergeFieldsAt(x, y, n);
          FieldAssociates(At(x, n), At(y, n), At(z, n));
        }
        var yz := MergeFields(y, z).value;
        MergeFieldsSucceeds(x, yz);
        forall n ensures Compatible(At(x, n), At(yz, n)) {
          MergeFieldsAt(y, z, n);
        }
      }
    }
    if MergeFields(y, z).Some? {
      var yz := MergeFields(y, z).value;
      MergeFieldsSucceeds(x, yz);
      if MergeFields(x, yz).Some? {
        forall n ensures Compatible(At(x, n), At(y, n)) && Compatible(MergeAt(At(x, n), At(y, n)), At(z, n)) {
          assert Compatible(At(x, n), At(yz, n));
          MergeFieldsAt(y, z, n);
          FieldAssociates(At(x, n), At(y, n), At(z, n));
        }
        var xy := MergeFields(x, y).value;
        MergeFieldsDistinct(x, y);
        MergeFieldsSucceeds(xy, z);
        forall n ensures Compatible(At(xy, n), At(z, n)) {
          MergeFieldsAt(x, y, n);
        }
      }
    }
  }

  lemma {:induction false} StructsAgree(x: seq<OField>, y: seq<OField>, z: seq<OField>)
    requires Distinct(x) && Distinct(y) && Distinct(z)
    requires forall n :: AssociatesAt(At(x, n), At(y, n), At(z, n))
    requires MergeFields(x, y).Some? && MergeFields(MergeFields(x, y).value, z).Some?
    requires MergeFields(y, z).Some? && MergeFields(x, MergeFields(y, z).value).Some?
    ensures MergeFields(MergeFields(x, y).value, z) == MergeFields(x, MergeFields(y, z).value)
  {
    var xy, yz := MergeFields(x, y).value, MergeFields(y, z).value;
    var left, right := MergeFields(xy, z).value, MergeFields(x, yz).value;
    MergeFieldsDistinct(x, y);
    MergeFieldsDistinct(xy, z);
    MergeFieldsNames(x, y);
    MergeFieldsNames(y, z);
    MergeFieldsNames(xy, z);
    MergeFieldsNames(x, yz);
    NamesAssociate(FieldNames(x), FieldNames(y), FieldNames(z));
    forall n ensures At(left, n) == At(right, n) {
      MergeFieldsAt(x, y, n);
      MergeFieldsAt(xy, z, n);
      MergeFieldsAt(y, z, n);
      MergeFieldsAt(x, yz, n);
      FieldAssociates(At(x, n), At(y, n), At(z, n));
    }
    SameFields(left, right);
  }

  // ----------------------------------------------------------- commutativity

  /** An observed type with the order of its fields forgotten. */
  datatype Shape =
    | SNull
    | SBoolean
    | SInt64
    | SUInt64
    | SFloat64
    | SUtf8
    | SList(element: Shape)
    | SStruct(fields: map<string, SField>)

  datatype SField = SField(shape: Shape, nullable: bool)

  function NameSet(fs: seq<OField>): set<string> {
    set i | 0 <= i < |fs| :: fs[i].name
  }

  function ShapeOf(o: Observed): (s: Shape) {
    match o
    case ONull => SNull
    case OBoolean => SBoolean
    case OInt64 => SInt64
    case OUInt64 => SUInt64
    case OFloat64 => SFloat64
    case OUtf8 => SUtf8
    case OList(e) => SList(ShapeOf(e))
    case OStruct(fs) =>
      SStruct(map n | n in NameSet(fs) :: SField(ShapeOf(fs[Position(fs, n)].dataType), fs[Position(fs, n)].nullable))
  }

  function ShapeOption(o: Option<Observed>): Option<Shape> {
    if o.Some? then Some(ShapeOf(o.value)) else None
  }

  function FieldShape(f: Option<OField>): Option<SField> {
    if f.Some? then Some(SField(ShapeOf(f.value.dataType), f.value.nullable)) else None
  }

  lemma {:induction false} ShapeAt(x: seq<OField>, n: string)
    ensures var p := ShapeOf(OStruct(x)).fields;
            FieldShape(At(x, n)) == if n in p then Some(p[n]) else None
  {
  }

  /** Structs have one shape exactly when they have one field shape per name. */
  lemma {:induction false} SameShape(x: seq<OField>, y: seq<OField>)
    ensures ShapeOf(OStruct(x)) == ShapeOf(OStruct(y)) <==> forall n :: FieldShape(At(x, n)) == FieldShape(At(y, n))
  {
    var p, q := ShapeOf(OStruct(x)).fields, ShapeOf(OStruct(y)).fields;
    if p == q {
      forall n ensures FieldShape(At(x, n)) == FieldShape(At(y, n)) {
        ShapeAt(x, n);
        ShapeAt(y, n);
      }
    }
    if forall n :: FieldShape(At(x, n)) == FieldShape(At(y, n)) {
      forall n ensures (n in p <==> n in q) && (n in p ==> p[n] == q[n]) {
        ShapeAt(x, n);
        ShapeAt(y, n);
      }
      assert p == q;
    }
  }

  /** Swapping the sides changes nothing but field order. */
  lemma {:induction false} MergeCommutative(a: Observed, b: Observed)
    requires Proper(a) && Proper(b)
    ensures ShapeOption(Merge(a, b)) == ShapeOption(Merge(b, a))
    decreases a
  {
    match (a, b)
    case (OList(x), OList(y)) => MergeCommutative(x, y);
    case (OStruct(x), OStruct(y)) =>
      forall n ensures SameMergeAt(At(x, n), At(y, n), At(y, n), At(x, n)) {
        if At(x, n).Some? && At(y, n).Some? {
          MergeCommutative(At(x, n).value.dataType, At(y, n).value.dataType);
        }
      }
      StructMerge(x, y);
      StructMerge(y, x);
      StructsSameShape(x, y, y, x);
    case _ =>
      MergeKinds(a, b);
      MergeKinds(b, a);
  }

  /** Under one name the two merges fail together or give one shape. */
  predicate SameMergeAt(a: Option<OField>, b: Option<OField>, c: Option<OField>, d: Option<OField>) {
    && (Compatible(a, b) <==> Compatible(c, d))
    && (Compatible(a, b) && Compatible(c, d) ==> FieldShape(MergeAt(a, b)) == FieldShape(MergeAt(c, d)))
  }

  lemma {:induction false} StructsSameShape(x: seq<OField>, y: seq<OField>, v: seq<OField>, w: seq<OField>)
    requires Distinct(x) && Distinct(v)
    requires forall n :: SameMergeAt(At(x, n), At(y, n), At(v, n), At(w, n))
    ensures MergeFields(x, y).Some? <==> MergeFields(v, w).Some?
    ensures MergeFields(x, y).Some? ==>
              ShapeOf(OStruct(MergeFields(x, y).value)) == ShapeOf(OStruct(MergeFields(v, w).value))
  {
    MergeFieldsSucceeds(x, y);
    MergeFieldsSucceeds(v, w);
    assert (forall n :: Compatible(At(x, n), At(y, n))) <==> (forall n :: Compatible(At(v, n), At(w, n))) by {
      if (forall n :: Compatible(At(x, n), At(y, n))) {
        forall n ensures Compatible(At(v, n), At(w, n)) {
          assert SameMergeAt(At(x, n), At(y, n), At(v, n), At(w, n));
        }
      }
      if (forall n :: Compatible(At(v, n), At(w, n))) {
        forall n ensures Compatible(At(x, n), At(y, n)) {
          assert SameMergeAt(At(x, n), At(y, n), At(v, n), At(w, n));
        }
      }
    }
    if MergeFields(x, y).Some? {
      var p, q := MergeFields(x, y).value, MergeFields(v, w).value;
      forall n ensures FieldShape(At(p, n)) == FieldShape(At(q, n)) {
        MergeFieldsAt(x, y, n);
        MergeFieldsAt(v, w, n);
        assert SameMergeAt(At(x, n), At(y, n), At(v, n), At(w, n));
      }
      SameShape(p, q);
    }
  }

  /** Merging looks only at shapes. */
  lemma {:induction false} MergeRespectsShape(a: Observed, a': Observed, b: Observed)
    requires Proper(a) && Proper(a') && Proper(b) && ShapeOf(a) == ShapeOf(a')
    ensures ShapeOption(Merge(a, b)) == ShapeOption(Merge(a', b))
    decreases a
  {
    match (a, b)
    case (OList(x), OList(y)) => MergeRespectsShape(x, a'.element, y);
    case (OStruct(x), OStruct(y)) =>
      var x' := a'.fields;
      SameShape(x, x');
      StructMerge(x, y);
      StructMerge(x', y);
      forall n ensures SameMergeAt(At(x, n), At(y, n), At(x', n), At(y, n)) {
        assert FieldShape(At(x, n)) == FieldShape(At(x', n));
        if At(x, n).Some? && At(y, n).Some? {
          MergeRespectsShape(At(x, n).value.dataType, At(x', n).value.dataType, At(y, n).value.dataType);
        }
      }
      StructsSameShape(x, y, x', y);
    case _ =>
      MergeKinds(a, b);
      MergeKinds(a', b);
  }

  // ---------------------------------------------------------- merge in place

  /** Fields of `r` whose name is not in `drop`. */
  function Without(r: seq<OField>, drop: set<string>): (w: seq<OField>) {
    if r == [] then []
    else if r[0].name in drop then Without(r[1..], drop)
    else [r[0]] + Without(r[1..], drop)
  }

  lemma {:induction false} WithoutAt(r: seq<OField>, drop: set<string>, name: string)
    ensures At(Without(r, drop), name) == if name in drop then None else At(r, name)
  {
    if r != [] {
      WithoutAt(r[1..], drop, name);
      AtFront(r[0], r[1..], name);
      AtFront(r[0], Without(r[1..], drop), name);
      assert r == [r[0]] + r[1..];
    }
  }

  function Remove(fs: seq<OField>, k: nat): seq<OField>
    requires k < |fs|
  {
    fs[..k] + fs[k + 1..]
  }

  lemma {:induction false} WithoutTwice(r: seq<OField>, d: set<string>, e: set<string>)
    ensures Without(Without(r, d), e) == Without(r, d + e)
  {
    if r != [] {
      WithoutTwice(r[1..], d, e);
      if r[0].name !in d {
        assert ([r[0]] + Without(r[1..], d))[1..] == Without(r[1..], d);
      }
    }
  }

  lemma {:induction false} WithoutDistinct(r: seq<OField>, d: set<string>)
    requires Distinct(r)
    ensures Distinct(Without(r, d))
  {
    if r != [] {
      WithoutDistinct(r[1..], d);
      WithoutAt(r[1..], d, r[0].name);
      assert !Has(r[1..], r[0].name);
      assert !Has(Without(r[1..], d), r[0].name);
    }
  }

  lemma {:induction false} WithoutAbsent(w: seq<OField>, name: string)
    requires !Has(w, name)
    ensures Without(w, {name}) == w
  {
    if w != [] {
      assert w[0].name != name;
      assert !Has(w[1..], name);
      WithoutAbsent(w[1..], name);
    }
  }

  lemma {:induction false} WithoutOne(w: seq<OField>, name: string)
    requires Distinct(w) && Has(w, name)
    ensures Without(w, {name}) == Remove(w, Position(w, name))
  {
    var rest := w[1..];
    assert w == [w[0]] + rest;
    if w[0].name == name {
      assert !Has(rest, name);
      WithoutAbsent(rest, name);
      assert Remove(w, 0) == rest;
    } else {
      AtFront(w[0], rest, name);
      assert Has(rest, name);
      WithoutOne(rest, name);
    }
  }

  /** Dropping one more name takes out the one field that has it, if any. */
  lemma {:induction false} WithoutStep(r: seq<OField>, drop: set<string>, name: string)
    requires Distinct(r)
    ensures var w := Without(r, drop);
            var k := Position(w, name);
            Without(r, drop + {name}) == if k < |w| then Remove(w, k) else w
  {
    var w := Without(r, drop);
    WithoutTwice(r, drop, {name});
    WithoutDistinct(r, drop);
    if Has(w, name) {
      WithoutOne(w, name);
    } else {
      WithoutAbsent(w, name);
    }
  }

  lemma {:induction false} WithoutAll(r: seq<OField>, l: seq<OField>)
    ensures var w, m := Without(r, NameSet(l)), Missing(r, l);
            |w| == |m| && forall i | 0 <= i < |w| :: m[i] == w[i].(nullable := true)
  {
    if r != [] {
      WithoutAll(r[1..], l);
      assert Has(l, r[0].name) <==> r[0].name in NameSet(l);
    }
  }

  lemma {:induction false} WithoutNone(r: seq<OField>)
    ensures Without(r, {}) == r
  {
    if r != [] {
      WithoutNone(r[1..]);
    }
  }

  method MergeType(l: Observed, r: Observed) returns (m: Option<Observed>)
    requires Proper(l) && Proper(r)
    ensures m == Merge(l, r)
    decreases l, 1
  {
    if l == r { return Some(l); }
    match (l, r)
    case (ONull, _) => return Some(r);
    case (_, ONull) => return Some(l);
    case (OList(a), OList(b)) =>
      var e := MergeType(a, b);
      return if e.Some? then Some(OList(e.value)) else None;
    case (OStruct(a), OStruct(b)) =>
      var fs := MergeStruct(a, b);
      return if fs.Some? then Some(OStruct(fs.value)) else None;
    case _ => return if Numeric(l) && Numeric(r) then Some(OFloat64) else None;
  }

  /** One left field takes its partner out of the right list, if it has one. */
  method MergeField(ghost l: seq<OField>, ghost i: nat, ghost r: seq<OField>, field: OField, right: seq<OField>)
    returns (merged: Option<OField>, rest: seq<OField>)
    requires i < |l| && field == l[i] && ProperFields(l) && ProperFields(r)
    requires At(right, field.name) == At(r, field.name)
    ensures merged == MergeInto(l, i, r)
    ensures var k := Position(right, field.name);
            rest == if k < |right| then Remove(right, k) else right
    decreases l, 0
  {
    var index := Position(right, field.name);
    if index == |right| {
      return Some(field.(nullable := true)), right;
    }
    var other := right[index];
    rest := Remove(right, index);
    assert At(r, field.name) == Some(other);
    PartnerProper(r, field.name);
    var t := MergeType(field.dataType, other.dataType);
    merged := if t.Some? then Some(OField(field.name, t.value, field.nullable || other.nullable)) else None;
  }

  /** The loop as it runs: left fields in turn, then what is left of the right
  list appended as nullable. */
  method MergeStruct(l: seq<OField>, r: seq<OField>) returns (m: Option<seq<OField>>)
    requires ProperFields(l) && ProperFields(r)
    ensures m == MergeFields(l, r)
    decreases l, 1
  {
    var left, right := l, r;
    WithoutNone(r);
    assert NamesTo(l, 0) == {};
    for i := 0 to |l|
      invariant |left| == |l|
      invariant right == Without(r, NamesTo(l, i))
      invariant forall j | 0 <= j < i :: MergeInto(l, j, r) == Some(left[j])
      invariant forall j | i <= j < |l| :: left[j] == l[j]
    {
      NamesStep(l, i);
      WithoutAt(r, NamesTo(l, i), l[i].name);
      WithoutStep(r, NamesTo(l, i), l[i].name);
      var merged;
      merged, right := MergeField(l, i, r, left[i], right);
      if merged.None? { return None; }
      left := left[i := merged.value];
    }
    assert NamesTo(l, |l|) == NameSet(l);
    m := AppendMissing(l, r, left, right);
  }

  function NamesTo(l: seq<OField>, n: nat): set<string>
    requires n <= |l|
  {
    set j | 0 <= j < n :: l[j].name
  }

  lemma {:induction false} NamesStep(l: seq<OField>, n: nat)
    requires n < |l| && Distinct(l)
    ensures NamesTo(l, n + 1) == NamesTo(l, n) + {l[n].name}
    ensures l[n].name !in NamesTo(l, n)
  {
  }

  lemma {:induction false} PartnerProper(r: seq<OField>, name: string)
    requires ProperFields(r) && At(r, name).Some?
    ensures Proper(At(r, name).value.dataType)
  {
  }

  method AppendMissing(ghost l: seq<OField>, ghost r: seq<OField>, left: seq<OField>, right: seq<OField>)
    returns (m: Option<seq<OField>>)
    requires |left| == |l| && forall i | 0 <= i < |l| :: MergeInto(l, i, r) == Some(left[i])
    requires right == Without(r, NameSet(l))
    ensures m.Some? && m == MergeFields(l, r)
  {
    WithoutAll(r, l);
    var all := left;
    for j := 0 to |right|
      invariant |all| == |left| + j && all[..|left|] == left
      invariant forall i | 0 <= i < j :: all[|left| + i] == Missing(r, l)[i]
    {
      all := all + [right[j].(nullable := true)];
    }
    assert all[|left|..] == Missing(r, l);
    assert all == left + Missing(r, l);
    assert left == seq(|l|, i requires 0 <= i < |l| => MergeInto(l, i, r).value);
    m := Some(all);
  }
}
