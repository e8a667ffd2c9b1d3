/** Observed types and their merge: a partial join on the shapes seen while
sampling. `None` is the failed merge and absorbs everything. */
module ObservedTypes {
  import opened Options

  datatype Observed =
    | ONull
    | OBoolean
    | OInt64
    | OUInt64
    | OFloat64
    | OUtf8
    | OList(element: Observed)
    | OStruct(fields: seq<OField>)

  datatype OField = OField(name: string, dataType: Observed, nullable: bool)

  predicate Numeric(o: Observed) {
    o.OInt64? || o.OUInt64? || o.OFloat64?
  }

  predicate Has(fs: seq<OField>, name: string) {
    exists i | 0 <= i < |fs| :: fs[i].name == name
  }

  /** Position of the first field called `name`, or the length if there is none. */
  function Position(fs: seq<OField>, name: string): (k: nat)
    ensures k <= |fs|
    ensures k < |fs| <==> Has(fs, name)
    ensures k < |fs| ==> fs[k].name == name
    ensures forall i | 0 <= i < k :: fs[i].name != name
  {
    if fs == [] then 0
    else if fs[0].name == name then 0
    else 1 + Position(fs[1..], name)
  }

  predicate Distinct(fs: seq<OField>) {
    forall i, j | 0 <= i < j < |fs| :: fs[i].name != fs[j].name
  }

  /** What sampling produces: distinct names at every level, and a field seen
  only as null is nullable. */
  predicate Proper(o: Observed) {
    match o
    case OList(e) => Proper(e)
    case OStruct(fs) => ProperFields(fs)
    case _ => true
  }

  predicate ProperFields(fs: seq<OField>) {
    Distinct(fs) && forall i | 0 <= i < |fs| :: Proper(fs[i].dataType) && (fs[i].dataType.ONull? ==> fs[i].nullable)
  }

  // ------------------------------------------------------------------ merging

  function Merge(l: Observed, r: Observed): (m: Option<Observed>)
    decreases l, 1
  {
    if l == r then Some(l)
    else match (l, r)
      case (ONull, _) => Some(r)
      case (_, ONull) => Some(l)
      case (OList(a), OList(b)) => (match Merge(a, b) case Some(e) => Some(OList(e)) case None => None)
      case (OStruct(a), OStruct(b)) => (match MergeFields(a, b) case Some(fs) => Some(OStruct(fs)) case None => None)
      case _ => if Numeric(l) && Numeric(r) then Some(OFloat64) else None
  }

  /** Left fields in place, then the right fields the left does not have. */
  function MergeFields(l: seq<OField>, r: seq<OField>): (m: Option<seq<OField>>)
    decreases l, 0
  {
    if forall i | 0 <= i < |l| :: MergeInto(l, i, r).Some? then
      Some(seq(|l|, i requires 0 <= i < |l| => MergeInto(l, i, r).value) + Missing(r, l))
    else None
  }

  /** A left field after meeting the right side. */
  function MergeInto(l: seq<OField>, i: nat, r: seq<OField>): (f: Option<OField>)
    requires i < |l|
    ensures f.Some? ==> f.value.name == l[i].name
    decreases l, -1
  {
    var k := Position(r, l[i].name);
    if k == |r| then Some(l[i].(nullable := true))
    else match Merge(l[i].dataType, r[k].dataType)
      case Some(t) => Some(OField(l[i].name, t, l[i].nullable || r[k].nullable))
      case None => None
  }

  /** Fields of `r` that `l` lacks, each now nullable. */
  function Missing(r: seq<OField>, l: seq<OField>): (m: seq<OField>) {
    if r == [] then []
    else if Has(l, r[0].name) then Missing(r[1..], l)
    else [r[0].(nullable := true)] + Missing(r[1..], l)
  }

  /** Merging with failure as a value. */
  function Join(l: Option<Observed>, r: Option<Observed>): Option<Observed> {
    if l.Some? && r.Some? then Merge(l.value, r.value) else None
  }

  // ------------------------------------------------------- lookup by name

  function At(fs: seq<OField>, name: string): (f: Option<OField>)
    ensures f.Some? ==> f.value.name == name && f.value in fs
  {
    var k := Position(fs, name);
    if k < |fs| then Some(fs[k]) else None
  }

  lemma {:induction false} PositionUnique(fs: seq<OField>, i: nat)
    requires Distinct(fs) && i < |fs|
    ensures Position(fs, fs[i].name) == i
  {
  }

  lemma {:induction false} PositionInSum(a: seq<OField>, b: seq<OField>, name: string)
    ensures Position(a + b, name) == if Has(a, name) then Position(a, name) else |a| + Position(b, name)
  {
    var k := if Has(a, name) then Position(a, name) else |a| + Position(b, name);
    assert forall i | 0 <= i < k :: (a + b)[i].name != name;
    if k < |a + b| {
      assert (a + b)[k].name == name;
    }
  }

  lemma {:induction false} AtFront(f: OField, fs: seq<OField>, name: string)
    ensures At([f] + fs, name) == if f.name == name then Some(f) else At(fs, name)
    ensures f.name != name ==> Position([f] + fs, name) == 1 + Position(fs, name)
  {
  }

  lemma {:induction false} MissingAt(r: seq<OField>, l: seq<OField>, name: string)
    ensures At(Missing(r, l), name) ==
            if Has(l, name) || At(r, name).None? then None else Some(At(r, name).value.(nullable := true))
  {
    if r != [] {
      MissingAt(r[1..], l, name);
      assert r == [r[0]] + r[1..];
      AtFront(r[0], r[1..], name);
      AtFront(r[0].(nullable := true), Missing(r[1..], l), name);
    }
  }

  /** The merged field under a name, from the fields the two sides have there. */
  function MergeAt(a: Option<OField>, b: Option<OField>): (f: Option<OField>)
    requires a.Some? && b.Some? ==> Merge(a.value.dataType, b.value.dataType).Some?
  {
    match (a, b)
    case (None, None) => None
    case (Some(x), None) => Some(x.(nullable := true))
    case (None, Some(y)) => Some(y.(nullable := true))
    case (Some(x), Some(y)) =>
      Some(OField(x.name, Merge(x.dataType, y.dataType).value, x.nullable || y.nullable))
  }

  /** Two fields under one name can be merged. */
  predicate Compatible(a: Option<OField>, b: Option<OField>) {
    a.Some? && b.Some? ==> Merge(a.value.dataType, b.value.dataType).Some?
  }

  lemma {:induction false} MergeFieldsSucceeds(l: seq<OField>, r: seq<OField>)
    requires Distinct(l)
    ensures MergeFields(l, r).Some? <==> forall n :: Compatible(At(l, n), At(r, n))
  {
    if forall n :: Compatible(At(l, n), At(r, n)) {
      forall i | 0 <= i < |l| ensures MergeInto(l, i, r).Some? {
        PositionUnique(l, i);
        assert Compatible(At(l, l[i].name), At(r, l[i].name));
      }
    }
    if MergeFields(l, r).Some? {
      forall n ensures Compatible(At(l, n), At(r, n)) {
        var k := Position(l, n);
        if k < |l| {
          assert MergeInto(l, k, r).Some?;
        }
      }
    }
  }

  lemma {:induction false} MergeFieldsAt(l: seq<OField>, r: seq<OField>, n: string)
    requires Distinct(l) && MergeFields(l, r).Some?
    ensures Compatible(At(l, n), At(r, n))
    ensures At(MergeFields(l, r).value, n) == MergeAt(At(l, n), At(r, n))
  {
    MergeFieldsSucceeds(l, r);
    assert Compatible(At(l, n), At(r, n));
    var left := seq(|l|, i requires 0 <= i < |l| => MergeInto(l, i, r).value);
    PositionInSum(left, Missing(r, l), n);
    var k := Position(l, n);
    assert Has(left, n) <==> Has(l, n) by {
      if k < |l| { assert left[k].name == n; }
    }
    if k < |l| {
      assert Position(left, n) == k;
    } else {
      MissingAt(r, l, n);
    }
  }

  // ------------------------------------------------------------- name order

  function FieldNames(fs: seq<OField>): (ns: seq<string>)
    ensures |ns| == |fs| && forall i | 0 <= i < |fs| :: ns[i] == fs[i].name
  {
    seq(|fs|, i requires 0 <= i < |fs| => fs[i].name)
  }

  function Minus(ns: seq<string>, drop: seq<string>): (r: seq<string>) {
    if ns == [] then []
    else if ns[0] in drop then Minus(ns[1..], drop)
    else [ns[0]] + Minus(ns[1..], drop)
  }

  lemma {:induction false} MissingNames(r: seq<OField>, l: seq<OField>)
    ensures FieldNames(Missing(r, l)) == Minus(FieldNames(r), FieldNames(l))
  {
    if r == [] {
      assert FieldNames(r) == [];
    } else {
      MissingNames(r[1..], l);
      assert FieldNames(r)[1..] == FieldNames(r[1..]);
      if !Has(l, r[0].name) {
        assert FieldNames([r[0].(nullable := true)] + Missing(r[1..],
                                                              l)) == [r[0].name] + FieldNames(Missing(r[1..], l));
      }
    }
  }

  lemma {:induction false} MergeFieldsNames(l: seq<OField>, r: seq<OField>)
    requires MergeFields(l, r).Some?
    ensures FieldNames(MergeFields(l, r).value) == FieldNames(l) + Minus(FieldNames(r), FieldNames(l))
  {
    var left := seq(|l|, i requires 0 <= i < |l| => MergeInto(l, i, r).value);
    MissingNames(r, l);
    assert forall i | 0 <= i < |l| :: left[i].name == l[i].name;
    assert FieldNames(left) == FieldNames(l);
    assert FieldNames(left + Missing(r, l)) == FieldNames(left) + FieldNames(Missing(r, l));
  }

  lemma {:induction false} MinusSum(a: seq<string>, b: seq<string>, drop: seq<string>)
    ensures Minus(a + b, drop) == Minus(a, drop) + Minus(b, drop)
  {
    if a == [] {
      assert a + b == b;
    } else {
      MinusSum(a[1..], b, drop);
      assert (a + b)[1..] == a[1..] + b;
    }
  }

  lemma {:induction false} MinusTwice(a: seq<string>, d: seq<string>, e: seq<string>, both: seq<string>)
    requires forall n :: n in both <==> n in d || n in e
    ensures Minus(Minus(a, d), e) == Minus(a, both)
  {
    if a != [] {
      MinusTwice(a[1..], d, e, both);
      if a[0] !in d {
        assert ([a[0]] + Minus(a[1..], d))[1..] == Minus(a[1..], d);
      }
    }
  }

  lemma {:induction false} MinusMembers(a: seq<string>, d: seq<string>, n: string)
    ensures n in Minus(a, d) <==> n in a && n !in d
  {
    if a != [] {
      MinusMembers(a[1..], d, n);
      assert a == [a[0]] + a[1..];
    }
  }

  /** Merging three name lists does not depend on the grouping. */
  lemma {:induction false} NamesAssociate(a: seq<string>, b: seq<string>, c: seq<string>)
    ensures var ab := a + Minus(b, a);
            var bc := b + Minus(c, b);
            ab + Minus(c, ab) == a + Minus(bc, a)
  {
    var ab := a + Minus(b, a);
    MinusSum(b, Minus(c, b), a);
    forall n ensures n in ab <==> n in b || n in a {
      MinusMembers(b, a, n);
    }
    MinusTwice(c, b, a, ab);
  }

  /** Field lists with distinct names are determined by their name order and
  their lookups. */
  lemma {:induction false} SameFields(x: seq<OField>, y: seq<OField>)
    requires Distinct(x) && FieldNames(x) == FieldNames(y)
    requires forall n :: At(x, n) == At(y, n)
    ensures x == y
  {
    forall i | 0 <= i < |x| ensures x[i] == y[i] {
      assert FieldNames(x)[i] == FieldNames(y)[i];
      PositionUnique(x, i);
      assert Distinct(y) by {
        forall p, q | 0 <= p < q < |y| ensures y[p].name != y[q].name {
          assert FieldNames(x)[p] == FieldNames(y)[p] && FieldNames(x)[q] == FieldNames(y)[q];
        }
      }
      PositionUnique(y, i);
      assert At(x, x[i].name) == At(y, x[i].name);
    }
  }
}
