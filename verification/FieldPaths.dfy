/** Paths of nested fields, from which their stable identifiers are derived. */
module FieldPaths {
  import opened Numerals
  import opened ObservedTypes

  datatype Step = Step(position: nat, name: string)

  function FieldPath(parent: string, position: nat, name: string): (path: string) {
    parent + "/" + Decimal(position) + ":" + Decimal(|name|) + ":" + name
  }

  /** The path of a field reached by a chain of steps from the row. */
  function PathOf(chain: seq<Step>): (path: string) {
    if chain == [] then ""
    else
      var last := chain[|chain| - 1];
      FieldPath(PathOf(chain[..|chain| - 1]), last.position, last.name)
  }

  function Segment(s: Step): (t: string) {
    "/" + (Decimal(s.position) + ":" + (Decimal(|s.name|) + ":" + s.name))
  }

  lemma {:induction false} PathAppends(parent: string, s: Step)
    ensures FieldPath(parent, s.position, s.name) == parent + Segment(s)
  {
  }

  lemma {:induction false} PathFromFront(first: Step, rest: seq<Step>)
    ensures PathOf([first] + rest) == Segment(first) + PathOf(rest)
    decreases |rest|
  {
    var chain := [first] + rest;
    if rest == [] {
      assert chain[..0] == [];
      PathAppends("", first);
    } else {
      var n := |rest| - 1;
      assert chain[..|chain| - 1] == [first] + rest[..n];
      PathFromFront(first, rest[..n]);
      PathAppends(PathOf(chain[..|chain| - 1]), rest[n]);
      PathAppends(PathOf(rest[..n]), rest[n]);
    }
  }

  /** A text without the separator ends at the first separator. */
  lemma {:induction false} BeforeColon(s: string, t: string, x: string, y: string)
    requires s + ":" + x == t + ":" + y
    requires (forall i | 0 <= i < |s| :: s[i] != ':') && forall i | 0 <= i < |t| :: t[i] != ':'
    ensures s == t && x == y
  {
    var whole := s + ":" + x;
    assert whole[|s|] == ':' && whole[|t|] == ':';
    assert |s| == |t| by {
      assert forall i | 0 <= i < |s| :: whole[i] == s[i];
      assert forall i | 0 <= i < |t| :: whole[i] == t[i];
    }
    assert s == whole[..|s|] == t;
    assert x == whole[|s| + 1..] == y;
  }

  lemma {:induction false} NumeralsBeforeColon(m: nat, n: nat, x: string, y: string)
    requires Decimal(m) + ":" + x == Decimal(n) + ":" + y
    ensures m == n && x == y
  {
    DecimalReads(m);
    DecimalReads(n);
    BeforeColon(Decimal(m), Decimal(n), x, y);
    DecimalInjective(m, n);
  }

  /** Segments decode from the front, whatever the names contain. */
  lemma {:induction false} SegmentDecodes(a: Step, b: Step, x: string, y: string)
    requires Segment(a) + x == Segment(b) + y
    ensures a == b && x == y
  {
    var p, q := Decimal(|a.name|) + ":" + (a.name + x), Decimal(|b.name|) + ":" + (b.name + y);
    assert (Segment(a) + x)[1..] == Decimal(a.position) + ":" + p;
    assert (Segment(b) + y)[1..] == Decimal(b.position) + ":" + q;
    NumeralsBeforeColon(a.position, b.position, p, q);
    NumeralsBeforeColon(|a.name|, |b.name|, a.name + x, b.name + y);
    assert a.name == (a.name + x)[..|a.name|] == b.name;
    assert x == (a.name + x)[|a.name|..] == y;
  }

  /** Different chains have different paths. */
  lemma {:induction false} PathInjective(c: seq<Step>, d: seq<Step>)
    requires PathOf(c) == PathOf(d)
    ensures c == d
    decreases |c|
  {
    if c != [] {
      assert c == [c[0]] + c[1..];
      PathFromFront(c[0], c[1..]);
    }
    if d != [] {
      assert d == [d[0]] + d[1..];
      PathFromFront(d[0], d[1..]);
    }
    if c != [] && d != [] {
      SegmentDecodes(c[0], d[0], PathOf(c[1..]), PathOf(d[1..]));
      PathInjective(c[1..], d[1..]);
    }
  }

  // ------------------------------------------------------------ inferred schemas

  /** Every path an inferred type feeds to an identifier, in order. A list adds no
  step of its own. */
  function TypePaths(parent: string, o: Observed): (paths: seq<string>)
    decreases o, 0
  {
    match o
    case OList(e) => TypePaths(parent, e)
    case OStruct(fs) => RowPaths(parent, fs, 0)
    case _ => []
  }

  /** The paths of the fields from the `i`-th on. */
  function RowPaths(parent: string, fs: seq<OField>, i: nat): (paths: seq<string>)
    requires i <= |fs|
    decreases fs, |fs| - i
  {
    if i == |fs| then []
    else
      var path := FieldPath(parent, i, fs[i].name);
      [path] + TypePaths(path, fs[i].dataType) + RowPaths(parent, fs, i + 1)
  }

  predicate NoDuplicates(s: seq<string>) {
    forall i, j | 0 <= i < j < |s| :: s[i] != s[j]
  }

  /** The path leads below the chain, through one of the positions from `lo` on. */
  ghost predicate Below(p: string, c: seq<Step>, lo: nat, hi: nat) {
    exists d: seq<Step> :: LeadsTo(p, c, d) && lo <= d[0].position < hi
  }

  ghost predicate LeadsTo(p: string, c: seq<Step>, d: seq<Step>) {
    d != [] && p == PathOf(c + d)
  }

  lemma {:induction false} OneStep(c: seq<Step>, i: nat, name: string)
    ensures PathOf(c + [Step(i, name)]) == FieldPath(PathOf(c), i, name)
    ensures Below(FieldPath(PathOf(c), i, name), c, i, i + 1)
  {
  }

  /** Below a field means below its parent, at the field's position. */
  lemma {:induction false} BelowField(p: string, c: seq<Step>, s: Step, hi: nat)
    requires Below(p, c + [s], 0, hi)
    ensures Below(p, c, s.position, s.position + 1)
  {
    var d: seq<Step> :| LeadsTo(p, c + [s], d) && 0 <= d[0].position < hi;
    assert c + [s] + d == c + ([s] + d);
    assert LeadsTo(p, c, [s] + d);
  }

  lemma {:induction false} SameSteps(p: string, c: seq<Step>, d: seq<Step>, e: seq<Step>)
    requires LeadsTo(p, c, d) && LeadsTo(p, c, e)
    ensures d == e
  {
    PathInjective(c + d, c + e);
    assert d == (c + d)[|c|..] == e;
  }

  /** Paths through different positions differ, */
  lemma {:induction false} BelowApart(p: string, c: seq<Step>, i: nat, j: nat, k: nat)
    requires Below(p, c, i, j)
    ensures !Below(p, c, j, k)
  {
    if Below(p, c, j, k) {
      var d: seq<Step> :| LeadsTo(p, c, d) && i <= d[0].position < j;
      var e: seq<Step> :| LeadsTo(p, c, e) && j <= e[0].position < k;
      SameSteps(p, c, d, e);
    }
  }

  /** and a field differs from what is below it. */
  lemma {:induction false} NotBelowItself(c: seq<Step>, hi: nat)
    ensures !Below(PathOf(c), c, 0, hi)
  {
    if Below(PathOf(c), c, 0, hi) {
      var d: seq<Step> :| LeadsTo(PathOf(c), c, d) && 0 <= d[0].position < hi;
      PathInjective(c, c + d);
    }
  }

  /** How many positions a type has. */
  function Width(o: Observed): (n: nat)
    decreases o
  {
    match o
    case OList(e) => Width(e)
    case OStruct(fs) => |fs|
    case _ => 0
  }

  lemma {:induction false} TypePathsBelow(c: seq<Step>, o: Observed, p: string)
    requires p in TypePaths(PathOf(c), o)
    ensures Below(p, c, 0, Width(o))
    decreases o, 0
  {
    match o
    case OList(e) => TypePathsBelow(c, e, p);
    case OStruct(fs) => RowPathsBelow(c, fs, 0, p);
  }

  lemma {:induction false} RowPathsBelow(c: seq<Step>, fs: seq<OField>, i: nat, p: string)
    requires i <= |fs| && p in RowPaths(PathOf(c), fs, i)
    ensures Below(p, c, i, |fs|)
    decreases fs, |fs| - i
  {
    var s := Step(i, fs[i].name);
    var path := FieldPath(PathOf(c), i, fs[i].name);
    OneStep(c, i, fs[i].name);
    if p == path {
    } else if p in TypePaths(path, fs[i].dataType) {
      TypePathsBelow(c + [s], fs[i].dataType, p);
      BelowField(p, c, s, Width(fs[i].dataType));
    } else {
      RowPathsBelow(c, fs, i + 1, p);
    }
  }

  lemma {:induction false} NoDuplicatesJoined(a: seq<string>, b: seq<string>)
    requires NoDuplicates(a) && NoDuplicates(b) && forall p | p in a :: p !in b
    ensures NoDuplicates(a + b)
  {
    forall i, j | 0 <= i < j < |a + b| ensures (a + b)[i] != (a + b)[j] {
      if i < |a| <= j {
        assert a[i] in a && b[j - |a|] in b;
      }
    }
  }

  lemma {:induction false} TypePathsDistinct(c: seq<Step>, o: Observed)
    ensures NoDuplicates(TypePaths(PathOf(c), o))
    decreases o, 0
  {
    match o
    case OList(e) => TypePathsDistinct(c, e);
    case OStruct(fs) => RowPathsDistinct(c, fs, 0);
    case _ =>
  }

  lemma {:induction false} FieldBlockDistinct(c: seq<Step>, i: nat, name: string, o: Observed)
    requires NoDuplicates(TypePaths(PathOf(c + [Step(i, name)]), o))
    ensures var path := FieldPath(PathOf(c), i, name);
            && NoDuplicates([path] + TypePaths(path, o))
            && forall p | p in [path] + TypePaths(path, o) :: Below(p, c, i, i + 1)
  {
    var s := Step(i, name);
    var path := FieldPath(PathOf(c), i, name);
    OneStep(c, i, name);
    forall p | p in TypePaths(path, o) ensures p != path && Below(p, c, i, i + 1) {
      TypePathsBelow(c + [s], o, p);
      NotBelowItself(c + [s], Width(o));
      BelowField(p, c, s, Width(o));
    }
    NoDuplicatesJoined([path], TypePaths(path, o));
  }

  /** No two fields of an inferred schema share a path, at any depth. */
  lemma {:induction false} RowPathsDistinct(c: seq<Step>, fs: seq<OField>, i: nat)
    requires i <= |fs|
    ensures NoDuplicates(RowPaths(PathOf(c), fs, i))
    decreases fs, |fs| - i
  {
    if i < |fs| {
      var path := FieldPath(PathOf(c), i, fs[i].name);
      var block, rest := [path] + TypePaths(path, fs[i].dataType), RowPaths(PathOf(c), fs, i + 1);
      TypePathsDistinct(c + [Step(i, fs[i].name)], fs[i].dataType);
      FieldBlockDistinct(c, i, fs[i].name, fs[i].dataType);
      RowPathsDistinct(c, fs, i + 1);
      forall p | p in block ensures p !in rest {
        BelowApart(p, c, i, i + 1, |fs|);
        if p in rest {
          RowPathsBelow(c, fs, i + 1, p);
        }
      }
      NoDuplicatesJoined(block, rest);
    }
  }
}
