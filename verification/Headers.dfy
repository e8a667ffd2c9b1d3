/** Column names from a header row: a repeated name gets the first suffix that
makes it new. How a suffix is written is a parameter here. */
module Headers {
  import opened Options
  import opened Arithmetic

  /** `form(base, k)` is the `k`-th form of a name, from 1 on. */
  type Form = (string, nat) -> string

  ghost predicate Injective(form: Form) {
    forall base: string, j: nat, k: nat | j >= 1 && k >= 1 && form(base, j) == form(base, k) :: j == k
  }

  function FirstForms(form: Form, base: string, n: nat): (names: set<string>) {
    if n == 0 then {} else FirstForms(form, base, n - 1) + {form(base, n)}
  }

  lemma {:induction false} NotAmongEarlier(form: Form, base: string, m: nat, n: nat)
    requires Injective(form) && m < n
    ensures form(base, n) !in FirstForms(form, base, m)
    decreases m
  {
    if m > 0 {
      NotAmongEarlier(form, base, m - 1, n);
    }
  }

  lemma {:induction false} FormsDiffer(form: Form, base: string, n: nat)
    requires Injective(form)
    ensures |FirstForms(form, base, n)| == n
  {
    if n > 0 {
      FormsDiffer(form, base, n - 1);
      NotAmongEarlier(form, base, n - 1, n);
    }
  }

  /** The first `n` forms of a name are taken. */
  predicate Taken(form: Form, used: set<string>, base: string, n: nat) {
    forall k: nat | 1 <= k <= n :: form(base, k) in used
  }

  /** Among the names in use only so many forms of one name can be. */
  lemma {:induction false} TakenBound(form: Form, used: set<string>, base: string, n: nat)
    requires Injective(form) && Taken(form, used, base, n)
    ensures n <= |used|
  {
    var forms := FirstForms(form, base, n);
    FormsDiffer(form, base, n);
    FormsTaken(form, used, base, n);
    assert used == forms + (used - forms);
  }

  lemma {:induction false} FormsTaken(form: Form, used: set<string>, base: string, n: nat)
    requires Taken(form, used, base, n)
    ensures FirstForms(form, base, n) <= used
  {
    if n > 0 {
      FormsTaken(form, used, base, n - 1);
    }
  }

  /** The first `n` names as a set. */
  function Given(names: seq<string>, n: nat): (used: set<string>)
    requires n <= |names|
  {
    if n == 0 then {} else Given(names, n - 1) + {names[n - 1]}
  }

  /** The first form of a base that is not in use; it is reached within one step
  more than there are names in use. */
  predicate FirstFree(form: Form, base: string, used: set<string>, name: string) {
    && name !in used
    && exists k: nat | 1 <= k <= |used| + 1 :: name == form(base, k) && Taken(form, used, base, k - 1)
  }

  /** A column has the first form of its base that no column before it has. */
  predicate RepairedAt(form: Form, bases: seq<string>, names: seq<string>, i: nat)
    requires i < |names| <= |bases|
  {
    FirstFree(form, bases[i], Given(names, i), names[i])
  }

  predicate Repaired(form: Form, bases: seq<string>, names: seq<string>) {
    |names| <= |bases| && forall i | 0 <= i < |names| :: RepairedAt(form, bases, names, i)
  }

  lemma {:induction false} GivenLocal(names: seq<string>, name: string, n: nat)
    requires n <= |names|
    ensures Given(names + [name], n) == Given(names, n)
  {
    if n > 0 {
      GivenLocal(names, name, n - 1);
      assert (names + [name])[n - 1] == names[n - 1];
    }
  }

  lemma {:induction false} RepairedMore(form: Form, bases: seq<string>, names: seq<string>, name: string)
    requires Repaired(form, bases, names) && |names| < |bases|
    requires FirstFree(form, bases[|names|], Given(names, |names|), name)
    ensures Repaired(form, bases, names + [name])
    ensures Given(names + [name], |names| + 1) == Given(names, |names|) + {name}
  {
    var more := names + [name];
    GivenLocal(names, name, |names|);
    forall i | 0 <= i < |more| ensures RepairedAt(form, bases, more, i) {
      if i < |names| {
        GivenLocal(names, name, i);
        assert more[i] == names[i] && RepairedAt(form, bases, names, i);
      }
    }
  }

  lemma {:induction false} GivenHas(names: seq<string>, i: nat, n: nat)
    requires i < n <= |names|
    ensures names[i] in Given(names, n)
  {
    if i < n - 1 {
      GivenHas(names, i, n - 1);
    }
  }

  /** Repaired names are pairwise distinct. */
  lemma {:induction false} RepairedDistinct(form: Form, bases: seq<string>, names: seq<string>, i: nat, j: nat)
    requires Repaired(form, bases, names) && i < j < |names|
    ensures names[i] != names[j]
  {
    assert RepairedAt(form, bases, names, j);
    GivenHas(names, i, j);
  }

  lemma {:induction false} GivenSize(form: Form, bases: seq<string>, names: seq<string>, n: nat)
    requires Repaired(form, bases, names) && n <= |names|
    ensures |Given(names, n)| == n
  {
    if n > 0 {
      GivenSize(form, bases, names, n - 1);
      assert RepairedAt(form, bases, names, n - 1);
    }
  }

  /** Every count that is kept stands for forms already given out. */
  predicate SuffixesTaken(form: Form, suffixes: map<string, nat>, used: set<string>) {
    forall b | b in suffixes :: Taken(form, used, b, suffixes[b])
  }

  /** The suffix loop for one column. */
  method NextName(form: Form, base: string, from: nat, used: set<string>) returns (r: Option<(string, nat)>)
    requires Injective(form) && Taken(form, used, base, from)
    ensures r.Some? ==>
              var (name, k) := r.value;
              && from < k <= |used| + 1 && name == form(base, k) && Taken(form, used, base, k - 1)
              && FirstFree(form, base, used, name)
    ensures |used| < USIZE_MAX ==> r.Some?
  {
    var suffix := from;
    TakenBound(form, used, base, suffix);
    while true
      invariant from <= suffix <= |used| && Taken(form, used, base, suffix)
      decreases |used| - suffix
    {
      if suffix + 1 > USIZE_MAX {
        return None;
      }
      suffix := suffix + 1;
      var candidate := form(base, suffix);
      if candidate !in used {
        return Some((candidate, suffix));
      }
      TakenBound(form, used, base, suffix);
    }
  }

  /** Names for all columns. */
  method ColumnNames(form: Form, bases: seq<string>) returns (r: Option<seq<string>>)
    requires Injective(form)
    ensures |bases| <= USIZE_MAX ==> r.Some?
    ensures r.Some? ==> |r.value| == |bases| && Repaired(form, bases, r.value)
    ensures r.Some? ==> forall i, j | 0 <= i < j < |bases| :: r.value[i] != r.value[j]
  {
    var suffixes: map<string, nat> := map[];
    var used: set<string> := {};
    var names: seq<string> := [];
    for i := 0 to |bases|
      invariant |names| == i && Repaired(form, bases, names)
      invariant used == Given(names, i) && SuffixesTaken(form, suffixes, used)
    {
      var base := bases[i];
      GivenSize(form, bases, names, i);
      var next := NextName(form, base, if base in suffixes then suffixes[base] else 0, used);
      if next.None? {
        return None;
      }
      var (name, k) := next.value;
      RepairedMore(form, bases, names, name);
      suffixes, used, names := suffixes[base := k], used + {name}, names + [name];
    }
    forall i, j | 0 <= i < j < |bases| ensures names[i] != names[j] {
      RepairedDistinct(form, bases, names, i, j);
    }
    return Some(names);
  }
}
