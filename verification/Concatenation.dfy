/** Pieces put together in order. */
module Concatenation {
  function Flat<T>(pieces: seq<seq<T>>): (whole: seq<T>) {
    if pieces == [] then [] else pieces[0] + Flat(pieces[1..])
  }

  lemma {:induction false} FlatAppend<T>(a: seq<seq<T>>, b: seq<seq<T>>)
    ensures Flat(a + b) == Flat(a) + Flat(b)
    decreases |a|
  {
    if a == [] {
      assert a + b == b;
    } else {
      assert (a + b)[1..] == a[1..] + b;
      FlatAppend(a[1..], b);
    }
  }

  lemma {:induction false} FlatOne<T>(a: seq<seq<T>>, f: seq<T>)
    ensures Flat(a + [f]) == Flat(a) + f
  {
    FlatAppend(a, [f]);
    assert [f][1..] == [];
    assert Flat([f]) == f;
  }

  lemma {:induction false} FlatFront<T>(f: seq<T>, rest: seq<seq<T>>)
    ensures Flat([f] + rest) == f + Flat(rest)
  {
  }
}
