/** The optional value used throughout the model, and the sizes of sets. */
module Wrappers {
  datatype Option<+T> = None | Some(value: T)

  /** `collect::<Option<Vec<_>>>`: all the values, or nothing. */
  function Collect<T>(xs: seq<Option<T>>): Option<seq<T>> {
    if xs == [] then Some([])
    else
      var front, last := Collect(xs[..|xs| - 1]), xs[|xs| - 1];
      if front.Some? && last.Some? then Some(front.value + [last.value]) else None
  }

  lemma CollectPush<T>(xs: seq<Option<T>>, i: nat, values: seq<T>, v: T)
    requires i < |xs| && Collect(xs[..i]) == Some(values) && xs[i] == Some(v)
    ensures Collect(xs[..i + 1]) == Some(values + [v])
  {
    assert xs[..i + 1][..i] == xs[..i];
  }

  lemma {:induction false} CollectSome<T>(xs: seq<Option<T>>, values: seq<T>)
    requires |xs| == |values| && forall i :: 0 <= i < |xs| ==> xs[i] == Some(values[i])
    ensures Collect(xs) == Some(values)
  {
    if xs != [] {
      var n := |xs| - 1;
      CollectSome(xs[..n], values[..n]);
      assert values == values[..n] + [values[n]];
    }
  }

  lemma {:induction false} CollectNone<T>(xs: seq<Option<T>>, i: nat)
    requires i < |xs| && xs[i].None?
    ensures Collect(xs).None?
  {
    var n := |xs| - 1;
    if i < n {
      assert xs[..n][i] == xs[i];
      CollectNone(xs[..n], i);
    }
  }

  lemma SubsetSize<T>(a: set<T>, b: set<T>)
    requires a <= b
    ensures |a| <= |b| && (a != b ==> |a| < |b|)
  {
    assert b == a + (b - a);
  }
}
