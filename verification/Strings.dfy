/** Sorting of string sets, as the query generator does it to get one text for one filter. */
module Strings {

  /** Rust's order on strings: character by character, shorter first. */
  predicate Before(a: string, b: string) {
    a == [] || (b != [] && (a[0] < b[0] || (a[0] == b[0] && Before(a[1..], b[1..]))))
  }

  /** At the first place where the two differ the first has the lesser character, or it ends there. */
  lemma {:induction false} BeforeMeans(a: string, b: string)
    ensures Before(a, b) <==>
      a <= b || exists k :: 0 <= k < |a| && k < |b| && a[..k] == b[..k] && a[k] < b[k]
  {
    if a != [] && b != [] {
      BeforeMeans(a[1..], b[1..]);
      assert a <= b <==> a[0] == b[0] && a[1..] <= b[1..];
      if k :| 0 <= k < |a| && k < |b| && a[..k] == b[..k] && a[k] < b[k] {
        if k > 0 {
          assert a[0] == a[..k][0] == b[..k][0] == b[0];
          assert a[1..][..k - 1] == a[..k][1..] == b[..k][1..] == b[1..][..k - 1];
          assert a[1..][k - 1] < b[1..][k - 1];
        }
      }
      if a[0] < b[0] {
        assert a[..0] == b[..0];
      } else if a[0] == b[0] {
        var x, y := a[1..], b[1..];
        if k :| 0 <= k < |x| && k < |y| && x[..k] == y[..k] && x[k] < y[k] {
          assert a[..k + 1] == [a[0]] + x[..k] && b[..k + 1] == [b[0]] + y[..k];
          assert a[k + 1] < b[k + 1];
        }
      }
    }
  }

  lemma {:induction false} BeforeTotal(a: string, b: string)
    ensures Before(a, b) || Before(b, a)
  {
    if a != [] && b != [] {
      BeforeTotal(a[1..], b[1..]);
    }
  }

  lemma {:induction false} BeforeAntisymmetric(a: string, b: string)
    requires Before(a, b) && Before(b, a)
    ensures a == b
  {
    if a != [] && b != [] {
      BeforeAntisymmetric(a[1..], b[1..]);
      assert a == [a[0]] + a[1..] && b == [b[0]] + b[1..];
    }
  }

  lemma {:induction false} BeforeTransitive(a: string, b: string, c: string)
    requires Before(a, b) && Before(b, c)
    ensures Before(a, c)
  {
    if a != [] && a[0] == b[0] && b[0] == c[0] {
      BeforeTransitive(a[1..], b[1..], c[1..]);
    }
  }

  predicate IsLeast(s: set<string>, m: string) {
    m in s && forall x :: x in s ==> Before(m, x)
  }

  lemma {:induction false} LeastExists(s: set<string>)
    requires s != {}
    ensures exists m :: IsLeast(s, m)
  {
    var x :| x in s;
    var rest := s - {x};
    BeforeTotal(x, x);
    if rest == {} {
      assert s == {x};
      assert IsLeast(s, x);
    } else {
      LeastExists(rest);
      var m :| IsLeast(rest, m);
      BeforeTotal(x, m);
      if Before(x, m) {
        forall y | y in s ensures Before(x, y) {
          if y != x { BeforeTransitive(x, m, y); }
        }
        assert IsLeast(s, x);
      } else {
        assert IsLeast(s, m);
      }
    }
  }

  function Least(s: set<string>): (m: string)
    requires s != {}
    ensures IsLeast(s, m)
  {
    LeastExists(s);
    assert forall a, b :: IsLeast(s, a) && IsLeast(s, b) ==> a == b by {
      forall a, b | IsLeast(s, a) && IsLeast(s, b) ensures a == b { BeforeAntisymmetric(a, b); }
    }
    var m :| m in s && IsLeast(s, m);
    m
  }

  /** The elements in order, each once. */
  function Sorted(s: set<string>): (r: seq<string>)
    ensures |r| == |s|
    ensures forall x :: x in r <==> x in s
  {
    if s == {} then []
    else
      var m := Least(s);
      var rest := Sorted(s - {m});
      assert forall x :: x in [m] + rest <==> x == m || x in rest;
      [m] + rest
  }

  lemma SortedUnfolds(s: set<string>)
    requires s != {}
    ensures Sorted(s) == [Least(s)] + Sorted(s - {Least(s)})
  {
  }

  lemma LeastIsFirst(s: set<string>, x: string)
    requires s != {} && x in s - {Least(s)}
    ensures Before(Least(s), x) && Least(s) != x
  {
  }

  predicate InOrder(r: seq<string>, i: nat, j: nat)
    requires i < j < |r|
  {
    Before(r[i], r[j]) && r[i] != r[j]
  }

  lemma SortedHead(s: set<string>, r: seq<string>, j: nat)
    requires r == Sorted(s) && 0 < j < |r|
    ensures InOrder(r, 0, j) && r[1..] == Sorted(s - {r[0]})
  {
    SortedUnfolds(s);
    assert r[j] in r[1..];
    LeastIsFirst(s, r[j]);
  }

  lemma {:induction false} ListedInOrder(s: set<string>, r: seq<string>, i: nat, j: nat)
    requires r == Sorted(s) && i < j < |r|
    ensures InOrder(r, i, j)
  {
    SortedHead(s, r, j);
    if i > 0 {
      ListedInOrder(s - {r[0]}, r[1..], i - 1, j - 1);
    }
  }

  lemma SortedInOrder(s: set<string>, i: nat, j: nat)
    requires i < j < |s|
    ensures Before(Sorted(s)[i], Sorted(s)[j]) && Sorted(s)[i] != Sorted(s)[j]
  {
    ListedInOrder(s, Sorted(s), i, j);
  }
}
