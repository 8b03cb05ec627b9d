/**
 * Sequence utilities behind pandas' `unique()`, `dict(zip(...))` and
 * missing-value filtering: distinct values in first-seen order, the
 * dense index of such a list, and the present values of a nullable column.
 */
module Seqs {
  import opened Wrappers

  /** No value occurs twice. */
  predicate Distinct<T(==)>(s: seq<T>) {
    forall i, j :: 0 <= i < j < |s| ==> s[i] != s[j]
  }

  /** Position of the first occurrence of `x` in `s`. */
  function FirstIndex<T(==)>(s: seq<T>, x: T): (r: nat)
    requires x in s
    ensures r < |s| && s[r] == x && x !in s[..r]
  {
    if s[0] == x then 0 else 1 + FirstIndex(s[1..], x)
  }

  /**
   * The distinct values of `s` in order of first appearance, as
   * `Series.unique()` returns them.
   */
  function Unique<T(==,!new)>(s: seq<T>): (u: seq<T>)
    ensures forall x :: x in u <==> x in s
    ensures Distinct(u)
    ensures |u| <= |s|
  {
    if s == [] then []
    else
      var p := Unique(s[..|s| - 1]);
      var x := s[|s| - 1];
      assert forall y :: y in s <==> y in s[..|s| - 1] || y == x;
      if x in p then p else p + [x]
  }

  /** Extending the input by one value appends that value to `Unique` exactly when it is new. */
  lemma UniqueStep<T(!new)>(s: seq<T>, i: nat)
    requires i < |s|
    ensures Unique(s[..i + 1]) == if s[i] in Unique(s[..i]) then Unique(s[..i]) else Unique(s[..i]) + [s[i]]
  {
    assert s[..i + 1][..i] == s[..i];
  }

  lemma {:induction false} FirstIndexOfPrefix<T>(s: seq<T>, n: nat, x: T)
    requires n <= |s| && x in s[..n]
    ensures FirstIndex(s, x) == FirstIndex(s[..n], x)
  {
    assert s[..n][0] == s[0];
    if s[0] != x {
      assert s[..n][1..] == s[1..][..n - 1];
      FirstIndexOfPrefix(s[1..], n - 1, x);
    }
  }

  /**
   * `Unique` keeps first-seen order: a value listed earlier first occurs
   * earlier in the input.
   */
  lemma {:induction false} UniqueFirstSeen<T(!new)>(s: seq<T>, i: nat, j: nat)
    requires i < j < |Unique(s)|
    ensures FirstIndex(s, Unique(s)[i]) < FirstIndex(s, Unique(s)[j])
    decreases |s|
  {
    var n := |s| - 1;
    var pre := s[..n];
    var p := Unique(pre);
    var u := Unique(s);
    assert u[i] in pre by {
      if s[n] in p {
      } else {
        assert u[i] == p[i];
      }
    }
    FirstIndexOfPrefix(s, n, u[i]);
    if j < |p| {
      assert u[i] == p[i] && u[j] == p[j];
      FirstIndexOfPrefix(s, n, u[j]);
      UniqueFirstSeen(pre, i, j);
    } else {
      assert u[j] == s[n] && s[n] !in pre;
    }
  }

  /**
   * `dict(zip(u, range(len(u))))` for a list of distinct keys: each key is
   * mapped to its position.
   */
  function DenseIndex<T(==,!new)>(u: seq<T>): (m: map<T, nat>)
    requires Distinct(u)
    ensures forall x :: x in m <==> x in u
    ensures forall i :: 0 <= i < |u| ==> m[u[i]] == i
  {
    map i | 0 <= i < |u| :: u[i] := i
  }

  /** Appending a new key to the list gives it the next index and leaves the others alone. */
  lemma DenseIndexAppend<T(!new)>(u: seq<T>, x: T)
    requires Distinct(u) && x !in u
    ensures Distinct(u + [x])
    ensures DenseIndex(u + [x]) == DenseIndex(u)[x := |u|]
  {
    var v := u + [x];
    assert forall i :: 0 <= i < |u| ==> v[i] == u[i];
    var a, b := DenseIndex(v), DenseIndex(u)[x := |u|];
    assert a.Keys == b.Keys;
    forall y | y in a
      ensures a[y] == b[y]
    {
      var i :| 0 <= i < |v| && v[i] == y;
    }
  }

  /** The dense index gives the `k` keys exactly the numbers `0..k-1`, none shared. */
  lemma DenseIndexIsBijection<T(!new)>(u: seq<T>)
    requires Distinct(u)
    ensures forall x :: x in u ==> DenseIndex(u)[x] < |u| && u[DenseIndex(u)[x]] == x
    ensures forall x, y :: x in u && y in u && x != y ==> DenseIndex(u)[x] != DenseIndex(u)[y]
  {
    var m := DenseIndex(u);
    forall x | x in u
      ensures m[x] < |u| && u[m[x]] == x
    {
      var i :| 0 <= i < |u| && u[i] == x;
      assert m[u[i]] == i;
    }
  }

  /** A list has at least as many entries as values, and exactly as many when no value repeats. */
  lemma {:induction false} ElementsSize<T>(s: seq<T>)
    ensures |set x | x in s| <= |s|
    ensures Distinct(s) ==> |set x | x in s| == |s|
  {
    if s != [] {
      var n := |s| - 1;
      ElementsSize(s[..n]);
      assert s == s[..n] + [s[n]];
      assert (set x | x in s) == (set x | x in s[..n]) + {s[n]};
      if Distinct(s) {
        assert s[n] !in s[..n];
      }
    }
  }

  /** A subset is no larger than its superset. */
  lemma SubsetSize<T>(a: set<T>, b: set<T>)
    requires a <= b
    ensures |a| <= |b|
  {
    assert b == a + (b - a);
  }

  /** The present (non-missing) values of a nullable column, in row order. */
  function Somes<T(!new)>(s: seq<Option<T>>): (r: seq<T>)
    ensures forall x :: x in r <==> Some(x) in s
    ensures |r| <= |s|
  {
    if s == [] then []
    else
      var p := Somes(s[..|s| - 1]);
      assert forall y :: y in s <==> y in s[..|s| - 1] || y == s[|s| - 1];
      match s[|s| - 1]
      case None => p
      case Some(x) => p + [x]
  }

  /** Number of present values in a nullable column. */
  function CountPresent<T(!new)>(s: seq<Option<T>>): (n: nat)
    ensures n <= |s|
    ensures n == |Somes(s)|
  {
    if s == [] then 0
    else CountPresent(s[..|s| - 1]) + (if s[|s| - 1].Some? then 1 else 0)
  }

  /** A value occurs at most once in a list without repeats. */
  lemma {:induction false} DistinctCount<T>(s: seq<T>, x: T)
    requires Distinct(s)
    ensures multiset(s)[x] <= 1
  {
    if s != [] {
      var p := s[..|s| - 1];
      assert s == p + [s[|s| - 1]];
      DistinctCount(p, x);
      if s[|s| - 1] == x {
        assert x !in p;
      }
    }
  }

  /** Any selection (a sub-multiset) of a list without repeats has no repeats either. */
  lemma DistinctOfSubMultiset<T>(s: seq<T>, p: seq<T>)
    requires Distinct(p) && multiset(s) <= multiset(p)
    ensures Distinct(s)
  {
    forall i, j | 0 <= i < j < |s|
      ensures s[i] != s[j]
    {
      if s[i] == s[j] {
        var x := s[i];
        assert s == s[..i] + [x] + s[i + 1..j] + [x] + s[j + 1..];
        assert multiset(s)[x] >= 2;
        DistinctCount(p, x);
        assert false;
      }
    }
  }
}
