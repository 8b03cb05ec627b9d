/**
 * The group-by reductions of the analysis functions: a sum, a size or a
 * distinct count per key, and the top / bottom N of such a table.
 * Rows whose key is missing belong to no group, as in `groupby`.
 */
module Aggregates {
  import opened Wrappers
  import opened Seqs
  import opened Records

  /** A reduced table: one (key, value) entry per group. */
  type Table<K> = seq<(K, int)>

  /** The group keys: distinct present keys, in first-seen order. */
  function GroupKeys<K(==,!new)>(keys: seq<Option<K>>): seq<K> {
    Unique(Somes(keys))
  }

  /** Sum of the values of the rows whose key is `k`, missing values counted as 0. */
  function SumWhere<K(==)>(keys: seq<Option<K>>, vals: seq<Option<int>>, k: K): int
    requires |keys| == |vals|
  {
    if keys == [] then 0
    else
      var n := |keys| - 1;
      SumWhere(keys[..n], vals[..n], k) + (if keys[n] == Some(k) then OrZero(vals[n]) else 0)
  }

  /** Sum of the values of every row with a present key. */
  function KeyedTotal<K>(keys: seq<Option<K>>, vals: seq<Option<int>>): int
    requires |keys| == |vals|
  {
    if keys == [] then 0
    else
      var n := |keys| - 1;
      KeyedTotal(keys[..n], vals[..n]) + (if keys[n].Some? then OrZero(vals[n]) else 0)
  }

  /** Sum of a whole column, missing values counted as 0. */
  function SumAll(vals: seq<Option<int>>): int {
    if vals == [] then 0 else SumAll(vals[..|vals| - 1]) + OrZero(vals[|vals| - 1])
  }

  /** When every key is present, the keyed total is the column's whole sum. */
  lemma {:induction false} AllKeyedTotal<K>(keys: seq<Option<K>>, vals: seq<Option<int>>)
    requires |keys| == |vals| && forall i :: 0 <= i < |keys| ==> keys[i].Some?
    ensures KeyedTotal(keys, vals) == SumAll(vals)
  {
    if keys != [] {
      var n := |keys| - 1;
      assert vals[..n] == vals[..|vals| - 1];
      AllKeyedTotal(keys[..n], vals[..n]);
    }
  }

  /** Sum of the value column of a reduced table. */
  function Total<K>(t: Table<K>): int {
    if t == [] then 0 else Total(t[..|t| - 1]) + t[|t| - 1].1
  }

  /** Keys of a reduced table. */
  function KeysOf<K>(t: Table<K>): seq<K> {
    seq(|t|, i requires 0 <= i < |t| => t[i].0)
  }

  /** `groupby(key)[col].sum()`: one entry per present key with the sum of its rows. */
  function GroupSum<K(==,!new)>(keys: seq<Option<K>>, vals: seq<Option<int>>): (t: Table<K>)
    requires |keys| == |vals|
    ensures KeysOf(t) == GroupKeys(keys)
    ensures Distinct(KeysOf(t))
    ensures forall k :: k in KeysOf(t) <==> Some(k) in keys
    ensures forall i :: 0 <= i < |t| ==> t[i].1 == SumWhere(keys, vals, t[i].0)
  {
    var u := GroupKeys(keys);
    seq(|u|, i requires 0 <= i < |u| => (u[i], SumWhere(keys, vals, u[i])))
  }

  /** The keys of a grouping are exactly the present keys, each once. */
  lemma GroupKeysExact<K(!new)>(keys: seq<Option<K>>)
    ensures Distinct(GroupKeys(keys))
    ensures forall k :: k in GroupKeys(keys) <==> Some(k) in keys
  {
  }

  lemma SumWhereAbsent<K>(keys: seq<Option<K>>, vals: seq<Option<int>>, k: K)
    requires |keys| == |vals| && Some(k) !in keys
    ensures SumWhere(keys, vals, k) == 0
  {
    if keys != [] {
      var n := |keys| - 1;
      assert Some(k) !in keys[..n];
      SumWhereAbsent(keys[..n], vals[..n], k);
    }
  }

  /** Sum over the listed keys of their group sums. */
  function SumOver<K(==)>(ks: seq<K>, keys: seq<Option<K>>, vals: seq<Option<int>>): int
    requires |keys| == |vals|
  {
    if ks == [] then 0
    else SumOver(ks[..|ks| - 1], keys, vals) + SumWhere(keys, vals, ks[|ks| - 1])
  }

  /** Adding one row adds its value to the group sums of a key list at most once. */
  lemma SumOverLastRow<K>(ks: seq<K>, keys: seq<Option<K>>, vals: seq<Option<int>>)
    requires |keys| == |vals| && keys != [] && Distinct(ks)
    ensures var n := |keys| - 1;
      SumOver(ks, keys, vals) == SumOver(ks, keys[..n], vals[..n]) +
        (if keys[n].Some? && keys[n].value in ks then OrZero(vals[n]) else 0)
  {
    if ks != [] {
      var m := |ks| - 1;
      SumOverLastRow(ks[..m], keys, vals);
      assert forall x :: x in ks <==> x in ks[..m] || x == ks[m];
    }
  }

  lemma TotalOfGroupSum<K(!new)>(keys: seq<Option<K>>, vals: seq<Option<int>>, ks: seq<K>)
    requires |keys| == |vals| && ks == GroupKeys(keys)
    ensures Total(GroupSum(keys, vals)) == SumOver(ks, keys, vals)
  {
    var t := GroupSum(keys, vals);
    TotalPrefix(t, keys, vals, |t|);
    assert t[..|t|] == t;
    assert KeysOf(t)[..|t|] == KeysOf(t) == ks;
  }

  lemma TotalPrefix<K(!new)>(t: Table<K>, keys: seq<Option<K>>, vals: seq<Option<int>>, m: nat)
    requires |keys| == |vals| && t == GroupSum(keys, vals) && m <= |t|
    ensures Total(t[..m]) == SumOver(KeysOf(t)[..m], keys, vals)
  {
    if m > 0 {
      TotalPrefix(t, keys, vals, m - 1);
      assert t[..m][..m - 1] == t[..m - 1];
      assert KeysOf(t)[..m][..m - 1] == KeysOf(t)[..m - 1];
    }
  }

  /**
   * Completeness of a group-by sum: the group totals add up to the total of
   * every row that has a key, missing values counted as 0.
   */
  lemma {:induction false} GroupSumComplete<K(!new)>(keys: seq<Option<K>>, vals: seq<Option<int>>)
    requires |keys| == |vals|
    ensures Total(GroupSum(keys, vals)) == KeyedTotal(keys, vals)
  {
    var ks := GroupKeys(keys);
    TotalOfGroupSum(keys, vals, ks);
    SumOverAll(keys, vals);
  }

  lemma {:induction false} SumOverAll<K(!new)>(keys: seq<Option<K>>, vals: seq<Option<int>>)
    requires |keys| == |vals|
    ensures SumOver(GroupKeys(keys), keys, vals) == KeyedTotal(keys, vals)
  {
    if keys != [] {
      var n := |keys| - 1;
      var pk, pv := keys[..n], vals[..n];
      var ks, pks := GroupKeys(keys), GroupKeys(pk);
      SumOverAll(pk, pv);
      assert keys == pk + [keys[n]];
      GroupKeysExact(keys);
      SumOverLastRow(ks, keys, vals);
      match keys[n]
      case None =>
        assert Somes(keys) == Somes(pk);
      case Some(k) =>
        assert Somes(keys) == Somes(pk) + [k];
        assert (Somes(pk) + [k])[..|Somes(pk)|] == Somes(pk);
        if k in pks {
          assert ks == pks;
        } else {
          assert ks == pks + [k];
          assert ks[..|ks| - 1] == pks;
          GroupKeysExact(pk);
          SumWhereAbsent(pk, pv, k);
          GroupKeysExact(pk);
          SumOverLastRow(pks, keys, vals);
        }
    }
  }

  /** A column of ones, so that a group's size is its sum. */
  function Ones(n: nat): (r: seq<Option<int>>)
    ensures |r| == n
  {
    seq(n, _ => Some(1))
  }

  /** The positions of the rows whose key is `k`. */
  function RowsWhere<K(==)>(keys: seq<Option<K>>, k: K): set<nat> {
    set j: nat | j < |keys| && keys[j] == Some(k)
  }

  /** Summing a column of ones over a key's rows counts those rows. */
  lemma {:induction false} SumWhereOnes<K>(keys: seq<Option<K>>, k: K)
    ensures SumWhere(keys, Ones(|keys|), k) == |RowsWhere(keys, k)|
  {
    if keys != [] {
      var n := |keys| - 1;
      assert Ones(|keys|)[..n] == Ones(n);
      SumWhereOnes(keys[..n], k);
      var before, now := RowsWhere(keys[..n], k), RowsWhere(keys, k);
      assert now == before + (if keys[n] == Some(k) then {n} else {}) by {
        forall j: nat
          ensures j in now <==> j in before || (j == n && keys[n] == Some(k))
        {
          if j < n {
            assert keys[..n][j] == keys[j];
          }
        }
      }
      assert n !in before;
    }
  }

  /**
   * `groupby(key).size()`: one entry per present key, each key once, holding
   * the number of rows with that key.
   */
  function GroupSize<K(==,!new)>(keys: seq<Option<K>>): (t: Table<K>)
    ensures KeysOf(t) == GroupKeys(keys)
    ensures Distinct(KeysOf(t))
    ensures forall k :: k in KeysOf(t) <==> Some(k) in keys
    ensures forall i :: 0 <= i < |t| ==> t[i].1 == |RowsWhere(keys, t[i].0)|
  {
    var t := GroupSum(keys, Ones(|keys|));
    assert forall i :: 0 <= i < |t| ==> t[i].1 == |RowsWhere(keys, t[i].0)| by {
      forall i | 0 <= i < |t|
        ensures t[i].1 == |RowsWhere(keys, t[i].0)|
      {
        SumWhereOnes(keys, t[i].0);
      }
    }
    t
  }

  lemma {:induction false} KeyedTotalOfOnes<K(!new)>(keys: seq<Option<K>>)
    ensures KeyedTotal(keys, Ones(|keys|)) == CountPresent(keys)
  {
    if keys != [] {
      var n := |keys| - 1;
      assert Ones(|keys|)[..n] == Ones(n);
      KeyedTotalOfOnes(keys[..n]);
    }
  }

  /** The group sizes add up to the number of rows with a present key. */
  lemma GroupSizeComplete<K(!new)>(keys: seq<Option<K>>)
    ensures Total(GroupSize(keys)) == CountPresent(keys)
  {
    GroupSumComplete(keys, Ones(|keys|));
    KeyedTotalOfOnes(keys);
  }

  /** The distinct present values in the rows whose key is `k`. */
  function ValuesWhere<K(==), V(==)>(keys: seq<Option<K>>, vals: seq<Option<V>>, k: K): set<V>
    requires |keys| == |vals|
  {
    set i | 0 <= i < |keys| && keys[i] == Some(k) && vals[i].Some? :: vals[i].value
  }

  /** `groupby(key)[col].nunique()`: the number of distinct present values per group. */
  function GroupNunique<K(==,!new), V(==)>(keys: seq<Option<K>>, vals: seq<Option<V>>): (t: Table<K>)
    requires |keys| == |vals|
    ensures KeysOf(t) == GroupKeys(keys)
    ensures Distinct(KeysOf(t))
    ensures forall k :: k in KeysOf(t) <==> Some(k) in keys
    ensures forall i :: 0 <= i < |t| ==> t[i].1 == |ValuesWhere(keys, vals, t[i].0)|
  {
    var u := GroupKeys(keys);
    seq(|u|, i requires 0 <= i < |u| => (u[i], |ValuesWhere(keys, vals, u[i])|))
  }

  /** A group has no more distinct values than rows. */
  lemma {:induction false} NuniqueAtMostSize<K, V>(keys: seq<Option<K>>, vals: seq<Option<V>>, k: K)
    requires |keys| == |vals|
    ensures |ValuesWhere(keys, vals, k)| <= SumWhere(keys, Ones(|keys|), k)
  {
    if keys != [] {
      var n := |keys| - 1;
      assert Ones(|keys|)[..n] == Ones(n);
      NuniqueAtMostSize(keys[..n], vals[..n], k);
      var before := ValuesWhere(keys[..n], vals[..n], k);
      var now := ValuesWhere(keys, vals, k);
      var extra := if keys[n] == Some(k) && vals[n].Some? then {vals[n].value} else {};
      forall v | v in now
        ensures v in before + extra
      {
        var i :| 0 <= i < |keys| && keys[i] == Some(k) && vals[i].Some? && vals[i].value == v;
        if i < n {
          assert keys[..n][i] == keys[i] && vals[..n][i] == vals[i];
        }
      }
      SubsetSize(now, before + extra);
    }
  }

  /** In a `groupby(key)[col].nunique()` table, each count is at most the group's row count. */
  lemma NuniqueBoundedBySize<K(!new), V>(keys: seq<Option<K>>, vals: seq<Option<V>>, i: nat)
    requires |keys| == |vals| && i < |GroupNunique(keys, vals)|
    ensures GroupNunique(keys, vals)[i].0 == GroupSize(keys)[i].0
    ensures GroupNunique(keys, vals)[i].1 <= GroupSize(keys)[i].1
  {
    var t, s := GroupNunique(keys, vals), GroupSize(keys);
    assert KeysOf(t)[i] == KeysOf(s)[i];
    NuniqueAtMostSize(keys, vals, t[i].0);
  }

  // ---------------------------------------------------------------------
  // nlargest / nsmallest

  /** `a` may come before `b`: descending order for `largest`, ascending otherwise. */
  predicate Precedes<K>(a: (K, int), b: (K, int), largest: bool) {
    if largest then a.1 >= b.1 else a.1 <= b.1
  }

  predicate Ranked<K>(s: Table<K>, largest: bool) {
    forall i, j :: 0 <= i < j < |s| ==> Precedes(s[i], s[j], largest)
  }

  /** Insert `x` before the first entry it may precede, keeping earlier entries first among ties. */
  function Insert<K>(x: (K, int), s: Table<K>, largest: bool): (r: Table<K>)
    requires Ranked(s, largest)
    ensures Ranked(r, largest)
    ensures multiset(r) == multiset(s) + multiset{x}
    ensures |r| == |s| + 1
  {
    if s == [] || Precedes(x, s[0], largest) then [x] + s
    else
      var rest := Insert(x, s[1..], largest);
      assert s == [s[0]] + s[1..];
      InsertKeepsHead(x, s, rest, largest);
      [s[0]] + rest
  }

  lemma InsertKeepsHead<K>(x: (K, int), s: Table<K>, rest: Table<K>, largest: bool)
    requires s != [] && Ranked(s, largest) && !Precedes(x, s[0], largest)
    requires multiset(rest) == multiset(s[1..]) + multiset{x}
    ensures forall j :: 0 <= j < |rest| ==> Precedes(s[0], rest[j], largest)
  {
    forall j | 0 <= j < |rest|
      ensures Precedes(s[0], rest[j], largest)
    {
      assert rest[j] in multiset(rest);
      if rest[j] != x {
        assert rest[j] in multiset(s[1..]);
        var k :| 0 <= k < |s[1..]| && s[1..][k] == rest[j];
        assert s[k + 1] == rest[j];
      }
    }
  }

  /** A stable sort of a table by value. */
  function Rank<K>(t: Table<K>, largest: bool): (r: Table<K>)
    ensures Ranked(r, largest)
    ensures multiset(r) == multiset(t)
    ensures |r| == |t|
  {
    if t == [] then []
    else
      assert t == [t[0]] + t[1..];
      Insert(t[0], Rank(t[1..], largest), largest)
  }

  function Min(a: int, b: int): int {
    if a <= b then a else b
  }

  /**
   * `nlargest(n)` (for `largest`) or `nsmallest(n)`: the first `n` entries
   * of the table ranked by value. The result has min(n, |t|) entries, is
   * ordered, is drawn from `t`, and no entry left out beats one kept.
   */
  function Top<K>(t: Table<K>, n: nat, largest: bool): (r: Table<K>)
    ensures |r| == Min(n, |t|)
    ensures Ranked(r, largest)
    ensures multiset(r) <= multiset(t)
    ensures forall x, y :: x in multiset(t) - multiset(r) && y in r ==> Precedes(y, x, largest)
  {
    var s := Rank(t, largest);
    var m := Min(n, |t|);
    TopSplit(s, t, m, largest);
    s[..m]
  }

  /**
   * Among equal values the earlier entry stays first (`keep='first'`): on a
   * table whose values all tie, both `nlargest(n)` and `nsmallest(n)` are
   * its first `n` entries, so the two lists overlap.
   */
  lemma {:induction false} TopOfTies<K>(t: Table<K>, v: int, n: nat, largest: bool)
    requires forall i :: 0 <= i < |t| ==> t[i].1 == v
    ensures Rank(t, largest) == t
    ensures Top(t, n, largest) == t[..Min(n, |t|)]
  {
    if t != [] {
      TopOfTies(t[1..], v, n, largest);
    }
  }

  /** No two entries of the table have the same value. */
  predicate DistinctValues<K>(t: Table<K>) {
    forall i, j :: 0 <= i < j < |t| ==> t[i].1 != t[j].1
  }

  /**
   * Without ties, a table of at least `2n` entries has top-`n` and
   * bottom-`n` lists with no entry in common.
   */
  lemma TopBottomDisjoint<K(!new)>(t: Table<K>, n: nat)
    requires DistinctValues(t) && |t| >= 2 * n
    ensures forall x :: x in Top(t, n, true) ==> x !in Top(t, n, false)
  {
    forall x | x in Top(t, n, true)
      ensures x !in Top(t, n, false)
    {
      if x in Top(t, n, false) {
        SharedEntryCovers(t, n, x);
        CoverTooSmall(t, Top(t, n, true), Top(t, n, false), x);
      }
    }
  }

  /**
   * An entry in both lists splits the table: every entry at or above it is
   * in the top list, every entry at or below it in the bottom list.
   */
  lemma SharedEntryCovers<K(!new)>(t: Table<K>, n: nat, x: (K, int))
    requires DistinctValues(t) && x in Top(t, n, true) && x in Top(t, n, false)
    ensures (set z | z in t) <= (set z | z in Top(t, n, true)) + (set z | z in Top(t, n, false))
  {
    var hi, lo := Top(t, n, true), Top(t, n, false);
    assert x in multiset(t) by {
      assert x in multiset(hi);
    }
    forall z | z in t
      ensures z in hi || z in lo
    {
      if z.1 > x.1 && z !in hi {
        assert z in multiset(t) - multiset(hi);
      } else if z.1 < x.1 && z !in lo {
        assert z in multiset(t) - multiset(lo);
      } else if z.1 == x.1 {
        var i :| 0 <= i < |t| && t[i] == z;
        var j :| 0 <= j < |t| && t[j] == x;
        assert i == j;
      }
    }
  }

  /** Two lists sharing an entry cover fewer distinct values than their combined length. */
  lemma CoverTooSmall<K(!new)>(t: Table<K>, hi: Table<K>, lo: Table<K>, x: (K, int))
    requires DistinctValues(t) && x in hi && x in lo
    requires (set z | z in t) <= (set z | z in hi) + (set z | z in lo)
    ensures |t| < |hi| + |lo|
  {
    var all, h, l := set z | z in t, set z | z in hi, set z | z in lo;
    assert Distinct(t);
    ElementsSize(t);
    ElementsSize(hi);
    ElementsSize(lo);
    SubsetSize(all, h + l);
    assert x in h * l;
    SubsetSize({x}, h * l);
  }

  lemma TopSplit<K>(s: Table<K>, t: Table<K>, m: nat, largest: bool)
    requires Ranked(s, largest) && multiset(s) == multiset(t) && m <= |s|
    ensures multiset(s[..m]) <= multiset(t)
    ensures forall x, y :: x in multiset(t) - multiset(s[..m]) && y in s[..m] ==> Precedes(y, x, largest)
  {
    var r, rest := s[..m], s[m..];
    assert s == r + rest;
    assert multiset(s) == multiset(r) + multiset(rest);
    forall x, y | x in multiset(t) - multiset(r) && y in r
      ensures Precedes(y, x, largest)
    {
      assert x in multiset(rest);
      var j :| 0 <= j < |rest| && rest[j] == x;
      var i :| 0 <= i < |r| && r[i] == y;
      assert s[i] == y && s[m + j] == x;
    }
  }
}
