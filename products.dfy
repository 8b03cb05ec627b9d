/**
 * `update_products.py`: replace every product description by one of 40
 * fixed product names, through a mapping built from the distinct
 * descriptions with a shuffled or sampled list of names.
 */
module UpdateProducts {
  import opened Wrappers
  import opened Seqs
  import opened Records

  /** The list `ece_products`. */
  const EceProducts: seq<string> := [
    "Arduino Uno R3 Development Board",
    "Raspberry Pi 4 Model B",
    "ESP32 WiFi Development Board",
    "Digital Multimeter",
    "Logic Analyzer",
    "Function Generator",
    "Oscilloscope Probe Set",
    "Power Supply Unit",
    "PCB Etching Kit",
    "Soldering Station",
    "Component Starter Kit",
    "FPGA Development Board",
    "Signal Generator",
    "RF Spectrum Analyzer",
    "Network Analyzer",
    "Logic Gate Trainer Kit",
    "Microcontroller Starter Kit",
    "Digital Storage Oscilloscope",
    "Signal Conditioning Module",
    "RF Power Meter",
    "Breadboard Kit",
    "Resistor Assortment Kit",
    "Capacitor Kit",
    "Inductor Set",
    "Transistor Pack",
    "IC Chip Collection",
    "LED Assortment",
    "Sensor Kit",
    "Motor Driver Module",
    "Relay Module",
    "WiFi Module",
    "Bluetooth Module",
    "GPS Module",
    "RF Transceiver",
    "Antenna Kit",
    "PCB Prototype Board",
    "Wire Kit",
    "Connector Set",
    "Heat Sink Kit",
    "Test Lead Set"
  ]

  // The names are pairwise distinct; checked two list positions at a time.

  lemma NamesDistinctFrom00()
    ensures forall i, j :: 0 <= i < 2 && i < j < |EceProducts| ==> EceProducts[i] != EceProducts[j]
  {
  }

  lemma NamesDistinctFrom02()
    ensures forall i, j :: 2 <= i < 4 && i < j < |EceProducts| ==> EceProducts[i] != EceProducts[j]
  {
  }

  lemma NamesDistinctFrom04()
    ensures forall i, j :: 4 <= i < 6 && i < j < |EceProducts| ==> EceProducts[i] != EceProducts[j]
  {
  }

  lemma NamesDistinctFrom06()
    ensures forall i, j :: 6 <= i < 8 && i < j < |EceProducts| ==> EceProducts[i] != EceProducts[j]
  {
  }

  lemma NamesDistinctFrom08()
    ensures forall i, j :: 8 <= i < 10 && i < j < |EceProducts| ==> EceProducts[i] != EceProducts[j]
  {
  }

  lemma NamesDistinctFrom10()
    ensures forall i, j :: 10 <= i < 12 && i < j < |EceProducts| ==> EceProducts[i] != EceProducts[j]
  {
  }

  lemma NamesDistinctFrom12()
    ensures forall i, j :: 12 <= i < 14 && i < j < |EceProducts| ==> EceProducts[i] != EceProducts[j]
  {
  }

  lemma NamesDistinctFrom14()
    ensures forall i, j :: 14 <= i < 16 && i < j < |EceProducts| ==> EceProducts[i] != EceProducts[j]
  {
  }

  lemma NamesDistinctFrom16()
    ensures forall i, j :: 16 <= i < 18 && i < j < |EceProducts| ==> EceProducts[i] != EceProducts[j]
  {
  }

  lemma NamesDistinctFrom18()
    ensures forall i, j :: 18 <= i < 20 && i < j < |EceProducts| ==> EceProducts[i] != EceProducts[j]
  {
  }

  lemma NamesDistinctFrom20()
    ensures forall i, j :: 20 <= i < 22 && i < j < |EceProducts| ==> EceProducts[i] != EceProducts[j]
  {
  }

  lemma NamesDistinctFrom22()
    ensures forall i, j :: 22 <= i < 24 && i < j < |EceProducts| ==> EceProducts[i] != EceProducts[j]
  {
  }

  lemma NamesDistinctFrom24()
    ensures forall i, j :: 24 <= i < 26 && i < j < |EceProducts| ==> EceProducts[i] != EceProducts[j]
  {
  }

  lemma NamesDistinctFrom26()
    ensures forall i, j :: 26 <= i < 28 && i < j < |EceProducts| ==> EceProducts[i] != EceProducts[j]
  {
  }

  lemma NamesDistinctFrom28()
    ensures forall i, j :: 28 <= i < 30 && i < j < |EceProducts| ==> EceProducts[i] != EceProducts[j]
  {
  }

  lemma NamesDistinctFrom30()
    ensures forall i, j :: 30 <= i < 32 && i < j < |EceProducts| ==> EceProducts[i] != EceProducts[j]
  {
  }

  lemma NamesDistinctFrom32()
    ensures forall i, j :: 32 <= i < 34 && i < j < |EceProducts| ==> EceProducts[i] != EceProducts[j]
  {
  }

  lemma NamesDistinctFrom34()
    ensures forall i, j :: 34 <= i < 36 && i < j < |EceProducts| ==> EceProducts[i] != EceProducts[j]
  {
  }

  lemma NamesDistinctFrom36()
    ensures forall i, j :: 36 <= i < 38 && i < j < |EceProducts| ==> EceProducts[i] != EceProducts[j]
  {
  }

  lemma NamesDistinctFrom38()
    ensures forall i, j :: 38 <= i < 39 && i < j < |EceProducts| ==> EceProducts[i] != EceProducts[j]
  {
  }

  /** No name occurs twice in `ece_products`. */
  lemma EceProductsDistinct()
    ensures |EceProducts| == 40
    ensures Distinct(EceProducts)
  {
    NamesDistinctFrom00();
    NamesDistinctFrom02();
    NamesDistinctFrom04();
    NamesDistinctFrom06();
    NamesDistinctFrom08();
    NamesDistinctFrom10();
    NamesDistinctFrom12();
    NamesDistinctFrom14();
    NamesDistinctFrom16();
    NamesDistinctFrom18();
    NamesDistinctFrom20();
    NamesDistinctFrom22();
    NamesDistinctFrom24();
    NamesDistinctFrom26();
    NamesDistinctFrom28();
    NamesDistinctFrom30();
    NamesDistinctFrom32();
    NamesDistinctFrom34();
    NamesDistinctFrom36();
    NamesDistinctFrom38();
  }

  // ---------------------------------------------------------------------
  // Building the list of labels
  // ---------------------------------------------------------------------

  /**
   * `repeat_times`: the ceiling of `n / len`, written as the floor of
   * `(n + len - 1) / len`.
   */
  function RepeatTimes(n: nat, len: nat): (t: nat)
    requires len > 0
    ensures len * t >= n
    ensures n > 0 ==> len * (t - 1) < n
    ensures n == 0 ==> t == 0
  {
    var t := (n + len - 1) / len;
    assert len * t <= n + len - 1 < len * t + len;
    t
  }

  /** `s * t`: the list `s` concatenated with itself `t` times. */
  function Repeat<T(!new)>(s: seq<T>, t: nat): (r: seq<T>)
    ensures |r| == |s| * t
    ensures forall x :: multiset(r)[x] == t * multiset(s)[x]
    ensures forall i :: 0 <= i < |r| ==> r[i] in s
  {
    if t == 0 then []
    else
      var p := Repeat(s, t - 1);
      assert forall x :: multiset(p + s)[x] == (t - 1) * multiset(s)[x] + multiset(s)[x];
      p + s
  }

  /** Cutting a list short never adds occurrences. */
  lemma PrefixMultiset<T>(r: seq<T>, n: nat)
    requires n <= |r|
    ensures multiset(r[..n]) <= multiset(r)
  {
    assert r == r[..n] + r[n..];
  }

  /**
   * `names * repeat_times` cut to `n` entries: exactly `n` names, each one
   * of `names` and occurring at most `repeat_times` times.
   */
  function RepeatedProducts(names: seq<string>, n: nat): (r: seq<string>)
    requires Distinct(names) && n > |names| > 0
    ensures |r| == n
    ensures forall i :: 0 <= i < n ==> r[i] in names
    ensures forall x :: multiset(r)[x] <= RepeatTimes(n, |names|)
  {
    var t := RepeatTimes(n, |names|);
    var full := Repeat(names, t);
    PrefixMultiset(full, n);
    forall x
      ensures multiset(full)[x] <= t
    {
      DistinctCount(names, x);
    }
    full[..n]
  }

  // ---------------------------------------------------------------------
  // The two uses of `random`
  // ---------------------------------------------------------------------

  /** The list `s` with positions `i` and `j` exchanged. */
  function Swap<T>(s: seq<T>, i: nat, j: nat): (r: seq<T>)
    requires i < |s| && j < |s|
    ensures |r| == |s|
  {
    s[i := s[j]][j := s[i]]
  }

  lemma SwapMultiset<T>(s: seq<T>, i: nat, j: nat)
    requires i < |s| && j < |s|
    ensures multiset(Swap(s, i, j)) == multiset(s)
  {
    var t := s[i := s[j]];
    assert multiset(t) == multiset(s) - multiset{s[i]} + multiset{s[j]};
  }

  /**
   * The list after the swaps `random.shuffle` performs at positions
   * `|s| - 1` down to `i + 1`: at position `k` it exchanges with position
   * `draws(k) mod (k + 1)`, the value `_randbelow(k + 1)` returns.
   */
  ghost function SwapsDownTo<T>(s: seq<T>, draws: nat -> nat, i: nat): (r: seq<T>)
    requires i < |s|
    ensures |r| == |s|
    decreases |s| - i
  {
    if i == |s| - 1 then s
    else
      var k := i + 1;
      Swap(SwapsDownTo(s, draws, k), k, draws(k) % (k + 1))
  }

  /** Shuffling only reorders: every value keeps its number of occurrences. */
  lemma {:induction false} SwapsPermute<T>(s: seq<T>, draws: nat -> nat, i: nat)
    requires i < |s|
    ensures multiset(SwapsDownTo(s, draws, i)) == multiset(s)
    decreases |s| - i
  {
    if i < |s| - 1 {
      SwapsPermute(s, draws, i + 1);
      SwapMultiset(SwapsDownTo(s, draws, i + 1), i + 1, draws(i + 1) % (i + 2));
    }
  }

  /**
   * `random.shuffle(x)`, in place. The random source is a parameter:
   * `draws(i)` is the raw draw taken when the loop is at position `i`.
   */
  method Shuffle<T>(a: array<T>, draws: nat -> nat)
    modifies a
    ensures a.Length > 0 ==> a[..] == SwapsDownTo(old(a[..]), draws, 0)
    ensures multiset(a[..]) == multiset(old(a[..]))
  {
    if a.Length == 0 {
      return;
    }
    ghost var s := a[..];
    var i := a.Length - 1;
    while i > 0
      invariant 0 <= i < a.Length
      invariant a[..] == SwapsDownTo(s, draws, i)
      decreases i
    {
      var j := draws(i) % (i + 1);
      a[i], a[j] := a[j], a[i];
      i := i - 1;
    }
    SwapsPermute(s, draws, 0);
  }

  /**
   * `random.sample(population, k)` by its pool method: draw a position
   * among the `n - i` names still in the pool, take that name, and move
   * the last name of the pool into its place. `draws(i)` is the raw draw
   * of round `i`.
   */
  method Sample<T>(population: seq<T>, k: nat, draws: nat -> nat) returns (result: seq<T>)
    requires k <= |population|
    ensures |result| == k
    ensures multiset(result) <= multiset(population)
  {
    var n := |population|;
    var pool := population;
    result := [];
    var i := 0;
    assert pool[..n] == population;
    while i < k
      invariant 0 <= i <= k
      invariant |pool| == n && |result| == i
      invariant multiset(result) + multiset(pool[..n - i]) == multiset(population)
    {
      var m := n - i;
      var j := draws(i) % m;
      var x := pool[j];
      PoolTake(pool, m, j);
      ghost var before := multiset(result);
      result := result + [x];
      assert multiset(result) == before + multiset{x};
      pool := pool[j := pool[m - 1]];
      i := i + 1;
    }
  }

  /** Taking `p[j]` out of the live pool `p[..m]` by moving its last name into place `j`. */
  lemma PoolTake<T>(p: seq<T>, m: nat, j: nat)
    requires j < m <= |p|
    ensures multiset(p[j := p[m - 1]][..m - 1]) + multiset{p[j]} == multiset(p[..m])
  {
    var q := p[j := p[m - 1]];
    if j == m - 1 {
      assert p[..m] == q[..m - 1] + [p[j]];
    } else {
      assert q[..m] == q[..m - 1] + [p[m - 1]];
      assert p[..m] == p[..m - 1] + [p[m - 1]];
      assert q[..m - 1] == p[..m - 1][j := p[m - 1]];
      assert multiset(q[..m - 1]) == multiset(p[..m - 1]) - multiset{p[j]} + multiset{p[m - 1]};
    }
  }

  // ---------------------------------------------------------------------
  // The mapping
  // ---------------------------------------------------------------------

  /** A description value; `None` is a missing (NaN) description, which `unique()` also lists. */
  type Description = Option<string>

  /** `dict(zip(keys, vals))` for keys without repeats. */
  function ZipMap<K(!new), V>(keys: seq<K>, vals: seq<V>): (m: map<K, V>)
    requires Distinct(keys) && |keys| == |vals|
    ensures m.Keys == set k | k in keys
    ensures forall i :: 0 <= i < |keys| ==> m[keys[i]] == vals[i]
  {
    if keys == [] then map[]
    else
      var n := |keys| - 1;
      ZipMap(keys[..n], vals[..n])[keys[n] := vals[n]]
  }

  /** The keys `m` sends to `v`. */
  ghost function Preimage<K, V>(m: map<K, V>, v: V): set<K> {
    set k | k in m && m[k] == v
  }

  /** Adding a fresh key `x` with value `y` adds `x` to the preimage of `y` and changes no other. */
  lemma PreimageUpdate<K, V>(m: map<K, V>, x: K, y: V, v: V)
    requires x !in m
    ensures Preimage(m[x := y], v) == if y == v then Preimage(m, v) + {x} else Preimage(m, v)
  {
  }

  /** Under `dict(zip(keys, vals))` a value has as many keys as it has occurrences in `vals`. */
  lemma {:induction false} ZipMapPreimage<K(!new), V>(keys: seq<K>, vals: seq<V>, v: V)
    requires Distinct(keys) && |keys| == |vals|
    ensures |Preimage(ZipMap(keys, vals), v)| == multiset(vals)[v]
  {
    if keys != [] {
      var n := |keys| - 1;
      var m := ZipMap(keys[..n], vals[..n]);
      ZipMapPreimage(keys[..n], vals[..n], v);
      assert keys[n] !in m by {
        assert keys[n] !in keys[..n];
      }
      assert ZipMap(keys, vals) == m[keys[n] := vals[n]];
      PreimageUpdate(m, keys[n], vals[n], v);
      assert vals == vals[..n] + [vals[n]];
      assert multiset(vals)[v] == multiset(vals[..n])[v] + multiset([vals[n]])[v];
    }
  }

  /** No two keys share a value. */
  ghost predicate Injective<K, V>(m: map<K, V>) {
    forall k1, k2 :: k1 in m && k2 in m && k1 != k2 ==> m[k1] != m[k2]
  }

  /** Every value of `dict(zip(keys, vals))` is one of `vals`. */
  lemma ZipMapValues<K(!new), V>(keys: seq<K>, vals: seq<V>)
    requires Distinct(keys) && |keys| == |vals|
    ensures forall k :: k in ZipMap(keys, vals) ==> ZipMap(keys, vals)[k] in vals
  {
    var m := ZipMap(keys, vals);
    forall k | k in m
      ensures m[k] in vals
    {
      var i :| 0 <= i < |keys| && keys[i] == k;
    }
  }

  /** Zipping keys without repeats with values without repeats gives a one-to-one mapping. */
  lemma ZipMapInjective<K(!new), V>(keys: seq<K>, vals: seq<V>)
    requires Distinct(keys) && Distinct(vals) && |keys| == |vals|
    ensures Injective(ZipMap(keys, vals))
  {
    var m := ZipMap(keys, vals);
    forall k1, k2 | k1 in m && k2 in m && k1 != k2
      ensures m[k1] != m[k2]
    {
      var i :| 0 <= i < |keys| && keys[i] == k1;
      var j :| 0 <= j < |keys| && keys[j] == k2;
    }
  }

  /**
   * Lines 57-64: `n` labels from the repeated list, cut and shuffled; each
   * is one of `names` and none occurs more than `repeat_times` times.
   */
  method ShuffledLabels(names: seq<string>, n: nat, draws: nat -> nat) returns (labels: seq<string>)
    requires Distinct(names) && n > |names| > 0
    ensures |labels| == n
    ensures forall x :: x in labels ==> x in names
    ensures forall x :: multiset(labels)[x] <= RepeatTimes(n, |names|)
  {
    var repeated := RepeatedProducts(names, n);
    var buffer := new string[n](i requires 0 <= i < n => repeated[i]);
    assert buffer[..] == repeated;
    Shuffle(buffer, draws);
    labels := buffer[..];
    forall x | x in labels
      ensures x in names
    {
      assert x in multiset(repeated);
    }
  }

  /**
   * Line 69: `num_unique` labels sampled without replacement; each is one
   * of `names` and none occurs twice.
   */
  method SampledLabels(names: seq<string>, n: nat, draws: nat -> nat) returns (labels: seq<string>)
    requires Distinct(names) && n <= |names|
    ensures |labels| == n
    ensures forall x :: x in labels ==> x in names
    ensures Distinct(labels)
  {
    labels := Sample(names, n, draws);
    forall x | x in labels
      ensures x in names
    {
      assert x in multiset(labels);
    }
    DistinctOfSubMultiset(labels, names);
  }

  /**
   * Lines 52-70 over any list of names without repeats: every distinct
   * description gets a name. With more distinct descriptions than names
   * the repeated, cut and shuffled list is zipped in; otherwise a sample
   * of `num_unique` names.
   */
  method BuildMapping(names: seq<string>, descriptions: seq<Description>, draws: nat -> nat)
    returns (mapping: map<Description, string>)
    requires Distinct(names) && |names| > 0
    ensures mapping.Keys == set d | d in descriptions
    ensures forall d :: d in mapping ==> mapping[d] in names
    ensures |Unique(descriptions)| <= |names| ==> Injective(mapping)
    ensures |Unique(descriptions)| > |names| ==>
      forall name :: |Preimage(mapping, name)| <= RepeatTimes(|Unique(descriptions)|, |names|)
  {
    var uniqueProducts := Unique(descriptions);
    var numUnique := |uniqueProducts|;
    var labels: seq<string>;
    if numUnique > |names| {
      labels := ShuffledLabels(names, numUnique, draws);
      forall name
        ensures |Preimage(ZipMap(uniqueProducts, labels), name)| <= RepeatTimes(numUnique, |names|)
      {
        ZipMapPreimage(uniqueProducts, labels, name);
      }
    } else {
      labels := SampledLabels(names, numUnique, draws);
      ZipMapInjective(uniqueProducts, labels);
    }
    mapping := ZipMap(uniqueProducts, labels);
    ZipMapValues(uniqueProducts, labels);
  }

  /**
   * `product_mapping` of lines 52-70: built from `ece_products`, so no
   * name serves two descriptions while there are at most 40 of them, and
   * none serves more than `repeat_times` descriptions beyond that.
   */
  method BuildProductMapping(descriptions: seq<Description>, draws: nat -> nat)
    returns (mapping: map<Description, string>)
    ensures mapping.Keys == set d | d in descriptions
    ensures forall d :: d in mapping ==> mapping[d] in EceProducts
    ensures |Unique(descriptions)| <= 40 ==> Injective(mapping)
    ensures |Unique(descriptions)| > 40 ==>
      forall name :: |Preimage(mapping, name)| <= RepeatTimes(|Unique(descriptions)|, 40)
  {
    EceProductsDistinct();
    mapping := BuildMapping(EceProducts, descriptions, draws);
  }

  // ---------------------------------------------------------------------
  // Relabelling the Description column
  // ---------------------------------------------------------------------

  /** `Series.map(product_mapping)` on one value: a description without an entry becomes missing. */
  function Relabel(d: Description, mapping: map<Description, string>): (r: Description)
    ensures r.Some? <==> d in mapping
    ensures r.Some? ==> r.value == mapping[d]
  {
    if d in mapping then Some(mapping[d]) else None
  }

  function RelabelRow(row: Row, mapping: map<Description, string>): Row {
    row.(description := Relabel(row.description, mapping))
  }

  /** The data set after the Description column has been mapped. */
  function Relabelled(rows: seq<Row>, mapping: map<Description, string>): (r: seq<Row>)
    ensures |r| == |rows|
    ensures forall i :: 0 <= i < |rows| ==> r[i] == RelabelRow(rows[i], mapping)
  {
    seq(|rows|, i requires 0 <= i < |rows| => RelabelRow(rows[i], mapping))
  }

  /** The map touches the Description column only: every other field, the row count and the row order stay. */
  lemma RelabelOnlyDescription(rows: seq<Row>, mapping: map<Description, string>)
    ensures |Relabelled(rows, mapping)| == |rows|
    ensures forall i :: 0 <= i < |rows| ==>
      Relabelled(rows, mapping)[i].(description := rows[i].description) == rows[i]
  {
  }

  /**
   * Relabelling leaves every column the analyses sum or group by, other
   * than the description, exactly as it was: quantities, amounts,
   * customers, regions and dates.
   */
  lemma RelabelKeepsColumns(rows: seq<Row>, mapping: map<Description, string>)
    ensures var out := Relabelled(rows, mapping);
      && Quantities(out) == Quantities(rows)
      && Amounts(out) == Amounts(rows)
      && Customers(out) == Customers(rows)
      && Countries(out) == Countries(rows)
      && Days(out) == Days(rows)
  {
  }

  /**
   * With a mapping that covers every description, every row ends up with a
   * present label taken from the mapping's values.
   */
  lemma RelabelledAllNamed(rows: seq<Row>, mapping: map<Description, string>, names: seq<string>)
    requires forall d :: d in Descriptions(rows) ==> d in mapping
    requires forall d :: d in mapping ==> mapping[d] in names
    ensures forall i :: 0 <= i < |rows| ==>
      Relabelled(rows, mapping)[i].description.Some? &&
      Relabelled(rows, mapping)[i].description.value in names
  {
    forall i | 0 <= i < |rows|
      ensures Relabelled(rows, mapping)[i].description.Some?
    {
      assert Descriptions(rows)[i] == rows[i].description;
    }
  }

  /**
   * Rows with equal descriptions get equal labels, whatever the mapping:
   * relabelling never splits a group, even when several descriptions share
   * a name.
   */
  lemma RelabelKeepsGroups(rows: seq<Row>, mapping: map<Description, string>, i: nat, j: nat)
    requires i < |rows| && j < |rows|
    ensures rows[i].description == rows[j].description ==>
      Relabelled(rows, mapping)[i].description == Relabelled(rows, mapping)[j].description
  {
  }

  /**
   * Under a one-to-one mapping that covers both rows the converse holds
   * too: different descriptions get different labels, so the relabelled
   * column groups the rows exactly as the original did.
   */
  lemma RelabelSeparatesGroups(rows: seq<Row>, mapping: map<Description, string>, i: nat, j: nat)
    requires i < |rows| && j < |rows|
    requires Injective(mapping)
    requires rows[i].description in mapping && rows[j].description in mapping
    ensures Relabelled(rows, mapping)[i].description == Relabelled(rows, mapping)[j].description ==>
      rows[i].description == rows[j].description
  {
  }

  /** The data set of `update_products.py`, whose Description column is replaced. */
  class ProductFrame {
    var rows: seq<Row>

    constructor (raw: seq<Row>)
      ensures rows == raw
    {
      rows := raw;
    }

    /** Line 73: `df['Description'] = df['Description'].map(product_mapping)`. */
    method RelabelDescriptions(mapping: map<Description, string>)
      modifies this`rows
      ensures rows == Relabelled(old(rows), mapping)
    {
      rows := Relabelled(rows, mapping);
    }

    /**
     * Lines 52-73: build the mapping from the distinct descriptions and
     * apply it. Afterwards every row carries one of the 40 product names,
     * and nothing but the Description column has changed.
     */
    method UpdateDescriptions(draws: nat -> nat) returns (mapping: map<Description, string>)
      modifies this`rows
      ensures mapping.Keys == set d | d in Descriptions(old(rows))
      ensures rows == Relabelled(old(rows), mapping)
      ensures forall i :: 0 <= i < |rows| ==>
        rows[i].description.Some? && rows[i].description.value in EceProducts
      ensures |Unique(Descriptions(old(rows)))| <= 40 ==> Injective(mapping)
    {
      mapping := BuildProductMapping(Descriptions(rows), draws);
      RelabelledAllNamed(rows, mapping, EceProducts);
      RelabelDescriptions(mapping);
    }
  }
}
