/**
 * Specification of `analyze_cohort_retention`: the columns it adds to the
 * frame (quarter key, dense quarter id, cohort id, cohort offset) as
 * functions of the rows, the retention table it pivots from them, and the
 * properties of both.
 */
module CohortSpec {
  import opened Wrappers
  import opened Seqs
  import opened Records

  /** The `InvoiceQuarter` column. */
  function InvoiceQuarters(rows: seq<Row>): (keys: seq<QuarterKey>)
    requires AllDated(rows)
    ensures |keys| == |rows|
    ensures forall i :: 0 <= i < |rows| ==> keys[i] == QuarterOf(rows[i].date.value)
  {
    seq(|rows|, i requires 0 <= i < |rows| => QuarterOf(rows[i].date.value))
  }

  /** `quarters_map`: each distinct key to its position in first-seen order. */
  function QuarterMap(keys: seq<QuarterKey>): map<QuarterKey, nat> {
    DenseIndex(Unique(keys))
  }

  /** The `InvoiceQuarterID` column: the key of each row looked up in `quarters_map`. */
  function QuarterIds(keys: seq<QuarterKey>): (ids: seq<int>)
    ensures |ids| == |keys|
    ensures forall i :: 0 <= i < |keys| ==>
      0 <= ids[i] < |Unique(keys)| && Unique(keys)[ids[i]] == keys[i]
  {
    var u := Unique(keys);
    var m := QuarterMap(keys);
    DenseIndexIsBijection(u);
    assert forall i :: 0 <= i < |keys| ==> keys[i] in u;
    seq(|keys|, i requires 0 <= i < |keys| => m[keys[i]])
  }

  /** Each id of the column is the key's entry in `quarters_map`. */
  lemma QuarterIdsLookup(keys: seq<QuarterKey>, i: nat)
    requires i < |keys|
    ensures keys[i] in QuarterMap(keys)
    ensures QuarterIds(keys)[i] == QuarterMap(keys)[keys[i]]
  {
    var u := Unique(keys);
    var j := QuarterIds(keys)[i];
    assert u[j] == keys[i];
    assert DenseIndex(u)[u[j]] == j;
  }

  /**
   * `groupby('Receiver_ID')['InvoiceQuarterID'].transform('min')` for one
   * customer: the least quarter id among that customer's rows, None when
   * the customer has no row.
   */
  function CohortOf(ids: seq<int>, customers: seq<Option<int>>, c: int): (r: Option<int>)
    requires |ids| == |customers|
    ensures r.None? <==> Some(c) !in customers
    ensures r.Some? ==> exists i :: 0 <= i < |ids| && customers[i] == Some(c) && ids[i] == r.value
    ensures r.Some? ==> forall i :: 0 <= i < |ids| && customers[i] == Some(c) ==> r.value <= ids[i]
  {
    if ids == [] then None
    else
      var n := |ids| - 1;
      var before := CohortOf(ids[..n], customers[..n], c);
      assert forall i :: 0 <= i < n ==> customers[..n][i] == customers[i] && ids[..n][i] == ids[i];
      assert customers == customers[..n] + [customers[n]];
      if customers[n] != Some(c) then before
      else if before.Some? && before.value <= ids[n] then before
      else Some(ids[n])
  }

  /**
   * `mins` holds, for each customer seen in the first `i` rows, the least
   * quarter id among those rows: the state of a running `groupby(...).min()`.
   */
  ghost predicate RunningMins(ids: seq<int>, customers: seq<Option<int>>, i: nat, mins: map<int, int>)
    requires |ids| == |customers| && i <= |ids|
  {
    && (forall c :: c in mins <==> Some(c) in customers[..i])
    && (forall c :: c in mins ==> CohortOf(ids[..i], customers[..i], c) == Some(mins[c]))
  }

  /** One more row updates the running minimum of its customer only. */
  lemma RunningMinsStep(ids: seq<int>, customers: seq<Option<int>>, i: nat, mins: map<int, int>)
    requires |ids| == |customers| && i < |ids| && RunningMins(ids, customers, i, mins)
    ensures RunningMins(ids, customers, i + 1,
      if customers[i].Some? && (customers[i].value !in mins || ids[i] < mins[customers[i].value])
      then mins[customers[i].value := ids[i]] else mins)
  {
    assert ids[..i + 1][..i] == ids[..i] && customers[..i + 1][..i] == customers[..i];
    assert forall x :: x in customers[..i + 1] <==> x in customers[..i] || x == customers[i];
  }

  /** The `CohortQuarterID` column: the customer's cohort, missing for rows without a customer. */
  function CohortIds(ids: seq<int>, customers: seq<Option<int>>): (cohorts: seq<Option<int>>)
    requires |ids| == |customers|
    ensures |cohorts| == |ids|
  {
    seq(|ids|, i requires 0 <= i < |ids| =>
      if customers[i].Some? then CohortOf(ids, customers, customers[i].value) else None)
  }

  /** The `CohortQuarter` column: each cohort id mapped back to its quarter key. */
  function CohortQuarters(quarters: seq<QuarterKey>, cohorts: seq<Option<int>>): (r: seq<Option<QuarterKey>>)
    ensures |r| == |cohorts|
    ensures forall i :: 0 <= i < |cohorts| ==>
      (r[i].Some? <==> cohorts[i].Some? && 0 <= cohorts[i].value < |quarters|)
  {
    seq(|cohorts|, i requires 0 <= i < |cohorts| =>
      if cohorts[i].Some? && 0 <= cohorts[i].value < |quarters|
      then Some(quarters[cohorts[i].value]) else None)
  }

  /** The `CohortIndex` column: quarter id minus cohort id, missing where the cohort is. */
  function Offsets(ids: seq<int>, cohorts: seq<Option<int>>): (offsets: seq<Option<int>>)
    requires |ids| == |cohorts|
    ensures |offsets| == |ids|
  {
    seq(|ids|, i requires 0 <= i < |ids| =>
      if cohorts[i].Some? then Some(ids[i] - cohorts[i].value) else None)
  }

  /**
   * Each row with a customer gets that customer's minimum quarter id as its
   * cohort, so its offset is never negative; rows without one get neither.
   */
  lemma CohortColumns(ids: seq<int>, customers: seq<Option<int>>, i: nat)
    requires |ids| == |customers| && i < |ids|
    ensures var cohorts := CohortIds(ids, customers);
      var offsets := Offsets(ids, cohorts);
      && (cohorts[i].Some? <==> customers[i].Some?)
      && (offsets[i].Some? <==> customers[i].Some?)
      && (customers[i].Some? ==>
            && cohorts[i].value <= ids[i]
            && offsets[i].value == ids[i] - cohorts[i].value >= 0
            && forall j :: 0 <= j < |ids| && customers[j] == customers[i] ==> cohorts[i].value <= ids[j])
  {
  }

  /** Every customer has a row at offset 0: the row where the minimum is attained. */
  lemma {:induction false} OffsetZeroExists(ids: seq<int>, customers: seq<Option<int>>, c: int)
    requires |ids| == |customers| && Some(c) in customers
    ensures var offsets := Offsets(ids, CohortIds(ids, customers));
      exists j :: 0 <= j < |ids| && customers[j] == Some(c) && offsets[j] == Some(0)
  {
    var r := CohortOf(ids, customers, c);
    var j :| 0 <= j < |ids| && customers[j] == Some(c) && ids[j] == r.value;
    assert Offsets(ids, CohortIds(ids, customers))[j] == Some(0);
  }

  /**
   * The `CohortQuarter` of a row with a customer is the quarter key of one
   * of that customer's rows, the one with the least quarter id: `quarters`
   * read at the cohort id inverts `quarters_map`.
   */
  lemma CohortQuarterOfCustomer(keys: seq<QuarterKey>, customers: seq<Option<int>>, i: nat)
    requires |keys| == |customers| && i < |keys| && customers[i].Some?
    ensures var ids := QuarterIds(keys);
      var cq := CohortQuarters(Unique(keys), CohortIds(ids, customers));
      exists r :: 0 <= r < |keys| && customers[r] == customers[i] && cq[i] == Some(keys[r])
        && forall j :: 0 <= j < |keys| && customers[j] == customers[i] ==> ids[r] <= ids[j]
  {
    var ids := QuarterIds(keys);
    var c := customers[i].value;
    var m := CohortOf(ids, customers, c);
    var r :| 0 <= r < |ids| && customers[r] == Some(c) && ids[r] == m.value;
    assert CohortIds(ids, customers)[i] == m;
  }

  /** The input lists its quarter keys in calendar order (the CSV is sorted by time). */
  predicate TimeSorted(keys: seq<QuarterKey>) {
    forall i, j :: 0 <= i < j < |keys| ==> !Earlier(keys[j], keys[i])
  }

  /** On time-sorted input the distinct keys come out in strictly ascending calendar order. */
  lemma {:induction false} UniqueOfSortedAscends(keys: seq<QuarterKey>)
    requires TimeSorted(keys)
    ensures forall i, j :: 0 <= i < j < |Unique(keys)| ==> Earlier(Unique(keys)[i], Unique(keys)[j])
  {
    if keys != [] {
      var n := |keys| - 1;
      var p := Unique(keys[..n]);
      var x := keys[n];
      assert TimeSorted(keys[..n]);
      UniqueOfSortedAscends(keys[..n]);
      if x !in p {
        forall y | y in p
          ensures Earlier(y, x)
        {
          var k :| 0 <= k < n && keys[..n][k] == y;
          assert !Earlier(keys[n], keys[k]);
        }
      }
    }
  }

  /**
   * When the input is time-sorted, first-seen quarter ids agree with the
   * calendar: one id is below another exactly when its quarter is earlier.
   */
  lemma QuarterIdsFollowCalendar(keys: seq<QuarterKey>, i: nat, j: nat)
    requires TimeSorted(keys) && i < |keys| && j < |keys|
    ensures QuarterIds(keys)[i] < QuarterIds(keys)[j] <==> Earlier(keys[i], keys[j])
  {
    var u, ids := Unique(keys), QuarterIds(keys);
    UniqueOfSortedAscends(keys);
    if ids[j] < ids[i] {
      assert Earlier(u[ids[j]], u[ids[i]]);
    }
  }

  /**
   * With time-sorted input a customer's cohort quarter is the calendar
   * earliest quarter in which the customer bought.
   */
  lemma CohortIsEarliestQuarter(keys: seq<QuarterKey>, customers: seq<Option<int>>, i: nat)
    requires TimeSorted(keys) && |keys| == |customers| && i < |keys| && customers[i].Some?
    ensures var cq := CohortQuarters(Unique(keys), CohortIds(QuarterIds(keys), customers));
      && cq[i].Some?
      && (exists r :: 0 <= r < |keys| && customers[r] == customers[i] && keys[r] == cq[i].value)
      && forall j :: 0 <= j < |keys| && customers[j] == customers[i] ==> !Earlier(keys[j], cq[i].value)
  {
    var ids := QuarterIds(keys);
    CohortQuarterOfCustomer(keys, customers, i);
    var cq := CohortQuarters(Unique(keys), CohortIds(ids, customers));
    var r :| 0 <= r < |keys| && customers[r] == customers[i] && cq[i] == Some(keys[r])
        && forall j :: 0 <= j < |keys| && customers[j] == customers[i] ==> ids[r] <= ids[j];
    forall j | 0 <= j < |keys| && customers[j] == customers[i]
      ensures !Earlier(keys[j], keys[r])
    {
      QuarterIdsFollowCalendar(keys, j, r);
    }
  }

  /**
   * Without sorted input the ids need not follow the calendar: a quarter
   * seen first gets id 0 even when a later row holds an earlier quarter.
   */
  lemma FirstSeenIdsIgnoreCalendar()
    ensures var keys := [QuarterKey(2, 2010), QuarterKey(1, 2010)];
      QuarterIds(keys) == [0, 1] && Earlier(keys[1], keys[0])
  {
    var keys := [QuarterKey(2, 2010), QuarterKey(1, 2010)];
    assert keys[..1] == [keys[0]] && [keys[0]][..0] == [];
    assert Unique([keys[0]]) == [keys[0]];
    assert Unique(keys) == keys;
    var ids := QuarterIds(keys);
    assert ids[0] == 0 && ids[1] == 1;
  }

  // ---------------------------------------------------------------------
  // Retention counts

  /** Customers of cohort `c` active at offset `o`: the set whose size `nunique` reports. */
  function Active(cohorts: seq<Option<int>>, offsets: seq<Option<int>>, customers: seq<Option<int>>, c: int, o: int): set<int>
    requires |cohorts| == |offsets| == |customers|
  {
    set i | 0 <= i < |customers| && cohorts[i] == Some(c) && offsets[i] == Some(o) && customers[i].Some?
      :: customers[i].value
  }

  /** The customers whose cohort is `c`. */
  function Members(cohorts: seq<Option<int>>, customers: seq<Option<int>>, c: int): set<int>
    requires |cohorts| == |customers|
  {
    set i | 0 <= i < |customers| && cohorts[i] == Some(c) && customers[i].Some? :: customers[i].value
  }

  /**
   * Per cohort, the customers active at offset 0 are exactly its members,
   * and those active at any offset are some of them: the offset-0 count is
   * the cohort's size and bounds every other count.
   */
  lemma {:induction false} ActiveAtOffsets(ids: seq<int>, customers: seq<Option<int>>, c: int, o: int)
    requires |ids| == |customers|
    ensures var cohorts := CohortIds(ids, customers);
      var offsets := Offsets(ids, cohorts);
      && Active(cohorts, offsets, customers, c, 0) == Members(cohorts, customers, c)
      && Active(cohorts, offsets, customers, c, o) <= Members(cohorts, customers, c)
      && |Active(cohorts, offsets, customers, c, o)| <= |Members(cohorts, customers, c)|
  {
    var cohorts := CohortIds(ids, customers);
    var offsets := Offsets(ids, cohorts);
    forall x | x in Members(cohorts, customers, c)
      ensures x in Active(cohorts, offsets, customers, c, 0)
    {
      var i :| 0 <= i < |customers| && cohorts[i] == Some(c) && customers[i] == Some(x);
      OffsetZeroExists(ids, customers, x);
      var j :| 0 <= j < |ids| && customers[j] == Some(x) && offsets[j] == Some(0);
      assert cohorts[j] == cohorts[i];
    }
    SubsetSize(Active(cohorts, offsets, customers, c, o), Members(cohorts, customers, c));
  }

  // ---------------------------------------------------------------------
  // The pivot

  /** Ascending list of the values in `0..k-1` that occur in a column: a sorted pivot axis. */
  function AxisUpTo(col: seq<Option<int>>, k: nat): (axis: seq<int>)
    ensures forall i :: 0 <= i < |axis| ==> 0 <= axis[i] < k
  {
    if k == 0 then []
    else AxisUpTo(col, k - 1) + (if Some(k - 1) in col then [k - 1] else [])
  }

  /** An axis lists, in strictly ascending order, exactly the values in `0..k-1` that occur in its column. */
  lemma {:induction false} AxisSorted(col: seq<Option<int>>, k: nat)
    ensures var axis := AxisUpTo(col, k);
      && (forall v :: v in axis <==> 0 <= v < k && Some(v) in col)
      && (forall i, j :: 0 <= i < j < |axis| ==> axis[i] < axis[j])
  {
    if k > 0 {
      AxisSorted(col, k - 1);
    }
  }

  /** One row of the retention table: a cohort and its percentage per offset column. */
  datatype RetentionRow = RetentionRow(cohortId: int, cohort: QuarterKey, cells: seq<Option<real>>)

  /** The retention table: its offset columns, and its rows as plotted. */
  datatype RetentionTable = RetentionTable(offsets: seq<int>, rows: seq<RetentionRow>)

  /** `cohort_retention_count.iloc[:, 0]` on a pivot with no column raises. */
  datatype CohortError = EmptyPivot

  /** One cell: `nunique` count divided by the row's first-column count, times 100; missing when either is. */
  function Cell(cohorts: seq<Option<int>>, offsets: seq<Option<int>>, customers: seq<Option<int>>,
                c: int, o: int, first: int): Option<real>
    requires |cohorts| == |offsets| == |customers|
  {
    var n := |Active(cohorts, offsets, customers, c, o)|;
    var size := |Active(cohorts, offsets, customers, c, first)|;
    if n == 0 || size == 0 then None else Some(100.0 * (n as real) / (size as real))
  }

  /** One pivot row, relabelled with its quarter key and divided by its first column. */
  function PivotRow(quarters: seq<QuarterKey>, cohorts: seq<Option<int>>, offsets: seq<Option<int>>,
                    customers: seq<Option<int>>, cols: seq<int>, c: int): (row: RetentionRow)
    requires |cohorts| == |offsets| == |customers|
    requires 0 <= c < |quarters| && cols != []
    ensures row.cohortId == c && row.cohort == quarters[c] && |row.cells| == |cols|
    ensures forall j :: 0 <= j < |cols| ==>
      row.cells[j] == Cell(cohorts, offsets, customers, c, cols[j], cols[0])
  {
    RetentionRow(c, quarters[c], seq(|cols|, j requires 0 <= j < |cols| =>
      Cell(cohorts, offsets, customers, c, cols[j], cols[0])))
  }

  /**
   * Lines 209-229: count distinct customers per (cohort id, offset), pivot
   * with sorted cohort ids as rows and sorted offsets as columns, relabel
   * each row with its quarter key, divide each row by its first column,
   * scale to percent and reverse the row order.
   */
  function Pivot(quarters: seq<QuarterKey>, cohorts: seq<Option<int>>, offsets: seq<Option<int>>,
                 customers: seq<Option<int>>): (r: Result<RetentionTable, CohortError>)
    requires |cohorts| == |offsets| == |customers|
    ensures r.Failure? <==> AxisUpTo(offsets, |quarters|) == []
    ensures r.Success? ==> r.value.offsets == AxisUpTo(offsets, |quarters|)
    ensures r.Success? ==> |r.value.rows| == |AxisUpTo(cohorts, |quarters|)|
    ensures r.Success? ==> var axis := AxisUpTo(cohorts, |quarters|);
      forall i :: 0 <= i < |axis| ==>
        r.value.rows[i] == PivotRow(quarters, cohorts, offsets, customers, r.value.offsets, axis[|axis| - 1 - i])
  {
    var k := |quarters|;
    var cols := AxisUpTo(offsets, k);
    if cols == [] then Failure(EmptyPivot)
    else Success(RetentionTable(cols, PivotRows(quarters, cohorts, offsets, customers, cols, AxisUpTo(cohorts, k))))
  }

  /** The rows of the pivot, newest cohort first. */
  function PivotRows(quarters: seq<QuarterKey>, cohorts: seq<Option<int>>, offsets: seq<Option<int>>,
                     customers: seq<Option<int>>, cols: seq<int>, axis: seq<int>): (rows: seq<RetentionRow>)
    requires |cohorts| == |offsets| == |customers| && cols != []
    requires forall i :: 0 <= i < |axis| ==> 0 <= axis[i] < |quarters|
    ensures |rows| == |axis|
    ensures forall i :: 0 <= i < |axis| ==>
      rows[i] == PivotRow(quarters, cohorts, offsets, customers, cols, axis[|axis| - 1 - i])
  {
    var m := |axis|;
    seq(m, i requires 0 <= i < m => PivotRow(quarters, cohorts, offsets, customers, cols, axis[m - 1 - i]))
  }

  // ---------------------------------------------------------------------
  // Properties of the retention table

  /** Quarter ids, cohort ids and offsets all lie in `0..k-1` when the quarter ids do. */
  lemma ColumnBounds(ids: seq<int>, customers: seq<Option<int>>, k: nat, i: nat)
    requires |ids| == |customers| && i < |ids|
    requires forall j :: 0 <= j < |ids| ==> 0 <= ids[j] < k
    ensures var cohorts := CohortIds(ids, customers);
      var offsets := Offsets(ids, cohorts);
      customers[i].Some? ==> 0 <= cohorts[i].value < k && 0 <= offsets[i].value < k
  {
    CohortColumns(ids, customers, i);
  }

  /** An axis is empty exactly when the column has no value in range, and starts at 0 when 0 occurs. */
  lemma AxisStart(col: seq<Option<int>>, k: nat)
    ensures AxisUpTo(col, k) == [] <==> forall i :: 0 <= i < |col| && col[i].Some? ==> !(0 <= col[i].value < k)
    ensures k > 0 && Some(0) in col ==> AxisUpTo(col, k) != [] && AxisUpTo(col, k)[0] == 0
  {
    var axis := AxisUpTo(col, k);
    AxisSorted(col, k);
    if axis != [] {
      assert axis[0] in axis;
    }
    if k > 0 && Some(0) in col {
      assert 0 in axis;
    }
  }

  /** The first pivot column is offset 0 as soon as some row has a customer; there is none otherwise. */
  lemma FirstColumnIsZero(ids: seq<int>, customers: seq<Option<int>>, k: nat)
    requires |ids| == |customers|
    requires forall j :: 0 <= j < |ids| ==> 0 <= ids[j] < k
    ensures var offsets := Offsets(ids, CohortIds(ids, customers));
      var cols := AxisUpTo(offsets, k);
      (cols == [] <==> forall i :: 0 <= i < |customers| ==> customers[i].None?)
      && (cols != [] ==> cols[0] == 0)
  {
    var offsets := Offsets(ids, CohortIds(ids, customers));
    AxisStart(offsets, k);
    if i :| 0 <= i < |customers| && customers[i].Some? {
      OffsetZeroExists(ids, customers, customers[i].value);
      ColumnBounds(ids, customers, k, i);
    } else {
      forall i | 0 <= i < |offsets| && offsets[i].Some?
        ensures false
      {
        CohortColumns(ids, customers, i);
      }
    }
  }

  lemma PercentBounds(n: nat, size: nat)
    requires 0 < n <= size
    ensures 0.0 < 100.0 * (n as real) / (size as real) <= 100.0
  {
    assert 100.0 * (n as real) <= 100.0 * (size as real);
  }

  lemma HundredPercent(n: nat)
    requires n > 0
    ensures 100.0 * (n as real) / (n as real) == 100.0
  {
  }

  /** The engine on the quarter list, the quarter-id column and the customer column. */
  function Engine(quarters: seq<QuarterKey>, ids: seq<int>, customers: seq<Option<int>>): Result<RetentionTable, CohortError>
    requires |ids| == |customers|
  {
    var cohorts := CohortIds(ids, customers);
    Pivot(quarters, cohorts, Offsets(ids, cohorts), customers)
  }

  /** The whole engine as a function of the loaded rows. */
  function Retention(rows: seq<Row>): (r: Result<RetentionTable, CohortError>)
    requires AllDated(rows)
  {
    var keys := InvoiceQuarters(rows);
    Engine(Unique(keys), QuarterIds(keys), Customers(rows))
  }

  /** The engine fails exactly when no row has a customer id. */
  lemma EngineFailsWithoutCustomers(quarters: seq<QuarterKey>, ids: seq<int>, customers: seq<Option<int>>)
    requires |ids| == |customers|
    requires forall j :: 0 <= j < |ids| ==> 0 <= ids[j] < |quarters|
    ensures Engine(quarters, ids, customers).Failure? <==>
      forall i :: 0 <= i < |customers| ==> customers[i].None?
  {
    FirstColumnIsZero(ids, customers, |quarters|);
  }

  /**
   * Every cell is the share of its cohort's customers active at that
   * offset, in percent: missing when none is, otherwise in (0, 100].
   */
  lemma {:induction false} EngineCellIsShare(quarters: seq<QuarterKey>, ids: seq<int>, customers: seq<Option<int>>, i: nat, j: nat)
    requires |ids| == |customers|
    requires forall l :: 0 <= l < |ids| ==> 0 <= ids[l] < |quarters|
    requires Engine(quarters, ids, customers).Success?
    requires i < |Engine(quarters, ids, customers).value.rows|
    requires j < |Engine(quarters, ids, customers).value.offsets|
    ensures var t := Engine(quarters, ids, customers).value;
      var cohorts := CohortIds(ids, customers);
      var c := t.rows[i].cohortId;
      var active := Active(cohorts, Offsets(ids, cohorts), customers, c, t.offsets[j]);
      var members := Members(cohorts, customers, c);
      && |members| > 0
      && t.rows[i].cells[j] == (if active == {} then None
                                else Some(100.0 * (|active| as real) / (|members| as real)))
      && (t.rows[i].cells[j].Some? ==> 0.0 < t.rows[i].cells[j].value <= 100.0)
  {
    var cohorts := CohortIds(ids, customers);
    var offsets := Offsets(ids, cohorts);
    var t := Pivot(quarters, cohorts, offsets, customers).value;
    var c := t.rows[i].cohortId;
    var o := t.offsets[j];
    PivotCell(quarters, cohorts, offsets, customers, i, j);
    assert t.offsets[0] == 0 by {
      FirstColumnIsZero(ids, customers, |quarters|);
    }
    CohortNotEmpty(ids, customers, |quarters|, c);
    ActiveAtOffsets(ids, customers, c, o);
    var active := Active(cohorts, offsets, customers, c, o);
    var members := Members(cohorts, customers, c);
    assert t.rows[i].cells[j] == Cell(cohorts, offsets, customers, c, o, 0);
    assert Active(cohorts, offsets, customers, c, 0) == members;
    if active != {} {
      PercentBounds(|active|, |members|);
    }
  }

  /** Cell `(i, j)` of a pivot belongs to a cohort on the row axis and is that cohort's share at column `j`. */
  lemma PivotCell(quarters: seq<QuarterKey>, cohorts: seq<Option<int>>, offsets: seq<Option<int>>,
                  customers: seq<Option<int>>, i: nat, j: nat)
    requires |cohorts| == |offsets| == |customers|
    requires Pivot(quarters, cohorts, offsets, customers).Success?
    requires i < |Pivot(quarters, cohorts, offsets, customers).value.rows|
    requires j < |Pivot(quarters, cohorts, offsets, customers).value.offsets|
    ensures var t := Pivot(quarters, cohorts, offsets, customers).value;
      && t.rows[i].cohortId in AxisUpTo(cohorts, |quarters|)
      && t.rows[i].cells[j] == Cell(cohorts, offsets, customers, t.rows[i].cohortId, t.offsets[j], t.offsets[0])
  {
    var axis := AxisUpTo(cohorts, |quarters|);
    assert axis[|axis| - 1 - i] in axis;
  }

  /** A cohort that labels a pivot row has at least one member. */
  lemma CohortNotEmpty(ids: seq<int>, customers: seq<Option<int>>, k: nat, c: int)
    requires |ids| == |customers|
    requires c in AxisUpTo(CohortIds(ids, customers), k)
    ensures |Members(CohortIds(ids, customers), customers, c)| > 0
  {
    var cohorts := CohortIds(ids, customers);
    AxisSorted(cohorts, k);
    var r :| 0 <= r < |cohorts| && cohorts[r] == Some(c);
    CohortColumns(ids, customers, r);
    assert customers[r].value in Members(cohorts, customers, c);
  }

  /**
   * Shape of the table: offset columns ascend from 0, rows come in
   * strictly decreasing cohort id (the reversal of line 229), and each row
   * is labelled with the quarter key its cohort id stands for.
   */
  lemma EngineShape(quarters: seq<QuarterKey>, ids: seq<int>, customers: seq<Option<int>>)
    requires |ids| == |customers|
    requires forall l :: 0 <= l < |ids| ==> 0 <= ids[l] < |quarters|
    requires Engine(quarters, ids, customers).Success?
    ensures var t := Engine(quarters, ids, customers).value;
      && t.offsets[0] == 0
      && (forall j, l :: 0 <= j < l < |t.offsets| ==> t.offsets[j] < t.offsets[l])
      && (forall i, l :: 0 <= i < l < |t.rows| ==> t.rows[i].cohortId > t.rows[l].cohortId)
      && (forall i :: 0 <= i < |t.rows| ==>
            0 <= t.rows[i].cohortId < |quarters| && t.rows[i].cohort == quarters[t.rows[i].cohortId])
  {
    var cohorts := CohortIds(ids, customers);
    FirstColumnIsZero(ids, customers, |quarters|);
    AxisSorted(cohorts, |quarters|);
    AxisSorted(Offsets(ids, cohorts), |quarters|);
  }

  /** Normalisation identity: every cohort row starts at 100 percent. */
  lemma EngineStartsAtHundred(quarters: seq<QuarterKey>, ids: seq<int>, customers: seq<Option<int>>, i: nat)
    requires |ids| == |customers|
    requires forall l :: 0 <= l < |ids| ==> 0 <= ids[l] < |quarters|
    requires Engine(quarters, ids, customers).Success?
    requires i < |Engine(quarters, ids, customers).value.rows|
    ensures Engine(quarters, ids, customers).value.rows[i].cells[0] == Some(100.0)
  {
    var t := Engine(quarters, ids, customers).value;
    var cohorts := CohortIds(ids, customers);
    var offsets := Offsets(ids, cohorts);
    var c := t.rows[i].cohortId;
    assert t.offsets[0] == 0 by {
      FirstColumnIsZero(ids, customers, |quarters|);
    }
    EngineCellIsShare(quarters, ids, customers, i, 0);
    ActiveAtOffsets(ids, customers, c, 0);
    var members := Members(cohorts, customers, c);
    assert Active(cohorts, offsets, customers, c, t.offsets[0]) == members;
    HundredPercent(|members|);
  }

  // A worked case: customers 1 and 2 first buy in quarter 0, customer 3 in
  // quarter 1, and customer 1 buys again in quarter 1.

  /** The worked case's cohort id of one customer. */
  lemma ExampleCohortOf(c: int)
    requires 1 <= c <= 3
    ensures CohortOf([0, 0, 1, 1], [Some(1), Some(2), Some(3), Some(1)], c) == Some(if c == 3 then 1 else 0)
  {
    var ids := [0, 0, 1, 1];
    var customers := [Some(1), Some(2), Some(3), Some(1)];
    var r := CohortOf(ids, customers, c);
    assert customers[c - 1] == Some(c);
    if c == 3 {
      assert forall i :: 0 <= i < 4 && customers[i] == Some(3) ==> i == 2;
    }
  }

  /** The worked case's cohort column. */
  lemma ExampleCohorts()
    ensures CohortIds([0, 0, 1, 1], [Some(1), Some(2), Some(3), Some(1)]) == [Some(0), Some(0), Some(1), Some(0)]
  {
    var cohorts := CohortIds([0, 0, 1, 1], [Some(1), Some(2), Some(3), Some(1)]);
    ExampleCohortOf(1);
    ExampleCohortOf(2);
    ExampleCohortOf(3);
    assert cohorts[0] == Some(0) && cohorts[1] == Some(0) && cohorts[2] == Some(1) && cohorts[3] == Some(0);
  }

  /** The worked case's offset column. */
  lemma ExampleOffsets()
    ensures Offsets([0, 0, 1, 1], [Some(0), Some(0), Some(1), Some(0)]) == [Some(0), Some(0), Some(0), Some(1)]
  {
  }

  /** The worked case's counts: cohort 0 has two members, one of them active at offset 1. */
  lemma ExampleCounts()
    ensures var cohorts := [Some(0), Some(0), Some(1), Some(0)];
      var offsets := [Some(0), Some(0), Some(0), Some(1)];
      var customers := [Some(1), Some(2), Some(3), Some(1)];
      && |Active(cohorts, offsets, customers, 0, 0)| == 2
      && |Active(cohorts, offsets, customers, 0, 1)| == 1
  {
    var cohorts := [Some(0), Some(0), Some(1), Some(0)];
    var offsets := [Some(0), Some(0), Some(0), Some(1)];
    var customers := [Some(1), Some(2), Some(3), Some(1)];
    var a0, a1 := Active(cohorts, offsets, customers, 0, 0), Active(cohorts, offsets, customers, 0, 1);
    assert customers[0].value in a0 && customers[1].value in a0;
    assert customers[3].value in a1;
    assert a0 == {1, 2};
    assert a1 == {1};
  }

  /** The worked case's pivot axes. */
  lemma ExampleAxes()
    ensures AxisUpTo([Some(0), Some(0), Some(1), Some(0)], 2) == [0, 1]
    ensures AxisUpTo([Some(0), Some(0), Some(0), Some(1)], 2) == [0, 1]
  {
    assert Some(0) in [Some(0), Some(0), Some(1), Some(0)];
    assert Some(1) in [Some(0), Some(0), Some(1), Some(0)];
    assert Some(0) in [Some(0), Some(0), Some(0), Some(1)];
    assert Some(1) in [Some(0), Some(0), Some(0), Some(1)];
  }

  /** In the worked case, cohort 0 keeps 50 percent of its customers at offset 1. */
  lemma RetentionExample()
    ensures var r := Engine([QuarterKey(1, 2010), QuarterKey(2, 2010)], [0, 0, 1, 1],
                            [Some(1), Some(2), Some(3), Some(1)]);
      && r.Success?
      && r.value.offsets == [0, 1]
      && |r.value.rows| == 2
      && r.value.rows[1].cohortId == 0
      && r.value.rows[1].cells == [Some(100.0), Some(50.0)]
  {
    ExampleCohorts();
    ExampleOffsets();
    ExampleAxes();
    ExampleCounts();
    var row := Engine([QuarterKey(1, 2010), QuarterKey(2, 2010)], [0, 0, 1, 1],
                      [Some(1), Some(2), Some(3), Some(1)]).value.rows[1];
    assert row.cells[1] == Some(100.0 * 1.0 / 2.0);
  }
}
