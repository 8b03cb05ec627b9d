/**
 * The data frame of `retail_analysis.py` as an object whose columns the
 * loader and `analyze_cohort_retention` update in place.
 */
module RetailAnalysis {
  import opened Wrappers
  import opened Seqs
  import opened Records
  import opened Loader
  import opened CohortSpec

  class SalesFrame {
    /** The transaction rows. */
    var rows: seq<Row>
    // Columns added by `analyze_cohort_retention`.
    var invoiceQuarter: seq<QuarterKey>
    var invoiceQuarterId: seq<int>
    var cohortQuarterId: seq<Option<int>>
    var cohortQuarter: seq<Option<QuarterKey>>
    var cohortIndex: seq<Option<int>>

    /** The frame `pd.read_csv` returns, its numeric columns already coerced. */
    constructor (raw: seq<Row>)
      ensures rows == raw
      ensures invoiceQuarter == [] && invoiceQuarterId == [] && cohortQuarterId == []
      ensures cohortQuarter == [] && cohortIndex == []
    {
      rows := raw;
      invoiceQuarter, invoiceQuarterId, cohortQuarterId := [], [], [];
      cohortQuarter, cohortIndex := [], [];
    }

    /** Line 33: `Effective_Throughput = Signal_Strength * SNR`, row by row. */
    method ComputeAmounts()
      modifies this`rows
      ensures rows == WithAmounts(old(rows))
    {
      var i := 0;
      while i < |rows|
        invariant 0 <= i <= |rows| == |old(rows)|
        invariant forall j :: 0 <= j < i ==> rows[j] == WithAmount(old(rows)[j])
        invariant forall j :: i <= j < |rows| ==> rows[j] == old(rows)[j]
      {
        rows := rows[i := WithAmount(rows[i])];
        i := i + 1;
      }
    }

    /** Line 37: drop the rows whose date did not parse. */
    method DropUndated()
      modifies this`rows
      ensures rows == Dated(old(rows))
    {
      var kept: seq<Row> := [];
      var i := 0;
      while i < |rows|
        invariant 0 <= i <= |rows|
        invariant kept == Dated(rows[..i])
      {
        assert rows[..i + 1][..i] == rows[..i];
        if rows[i].date.Some? {
          kept := kept + [rows[i]];
        }
        i := i + 1;
      }
      assert rows[..|rows|] == rows;
      rows := kept;
    }

    /** `load_and_preprocess_data` after the file is read (lines 31-37). */
    method LoadAndPreprocess()
      modifies this`rows
      ensures rows == Loaded(old(rows))
      ensures AllDated(rows)
    {
      ComputeAmounts();
      DropUndated();
      LoadedRows(old(rows));
    }

    /** Lines 194-195: the `InvoiceQuarter` column. */
    method AddInvoiceQuarter()
      requires AllDated(rows)
      modifies this`invoiceQuarter
      ensures invoiceQuarter == InvoiceQuarters(rows)
    {
      var keys: seq<QuarterKey> := [];
      var i := 0;
      while i < |rows|
        invariant 0 <= i <= |rows|
        invariant keys == InvoiceQuarters(rows)[..i]
      {
        keys := keys + [QuarterOf(rows[i].date.value)];
        i := i + 1;
      }
      invoiceQuarter := keys;
    }

    /** Line 200: the `InvoiceQuarterID` column, each key looked up in `quarters_map`. */
    method AddInvoiceQuarterId() returns (quarters: seq<QuarterKey>, quartersMap: map<QuarterKey, nat>)
      modifies this`invoiceQuarterId
      ensures quarters == Unique(invoiceQuarter)
      ensures quartersMap == QuarterMap(invoiceQuarter)
      ensures invoiceQuarterId == QuarterIds(invoiceQuarter)
    {
      var keys := invoiceQuarter;
      quarters, quartersMap := NumberQuarters(keys);
      var ids := LookUpQuarterIds(keys, quartersMap);
      invoiceQuarterId := ids;
    }

    /**
     * Line 203: `groupby('Receiver_ID')['InvoiceQuarterID'].transform('min')`,
     * a running minimum per customer, then one lookup per row.
     */
    method AddCohortQuarterId()
      requires |invoiceQuarterId| == |rows|
      modifies this`cohortQuarterId
      ensures cohortQuarterId == CohortIds(invoiceQuarterId, Customers(rows))
    {
      var ids, cs := invoiceQuarterId, Customers(rows);
      var mins: map<int, int> := map[];
      var i := 0;
      while i < |ids|
        invariant 0 <= i <= |ids|
        invariant RunningMins(ids, cs, i, mins)
      {
        RunningMinsStep(ids, cs, i, mins);
        if cs[i].Some? {
          var c := cs[i].value;
          if c !in mins || ids[i] < mins[c] {
            mins := mins[c := ids[i]];
          }
        }
        i := i + 1;
      }
      assert ids[..|ids|] == ids && cs[..|cs|] == cs;
      var cohorts: seq<Option<int>> := [];
      i := 0;
      while i < |ids|
        invariant 0 <= i <= |ids|
        invariant cohorts == CohortIds(ids, cs)[..i]
      {
        cohorts := cohorts + [if cs[i].Some? then Some(mins[cs[i].value]) else None];
        i := i + 1;
      }
      cohortQuarterId := cohorts;
    }

    /** Lines 204-205: the `CohortQuarter` column, each cohort id mapped back to its key. */
    method AddCohortQuarter(quarters: seq<QuarterKey>)
      modifies this`cohortQuarter
      ensures cohortQuarter == CohortQuarters(quarters, cohortQuarterId)
    {
      var col: seq<Option<QuarterKey>> := [];
      var i := 0;
      while i < |cohortQuarterId|
        invariant 0 <= i <= |cohortQuarterId|
        invariant col == CohortQuarters(quarters, cohortQuarterId)[..i]
      {
        var c := cohortQuarterId[i];
        col := col + [if c.Some? && 0 <= c.value < |quarters| then Some(quarters[c.value]) else None];
        i := i + 1;
      }
      cohortQuarter := col;
    }

    /** Line 206: the `CohortIndex` column. */
    method AddCohortIndex()
      requires |cohortQuarterId| == |invoiceQuarterId|
      modifies this`cohortIndex
      ensures cohortIndex == Offsets(invoiceQuarterId, cohortQuarterId)
    {
      var col: seq<Option<int>> := [];
      var i := 0;
      while i < |invoiceQuarterId|
        invariant 0 <= i <= |invoiceQuarterId|
        invariant col == Offsets(invoiceQuarterId, cohortQuarterId)[..i]
      {
        var c := cohortQuarterId[i];
        col := col + [if c.Some? then Some(invoiceQuarterId[i] - c.value) else None];
        i := i + 1;
      }
      cohortIndex := col;
    }

    /**
     * `analyze_cohort_retention` up to the heat map: adds the five cohort
     * columns to the frame and returns the retention table it plots.
     */
    method AnalyzeCohortRetention() returns (retention: Result<RetentionTable, CohortError>)
      requires AllDated(rows)
      modifies this`invoiceQuarter, this`invoiceQuarterId, this`cohortQuarterId,
               this`cohortQuarter, this`cohortIndex
      ensures invoiceQuarter == InvoiceQuarters(rows)
      ensures invoiceQuarterId == QuarterIds(invoiceQuarter)
      ensures cohortQuarterId == CohortIds(invoiceQuarterId, Customers(rows))
      ensures cohortQuarter == CohortQuarters(Unique(invoiceQuarter), cohortQuarterId)
      ensures cohortIndex == Offsets(invoiceQuarterId, cohortQuarterId)
      ensures retention == Retention(rows)
    {
      AddInvoiceQuarter();
      var quarters, quartersMap := AddInvoiceQuarterId();
      AddCohortQuarterId();
      AddCohortQuarter(quarters);
      AddCohortIndex();
      retention := Pivot(quarters, cohortQuarterId, cohortIndex, Customers(rows));
    }
  }

  /**
   * Lines 198-199: `quarters_map`, built in one pass that gives each key
   * not seen before the next free number.
   */
  method NumberQuarters(keys: seq<QuarterKey>) returns (quarters: seq<QuarterKey>, quartersMap: map<QuarterKey, nat>)
    ensures quarters == Unique(keys)
    ensures quartersMap == DenseIndex(quarters)
  {
    quarters, quartersMap := [], map[];
    var i := 0;
    while i < |keys|
      invariant 0 <= i <= |keys|
      invariant quarters == Unique(keys[..i])
      invariant quartersMap == DenseIndex(quarters)
    {
      UniqueStep(keys, i);
      var k := keys[i];
      if k !in quartersMap {
        DenseIndexAppend(quarters, k);
        quartersMap := quartersMap[k := |quarters|];
        quarters := quarters + [k];
      }
      i := i + 1;
    }
    assert keys[..|keys|] == keys;
  }

  /** `df['InvoiceQuarter'].map(quarters_map)`: one lookup per row. */
  method LookUpQuarterIds(keys: seq<QuarterKey>, quartersMap: map<QuarterKey, nat>) returns (ids: seq<int>)
    requires quartersMap == QuarterMap(keys)
    ensures ids == QuarterIds(keys)
  {
    ghost var spec := QuarterIds(keys);
    ids := [];
    var i := 0;
    while i < |keys|
      invariant 0 <= i <= |keys|
      invariant |ids| == i
      invariant forall j :: 0 <= j < i ==> ids[j] == spec[j]
    {
      QuarterIdsLookup(keys, i);
      ids := ids + [quartersMap[keys[i]]];
      i := i + 1;
    }
  }
}
