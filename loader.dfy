/**
 * Specification of `load_and_preprocess_data` after the CSV has been read
 * and its numeric columns coerced: set `amount = quantity * price` on
 * every row, then drop the rows whose date did not parse.
 */
module Loader {
  import opened Wrappers
  import opened Records

  /** A row with its `Effective_Throughput` recomputed from quantity and price. */
  function WithAmount(r: Row): Row {
    r.(amount := Times(r.quantity, r.price))
  }

  /** Line 33 applied to every row. */
  function WithAmounts(rows: seq<Row>): (r: seq<Row>)
    ensures |r| == |rows|
  {
    seq(|rows|, i requires 0 <= i < |rows| => WithAmount(rows[i]))
  }

  /** `dropna(subset=['InvoiceDate'])`: the rows with a date, in their order. */
  function Dated(rows: seq<Row>): seq<Row> {
    if rows == [] then []
    else
      var n := |rows| - 1;
      Dated(rows[..n]) + (if rows[n].date.Some? then [rows[n]] else [])
  }

  /** The positions of the rows with a date, ascending. */
  function DatedIndices(rows: seq<Row>): (idx: seq<nat>)
    ensures forall j :: 0 <= j < |idx| ==> idx[j] < |rows|
    ensures forall j, l :: 0 <= j < l < |idx| ==> idx[j] < idx[l]
    ensures forall i :: i in idx <==> 0 <= i < |rows| && rows[i].date.Some?
  {
    if rows == [] then []
    else
      var n := |rows| - 1;
      var before := DatedIndices(rows[..n]);
      assert forall i :: 0 <= i < n ==> rows[..n][i] == rows[i];
      before + (if rows[n].date.Some? then [n] else [])
  }

  /** The frame `load_and_preprocess_data` returns for the coerced rows `raw`. */
  function Loaded(raw: seq<Row>): seq<Row> {
    Dated(WithAmounts(raw))
  }

  lemma {:induction false} DatedSelects(rows: seq<Row>)
    ensures var out, idx := Dated(rows), DatedIndices(rows);
      |out| == |idx| && forall j :: 0 <= j < |idx| ==> out[j] == rows[idx[j]]
  {
    if rows != [] {
      var n := |rows| - 1;
      DatedSelects(rows[..n]);
      var before, idx := DatedIndices(rows[..n]), DatedIndices(rows);
      assert forall j :: 0 <= j < |before| ==> rows[..n][before[j]] == rows[before[j]];
    }
  }

  /**
   * The loader keeps exactly the rows whose date parsed, in their original
   * order; on each it sets the amount to quantity times price (missing when
   * either is) and changes no other field.
   */
  lemma LoadedRows(raw: seq<Row>)
    ensures var out, idx := Loaded(raw), DatedIndices(raw);
      && |out| == |idx|
      && (forall j, l :: 0 <= j < l < |idx| ==> idx[j] < idx[l])
      && (forall i :: 0 <= i < |raw| ==> (raw[i].date.Some? <==> i in idx))
      && (forall j :: 0 <= j < |idx| ==>
            out[j] == raw[idx[j]].(amount := Times(raw[idx[j]].quantity, raw[idx[j]].price)))
      && AllDated(out)
  {
    var w := WithAmounts(raw);
    DatedSelects(w);
    IndicesOfAmounts(raw);
  }

  lemma {:induction false} IndicesOfAmounts(raw: seq<Row>)
    ensures DatedIndices(WithAmounts(raw)) == DatedIndices(raw)
  {
    if raw != [] {
      var n := |raw| - 1;
      assert WithAmounts(raw)[..n] == WithAmounts(raw[..n]);
      IndicesOfAmounts(raw[..n]);
    }
  }
}
