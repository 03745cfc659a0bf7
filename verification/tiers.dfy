/**
  The traffic-light fill `write_excel` gives the Net Trust cell of every
  report row: red at or below zero, yellow below 1000, green from 1000 up.
 */
module Tiers {
  import opened Sorting
  import opened Report

  datatype Fill = Red | Yellow | Green

  /** Lower bound of the green band. */
  const GreenFrom: real := 1000.0

  /** `val = float(c.value or 0)` and the three-way test on it. The bands
      are exclusive and cover every value. */
  function TierOf(val: real): (f: Fill)
    ensures f == Red <==> val <= 0.0
    ensures f == Yellow <==> 0.0 < val < GreenFrom
    ensures f == Green <==> val >= GreenFrom
  {
    if val <= 0.0 then Red
    else if 0.0 < val < GreenFrom then Yellow
    else Green
  }

  /** Green above yellow above red. */
  function Rank(f: Fill): nat {
    match f
    case Red => 0
    case Yellow => 1
    case Green => 2
  }

  /** A larger balance never gets a worse colour. */
  lemma TierMonotone(a: real, b: real)
    requires a <= b
    ensures Rank(TierOf(a)) <= Rank(TierOf(b))
  {
  }

  /** The fills of a report, row by row. */
  function Fills(rows: seq<ReportRow>): (fs: seq<Fill>)
    ensures |fs| == |rows|
    ensures forall i :: 0 <= i < |rows| ==> fs[i] == TierOf(rows[i].net)
  {
    seq(|rows|, i requires 0 <= i < |rows| => TierOf(rows[i].net))
  }

  /** In the sorted report the colours come in bands: all green rows, then
      all yellow rows, then all red rows. */
  lemma ReportColourBands(v: Variant, meta: map<string, CustomFields.FieldMeta>, totals: map<string, real>,
                          matters: seq<Matter>, ocb: seq<ClientBalance>, billable: seq<BillableMatter>, i: nat, j: nat)
    requires i <= j < |BuildReport(v, meta, totals, matters, ocb, billable)|
    ensures var fs := Fills(BuildReport(v, meta, totals, matters, ocb, billable));
      Rank(fs[i]) >= Rank(fs[j])
  {
    var rows := BuildReport(v, meta, totals, matters, ocb, billable);
    ReportOrder(v, meta, totals, matters, ocb, billable, 0.0);
    DescendingAt(rows, NetOf, i, j);
    TierMonotone(rows[j].net, rows[i].net);
  }
}
