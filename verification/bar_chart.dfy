/**
 * `barChartDataProcess` in app/components/infobox_bar_chart.tsx: awards per
 * degree outcome, largest first, as two aligned axis lists.
 */
module BarChart {
  import opened Seqs
  import opened Grouping
  import opened Sorting
  import opened Rows
  import opened Ranking

  /** The category axis (outcome names) and the value axis (their totals). */
  datatype Bars = Bars(x: seq<string>, y: seq<nat>)

  function Process(rows: seq<Row>): Bars
  {
    var ranked := RankedTotals(rows, Outcome);
    Bars(Map(Fst, ranked), Map(Snd, ranked))
  }

  /**
   * The axes are aligned: the bar at k is a non-blank outcome with the
   * awards of its rows. An outcome has a bar exactly when some row holds it,
   * and only one.
   */
  lemma {:induction false} BarValues(rows: seq<Row>)
    ensures var b := Process(rows);
      && |b.x| == |b.y|
      && (forall k :: 0 <= k < |b.x| ==> b.x[k] != "" && b.y[k] == AwardsWhere(rows, Outcome, b.x[k]))
      && (forall c :: c in b.x <==> c != "" && c in Column(rows, Outcome))
      && Distinct(b.x)
  {
    RankedValues(rows, Outcome);
    RankedNames(rows, Outcome);
  }

  /**
   * Values never increase along the axis, equal values keep the order in
   * which their outcomes first appear, and the values add up to the awards
   * of the rows with an outcome.
   */
  lemma {:induction false} BarOrderAndSum(rows: seq<Row>)
    ensures var b := Process(rows); var seen := Filter(NonBlank, Column(rows, Outcome));
      && (forall i, j :: 0 <= i < j < |b.y| ==> b.y[i] >= b.y[j])
      && (forall i, j :: 0 <= i < j < |b.y| && b.y[i] == b.y[j] ==> IndexOf(seen, b.x[i]) < IndexOf(seen, b.x[j]))
      && SumAll(b.y) == AwardsNonBlank(rows, Outcome)
  {
    var r := RankedTotals(rows, Outcome);
    RankedOrder(rows, Outcome);
    assert forall i, j :: 0 <= i < j < |r| ==> Snd(r[i]) >= Snd(r[j]);
    RankedSum(rows, Outcome);
    SumAllValues(r);
  }
}
