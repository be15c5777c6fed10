/**
 * `donutDataProcess` in app/components/donut.tsx: the colleges' share of
 * awards, largest first, in the same hues as the flow diagram's level 1.
 */
module DonutRanked {
  import opened Seqs
  import opened Grouping
  import opened Sorting
  import opened Rows
  import opened Palette
  import opened Ranking

  datatype Slice = Slice(name: string, value: nat, colour: Colour)

  datatype Donut = Donut(legend: seq<string>, series: seq<Slice>)

  function Value(s: Slice): nat { s.value }

  /**
   * The chart data. `None` stands for input that is absent or not an array,
   * which the source answers with two empty lists.
   */
  function Process(data: Option<seq<Row>>): Donut
  {
    match data
    case None => Donut([], [])
    case Some(rows) =>
      var ranked := RankedTotals(rows, Group1);
      var colours := Spread(|ranked|);
      Donut(Map(Fst, ranked), seq(|ranked|, i requires 0 <= i < |ranked| => Slice(ranked[i].0, ranked[i].1, colours[i])))
  }

  lemma SeriesAt(rows: seq<Row>)
    ensures var d := Process(Some(rows)); var r := RankedTotals(rows, Group1);
      |d.series| == |r| && |d.legend| == |r|
      && forall k :: 0 <= k < |r| ==> d.series[k] == Slice(r[k].0, r[k].1, Hue(k, |r|)) && d.legend[k] == r[k].0
  {
  }

  /** Absent or malformed input gives an empty legend and an empty series. */
  lemma AbsentInput()
    ensures Process(None).legend == [] && Process(None).series == []
  {
  }

  /**
   * The legend is the series' names in series order; the slice at position
   * k of n is drawn in the k-th of n evenly spaced hues.
   */
  lemma {:induction false} LegendAndColours(rows: seq<Row>)
    ensures var d := Process(Some(rows));
      |d.legend| == |d.series|
      && forall k :: 0 <= k < |d.series| ==> d.legend[k] == d.series[k].name && d.series[k].colour == Hue(k, |d.series|)
  {
    SeriesAt(rows);
  }

  /**
   * Each slice is a non-blank college carrying the awards of its rows; a
   * college has a slice exactly when some row holds it, and only one.
   */
  lemma {:induction false} SliceValues(rows: seq<Row>)
    ensures var d := Process(Some(rows));
      && (forall k :: 0 <= k < |d.series| ==> d.series[k].name != "" && d.series[k].value == AwardsWhere(rows, Group1, d.series[k].name))
      && (forall c :: c in d.legend <==> c != "" && c in Column(rows, Group1))
      && Distinct(d.legend)
  {
    SeriesAt(rows);
    RankedValues(rows, Group1);
    RankedNames(rows, Group1);
    assert Process(Some(rows)).legend == Keys(RankedTotals(rows, Group1));
  }

  /**
   * Slices come largest first; equal values keep the order in which their
   * colleges first appear among the rows with a college.
   */
  lemma {:induction false} SliceOrder(rows: seq<Row>)
    ensures var d := Process(Some(rows)); var seen := Filter(NonBlank, Column(rows, Group1));
      && NonIncreasing(d.series, Value)
      && forall i, j :: 0 <= i < j < |d.series| && d.series[i].value == d.series[j].value ==>
           IndexOf(seen, d.series[i].name) < IndexOf(seen, d.series[j].name)
  {
    SeriesAt(rows);
    RankedOrder(rows, Group1);
  }

  /** The slices add up to the awards of the rows with a college. */
  lemma {:induction false} SliceSum(rows: seq<Row>)
    ensures SumBy(Process(Some(rows)).series, Value) == AwardsNonBlank(rows, Group1)
  {
    var r := RankedTotals(rows, Group1);
    var d := Process(Some(rows));
    SeriesAt(rows);
    SumByIndexed(r, d.series);
    RankedSum(rows, Group1);
  }

  lemma {:induction false} SumByIndexed(r: seq<(string, nat)>, s: seq<Slice>)
    requires |r| == |s| && forall k :: 0 <= k < |r| ==> s[k].value == r[k].1
    ensures SumBy(s, Value) == Sum(r)
  {
    if |r| > 0 {
      SumByIndexed(r[..|r| - 1], s[..|s| - 1]);
    }
  }
}
