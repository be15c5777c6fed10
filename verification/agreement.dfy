/**
 * The donut chart and the flow diagram agree: when every row has a
 * college, the donut's slices are the diagram's level-1 entries, in the
 * same order, with the same totals and the same hues.
 */
module Agreement {
  import opened Seqs
  import opened Grouping
  import opened Sorting
  import opened Rows
  import opened Palette
  import opened Sankey
  import opened SankeyLevels
  import opened SankeyColours
  import opened Ranking
  import opened DonutRanked

  /**
   * When every row has a college, the ranked college totals are level 1 of
   * the flow diagram with the level digit stripped, in the same order.
   */
  lemma {:induction false} RankedIsLevelOne(rows: seq<Row>)
    requires forall i :: 0 <= i < |rows| ==> rows[i].group1 != ""
    ensures RankedTotals(rows, Group1) == Map(EntryPair, SortedLevel(rows, 1))
  {
    assert forall i :: 0 <= i < |rows| ==> Get(rows[i], Group1) != "";
    NonBlankPairsAll(rows, Group1);
    RankedIsSortedGroups(rows, Group1);
    EntriesAsGroups(rows, 1);
    SortDescMap(EntryPair, Entries(rows, 1), Degrees, Snd);
  }

  /** When every row has a college, slice j shows level-1 entry j: its category, its awards and its colour. */
  lemma {:induction false} DonutMatchesLevelOne(rows: seq<Row>)
    requires forall i :: 0 <= i < |rows| ==> rows[i].group1 != ""
    ensures var d := Process(Some(rows)); var l := SortedLevel(rows, 1);
      |d.series| == |l|
      && forall j :: 0 <= j < |l| ==>
           d.series[j] == Slice(StripLevel(l[j].name), l[j].degrees, LevelColours(rows, 1)[j])
  {
    RankedIsLevelOne(rows);
    SeriesAt(rows);
    var l := SortedLevel(rows, 1);
    forall j | 0 <= j < |l| ensures LevelColours(rows, 1)[j] == Hue(j, |l|) {
      TopLevelColours(rows, j);
    }
  }
}
