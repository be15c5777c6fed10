/**
 * The dashboard panel of app/components/chart_group.tsx: the rows of one
 * campus and one fiscal year, which it hands to the flow diagram, with
 * "UH Manoa" and "Fiscal Year 2025" selected at start.
 */
module ChartGroup {
  import opened Seqs
  import opened Rows
  import opened Sankey

  /** The campus selected at start (`Campus.Manoa`). */
  const InitialCampus: string := "UH Manoa"

  /** The fiscal year selected at start (`Year.Y2025`). */
  const InitialYear: string := "Fiscal Year 2025"

  function Selected(campus: string, year: string): Row -> bool
  {
    (r: Row) => r.campus == campus && r.fiscalYear == year
  }

  /** `filteredData`: the rows of the chosen campus and fiscal year, in input order. */
  function FilterRows(rows: seq<Row>, campus: string, year: string): seq<Row>
  {
    Filter(Selected(campus, year), rows)
  }

  /**
   * Every kept row has the chosen campus and year, every input row that has
   * both is kept (as often as it occurs), and the kept rows keep their
   * input order.
   */
  lemma FilterRowsFacts(rows: seq<Row>, campus: string, year: string)
    ensures forall i :: 0 <= i < |FilterRows(rows, campus, year)| ==>
      FilterRows(rows, campus, year)[i].campus == campus && FilterRows(rows, campus, year)[i].fiscalYear == year
    ensures forall i :: 0 <= i < |rows| && rows[i].campus == campus && rows[i].fiscalYear == year ==>
      rows[i] in FilterRows(rows, campus, year)
    ensures |FilterRows(rows, campus, year)| == CountWhere(Selected(campus, year), rows)
    ensures IsSubsequence(FilterRows(rows, campus, year), rows)
  {
    FilterKeepsAll(Selected(campus, year), rows);
    FilterIsSubsequence(Selected(campus, year), rows);
  }

  /** The chart the panel shows before any selection changes. */
  function InitialChart(rows: seq<Row>): Chart
  {
    Aggregate(FilterRows(rows, InitialCampus, InitialYear))
  }

  /** At start only the 2025 rows of the Manoa campus reach the flow diagram. */
  lemma InitialChartRows(rows: seq<Row>)
    ensures forall r :: r in FilterRows(rows, InitialCampus, InitialYear) <==>
      r in rows && r.campus == "UH Manoa" && r.fiscalYear == "Fiscal Year 2025"
  {
  }
}
