/**
 * `donutDataProcess` in app/components/donut.jsx: the earlier donut, with
 * colleges in order of first appearance, unsorted and uncoloured.
 */
module DonutInOrder {
  import opened Seqs
  import opened Grouping
  import opened Rows

  /** The legend and the (college, awards) series. */
  datatype Donut = Donut(legend: seq<string>, series: seq<(string, nat)>)

  /** The distinct non-blank colleges (`new Set(data.map(d => d.GROUP1).filter(Boolean))`). */
  function Colleges(rows: seq<Row>): seq<string>
  {
    Dedup(Filter(NonBlank, Column(rows, Group1)))
  }

  function InCollege(c: string): Row -> bool { (r: Row) => r.group1 == c }

  /** A college's awards (`data.filter(d => d.GROUP1 === college).reduce(...)`). */
  function CollegeAwards(rows: seq<Row>, c: string): nat
  {
    SumBy(Filter(InCollege(c), rows), Awards)
  }

  /** `None` stands for input that is absent or not an array. */
  function Process(data: Option<seq<Row>>): Donut
  {
    match data
    case None => Donut([], [])
    case Some(rows) =>
      var cs := Colleges(rows);
      Donut(cs, seq(|cs|, i requires 0 <= i < |cs| => (cs[i], CollegeAwards(rows, cs[i]))))
  }

  /** Absent or malformed input gives an empty legend and an empty series. */
  lemma AbsentInput()
    ensures Process(None).legend == [] && Process(None).series == []
  {
  }

  /** Filtering a college's rows and summing gives the awards of the rows holding it. */
  lemma {:induction false} CollegeAwardsAreAwardsWhere(rows: seq<Row>, c: string)
    ensures CollegeAwards(rows, c) == AwardsWhere(rows, Group1, c)
  {
    if |rows| > 0 {
      var init := rows[..|rows| - 1];
      var last := rows[|rows| - 1];
      CollegeAwardsAreAwardsWhere(init, c);
      var fi := Filter(InCollege(c), init);
      if last.group1 == c {
        assert Filter(InCollege(c), rows) == fi + [last];
        assert (fi + [last])[..|fi|] == fi;
      } else {
        assert Filter(InCollege(c), rows) == fi;
      }
    }
  }

  /**
   * The legend and the series' names are the same list: each non-blank
   * college once, in the order the colleges first appear. No sorting happens.
   */
  lemma {:induction false} LegendIsColleges(rows: seq<Row>)
    ensures var d := Process(Some(rows)); var seen := Filter(NonBlank, Column(rows, Group1));
      && Map(Fst, d.series) == d.legend
      && Distinct(d.legend)
      && (forall c :: c in d.legend <==> c != "" && c in Column(rows, Group1))
      && (forall i, j :: 0 <= i < j < |d.legend| ==> IndexOf(seen, d.legend[i]) < IndexOf(seen, d.legend[j]))
  {
    var seen := Filter(NonBlank, Column(rows, Group1));
    DedupFirstAppearance(seen);
  }

  /** Each college carries the awards of its rows. */
  lemma {:induction false} SeriesValues(rows: seq<Row>)
    ensures var d := Process(Some(rows));
      forall k :: 0 <= k < |d.series| ==> d.series[k].1 == AwardsWhere(rows, Group1, d.series[k].0)
  {
    var d := Process(Some(rows));
    forall k | 0 <= k < |d.series| ensures d.series[k].1 == AwardsWhere(rows, Group1, d.series[k].0) {
      CollegeAwardsAreAwardsWhere(rows, d.series[k].0);
    }
  }

  lemma CollegeNonBlank(rows: seq<Row>, c: string)
    requires c in Colleges(rows)
    ensures c != ""
  {
    var f := Filter(NonBlank, Column(rows, Group1));
    var i :| 0 <= i < |f| && f[i] == c;
  }

  /** The series is the reference group-by of the rows with a college. */
  lemma {:induction false} SeriesIsGroupSum(rows: seq<Row>)
    ensures Process(Some(rows)).series == GroupSum(NonBlankPairs(rows, Group1))
  {
    var ps := NonBlankPairs(rows, Group1);
    var cs := Colleges(rows);
    var series := Process(Some(rows)).series;
    KeysOfNonBlankPairsInOrder(rows, Group1);
    assert Dedup(Keys(ps)) == cs;
    GroupSumAt(ps);
    forall k | 0 <= k < |cs| ensures series[k] == GroupSum(ps)[k] {
      CollegeAwardsAreAwardsWhere(rows, cs[k]);
      CollegeNonBlank(rows, cs[k]);
      TotalOfNonBlankPairs(rows, Group1, cs[k]);
    }
  }

  /** The series adds up to the awards of the rows with a college. */
  lemma {:induction false} SeriesSum(rows: seq<Row>)
    ensures Sum(Process(Some(rows)).series) == AwardsNonBlank(rows, Group1)
  {
    SeriesIsGroupSum(rows);
    GroupSumSum(NonBlankPairs(rows, Group1));
    SumOfNonBlankPairs(rows, Group1);
  }
}
