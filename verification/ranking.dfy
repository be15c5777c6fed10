/**
 * The single-column charts' pipeline: a dictionary loop over the rows whose
 * column is not blank (`if (!key) continue; totals[key] = (totals[key] || 0) + awards`),
 * then `Object.entries` and a stable sort by total, largest first. The donut
 * chart runs it on GROUP1 and the bar chart on OUTCOME.
 */
module Ranking {
  import opened Seqs
  import opened Grouping
  import opened Sorting
  import opened Rows

  /** The (name, total) list the chart draws from. */
  function RankedTotals(rows: seq<Row>, f: Field): seq<(string, nat)>
  {
    SortDesc(Accumulate(NonBlankPairs(rows, f)), Snd)
  }

  lemma RankedIsSortedGroups(rows: seq<Row>, f: Field)
    ensures RankedTotals(rows, f) == SortDesc(GroupSum(NonBlankPairs(rows, f)), Snd)
  {
    AccumulateIsGroupSum(NonBlankPairs(rows, f));
  }

  /** Every listed name is non-blank and carries the awards of the rows holding it. */
  lemma {:induction false} RankedValues(rows: seq<Row>, f: Field)
    ensures forall k :: 0 <= k < |RankedTotals(rows, f)| ==>
      RankedTotals(rows, f)[k].0 != "" && RankedTotals(rows, f)[k].1 == AwardsWhere(rows, f, RankedTotals(rows, f)[k].0)
  {
    var g := GroupSum(NonBlankPairs(rows, f));
    RankedIsSortedGroups(rows, f);
    KeysOfNonBlankPairs(rows, f);
    var r := RankedTotals(rows, f);
    forall k | 0 <= k < |r| ensures r[k].0 != "" && r[k].1 == AwardsWhere(rows, f, r[k].0) {
      assert r[k] in multiset(g);
      GroupMember(NonBlankPairs(rows, f), r[k]);
      TotalOfNonBlankPairs(rows, f, r[k].0);
    }
  }

  /** A name is listed exactly when some row holds it, non-blank, and only once. */
  lemma {:induction false} RankedNames(rows: seq<Row>, f: Field)
    ensures forall c :: c in Keys(RankedTotals(rows, f)) <==> c != "" && c in Column(rows, f)
    ensures Distinct(Keys(RankedTotals(rows, f)))
  {
    var g := GroupSum(NonBlankPairs(rows, f));
    RankedIsSortedGroups(rows, f);
    KeysOfNonBlankPairs(rows, f);
    SortDescDistinct(g, Snd, Fst);
    KeysOfPermutation(RankedTotals(rows, f), g);
  }

  /**
   * Totals never increase along the list, and equal totals keep the order
   * in which their names first appear among the non-blank rows.
   */
  lemma {:induction false} RankedOrder(rows: seq<Row>, f: Field)
    ensures NonIncreasing(RankedTotals(rows, f), Snd)
    ensures var r := RankedTotals(rows, f); var seen := Filter(NonBlank, Column(rows, f));
      forall i, j :: 0 <= i < j < |r| && r[i].1 == r[j].1 ==> IndexOf(seen, r[i].0) < IndexOf(seen, r[j].0)
  {
    var ps := NonBlankPairs(rows, f);
    var g := GroupSum(ps);
    var seen := Filter(NonBlank, Column(rows, f));
    RankedIsSortedGroups(rows, f);
    KeysOfNonBlankPairsInOrder(rows, f);
    GroupSumAt(ps);
    assert Keys(g) == Dedup(seen);
    DedupFirstAppearance(seen);
    var rank := (p: (string, nat)) => IndexOf(seen, p.0);
    forall i, j | 0 <= i < j < |g| ensures rank(g[i]) < rank(g[j]) {
      assert g[i].0 == Dedup(seen)[i] && g[j].0 == Dedup(seen)[j];
    }
    SortDescTies(g, Snd, rank);
  }

  /** The totals add up to the awards of the rows whose column is not blank. */
  lemma {:induction false} RankedSum(rows: seq<Row>, f: Field)
    ensures Sum(RankedTotals(rows, f)) == AwardsNonBlank(rows, f)
  {
    var ps := NonBlankPairs(rows, f);
    RankedIsSortedGroups(rows, f);
    SortDescSum(GroupSum(ps), Snd, Snd);
    GroupSumSum(ps);
    SumOfNonBlankPairs(rows, f);
  }
}
