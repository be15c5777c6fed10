/**
 * The degree-award record (one CSV row of the open-data set) and the sums
 * over rows that the charts' contracts are stated in.
 */
module Rows {
  import opened Seqs
  import opened Grouping

  /**
   * One record. Awards are a natural number: the source's `parseInt` /
   * `Number(...) || 0` coercions of the text column are not modelled.
   */
  datatype Row = Row(
    fiscalYear: string,
    campus: string,
    cip: string,
    cipDesc: string,
    group1: string,
    group2: string,
    group3: string,
    group4: string,
    group5: string,
    outcome: string,
    awards: nat)

  /** A text column a chart groups or filters by. */
  datatype Field = Group1 | Group2 | Group3 | Group4 | Group5 | Outcome | Campus | FiscalYear

  function Get(r: Row, f: Field): string
  {
    match f
    case Group1 => r.group1
    case Group2 => r.group2
    case Group3 => r.group3
    case Group4 => r.group4
    case Group5 => r.group5
    case Outcome => r.outcome
    case Campus => r.campus
    case FiscalYear => r.fiscalYear
  }

  function Awards(r: Row): nat { r.awards }

  /** A column value the blank-skipping charts keep (`!= ""`). */
  predicate NonBlank(s: string) { s != "" }

  /** The awards of all rows (`totalDegrees`). */
  function TotalAwards(rows: seq<Row>): nat { SumBy(rows, Awards) }

  /** The awards of the rows whose column `f` holds `v`. */
  function AwardsWhere(rows: seq<Row>, f: Field, v: string): nat
  {
    if |rows| == 0 then 0
    else
      var last := rows[|rows| - 1];
      AwardsWhere(rows[..|rows| - 1], f, v) + (if Get(last, f) == v then last.awards else 0)
  }

  /** The awards of the rows whose column `f` is not blank. */
  function AwardsNonBlank(rows: seq<Row>, f: Field): nat
  {
    if |rows| == 0 then 0
    else
      var last := rows[|rows| - 1];
      AwardsNonBlank(rows[..|rows| - 1], f) + (if Get(last, f) != "" then last.awards else 0)
  }

  /** The column `f` of every row, in row order. */
  function Column(rows: seq<Row>, f: Field): seq<string>
  {
    seq(|rows|, i requires 0 <= i < |rows| => Get(rows[i], f))
  }

  /** Every row as a (column `f`, awards) pair. */
  function Pairs(rows: seq<Row>, f: Field): (ps: seq<(string, nat)>)
    ensures Keys(ps) == Column(rows, f)
  {
    seq(|rows|, i requires 0 <= i < |rows| => (Get(rows[i], f), rows[i].awards))
  }

  /** The (column `f`, awards) pairs of the rows whose `f` is not blank; the others are skipped. */
  function NonBlankPairs(rows: seq<Row>, f: Field): seq<(string, nat)>
  {
    if |rows| == 0 then []
    else
      var last := rows[|rows| - 1];
      NonBlankPairs(rows[..|rows| - 1], f) + (if Get(last, f) != "" then [(Get(last, f), last.awards)] else [])
  }

  lemma PairsStep(rows: seq<Row>, f: Field)
    requires |rows| > 0
    ensures Pairs(rows, f) == Pairs(rows[..|rows| - 1], f) + [(Get(rows[|rows| - 1], f), rows[|rows| - 1].awards)]
  {
  }

  /** Grouping the pairs totals exactly the awards of the matching rows. */
  lemma {:induction false} TotalOfPairs(rows: seq<Row>, f: Field, v: string)
    ensures Total(Pairs(rows, f), v) == AwardsWhere(rows, f, v)
  {
    if |rows| > 0 {
      TotalOfPairs(rows[..|rows| - 1], f, v);
      PairsStep(rows, f);
      TotalStep(Pairs(rows[..|rows| - 1], f), (Get(rows[|rows| - 1], f), rows[|rows| - 1].awards), v);
    }
  }

  /** The pairs carry all the awards. */
  lemma {:induction false} SumOfPairs(rows: seq<Row>, f: Field)
    ensures Sum(Pairs(rows, f)) == TotalAwards(rows)
  {
    if |rows| > 0 {
      SumOfPairs(rows[..|rows| - 1], f);
      PairsStep(rows, f);
    }
  }

  /** Skipping blank rows keeps every non-blank value's total. */
  lemma {:induction false} TotalOfNonBlankPairs(rows: seq<Row>, f: Field, v: string)
    requires v != ""
    ensures Total(NonBlankPairs(rows, f), v) == AwardsWhere(rows, f, v)
  {
    if |rows| > 0 {
      var init := rows[..|rows| - 1];
      var last := rows[|rows| - 1];
      TotalOfNonBlankPairs(init, f, v);
      assert AwardsWhere(rows, f, v) == AwardsWhere(init, f, v) + (if Get(last, f) == v then last.awards else 0);
      if Get(last, f) != "" {
        NonBlankKept(rows, f);
        TotalStep(NonBlankPairs(init, f), (Get(last, f), last.awards), v);
      } else {
        BlankSkipped(rows, f);
      }
    }
  }

  /** The non-blank pairs carry the awards of the non-blank rows. */
  lemma {:induction false} SumOfNonBlankPairs(rows: seq<Row>, f: Field)
    ensures Sum(NonBlankPairs(rows, f)) == AwardsNonBlank(rows, f)
  {
    if |rows| > 0 {
      var init := rows[..|rows| - 1];
      SumOfNonBlankPairs(init, f);
      var last := rows[|rows| - 1];
      if Get(last, f) != "" {
        var q := [(Get(last, f), last.awards)];
        assert (NonBlankPairs(init, f) + q)[..|NonBlankPairs(init, f)|] == NonBlankPairs(init, f);
      } else {
        BlankSkipped(rows, f);
      }
    }
  }

  /** The non-blank pairs' keys are exactly the non-blank values of the column. */
  lemma {:induction false} KeysOfNonBlankPairs(rows: seq<Row>, f: Field)
    ensures forall k :: k in Keys(NonBlankPairs(rows, f)) <==> k != "" && k in Column(rows, f)
  {
    if |rows| > 0 {
      var init := rows[..|rows| - 1];
      var last := rows[|rows| - 1];
      KeysOfNonBlankPairs(init, f);
      assert Column(rows, f) == Column(init, f) + [Get(last, f)];
      if Get(last, f) != "" {
        KeysStep(NonBlankPairs(init, f), (Get(last, f), last.awards));
      } else {
        BlankSkipped(rows, f);
      }
    }
  }

  lemma NonBlankKept(rows: seq<Row>, f: Field)
    requires |rows| > 0 && Get(rows[|rows| - 1], f) != ""
    ensures NonBlankPairs(rows, f) == NonBlankPairs(rows[..|rows| - 1], f) + [(Get(rows[|rows| - 1], f), rows[|rows| - 1].awards)]
  {
  }

  lemma BlankSkipped(rows: seq<Row>, f: Field)
    requires |rows| > 0 && Get(rows[|rows| - 1], f) == ""
    ensures NonBlankPairs(rows, f) == NonBlankPairs(rows[..|rows| - 1], f)
  {
    var init := NonBlankPairs(rows[..|rows| - 1], f);
    assert NonBlankPairs(rows, f) == init + [];
    assert init + [] == init;
  }

  /** With no blank in column `f`, skipping blanks skips nothing. */
  lemma {:induction false} NonBlankPairsAll(rows: seq<Row>, f: Field)
    requires forall i :: 0 <= i < |rows| ==> Get(rows[i], f) != ""
    ensures NonBlankPairs(rows, f) == Pairs(rows, f)
  {
    if |rows| > 0 {
      NonBlankPairsAll(rows[..|rows| - 1], f);
      PairsStep(rows, f);
    }
  }

  /** With no blank in column `f`, the non-blank awards are all the awards. */
  lemma {:induction false} AwardsNonBlankAll(rows: seq<Row>, f: Field)
    requires forall i :: 0 <= i < |rows| ==> Get(rows[i], f) != ""
    ensures AwardsNonBlank(rows, f) == TotalAwards(rows)
  {
    if |rows| > 0 {
      AwardsNonBlankAll(rows[..|rows| - 1], f);
    }
  }

  /** The non-blank pairs' keys are the column with its blanks filtered out, in order. */
  lemma {:induction false} KeysOfNonBlankPairsInOrder(rows: seq<Row>, f: Field)
    ensures Keys(NonBlankPairs(rows, f)) == Filter(NonBlank, Column(rows, f))
  {
    if |rows| > 0 {
      var init := rows[..|rows| - 1];
      var last := rows[|rows| - 1];
      KeysOfNonBlankPairsInOrder(init, f);
      assert Column(rows, f)[..|rows| - 1] == Column(init, f);
      if Get(last, f) != "" {
        NonBlankKept(rows, f);
        KeysStep(NonBlankPairs(init, f), (Get(last, f), last.awards));
      } else {
        BlankSkipped(rows, f);
      }
    }
  }
}
