/**
 * The per-campus trend line of app/components/line-chart-school-trends.tsx:
 * awards per fiscal year for one campus, years ascending, plus the y-axis
 * bound and the initial position of the vertical marker.
 */
module Trends {
  import opened Seqs
  import opened Grouping
  import opened Rows

  predicate IsDigit(ch: char) { '0' <= ch <= '9' }

  /** The digits of a text, in order (`replace(/[^\d]/g, "")`). */
  function Digits(s: string): string { Filter(IsDigit, s) }

  /** The number a run of decimal digits denotes (`parseInt(d, 10)` on digits only). */
  function DigitsValue(d: string): nat
  {
    if |d| == 0 then 0
    else
      var v := d[|d| - 1] as int - '0' as int;
      DigitsValue(d[..|d| - 1]) * 10 + (if 0 <= v <= 9 then v else 0)
  }

  /** A FISCAL_YEAR text the chart can read: it holds at least one digit. */
  predicate Readable(fy: string) { |Digits(fy)| > 0 }

  /** The year key of a FISCAL_YEAR text: the number its digits spell. */
  function YearKey(fy: string): nat
    requires Readable(fy)
  {
    DigitsValue(Digits(fy))
  }

  /** Every row of the campus has a readable fiscal year. */
  predicate CampusReadable(rows: seq<Row>, campus: string)
  {
    forall r :: r in rows && r.campus == campus ==> Readable(r.fiscalYear)
  }

  function OnCampus(campus: string): Row -> bool { (r: Row) => r.campus == campus }

  /** The campus's rows as (year key, awards) pairs, in row order. */
  function YearPairs(rows: seq<Row>, campus: string): (ps: seq<(nat, nat)>)
    requires CampusReadable(rows, campus)
    ensures |ps| == |Filter(OnCampus(campus), rows)|
  {
    var cr := Filter(OnCampus(campus), rows);
    seq(|cr|, i requires 0 <= i < |cr| => (YearKey(cr[i].fiscalYear), cr[i].awards))
  }

  /** The per-year totals of the `reduce` into `acc[year]`. */
  function YearTotals(rows: seq<Row>, campus: string): seq<(nat, nat)>
    requires CampusReadable(rows, campus)
  {
    Accumulate(YearPairs(rows, campus))
  }

  /** `totals[year]`: the total stored under a year, 0 when there is none. */
  function Lookup(totals: seq<(nat, nat)>, year: nat): nat
  {
    var i := IndexOf(Keys(totals), year);
    if i < 0 then 0 else totals[i].1
  }

  function InsertAsc(k: nat, s: seq<nat>): seq<nat>
  {
    if |s| == 0 then [k]
    else if k <= s[0] then [k] + s
    else [s[0]] + InsertAsc(k, s[1..])
  }

  /** Ascending numeric sort (`sort((a, b) => a - b)`). */
  function SortAsc(s: seq<nat>): seq<nat>
  {
    if |s| == 0 then [] else InsertAsc(s[0], SortAsc(s[1..]))
  }

  predicate StrictlyIncreasing(s: seq<nat>)
  {
    forall i, j :: 0 <= i < j < |s| ==> s[i] < s[j]
  }

  /** The years (x) and their totals (y). */
  datatype Trend = Trend(x: seq<nat>, y: seq<nat>)

  function Series(rows: seq<Row>, campus: string): Trend
    requires CampusReadable(rows, campus)
  {
    var totals := YearTotals(rows, campus);
    var years := SortAsc(Keys(totals));
    Trend(years, Map(year => Lookup(totals, year), years))
  }

  /** `Math.max(...y)` on a non-empty list. */
  function YMax(y: seq<nat>): nat
    requires |y| > 0
  {
    if |y| == 1 then y[0]
    else
      var m := YMax(y[..|y| - 1]);
      if y[|y| - 1] > m then y[|y| - 1] else m
  }

  /** `Math.ceil(yMax / 1000) * 1000`. */
  function YAxisMax(m: nat): nat
  {
    ((m + 999) / 1000) * 1000
  }

  /** `x[Math.floor(x.length / 2)]`; `None` for an empty list, where the source reads `undefined`. */
  function InitialVLine(x: seq<nat>): Option<nat>
  {
    if |x| == 0 then None else Some(x[|x| / 2])
  }

  /** The awards of the campus's rows in a given year: the reference the totals are checked against. */
  function AwardsInYear(rows: seq<Row>, campus: string, year: nat): nat
  {
    if |rows| == 0 then 0
    else
      var last := rows[|rows| - 1];
      AwardsInYear(rows[..|rows| - 1], campus, year)
        + (if last.campus == campus && Readable(last.fiscalYear) && YearKey(last.fiscalYear) == year then last.awards else 0)
  }

  /** Row `r` belongs to the campus and its fiscal year reads as `year`. */
  predicate InYear(r: Row, campus: string, year: nat)
  {
    r.campus == campus && Readable(r.fiscalYear) && YearKey(r.fiscalYear) == year
  }

  /** The digit character for a value below ten. */
  function DigitChar(v: nat): char
    requires v < 10
  {
    "0123456789"[v]
  }

  /** The decimal rendering of a number, without leading zeros. */
  function Decimal(n: nat): string
  {
    if n < 10 then [DigitChar(n)] else Decimal(n / 10) + [DigitChar(n % 10)]
  }

  lemma DigitCharValue(v: nat)
    requires v < 10
    ensures IsDigit(DigitChar(v)) && DigitChar(v) as int - '0' as int == v
  {
    if v == 0 {} else if v == 1 {} else if v == 2 {} else if v == 3 {} else if v == 4 {}
    else if v == 5 {} else if v == 6 {} else if v == 7 {} else if v == 8 {} else {}
  }

  /** A decimal rendering consists of digits and reads back as its number. */
  lemma {:induction false} DecimalRoundTrip(n: nat)
    ensures |Decimal(n)| > 0
    ensures forall i :: 0 <= i < |Decimal(n)| ==> IsDigit(Decimal(n)[i])
    ensures DigitsValue(Decimal(n)) == n
  {
    if n < 10 {
      DigitCharValue(n);
      assert Decimal(n)[..0] == [];
    } else {
      DecimalRoundTrip(n / 10);
      DigitCharValue(n % 10);
      var d := Decimal(n / 10);
      assert (d + [DigitChar(n % 10)])[..|d|] == d;
    }
  }

  /** The digits of a digit-free prefix followed by a run of digits are that run. */
  lemma {:induction false} DigitsAfterPrefix(p: string, d: string)
    requires forall i :: 0 <= i < |p| ==> !IsDigit(p[i])
    requires forall i :: 0 <= i < |d| ==> IsDigit(d[i])
    ensures Digits(p + d) == d
  {
    if |d| == 0 {
      assert p + d == p;
      NoDigits(p);
    } else {
      var init := d[..|d| - 1];
      DigitsAfterPrefix(p, init);
      assert (p + d)[..|p + d| - 1] == p + init;
      assert init + [d[|d| - 1]] == d;
    }
  }

  /**
   * A fiscal-year text made of any digit-free prefix (such as
   * "Fiscal Year ") and the decimal rendering of a year reads as that year.
   */
  lemma {:induction false} YearKeyOfDecimal(p: string, year: nat)
    requires forall i :: 0 <= i < |p| ==> !IsDigit(p[i])
    ensures Readable(p + Decimal(year)) && YearKey(p + Decimal(year)) == year
  {
    DecimalRoundTrip(year);
    DigitsAfterPrefix(p, Decimal(year));
  }

  /** "Fiscal Year 2025" reads as 2025. */
  lemma YearKeyExample()
    ensures Readable("Fiscal Year 2025") && YearKey("Fiscal Year 2025") == 2025
  {
    DigitsOfExample();
    assert DigitsValue("2025") == 2025 by {
      assert "2025"[..3] == "202" && "202"[..2] == "20" && "20"[..1] == "2" && "2"[..0] == "";
    }
  }

  lemma DigitsOfExample()
    ensures Digits("Fiscal Year 2025") == "2025"
  {
    var s := "Fiscal Year 2025";
    assert Filter(IsDigit, s[..12]) == [] by {
      assert forall i :: 0 <= i < 12 ==> !IsDigit(s[..12][i]);
      NoDigits(s[..12]);
    }
    FilterSnoc(IsDigit, s[..12], '2');
    assert s[..13] == s[..12] + ['2'];
    FilterSnoc(IsDigit, s[..13], '0');
    assert s[..14] == s[..13] + ['0'];
    FilterSnoc(IsDigit, s[..14], '2');
    assert s[..15] == s[..14] + ['2'];
    FilterSnoc(IsDigit, s[..15], '5');
    assert s == s[..15] + ['5'];
  }

  lemma FilterSnoc<T>(p: T -> bool, s: seq<T>, x: T)
    ensures Filter(p, s + [x]) == Filter(p, s) + (if p(x) then [x] else [])
  {
    assert (s + [x])[..|s|] == s;
  }

  lemma {:induction false} NoDigits(s: string)
    requires forall i :: 0 <= i < |s| ==> !IsDigit(s[i])
    ensures Filter(IsDigit, s) == []
  {
    if |s| > 0 {
      NoDigits(s[..|s| - 1]);
    }
  }

  lemma {:induction false} YearPairsStep(rows: seq<Row>, campus: string)
    requires |rows| > 0 && CampusReadable(rows, campus)
    ensures CampusReadable(rows[..|rows| - 1], campus)
    ensures var last := rows[|rows| - 1];
      YearPairs(rows, campus) == YearPairs(rows[..|rows| - 1], campus)
        + (if last.campus == campus then [(YearKey(last.fiscalYear), last.awards)] else [])
  {
    var init := rows[..|rows| - 1];
    var last := rows[|rows| - 1];
    assert forall r :: r in init ==> r in rows;
    var fi := Filter(OnCampus(campus), init);
    if last.campus == campus {
      assert Filter(OnCampus(campus), rows) == fi + [last];
    } else {
      assert Filter(OnCampus(campus), rows) == fi;
    }
  }

  /** The total kept for a year is the awards of the campus's rows in that year. */
  lemma {:induction false} TotalOfYearPairs(rows: seq<Row>, campus: string, year: nat)
    requires CampusReadable(rows, campus)
    ensures Total(YearPairs(rows, campus), year) == AwardsInYear(rows, campus, year)
  {
    if |rows| > 0 {
      var init := rows[..|rows| - 1];
      var last := rows[|rows| - 1];
      YearPairsStep(rows, campus);
      TotalOfYearPairs(init, campus, year);
      if last.campus == campus {
        TotalStep(YearPairs(init, campus), (YearKey(last.fiscalYear), last.awards), year);
      } else {
        assert YearPairs(rows, campus) == YearPairs(init, campus) + [];
        assert YearPairs(init, campus) + [] == YearPairs(init, campus);
      }
    }
  }

  /** The campus's year keys are exactly the keys of its pairs. */
  lemma {:induction false} KeysOfYearPairs(rows: seq<Row>, campus: string, year: nat)
    requires CampusReadable(rows, campus)
    ensures year in Keys(YearPairs(rows, campus)) <==> exists i :: 0 <= i < |rows| && InYear(rows[i], campus, year)
  {
    if |rows| > 0 {
      var init := rows[..|rows| - 1];
      var last := rows[|rows| - 1];
      YearPairsStep(rows, campus);
      KeysOfYearPairs(init, campus, year);
      if last.campus == campus {
        KeysStep(YearPairs(init, campus), (YearKey(last.fiscalYear), last.awards));
      } else {
        assert YearPairs(rows, campus) == YearPairs(init, campus) + [];
        assert YearPairs(init, campus) + [] == YearPairs(init, campus);
      }
      if exists i :: 0 <= i < |rows| && InYear(rows[i], campus, year) {
        var i :| 0 <= i < |rows| && InYear(rows[i], campus, year);
        if i < |rows| - 1 {
          assert init[i] == rows[i];
        }
      }
      if exists i :: 0 <= i < |init| && InYear(init[i], campus, year) {
        var i :| 0 <= i < |init| && InYear(init[i], campus, year);
        assert rows[i] == init[i];
      }
    }
  }

  lemma {:induction false} InsertAscElements(k: nat, s: seq<nat>)
    ensures multiset(InsertAsc(k, s)) == multiset(s) + multiset{k}
    ensures |InsertAsc(k, s)| == |s| + 1
    ensures forall x :: x in InsertAsc(k, s) <==> x == k || x in s
  {
    if |s| > 0 {
      assert s == [s[0]] + s[1..];
      if k > s[0] {
        InsertAscElements(k, s[1..]);
      }
    }
  }

  lemma {:induction false} InsertAscStrict(k: nat, s: seq<nat>)
    requires StrictlyIncreasing(s) && k !in s
    ensures StrictlyIncreasing(InsertAsc(k, s))
  {
    if |s| > 0 && k > s[0] {
      assert s[0] in s;
      assert StrictlyIncreasing(s[1..]) by {
        forall i, j | 0 <= i < j < |s| - 1 ensures s[1..][i] < s[1..][j] {
          assert s[1..][i] == s[i + 1] && s[1..][j] == s[j + 1];
        }
      }
      assert k !in s[1..];
      InsertAscStrict(k, s[1..]);
      InsertAscElements(k, s[1..]);
      var rest := InsertAsc(k, s[1..]);
      forall i | 0 <= i < |rest| ensures s[0] < rest[i] {
        assert rest[i] in rest;
        if rest[i] != k {
          var j :| 0 <= j < |s| - 1 && s[1..][j] == rest[i];
          assert s[j + 1] == rest[i];
        }
      }
      assert InsertAsc(k, s) == [s[0]] + rest;
    }
  }

  /** The sort is a permutation, and puts distinct numbers in strictly increasing order. */
  lemma {:induction false} SortAscFacts(s: seq<nat>)
    ensures multiset(SortAsc(s)) == multiset(s) && |SortAsc(s)| == |s|
    ensures Distinct(s) ==> StrictlyIncreasing(SortAsc(s))
  {
    if |s| > 0 {
      SortAscFacts(s[1..]);
      InsertAscElements(s[0], SortAsc(s[1..]));
      assert s == [s[0]] + s[1..];
      if Distinct(s) {
        assert Distinct(s[1..]) by {
          forall i, j | 0 <= i < j < |s| - 1 ensures s[1..][i] != s[1..][j] {
            assert s[1..][i] == s[i + 1] && s[1..][j] == s[j + 1];
          }
        }
        assert s[0] !in multiset(s[1..]);
        InsertAscStrict(s[0], SortAsc(s[1..]));
      }
    }
  }

  /**
   * The years are strictly increasing, and a year is listed exactly when
   * some row of the campus falls in it.
   */
  lemma {:induction false} TrendYears(rows: seq<Row>, campus: string)
    requires CampusReadable(rows, campus)
    ensures StrictlyIncreasing(Series(rows, campus).x)
    ensures forall year :: year in Series(rows, campus).x <==> exists i :: 0 <= i < |rows| && InYear(rows[i], campus, year)
  {
    var ps := YearPairs(rows, campus);
    var totals := YearTotals(rows, campus);
    AccumulateIsGroupSum(ps);
    SortAscFacts(Keys(totals));
    var x := Series(rows, campus).x;
    forall year ensures year in x <==> exists i :: 0 <= i < |rows| && InYear(rows[i], campus, year) {
      assert year in x <==> year in multiset(Keys(totals));
      KeysOfYearPairs(rows, campus, year);
    }
  }

  /** The values line up with the years: y[k] is the campus's awards in year x[k]. */
  lemma {:induction false} TrendValues(rows: seq<Row>, campus: string)
    requires CampusReadable(rows, campus)
    ensures |Series(rows, campus).y| == |Series(rows, campus).x|
    ensures forall k :: 0 <= k < |Series(rows, campus).x| ==>
      Series(rows, campus).y[k] == AwardsInYear(rows, campus, Series(rows, campus).x[k])
  {
    var ps := YearPairs(rows, campus);
    var totals := YearTotals(rows, campus);
    AccumulateIsGroupSum(ps);
    SortAscFacts(Keys(totals));
    var t := Series(rows, campus);
    forall k | 0 <= k < |t.x| ensures t.y[k] == AwardsInYear(rows, campus, t.x[k]) {
      var year := t.x[k];
      assert year in multiset(Keys(totals));
      var i := IndexOf(Keys(totals), year);
      GroupMember(ps, totals[i]);
      TotalOfYearPairs(rows, campus, year);
    }
  }

  /** The maximum is one of the values and no value exceeds it. */
  lemma {:induction false} YMaxIsMax(y: seq<nat>)
    requires |y| > 0
    ensures YMax(y) in y
    ensures forall k :: 0 <= k < |y| ==> y[k] <= YMax(y)
  {
    if |y| > 1 {
      YMaxIsMax(y[..|y| - 1]);
    }
  }

  /** The axis bound is the least multiple of 1000 not below the maximum. */
  lemma YAxisMaxIsLeastMultiple(m: nat)
    ensures YAxisMax(m) % 1000 == 0
    ensures m <= YAxisMax(m) < m + 1000
  {
  }

  /**
   * On strictly increasing years, the initial marker sits at the median
   * year: exactly the first half (rounded down) of the years lie before it.
   */
  lemma InitialVLineIsMedian(x: seq<nat>)
    requires StrictlyIncreasing(x)
    ensures InitialVLine(x).Some? <==> |x| > 0
    ensures InitialVLine(x).Some? ==> forall i :: 0 <= i < |x| ==> (x[i] < InitialVLine(x).value <==> i < |x| / 2)
  {
  }
}
