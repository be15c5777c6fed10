/**
 * What one level of the flow diagram holds, stated row by row and proved of
 * `Sankey.SortedLevel`: one record per category, each with the awards of
 * its rows and the parent named by its first row, sorted by total with ties
 * in first-appearance order, and together carrying all the level's awards.
 */
module SankeyLevels {
  import opened Seqs
  import opened Grouping
  import opened Sorting
  import opened Rows
  import opened Sankey

  /** Row `i` is the first whose column `f` holds `c`. */
  predicate IsFirst(rows: seq<Row>, f: Field, c: string, i: int)
  {
    0 <= i < |rows| && Get(rows[i], f) == c && forall k :: 0 <= k < i ==> Get(rows[k], f) != c
  }

  /**
   * The record the diagram should hold for a category at `level`: its id,
   * the awards of the rows in that category, and as parent the category one
   * level up of the category's first row (the root for level 1) together with
   * that parent's awards.
   */
  ghost predicate EntryFor(rows: seq<Row>, level: Level, e: Entry)
  {
    var c := StripLevel(e.name);
    && e.name == Id(c, level)
    && c in Column(rows, GroupField(level))
    && (level <= 2 || c != "")
    && e.degrees == AwardsWhere(rows, GroupField(level), c)
    && (level == 1 ==> e.parent == RootName && e.parentDegrees == TotalAwards(rows))
    && (level > 1 ==>
          exists i :: IsFirst(rows, GroupField(level), c, i)
            && e.parent == Id(Get(rows[i], GroupField(level - 1)), level - 1)
            && e.parentDegrees == AwardsWhere(rows, GroupField(level - 1), Get(rows[i], GroupField(level - 1))))
  }

  lemma StripId(c: string, level: Level)
    ensures StripLevel(Id(c, level)) == c
  {
    assert Id(c, level)[..|c|] == c;
  }

  /** Node ids are unambiguous: an id names one category at one level. */
  lemma IdInjective(a: string, la: Level, b: string, lb: Level)
    ensures Id(a, la) == Id(b, lb) <==> a == b && la == lb
  {
    if Id(a, la) == Id(b, lb) {
      StripId(a, la);
      StripId(b, lb);
      assert Id(a, la)[|a|] == Digit(la) && Id(b, lb)[|b|] == Digit(lb);
    }
  }

  /** The record built for a category is the one the rows call for. */
  lemma {:induction false} MakeEntrySound(rows: seq<Row>, level: Level, c: string)
    requires c in Column(rows, GroupField(level)) && (level <= 2 || c != "")
    ensures EntryFor(rows, level, MakeEntry(rows, level, c))
  {
    var f := GroupField(level);
    StripId(c, level);
    TotalOfPairs(rows, f, c);
    if level > 1 {
      var i := FirstRow(rows, level, c);
      var col := Column(rows, f);
      assert col[i] == c && c !in col[..i];
      assert forall k :: 0 <= k < i ==> Get(rows[k], f) == col[..i][k];
      assert IsFirst(rows, f, c, i);
      TotalOfPairs(rows, GroupField(level - 1), Get(rows[i], GroupField(level - 1)));
    }
  }

  /** Two records that both meet the description of the same id are the same record. */
  lemma EntryForUnique(rows: seq<Row>, level: Level, a: Entry, b: Entry)
    requires EntryFor(rows, level, a) && EntryFor(rows, level, b) && a.name == b.name
    ensures a == b
  {
    if level > 1 {
      var c := StripLevel(a.name);
      var f := GroupField(level);
      var g := GroupField(level - 1);
      var i :| IsFirst(rows, f, c, i) && a.parent == Id(Get(rows[i], g), level - 1)
        && a.parentDegrees == AwardsWhere(rows, g, Get(rows[i], g));
      var k :| IsFirst(rows, f, c, k) && b.parent == Id(Get(rows[k], g), level - 1)
        && b.parentDegrees == AwardsWhere(rows, g, Get(rows[k], g));
      assert !(i < k) && !(k < i);
    }
  }

  /** Every record of a level is the one its rows call for. */
  lemma {:induction false} LevelSound(rows: seq<Row>, level: Level)
    ensures forall e :: e in SortedLevel(rows, level) ==> EntryFor(rows, level, e)
  {
    var es := Entries(rows, level);
    var cs := Categories(rows, level);
    forall e | e in SortedLevel(rows, level) ensures EntryFor(rows, level, e) {
      assert e in multiset(es);
      var j :| 0 <= j < |es| && es[j] == e;
      MakeEntrySound(rows, level, cs[j]);
    }
  }

  /**
   * A level lists a category exactly when some row holds it in the level's
   * column, blanks excepted below level 2.
   */
  lemma {:induction false} LevelComplete(rows: seq<Row>, level: Level, c: string)
    ensures Id(c, level) in Names(SortedLevel(rows, level)) <==>
      c in Column(rows, GroupField(level)) && (level <= 2 || c != "")
  {
    var sorted := SortedLevel(rows, level);
    if c in Column(rows, GroupField(level)) && (level <= 2 || c != "") {
      var cs := Categories(rows, level);
      var j :| 0 <= j < |cs| && cs[j] == c;
      var e := Entries(rows, level)[j];
      assert e.name == Id(c, level);
      assert e in multiset(sorted);
      var k :| 0 <= k < |sorted| && sorted[k] == e;
      assert Names(sorted)[k] == Id(c, level);
    }
    if Id(c, level) in Names(sorted) {
      var k :| 0 <= k < |sorted| && Names(sorted)[k] == Id(c, level);
      LevelSound(rows, level);
      assert EntryFor(rows, level, sorted[k]);
      IdInjective(StripLevel(sorted[k].name), level, c, level);
    }
  }

  /** No category is listed twice on a level. */
  lemma {:induction false} LevelNamesDistinct(rows: seq<Row>, level: Level)
    ensures Distinct(Names(SortedLevel(rows, level)))
  {
    var es := Entries(rows, level);
    EntriesNamesDistinct(rows, level);
    SortDescDistinct(es, Degrees, Name);
  }

  lemma EntriesNamesDistinct(rows: seq<Row>, level: Level)
    ensures Distinct(Map(Name, Entries(rows, level)))
  {
    var cs := Categories(rows, level);
    var ns := Map(Name, Entries(rows, level));
    assert forall i :: 0 <= i < |cs| ==> ns[i] == Id(cs[i], level);
    forall i, j | 0 <= i < j < |cs| ensures ns[i] != ns[j] {
      IdInjective(cs[i], level, cs[j], level);
    }
  }

  /** Categories come in the order of their first row. */
  lemma {:induction false} CategoriesFirstAppearance(rows: seq<Row>, level: Level)
    ensures forall i, j :: 0 <= i < j < |Categories(rows, level)| ==>
      IndexOf(Column(rows, GroupField(level)), Categories(rows, level)[i])
        < IndexOf(Column(rows, GroupField(level)), Categories(rows, level)[j])
  {
    var col := Column(rows, GroupField(level));
    var d := Dedup(col);
    DedupFirstAppearance(col);
    if level > 2 {
      var idx := FilterEmbedding(NonBlank, d);
      var cs := Filter(NonBlank, d);
      forall i, j | 0 <= i < j < |cs| ensures IndexOf(col, cs[i]) < IndexOf(col, cs[j]) {
        assert cs[i] == d[idx[i]] && cs[j] == d[idx[j]] && idx[i] < idx[j];
      }
    }
  }

  /** The row where a record's category first appears in the level's column. */
  function FirstSeen(rows: seq<Row>, level: Level, e: Entry): int
  {
    IndexOf(Column(rows, GroupField(level)), StripLevel(e.name))
  }

  /**
   * A level is sorted by total, largest first, and categories with equal
   * totals keep the order of their first rows.
   */
  lemma {:induction false} LevelOrder(rows: seq<Row>, level: Level)
    ensures NonIncreasing(SortedLevel(rows, level), Degrees)
    ensures var l := SortedLevel(rows, level);
      forall i, j :: 0 <= i < j < |l| && l[i].degrees == l[j].degrees ==> FirstSeen(rows, level, l[i]) < FirstSeen(rows, level, l[j])
  {
    var rank := (e: Entry) => FirstSeen(rows, level, e);
    CategoriesFirstAppearance(rows, level);
    var cs := Categories(rows, level);
    var es := Entries(rows, level);
    forall i, j | 0 <= i < j < |es| ensures rank(es[i]) < rank(es[j]) {
      StripId(cs[i], level);
      StripId(cs[j], level);
    }
    SortDescTies(es, Degrees, rank);
  }

  /** A record as a (category, total) pair. */
  function EntryPair(e: Entry): (string, nat) { (StripLevel(e.name), e.degrees) }

  /** The (category, awards) pairs a level groups: every row at levels 1 and 2, the non-blank rows below. */
  function LevelPairs(rows: seq<Row>, level: Level): seq<(string, nat)>
  {
    if level <= 2 then Pairs(rows, GroupField(level)) else NonBlankPairs(rows, GroupField(level))
  }

  /** Before sorting, a level is the reference group-by of its pairs. */
  lemma {:induction false} EntriesAsGroups(rows: seq<Row>, level: Level)
    ensures Map(EntryPair, Entries(rows, level)) == GroupSum(LevelPairs(rows, level))
  {
    var f := GroupField(level);
    var ps := LevelPairs(rows, level);
    var cs := Categories(rows, level);
    assert Dedup(Keys(ps)) == cs by {
      if level > 2 {
        KeysOfNonBlankPairsInOrder(rows, f);
        DedupFilter(NonBlank, Column(rows, f));
      }
    }
    GroupSumAt(ps);
    forall j | 0 <= j < |cs|
      ensures EntryPair(Entries(rows, level)[j]) == GroupSum(ps)[j]
    {
      StripId(cs[j], level);
      if level > 2 {
        TotalOfPairs(rows, f, cs[j]);
        TotalOfNonBlankPairs(rows, f, cs[j]);
      }
    }
  }

  /**
   * A level's totals add up to all awards at levels 1 and 2, and to the
   * awards of the rows with a non-blank category below.
   */
  lemma {:induction false} LevelTotal(rows: seq<Row>, level: Level)
    ensures SumBy(SortedLevel(rows, level), Degrees)
      == if level <= 2 then TotalAwards(rows) else AwardsNonBlank(rows, GroupField(level))
  {
    var es := Entries(rows, level);
    SortDescSum(es, Degrees, Degrees);
    SumByMap(EntryPair, es, Degrees, Snd);
    EntriesAsGroups(rows, level);
    GroupSumSum(LevelPairs(rows, level));
    if level <= 2 {
      SumOfPairs(rows, GroupField(level));
    } else {
      SumOfNonBlankPairs(rows, GroupField(level));
    }
  }

  /** Where a category sits on its sorted level (`findIndex` by id), or -1. */
  function Position(rows: seq<Row>, level: Level, c: string): int
  {
    IndexOf(Names(SortedLevel(rows, level)), Id(c, level))
  }

  /**
   * A listed category's record, found by its id: its total, and for levels
   * below the first, the parent named by its first row `k`.
   */
  lemma {:induction false} RecordOf(rows: seq<Row>, level: Level, c: string) returns (k: nat)
    requires c in Column(rows, GroupField(level)) && (level <= 2 || c != "")
    ensures 0 <= Position(rows, level, c) < |SortedLevel(rows, level)|
    ensures SortedLevel(rows, level)[Position(rows, level, c)].name == Id(c, level)
    ensures SortedLevel(rows, level)[Position(rows, level, c)].degrees == AwardsWhere(rows, GroupField(level), c)
    ensures level == 1 ==> SortedLevel(rows, level)[Position(rows, level, c)].parent == RootName
    ensures level == 1 ==> SortedLevel(rows, level)[Position(rows, level, c)].parentDegrees == TotalAwards(rows)
    ensures level > 1 ==> IsFirst(rows, GroupField(level), c, k)
    ensures level > 1 ==>
      SortedLevel(rows, level)[Position(rows, level, c)].parent == Id(Get(rows[k], GroupField(level - 1)), level - 1)
    ensures level > 1 ==>
      SortedLevel(rows, level)[Position(rows, level, c)].parentDegrees
        == AwardsWhere(rows, GroupField(level - 1), Get(rows[k], GroupField(level - 1)))
  {
    LevelComplete(rows, level, c);
    var p := Position(rows, level, c);
    var e := SortedLevel(rows, level)[p];
    LevelSound(rows, level);
    assert EntryFor(rows, level, e);
    IdInjective(StripLevel(e.name), level, c, level);
    k := 0;
    if level > 1 {
      var g := GroupField(level - 1);
      k :| IsFirst(rows, GroupField(level), c, k) && e.parent == Id(Get(rows[k], g), level - 1)
        && e.parentDegrees == AwardsWhere(rows, g, Get(rows[k], g));
    }
  }
}
