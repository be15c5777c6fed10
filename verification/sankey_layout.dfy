/**
 * The node and link lists of the flow diagram: the overflow shift, where
 * each row's category ends up as a node and as a link, and the labels.
 */
module SankeyLayout {
  import opened Seqs
  import opened Rows
  import opened Palette
  import opened Sankey
  import opened SankeyLevels
  import opened SankeyColours

  /** No level that can be split (1 to 3) has more than 100 entries. */
  predicate NoOverflow<T>(slots: seq<seq<T>>)
    requires |slots| == 5
  {
    forall d :: 0 <= d < 3 ==> |slots[d]| <= SplitWidth
  }

  /** Without a wide level among 1 to 3 the shift changes nothing, however wide levels 4 and 5 are. */
  lemma SpillNoOverflow<T>(slots: seq<seq<T>>)
    requires |slots| == 5 && NoOverflow(slots)
    ensures Spill(slots) == slots
  {
    assert |slots[2]| <= SplitWidth && |slots[1]| <= SplitWidth && |slots[0]| <= SplitWidth;
  }

  /**
   * Splitting a wide level keeps its first 100 entries in place and reads
   * on, column by column, through the rest of it and then the next level:
   * nothing of these two is lost or reordered. The columns before are
   * untouched; the column two further is overwritten.
   */
  lemma SplitWide<T>(slots: seq<seq<T>>, level: nat)
    requires |slots| == 5 && 1 <= level <= 3 && |slots[level - 1]| > SplitWidth
    ensures var r := Split(slots, level); var d := level - 1;
      && |r[d]| == SplitWidth
      && r[d] + r[d + 1] + r[d + 2] == slots[d] + slots[d + 1]
      && r[d] == slots[d][..SplitWidth] && r[d + 1] == slots[d][SplitWidth..] && r[d + 2] == slots[d + 1]
      && (forall e :: 0 <= e < 5 && (e < d || d + 2 < e) ==> r[e] == slots[e])
  {
    var d := level - 1;
    assert slots[d][..SplitWidth] + slots[d][SplitWidth..] == slots[d];
  }

  /** Every element of column `d` of `b` sits in column `d` or an earlier one of `a`. */
  ghost predicate MovesRight<T>(a: seq<seq<T>>, b: seq<seq<T>>)
    requires |a| == 5 && |b| == 5
  {
    forall d, x :: 0 <= d < 5 && x in b[d] ==> exists e :: 0 <= e <= d && x in a[e]
  }

  lemma SplitMovesRight<T>(slots: seq<seq<T>>, level: nat)
    requires |slots| == 5 && 1 <= level <= 3
    ensures MovesRight(slots, Split(slots, level))
  {
    var r := Split(slots, level);
    var d := level - 1;
    if |slots[d]| > SplitWidth {
      forall c, x | 0 <= c < 5 && x in r[c] ensures exists e :: 0 <= e <= c && x in slots[e] {
        if c == d {
          assert x in slots[d];
        } else if c == d + 1 {
          assert x in slots[d];
        } else if c == d + 2 {
          assert x in slots[d + 1];
        } else {
          assert x in slots[c];
        }
      }
    } else {
      forall c, x | 0 <= c < 5 && x in r[c] ensures exists e :: 0 <= e <= c && x in slots[e] {
        assert x in slots[c];
      }
    }
  }

  lemma MovesRightTrans<T>(a: seq<seq<T>>, b: seq<seq<T>>, c: seq<seq<T>>)
    requires |a| == 5 && |b| == 5 && |c| == 5
    requires MovesRight(a, b) && MovesRight(b, c)
    ensures MovesRight(a, c)
  {
    forall d, x | 0 <= d < 5 && x in c[d] ensures exists e :: 0 <= e <= d && x in a[e] {
      var e :| 0 <= e <= d && x in b[e];
      var f :| 0 <= f <= e && x in a[f];
    }
  }

  /** The shift only moves entries deeper: a node's depth is never less than its level. */
  lemma {:induction false} SpillMovesRight<T>(slots: seq<seq<T>>)
    requires |slots| == 5
    ensures MovesRight(slots, Spill(slots))
  {
    var s3 := Split(slots, 3);
    var s2 := Split(s3, 2);
    SplitMovesRight(slots, 3);
    SplitMovesRight(s3, 2);
    SplitMovesRight(s2, 1);
    MovesRightTrans(slots, s3, s2);
    MovesRightTrans(slots, s2, Spill(slots));
  }

  lemma ColumnInNodes(slots: seq<seq<Entry>>, colours: seq<seq<Colour>>, total: nat, d: nat, j: nat)
    requires |slots| == 5 && |colours| == 5 && d < 5 && j < |slots[d]|
    ensures ColumnNodes(slots[d], colours[d], d + 1)[j] in Nodes(slots, colours, total)
  {
    var x := ColumnNodes(slots[d], colours[d], d + 1)[j];
    assert x in ColumnNodes(slots[d], colours[d], d + 1);
  }

  /** The awards of a row's category one level up; all awards for level 1. */
  function ParentAwards(rows: seq<Row>, level: Level, i: nat): nat
    requires i < |rows|
  {
    if level == 1 then TotalAwards(rows) else AwardsWhere(rows, GroupField(level - 1), Get(rows[i], GroupField(level - 1)))
  }

  /** The id of a row's category one level up; the root for level 1. */
  function ParentId(rows: seq<Row>, level: Level, i: nat): string
    requires i < |rows|
  {
    if level == 1 then RootName else Id(Get(rows[i], GroupField(level - 1)), level - 1)
  }

  /** The root node is first and carries all awards. */
  lemma RootNode(rows: seq<Row>)
    ensures Aggregate(rows).nodes[0] == Node(RootName, 0, TotalAwards(rows), Some(RootGrey))
  {
  }

  /**
   * Without overflow, on tree-shaped rows, each category a row holds is a
   * node at the depth of its level, valued against its parent, in the hue
   * of the row's level-1 category.
   */
  lemma {:induction false} NodeOfRow(rows: seq<Row>, level: Level, i: nat)
    requires Hierarchical(rows) && i < |rows| && NoOverflow(Levels(rows))
    requires level <= 2 || Get(rows[i], GroupField(level)) != ""
    ensures 0 <= Position(rows, 1, rows[i].group1)
    ensures Node(Id(Get(rows[i], GroupField(level)), level), level, ParentAwards(rows, level, i),
                 Some(Hue(Position(rows, 1, rows[i].group1), |SortedLevel(rows, 1)|)))
      in Aggregate(rows).nodes
  {
    var c := Get(rows[i], GroupField(level));
    assert Column(rows, GroupField(level))[i] == c;
    var k := RecordOf(rows, level, c);
    if level > 1 {
      SameParent(rows, level, i, k);
    }
    AncestorColour(rows, level, i);
    var p := Position(rows, level, c);
    assert ColouredAs(rows, level, c, Hue(Position(rows, 1, rows[i].group1), |SortedLevel(rows, 1)|));
    var e := SortedLevel(rows, level)[p];
    assert e.parentDegrees == ParentAwards(rows, level, i);
    var levels := Levels(rows);
    SpillNoOverflow(levels);
    LevelsAt(rows, level);
    NodeInNodes(levels, ColourTable(levels), TotalAwards(rows), level - 1, p);
  }

  /**
   * Without overflow, on any rows, each category a row holds is a node at
   * the depth of its level, valued against the parent of the category's
   * first row, in the colour its level assigns to its position.
   */
  lemma {:induction false} NodeOfCategory(rows: seq<Row>, level: Level, c: string) returns (k: nat)
    requires NoOverflow(Levels(rows))
    requires c in Column(rows, GroupField(level)) && (level <= 2 || c != "")
    ensures 0 <= Position(rows, level, c) < |SortedLevel(rows, level)|
    ensures level > 1 ==> IsFirst(rows, GroupField(level), c, k)
    ensures Node(Id(c, level), level,
                 if level == 1 then TotalAwards(rows) else AwardsWhere(rows, GroupField(level - 1), Get(rows[k], GroupField(level - 1))),
                 Some(LevelColours(rows, level)[Position(rows, level, c)]))
      in Aggregate(rows).nodes
  {
    k := RecordOf(rows, level, c);
    var p := Position(rows, level, c);
    var levels := Levels(rows);
    SpillNoOverflow(levels);
    LevelsAt(rows, level);
    NodeInNodes(levels, ColourTable(levels), TotalAwards(rows), level - 1, p);
  }

  lemma NodeInNodes(slots: seq<seq<Entry>>, colours: seq<seq<Colour>>, total: nat, d: nat, j: nat)
    requires |slots| == 5 && |colours| == 5 && d < 5 && j < |slots[d]| && j < |colours[d]|
    ensures Node(slots[d][j].name, d + 1, slots[d][j].parentDegrees, Some(colours[d][j])) in Nodes(slots, colours, total)
  {
    ColumnInNodes(slots, colours, total, d, j);
  }

  /**
   * On tree-shaped rows, each category a row holds has its link from its
   * parent, carrying the category's awards and the parent's; overflow plays
   * no part.
   */
  lemma {:induction false} LinkOfRow(rows: seq<Row>, level: Level, i: nat)
    requires Hierarchical(rows) && i < |rows|
    requires level <= 2 || Get(rows[i], GroupField(level)) != ""
    ensures Link(ParentId(rows, level, i), Id(Get(rows[i], GroupField(level)), level),
                 AwardsWhere(rows, GroupField(level), Get(rows[i], GroupField(level))), ParentAwards(rows, level, i))
      in Aggregate(rows).links
  {
    var c := Get(rows[i], GroupField(level));
    assert Column(rows, GroupField(level))[i] == c;
    var k := RecordOf(rows, level, c);
    if level > 1 {
      SameParent(rows, level, i, k);
    }
    var e := SortedLevel(rows, level)[Position(rows, level, c)];
    assert LinkOf(e) == Link(ParentId(rows, level, i), Id(c, level), AwardsWhere(rows, GroupField(level), c), ParentAwards(rows, level, i));
    LevelsAt(rows, level);
    LinkInLinks(Levels(rows), level - 1, Position(rows, level, c));
  }

  /**
   * Two colleges whose rows both leave the department blank share one
   * level-2 category "" (id "2"). It holds the awards of both rows, but its
   * parent is the first row's college, with that college's awards alone.
   */
  lemma {:induction false} SharedBlankMerges()
    ensures var rows := [Row("FY", "C", "", "", "A", "", "", "", "", "", 3),
                         Row("FY", "C", "", "", "B", "", "", "", "", "", 5)];
            Link("A1", "2", 8, 3) in Aggregate(rows).links
  {
    var rows := [Row("FY", "C", "", "", "A", "", "", "", "", "", 3),
                 Row("FY", "C", "", "", "B", "", "", "", "", "", 5)];
    assert Column(rows, GroupField(2))[0] == "";
    var k := RecordOf(rows, 2, "");
    assert k == 0;
    var e := SortedLevel(rows, 2)[Position(rows, 2, "")];
    assert rows[..1][..0] == [];
    assert AwardsWhere(rows, GroupField(2), "") == 8;
    assert AwardsWhere(rows, GroupField(1), "A") == 3;
    assert LinkOf(e) == Link("A1", "2", 8, 3);
    LevelsAt(rows, 2);
    LinkInLinks(Levels(rows), 1, Position(rows, 2, ""));
  }

  lemma LinkInLinks(levels: seq<seq<Entry>>, d: nat, j: nat)
    requires |levels| == 5 && d < 5 && j < |levels[d]|
    ensures LinkOf(levels[d][j]) in Links(levels)
  {
    assert LinkOf(levels[d][j]) == Map(LinkOf, levels[d])[j];
  }

  lemma LinkSource(levels: seq<seq<Entry>>, l: Link) returns (d: nat, j: nat)
    requires |levels| == 5 && l in Links(levels)
    ensures d < 5 && j < |levels[d]| && l == LinkOf(levels[d][j])
  {
    var m := Map(LinkOf, levels[0]) + Map(LinkOf, levels[1]) + Map(LinkOf, levels[2]) + Map(LinkOf, levels[3]);
    if l in m {
      var m3 := Map(LinkOf, levels[0]) + Map(LinkOf, levels[1]) + Map(LinkOf, levels[2]);
      if l in m3 {
        var m2 := Map(LinkOf, levels[0]) + Map(LinkOf, levels[1]);
        if l in m2 {
          d := if l in Map(LinkOf, levels[0]) then 0 else 1;
        } else {
          d := 2;
        }
      } else {
        d := 3;
      }
    } else {
      d := 4;
    }
    j :| 0 <= j < |levels[d]| && Map(LinkOf, levels[d])[j] == l;
  }

  /** The record a link draws, read back. */
  function LinkEntry(l: Link): Entry { Entry(l.target, l.value, l.source, l.parentValue) }

  /** Every link is the record of some category at some level, overflow or not. */
  lemma {:induction false} LinksSound(rows: seq<Row>)
    ensures forall l :: l in Aggregate(rows).links ==> exists level: Level :: EntryFor(rows, level, LinkEntry(l))
  {
    forall l | l in Aggregate(rows).links ensures exists level: Level :: EntryFor(rows, level, LinkEntry(l)) {
      var d, j := LinkSource(Levels(rows), l);
      var level: Level := d + 1;
      LevelsAt(rows, level);
      LevelSound(rows, level);
      assert LinkEntry(l) == SortedLevel(rows, level)[j];
      assert EntryFor(rows, level, LinkEntry(l));
    }
  }

  /** There are exactly as many links as categories over the five levels. */
  lemma LinkCount(rows: seq<Row>)
    ensures |Aggregate(rows).links|
      == |Categories(rows, 1)| + |Categories(rows, 2)| + |Categories(rows, 3)| + |Categories(rows, 4)| + |Categories(rows, 5)|
  {
  }

  /** Without overflow there is one node per link, plus the root. */
  lemma NodeCount(rows: seq<Row>)
    requires NoOverflow(Levels(rows))
    ensures |Aggregate(rows).nodes| == |Aggregate(rows).links| + 1
  {
    SpillNoOverflow(Levels(rows));
  }

  lemma EmptyLevels()
    ensures Levels([]) == [[], [], [], [], []]
  {
    forall level: Level ensures SortedLevel([], level) == [] {
      assert Column([], GroupField(level)) == [];
      assert |Categories([], level)| == 0;
    }
  }

  lemma EmptyColumns(colours: seq<seq<Colour>>, total: nat)
    requires |colours| == 5
    ensures Nodes([[], [], [], [], []], colours, total) == [Root(total)]
    ensures Links([[], [], [], [], []]) == []
  {
  }

  /** No rows: the root alone, valued 0, and no links. */
  lemma AggregateEmpty()
    ensures Aggregate([]) == Chart([Node(RootName, 0, 0, Some(RootGrey))], [])
  {
    EmptyLevels();
    var levels := Levels([]);
    SpillNoOverflow(levels);
    EmptyColumns(ColourTable(levels), 0);
  }

  /**
   * A label is the category of the id, whole up to 23 characters, otherwise
   * its first 23 followed by "...".
   */
  lemma LabelOfId(c: string, level: Level)
    ensures |c| <= LabelWidth ==> Label(Id(c, level)) == c
    ensures |c| > LabelWidth ==> Label(Id(c, level)) == c[..LabelWidth] + "..."
    ensures |Label(Id(c, level))| <= LabelWidth + 3
  {
    StripId(c, level);
  }
}
