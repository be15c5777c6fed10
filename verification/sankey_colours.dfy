/**
 * Colour inheritance in the flow diagram: on rows that form a proper tree,
 * every category carries the hue of its level-1 ancestor, and a category
 * whose parent is missing from the level above gets the unresolved colour.
 */
module SankeyColours {
  import opened Seqs
  import opened Rows
  import opened Palette
  import opened Sankey
  import opened SankeyLevels

  /** Rows `i` and `k` hold the same category at `level`. */
  predicate SameCategory(rows: seq<Row>, level: Level, i: int, k: int)
  {
    0 <= i < |rows| && 0 <= k < |rows| && Get(rows[i], GroupField(level)) == Get(rows[k], GroupField(level))
  }

  /** Row `i` holds a non-blank category at `level`. */
  predicate Filled(rows: seq<Row>, level: Level, i: int)
  {
    0 <= i < |rows| && Get(rows[i], GroupField(level)) != ""
  }

  /**
   * Rows form a tree: a category below level 1 (blank ones at level 2
   * included) always sits under the same category one level up, and below
   * level 3 a non-blank category never sits under a blank one.
   */
  ghost predicate Hierarchical(rows: seq<Row>)
  {
    && (forall level: Level, i, k ::
          SameCategory(rows, level, i, k) && 2 <= level && (level == 2 || Filled(rows, level, i))
          ==> Get(rows[i], GroupField(level - 1)) == Get(rows[k], GroupField(level - 1)))
    && (forall level: Level, i :: Filled(rows, level, i) && 4 <= level ==> Filled(rows, level - 1, i))
  }

  /** The colours of one level, position by position. */
  function LevelColours(rows: seq<Row>, level: Level): (r: seq<Colour>)
    ensures |r| == |SortedLevel(rows, level)|
  {
    ColourTable(Levels(rows))[level - 1]
  }

  lemma LevelsAt(rows: seq<Row>, level: Level)
    ensures Levels(rows)[level - 1] == SortedLevel(rows, level)
  {
  }

  lemma ColourTableStep(levels: seq<seq<Entry>>, level: Level)
    requires |levels| == 5 && level > 1
    ensures ColourTable(levels)[level - 1] == Inherit(levels[level - 2], ColourTable(levels)[level - 2], levels[level - 1])
  {
  }

  /** The level-1 entry at position j of n has the j-th of n evenly spaced hues. */
  lemma {:induction false} TopLevelColours(rows: seq<Row>, j: nat)
    requires j < |SortedLevel(rows, 1)|
    ensures LevelColours(rows, 1)[j] == Hue(j, |SortedLevel(rows, 1)|)
  {
    LevelsAt(rows, 1);
  }

  /** A row's category one level up is the one every row of the same category has. */
  lemma SameParent(rows: seq<Row>, level: Level, i: nat, k: nat)
    requires Hierarchical(rows) && i < |rows| && k < |rows| && level > 1
    requires Get(rows[i], GroupField(level)) == Get(rows[k], GroupField(level))
    requires level == 2 || Get(rows[i], GroupField(level)) != ""
    ensures Get(rows[i], GroupField(level - 1)) == Get(rows[k], GroupField(level - 1))
  {
    assert SameCategory(rows, level, i, k);
    assert level == 2 || Filled(rows, level, i);
  }

  lemma NonBlankParent(rows: seq<Row>, level: Level, i: nat)
    requires Hierarchical(rows) && i < |rows| && level >= 4
    requires Get(rows[i], GroupField(level)) != ""
    ensures Get(rows[i], GroupField(level - 1)) != ""
  {
    assert Filled(rows, level, i);
    assert Filled(rows, level - 1, i);
  }

  /** A deeper entry's colour is that of the entry one level up with its parent's id, if any. */
  lemma {:induction false} InheritedColour(rows: seq<Row>, level: Level, j: nat)
    requires level > 1 && j < |SortedLevel(rows, level)|
    ensures var q := IndexOf(Names(SortedLevel(rows, level - 1)), SortedLevel(rows, level)[j].parent);
      LevelColours(rows, level)[j] == if q < 0 then Unresolved else LevelColours(rows, level - 1)[q]
  {
    LevelsAt(rows, level);
    LevelsAt(rows, level - 1);
    ColourTableStep(Levels(rows), level);
  }

  /** Category `c` is listed at `level` and drawn in colour `col`. */
  predicate ColouredAs(rows: seq<Row>, level: Level, c: string, col: Colour)
  {
    var p := Position(rows, level, c);
    0 <= p < |LevelColours(rows, level)| && LevelColours(rows, level)[p] == col
  }

  /** A row's category at a level has the colour of its category one level up. */
  lemma {:induction false} ParentColour(rows: seq<Row>, level: Level, i: nat, col: Colour)
    requires Hierarchical(rows) && i < |rows| && level > 1
    requires level <= 2 || Get(rows[i], GroupField(level)) != ""
    ensures ColouredAs(rows, level - 1, Get(rows[i], GroupField(level - 1)), col)
      ==> ColouredAs(rows, level, Get(rows[i], GroupField(level)), col)
  {
    var f := GroupField(level);
    var c := Get(rows[i], f);
    assert Column(rows, f)[i] == c;
    var k := RecordOf(rows, level, c);
    SameParent(rows, level, i, k);
    InheritedColour(rows, level, Position(rows, level, c));
  }

  /** A row's level-1 category is listed, with the hue of its position. */
  lemma {:induction false} TopCategoryColour(rows: seq<Row>, i: nat)
    requires i < |rows|
    ensures 0 <= Position(rows, 1, rows[i].group1)
    ensures ColouredAs(rows, 1, rows[i].group1, Hue(Position(rows, 1, rows[i].group1), |SortedLevel(rows, 1)|))
  {
    assert Column(rows, Group1)[i] == rows[i].group1;
    var k := RecordOf(rows, 1, rows[i].group1);
    TopLevelColours(rows, Position(rows, 1, rows[i].group1));
  }

  /**
   * On tree-shaped rows, the category a row holds at any level is listed
   * and coloured with the hue of the row's level-1 category.
   */
  lemma {:induction false} AncestorColour(rows: seq<Row>, level: Level, i: nat)
    requires Hierarchical(rows) && i < |rows|
    requires level <= 2 || Get(rows[i], GroupField(level)) != ""
    ensures 0 <= Position(rows, 1, rows[i].group1)
    ensures ColouredAs(rows, level, Get(rows[i], GroupField(level)), Hue(Position(rows, 1, rows[i].group1), |SortedLevel(rows, 1)|))
    decreases level
  {
    if level == 1 {
      TopCategoryColour(rows, i);
    } else {
      if level >= 4 {
        NonBlankParent(rows, level, i);
      }
      AncestorColour(rows, level - 1, i);
      ParentColour(rows, level, i, Hue(Position(rows, 1, rows[i].group1), |SortedLevel(rows, 1)|));
    }
  }

  /**
   * At levels 4 and 5, a category whose first row has a blank category one
   * level up points at a parent the level above does not list (levels 3
   * and 4 drop the blank), so it is drawn in the unresolved colour.
   */
  lemma {:induction false} BlankParentUnresolved(rows: seq<Row>, level: Level, k: nat)
    requires 4 <= level && k < |rows|
    requires IsFirst(rows, GroupField(level), Get(rows[k], GroupField(level)), k)
    requires Get(rows[k], GroupField(level)) != "" && Get(rows[k], GroupField(level - 1)) == ""
    ensures 0 <= Position(rows, level, Get(rows[k], GroupField(level)))
    ensures LevelColours(rows, level)[Position(rows, level, Get(rows[k], GroupField(level)))] == Unresolved
  {
    var f := GroupField(level);
    var c := Get(rows[k], f);
    assert Column(rows, f)[k] == c;
    var j := RecordOf(rows, level, c);
    assert !(j < k) && !(k < j);
    LevelComplete(rows, level - 1, "");
    InheritedColour(rows, level, Position(rows, level, c));
  }
}
