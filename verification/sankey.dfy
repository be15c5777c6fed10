/**
 * `sankeyDataProcess` (app/components/sankey.jsx): the five-level flow
 * diagram. For each group level it sums awards per distinct category,
 * resolves each category's parent, sorts the level by total, colours level 1
 * by position and lets deeper levels copy their parent's colour, pushes very
 * wide levels one column deeper, and emits a root node, category nodes and
 * one link per category.
 */
module Sankey {
  import opened Seqs
  import opened Grouping
  import opened Sorting
  import opened Rows
  import opened Palette

  /** The five group levels, coarse to fine. */
  type Level = l: nat | 1 <= l <= 5 witness 1

  /** Name of the root node and parent of every level-1 category (with its trailing blank). */
  const RootName: string := "Total "

  /** A level with more entries than this is split over two columns. */
  const SplitWidth: nat := 100

  /** Labels show at most this many characters before an ellipsis. */
  const LabelWidth: nat := 23

  function GroupField(level: Level): Field
  {
    if level == 1 then Group1
    else if level == 2 then Group2
    else if level == 3 then Group3
    else if level == 4 then Group4
    else Group5
  }

  function Digit(level: Level): char { "012345"[level] }

  /** A node id: the category followed by its level digit (`groupOrder[i][j] + (i + 1)`). */
  function Id(category: string, level: Level): string { category + [Digit(level)] }

  /** The id without its final character (`name.slice(0, -1)`). */
  function StripLevel(id: string): string { if |id| == 0 then "" else id[..|id| - 1] }

  /** The node label (line 110): the category, cut to 23 characters plus "..." when longer. */
  function Label(id: string): string
  {
    var c := StripLevel(id);
    if |c| > LabelWidth then c[..LabelWidth] + "..." else c
  }

  /**
   * The categories of a level: the distinct values of its column in
   * first-appearance order; blanks are dropped at levels 3 to 5 only.
   */
  function Categories(rows: seq<Row>, level: Level): (r: seq<string>)
    ensures Distinct(r)
    ensures forall c :: c in r <==> c in Column(rows, GroupField(level)) && (level <= 2 || c != "")
  {
    var d := Dedup(Column(rows, GroupField(level)));
    if level <= 2 then d
    else
      FilterDistinct(NonBlank, d);
      Filter(NonBlank, d)
  }

  /** One category's record before sorting (`tempObj`). */
  datatype Entry = Entry(name: string, degrees: nat, parent: string, parentDegrees: nat)

  function Degrees(e: Entry): nat { e.degrees }
  function Name(e: Entry): string { e.name }
  function Names(level: seq<Entry>): seq<string> { Map(Name, level) }

  /** The index of the first row whose column at `level` holds `c`. */
  function FirstRow(rows: seq<Row>, level: Level, c: string): (i: nat)
    requires c in Column(rows, GroupField(level))
    ensures i < |rows|
  {
    IndexOf(Column(rows, GroupField(level)), c)
  }

  function MakeEntry(rows: seq<Row>, level: Level, c: string): Entry
    requires c in Column(rows, GroupField(level))
  {
    var degrees := Total(Pairs(rows, GroupField(level)), c);
    if level == 1 then Entry(Id(c, 1), degrees, RootName, TotalAwards(rows))
    else
      var p := Get(rows[FirstRow(rows, level, c)], GroupField(level - 1));
      Entry(Id(c, level), degrees, Id(p, level - 1), Total(Pairs(rows, GroupField(level - 1)), p))
  }

  /** The records of a level in category order. */
  function Entries(rows: seq<Row>, level: Level): (r: seq<Entry>)
    ensures |r| == |Categories(rows, level)|
  {
    var cs := Categories(rows, level);
    seq(|cs|, j requires 0 <= j < |cs| => MakeEntry(rows, level, cs[j]))
  }

  /** A level as the diagram lists it: entries stably sorted by total, largest first. */
  function SortedLevel(rows: seq<Row>, level: Level): seq<Entry>
  {
    SortDesc(Entries(rows, level), Degrees)
  }

  /** All five levels (`degreeDataByGroup`). */
  function Levels(rows: seq<Row>): (r: seq<seq<Entry>>)
    ensures |r| == 5
    ensures forall level: Level :: r[level - 1] == SortedLevel(rows, level)
  {
    seq(5, d requires 0 <= d < 5 => SortedLevel(rows, d + 1))
  }

  /**
   * The colours of one level below the first: each entry copies the colour of
   * the previous level's entry named like its parent, or is unresolved when
   * there is none (`findIndex` returning -1).
   */
  function Inherit(prev: seq<Entry>, prevColours: seq<Colour>, cur: seq<Entry>): (r: seq<Colour>)
    requires |prevColours| == |prev|
    ensures |r| == |cur|
  {
    seq(|cur|, j requires 0 <= j < |cur| =>
      var p := IndexOf(Names(prev), cur[j].parent);
      if p < 0 then Unresolved else prevColours[p])
  }

  /** The colour table (`tempColorsArr`), one list per level. */
  function ColourTable(levels: seq<seq<Entry>>): (r: seq<seq<Colour>>)
    requires |levels| == 5
    ensures |r| == 5 && forall d :: 0 <= d < 5 ==> |r[d]| == |levels[d]|
  {
    var c1 := Spread(|levels[0]|);
    var c2 := Inherit(levels[0], c1, levels[1]);
    var c3 := Inherit(levels[1], c2, levels[2]);
    var c4 := Inherit(levels[2], c3, levels[3]);
    var c5 := Inherit(levels[3], c4, levels[4]);
    [c1, c2, c3, c4, c5]
  }

  /**
   * One overflow step for `level` (lines 88-92): when the level has more than
   * 100 entries, its first 100 stay, the rest take the next column, the next
   * column's contents move one further, and that column's contents are lost.
   */
  function Split<T>(slots: seq<seq<T>>, level: nat): (r: seq<seq<T>>)
    requires |slots| == 5 && 1 <= level <= 3
    ensures |r| == 5
  {
    var d := level - 1;
    var g := slots[d];
    if |g| > SplitWidth then slots[d + 2 := slots[d + 1]][d + 1 := g[SplitWidth..]][d := g[..SplitWidth]]
    else slots
  }

  /** The overflow pass: levels 3, 2 and 1 in that order (the `forEach` over the reversed list). */
  function Spill<T>(slots: seq<seq<T>>): (r: seq<seq<T>>)
    requires |slots| == 5
    ensures |r| == 5
  {
    Split(Split(Split(slots, 3), 2), 1)
  }

  /** What the chart library receives for a node; `colour` is `None` where the source reads past a colour list. */
  datatype Node = Node(name: string, depth: nat, parentValue: nat, colour: Option<Colour>)

  datatype Link = Link(source: string, target: string, value: nat, parentValue: nat)

  datatype Chart = Chart(nodes: seq<Node>, links: seq<Link>)

  function Root(total: nat): Node { Node(RootName, 0, total, Some(RootGrey)) }

  /** The nodes of one column: slot entry j takes colour j of the same column's colour list. */
  function ColumnNodes(slot: seq<Entry>, colours: seq<Colour>, depth: nat): (r: seq<Node>)
    ensures |r| == |slot|
  {
    seq(|slot|, j requires 0 <= j < |slot| =>
      Node(slot[j].name, depth, slot[j].parentDegrees, if j < |colours| then Some(colours[j]) else None))
  }

  function Nodes(slots: seq<seq<Entry>>, colours: seq<seq<Colour>>, total: nat): seq<Node>
    requires |slots| == 5 && |colours| == 5
  {
    [Root(total)]
      + ColumnNodes(slots[0], colours[0], 1)
      + ColumnNodes(slots[1], colours[1], 2)
      + ColumnNodes(slots[2], colours[2], 3)
      + ColumnNodes(slots[3], colours[3], 4)
      + ColumnNodes(slots[4], colours[4], 5)
  }

  function LinkOf(e: Entry): Link { Link(e.parent, e.name, e.degrees, e.parentDegrees) }

  /** One link per entry of every (unshifted) level. */
  function Links(levels: seq<seq<Entry>>): seq<Link>
    requires |levels| == 5
  {
    Map(LinkOf, levels[0]) + Map(LinkOf, levels[1]) + Map(LinkOf, levels[2])
      + Map(LinkOf, levels[3]) + Map(LinkOf, levels[4])
  }

  /** `sankeyDataProcess`. */
  function Aggregate(rows: seq<Row>): Chart
  {
    var levels := Levels(rows);
    Chart(Nodes(Spill(levels), ColourTable(levels), TotalAwards(rows)), Links(levels))
  }
}
