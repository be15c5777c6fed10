# gradgraph chart aggregations in Dafny

gradgraph is a dashboard of University of Hawaiʻi degree awards. Every chart
starts from the same flat rows. Each row has a fiscal year, a campus, a CIP
code and description, five nested group levels (GROUP1 to GROUP5, college
down to programme), an outcome (degree type) and a number of awards.

This project models the pure aggregation functions behind the charts and
proves what they compute:

- **Flow diagram** (`sankeyDataProcess`). For each of the five levels, it
  lists one entry per distinct category. Each entry carries:
  - the category's awards;
  - its parent category one level up, and the parent's awards.

  Each level is stably sorted by awards, largest first. Level-1 categories
  get evenly spaced hues, and deeper categories copy their parent's hue.
  Levels 1 to 3 spill entries beyond the hundredth into the next column. The
  output is a root node, one node per entry and one link per entry.
- **Ranked donut** (`donut.tsx`): awards per college, largest first, with the
  same hues as level 1 of the flow diagram.
- **In-order donut** (`donut.jsx`): awards per college, colleges in
  first-appearance order.
- **Degree-type bar chart** (`infobox_bar_chart.tsx`): awards per outcome,
  largest first.
- **Campus trend line** (`line-chart-school-trends.tsx`), covering:
  - awards per fiscal year for one campus, years ascending;
  - the y-axis bound rounded up to a multiple of 1000;
  - the initial position of the vertical marker.
- **Summary panel** (`degreeInfo.tsx`), covering:
  - items ranked by count and the three largest;
  - totals per degree type, with missing types counted as "Unknown";
  - the most common type.
- **Dashboard filter** (`chart_group.tsx`): the rows of one campus and one
  fiscal year, with "UH Manoa" and "Fiscal Year 2025" selected at start.

Modules:

- **`Seqs`, `Grouping`, `Sorting`** hold the shared machinery:
  - `Grouping.GroupSum` is the reference group-by (distinct keys in
    first-appearance order, each with its total).
  - `Grouping.Accumulate` is the JavaScript dictionary loop
    (`acc[k] = (acc[k] || 0) + v`, then `Object.entries`). It is proved equal
    to `GroupSum`.
  - `Sorting.SortDesc` is the stable descending sort behind every ranked list: the flow-diagram levels, the ranked donut, the bar chart and the summary panel. The trend line sorts its years ascending (`Trends.SortAsc`), and the in-order donut does not sort.
- **`Rows`** is the row record.
- **`Palette`** keeps a colour symbolic: the i-th of n hues, the unresolved
  colour, or the root's grey.
- **`Ranking`** is the "sum per non-blank key, then sort" shared by the
  ranked donut and the bar chart.
- **The flow diagram** is split over four modules:
  - `Sankey`: the computation;
  - `SankeyLevels`: the entries of each level against an independent
    description (`EntryFor`);
  - `SankeyColours`: colour inheritance;
  - `SankeyLayout`: nodes, links and the overflow shift.
- **`Agreement`** proves that the ranked donut agrees with level 1 of the
  flow diagram.

## Model

| member | source | states |
|---|---|---|
| Grouping.AccumulateIsGroupSum | app/components/donut.tsx:34-47 | The dictionary loop followed by `Object.entries` yields exactly the reference group-by. That is, each distinct key once, in first-appearance order, with the sum of its amounts. |
| Grouping.DedupFirstAppearance | app/components/sankey.jsx:9-13 | `[...new Set(...)]` lists each value before every value that first appears later. |
| Grouping.AccumulateSum | app/components/donut.tsx:36-42 | The per-key totals add up to the sum of all amounts. |
| Sorting.SortDescStable | app/components/sankey.jsx:48-56 | The descending sort keeps items of equal weight in their input order. |
| Sorting.StableSortUnique | app/components/sankey.jsx:48-56 | At most one arrangement is non-increasing and keeps equal-weight items in input order. So the sort's result is fully determined. |
| Sorting.SortDescTies | app/components/sankey.jsx:48-56 | When a rank increases along the input, the sorted list orders equal weights by that rank. |
| Sorting.SortDescSum | app/components/donut.tsx:45-47 | Sorting does not change any sum over the items. |
| Rows.TotalOfPairs | app/components/sankey.jsx:29-31 | The total kept for a category is the awards of the rows holding it. |
| Rows.TotalOfNonBlankPairs | app/components/donut.tsx:36-42 | Skipping blank keys leaves the total of every non-blank key unchanged. |
| Rows.SumOfNonBlankPairs | app/components/donut.tsx:36-42 | The kept pairs add up to the awards of the rows with a non-blank key. |
| Sankey.Categories | app/components/sankey.jsx:9-13 | A level's categories have no repeats. A value is listed exactly when some row holds it, except that levels 3 to 5 drop the blank one. |
| SankeyLevels.MakeEntrySound | app/components/sankey.jsx:27-40 | Each record meets the independent description `EntryFor`. It carries the level's id, and degrees equal to the awards of the category's rows. For level 1, the parent is "Total " with the awards of all rows. For deeper levels, the parent is the first such row's category one level up, with that parent's awards. |
| SankeyLevels.EntryForUnique | app/components/sankey.jsx:27-40 | The description fixes a record completely once its name is known. |
| SankeyLevels.IdInjective | app/components/sankey.jsx:28 | Two ids are equal exactly when category and level are. |
| SankeyLevels.StripId | app/components/sankey.jsx:110 | Cutting the last character off an id gives back the category. |
| SankeyLevels.LevelSound | app/components/sankey.jsx:18-58 | Every entry of a sorted level meets the description. |
| SankeyLevels.LevelComplete | app/components/sankey.jsx:9-13 | A level lists the id of a category exactly when some row holds the category, blank excluded below level 2. |
| SankeyLevels.LevelNamesDistinct | app/components/sankey.jsx:18-46 | No id appears twice in a level. |
| SankeyLevels.CategoriesFirstAppearance | app/components/sankey.jsx:9-13 | Categories are listed in the order their first rows appear. |
| SankeyLevels.LevelOrder | app/components/sankey.jsx:48-56 | A level is non-increasing by degrees. Entries with equal degrees keep the order of their categories' first rows. |
| SankeyLevels.EntriesAsGroups | app/components/sankey.jsx:18-46 | The entries of a level, read as (category, degrees), are the reference group-by of the level's column. |
| SankeyLevels.LevelTotal | app/components/sankey.jsx:16 | Levels 1 and 2 each add up to all awards. Levels 3 to 5 each add up to the awards of the rows with a non-blank category there. |
| SankeyLevels.RecordOf | app/components/sankey.jsx:27-40 | For any category a row holds, there is a position in its sorted level. Its entry carries the right id and degrees. Its parent and parent awards are the root and all awards at level 1, and the first row's category one level up otherwise. |
| SankeyColours.TopLevelColours | app/components/sankey.jsx:66-71 | The level-1 entry at position j of n has the j-th of n evenly spaced hues. |
| SankeyColours.InheritedColour | app/components/sankey.jsx:73-83 | A deeper entry copies the colour of the entry one level up named like its parent, or is unresolved when there is none. |
| SankeyColours.ParentColour | app/components/sankey.jsx:73-83 | On tree-shaped rows, a row's category has the colour of the row's category one level up. |
| SankeyColours.AncestorColour | app/components/sankey.jsx:64-83 | On tree-shaped rows, the category a row holds at any level is coloured with the hue of the row's level-1 category. |
| SankeyColours.BlankParentUnresolved | app/components/sankey.jsx:73-83 | At levels 4 and 5, consider a category whose first row is blank one level up. Its parent is missing from that level, so it gets the unresolved colour. |
| SankeyLayout.SpillNoOverflow | app/components/sankey.jsx:85-94 | When levels 1 to 3 have at most 100 entries each, the overflow pass changes nothing, however long levels 4 and 5 are. |
| SankeyLayout.SplitWide | app/components/sankey.jsx:88-92 | A wide level keeps exactly its first 100 entries. Entries 101 onwards form the next column, and that column's former contents move unchanged one column further. Nothing of these two columns is lost or reordered, the column two further is overwritten, and the other columns are untouched. |
| SankeyLayout.SpillMovesRight | app/components/sankey.jsx:85-94 | The overflow pass only moves entries to deeper columns. |
| SankeyLayout.RootNode | app/components/sankey.jsx:96-101 | The first node is "Total " at depth 0 in the root grey. Its parent value (`parent_value`) is the awards of all rows. |
| SankeyLayout.NodeOfRow | app/components/sankey.jsx:102-114 | Take tree-shaped rows without overflow and any category a row holds. Its node sits at depth = level, with its parent's awards and the hue of the row's level-1 category. |
| SankeyLayout.NodeOfCategory | app/components/sankey.jsx:102-114 | Take any rows without overflow and any category a row holds. Its node sits at depth = level. Its parent value is the awards of the category's first row's parent (all awards at level 1). Its colour is the one its level assigns to its position. |
| SankeyLayout.SharedBlankMerges | app/components/sankey.jsx:27-37 | Two colleges whose rows both leave level 2 blank share one level-2 category. Its link runs from the first row's college, carrying both rows' awards (8) against that college's alone (3). |
| SankeyLayout.LinkOfRow | app/components/sankey.jsx:115-122 | On tree-shaped rows, any category a row holds has a link from the row's category one level up. The link carries the category's awards and the parent's, whatever the overflow. |
| SankeyLayout.LinksSound | app/components/sankey.jsx:115-122 | Every link is the record of some level's entry. |
| SankeyLayout.LinkCount | app/components/sankey.jsx:115-122 | There is one link per category of every level. |
| SankeyLayout.NodeCount | app/components/sankey.jsx:96-114 | Without overflow there is one node per link, plus the root. |
| SankeyLayout.AggregateEmpty | app/components/sankey.jsx:96-124 | No rows gives the root alone, with parent value 0, and no links. |
| SankeyLayout.LabelOfId | app/components/sankey.jsx:110 | A label is the category, cut to 23 characters plus "..." when longer, so never more than 26. |
| Ranking.RankedValues | app/components/infobox_bar_chart.tsx:30-36 | Each ranked total names a non-blank key and carries the awards of the rows holding it. |
| Ranking.RankedNames | app/components/infobox_bar_chart.tsx:30-40 | A key is ranked exactly when some row holds it non-blank, and only once. |
| Ranking.RankedOrder | app/components/infobox_bar_chart.tsx:38-40 | Totals are non-increasing. Ties keep the first-appearance order of their keys. |
| Ranking.RankedSum | app/components/infobox_bar_chart.tsx:30-40 | The totals add up to the awards of the rows with a non-blank key. |
| DonutRanked.AbsentInput | app/components/donut.tsx:29-32 | Absent input gives an empty legend and an empty series. |
| DonutRanked.LegendAndColours | app/components/donut.tsx:50-66 | The legend is the slice names in order. The slice at position k of n has the k-th of n evenly spaced hues. |
| DonutRanked.SliceValues | app/components/donut.tsx:36-42 | Each slice is a non-blank college with the awards of its rows. A college has a slice exactly when some row holds it, and only one. |
| DonutRanked.SliceOrder | app/components/donut.tsx:45-47 | Slices come largest first. Ties keep the colleges' first-appearance order. |
| DonutRanked.SliceSum | app/components/donut.tsx:36-47 | The slices add up to the awards of the rows with a college. |
| Agreement.RankedIsLevelOne | app/components/donut.tsx:34-47 | When every row has a college, the ranked totals are level 1 of the flow diagram, category by category and in the same order. |
| Agreement.DonutMatchesLevelOne | app/components/donut.tsx:49-61 | When every row has a college, slice j has the name, awards and colour of level-1 entry j of the flow diagram. |
| BarChart.BarValues | app/components/infobox_bar_chart.tsx:27-45 | The axes are aligned. Each bar is a non-blank outcome carrying the awards of its rows, and every outcome held by some row has exactly one bar. |
| BarChart.BarOrderAndSum | app/components/infobox_bar_chart.tsx:38-43 | Values never increase along the axis. Ties keep first-appearance order, and the values add up to the awards of the rows with an outcome. |
| DonutInOrder.AbsentInput | app/components/donut.jsx:7-9 | Absent input gives an empty legend and an empty series. |
| DonutInOrder.CollegeAwardsAreAwardsWhere | app/components/donut.jsx:16-18 | A college's value is the awards of the rows holding it. |
| DonutInOrder.LegendIsColleges | app/components/donut.jsx:11-29 | The legend is the series' names. It lists each non-blank college once, in first-appearance order. |
| DonutInOrder.SeriesValues | app/components/donut.jsx:15-24 | Each entry carries the awards of its college's rows. |
| DonutInOrder.SeriesIsGroupSum | app/components/donut.jsx:11-24 | The series is the reference group-by of the non-blank colleges. |
| DonutInOrder.SeriesSum | app/components/donut.jsx:15-24 | The series adds up to the awards of the rows with a college. |
| Trends.YearKeyOfDecimal | app/components/line-chart-school-trends.tsx:45 | A fiscal-year text made of any digit-free prefix (such as "Fiscal Year ") followed by a year written in decimal reads as that year, for every year. |
| Trends.DecimalRoundTrip | app/components/line-chart-school-trends.tsx:45 | A decimal rendering consists only of digits, and reading it back gives the number. |
| Trends.YearKeyExample | app/components/line-chart-school-trends.tsx:45 | "Fiscal Year 2025" reads as the year 2025. |
| Trends.TotalOfYearPairs | app/components/line-chart-school-trends.tsx:40-48 | The total kept for a year is the awards of that campus's rows in that year. |
| Trends.SortAscFacts | app/components/line-chart-school-trends.tsx:50-53 | The numeric sort is a permutation, and it puts distinct years in strictly increasing order. |
| Trends.TrendYears | app/components/line-chart-school-trends.tsx:40-53 | The years are strictly increasing. A year is listed exactly when some row of the campus falls in it. |
| Trends.TrendValues | app/components/line-chart-school-trends.tsx:55 | The value list lines up with the years. Entry k is the campus's awards in year k. |
| Trends.YMaxIsMax | app/components/line-chart-school-trends.tsx:56 | The maximum is one of the values and no value exceeds it. |
| Trends.YAxisMaxIsLeastMultiple | app/components/line-chart-school-trends.tsx:66 | The axis bound is the least multiple of 1000 not below the maximum. |
| Trends.InitialVLineIsMedian | app/components/line-chart-school-trends.tsx:69 | The marker is absent only without years. Otherwise exactly the first half of the years, rounded down, lie before it. |
| DegreeInfo.SortedByCountIsStableSort | app/components/degreeInfo.tsx:28 | The ranking is a permutation of the items, non-increasing by value, and equal values stay in input order. It is the only arrangement with those properties. |
| DegreeInfo.TopMajorsAreLargest | app/components/degreeInfo.tsx:29-30 | The panel names min(3, n) items in ranking order, and no unnamed item has a larger value. The count list is the ranked values, a rearrangement of the item values. |
| DegreeInfo.TypeTotalsFacts | app/components/degreeInfo.tsx:33-37 | There is one total per type that occurs, each the sum of its items' values. "Unknown" appears exactly when some item has no type or names it. The totals add up to all values. |
| DegreeInfo.MostCommonIsLargest | app/components/degreeInfo.tsx:39-40 | The most common type is "" exactly when there are no items. Otherwise it is a type that occurs and no type totals more. |
| ChartGroup.FilterRowsFacts | app/components/chart_group.tsx:55 | Every kept row has the chosen campus and year, and every matching row is kept. The count equals the number of matches, and the kept rows keep their input order. |
| ChartGroup.InitialChartRows | app/components/chart_group.tsx:53-55 | At start, the flow diagram receives exactly the "UH Manoa" rows of "Fiscal Year 2025". |

## Left out

**Rendering and outside the modelled computations**

- The rendering and state plumbing is not modelled. That covers React hooks, ECharts and Plotly setup, option objects, event handlers and tooltip HTML. These only display the computed data.
- `app/SankeyAndDonutSync.jsx`, `app/components/infobox.jsx`, `app/components/infobox.tsx`, `app/page.tsx` and `app/layout.tsx` are not part of this model. They fetch data, lay out the page and forward clicks; they compute nothing the charts draw.
- The percentage in the summary panel (`toFixed(3)` of a floating-point ratio) is not modelled. It is floating-point formatting only.
- Absent input to the flow diagram, the bar chart and the trend line is not modelled; rows are always a sequence. In the source, `sankeyDataProcess` (sankey.jsx line 9, `data.map`), `barChartDataProcess` (infobox_bar_chart.tsx line 30, `for..of`) and the trend memo (line-chart-school-trends.tsx line 40, `filter`) throw on undefined data. Only the two donuts guard against it, and that guard is modelled.
- The flow diagram's CIP description per category (`tempCategory`, sankey.jsx lines 24-26 and 41-43) is not modelled. It is only attached to the record for display.

**Numbers and colours**

- Colours are symbolic. The hue values are floating-point HSL-to-RGB conversions done by d3. `Unresolved` stands for what d3 renders when the parent's colour is undefined.
- Awards are natural numbers. `parseInt` or `Number` of a malformed AWARDS text is not modelled; the source adds NaN or skips it as 0.
- Trends.YearKey: requires at least one digit in the fiscal year. Trends.TotalOfYearPairs, Trends.TrendYears and Trends.TrendValues inherit this as `CampusReadable`: every row of the campus has a digit in its fiscal year. The source produces a NaN year otherwise, and sorting with NaN is unspecified. The digits are read as an exact integer, without JavaScript's rounding beyond 2^53.
- Trends.YMax: requires a non-empty list. `Math.max()` of nothing is -Infinity in the source.
- Trends.TrendValues: assumes AWARDS is a number, as the component's row type declares. Line 46 adds `row.AWARDS` without `Number` or `parseInt`. Rows whose AWARDS arrived as text (as `d3.csv` delivers it) would be concatenated as strings rather than added. The flow diagram and the other charts convert explicitly.
- SankeyLayout.LabelOfId: counts characters as Unicode scalar values. JavaScript's `length` and `slice` count UTF-16 code units, so a category with characters outside the Basic Multilingual Plane is cut at a different point in the source, possibly inside a surrogate pair.

**Ordering and layout**

- Grouping.Accumulate: keys keep first-appearance order. JavaScript's `Object.entries` lists integer-like keys (such as "2020") first, in numeric order. Colleges, outcomes and degree types are names, so the model uses insertion order throughout. Keys are also assumed not to be names of `Object.prototype` members. The source's `{}` accumulators (declared at donut.tsx line 34, infobox_bar_chart.tsx line 28 and degreeInfo.tsx line 33, and added to at lines 41, 35 and 36) inherit those names: a key "__proto__" is never stored, and for a key such as "constructor" `acc[k] || 0` is an inherited function, so `+` joins strings.
- DegreeInfo.TypeTotalsFacts: assumes item values are whole counts (`nat`). degreeInfo.tsx line 12 declares `value: number`, so fractional or negative values, and floating-point rounding in the sums, are not modelled.
- SankeyLayout.NodeOfRow: requires rows that form a tree (`Hierarchical`) for the level-1 hue. SankeyLayout.NodeOfCategory states depth, parent value and colour for any rows. Both state node colours only when no level overflows. After an overflow shift, nodes of a shifted column take colours by position from the colour list of the column they land in. The model computes that, but no property about it is stated.
- SankeyColours.AncestorColour: requires rows that form a tree (`Hierarchical`). On other rows a category takes the colour of its first row's parent, which the model also computes.
- SankeyLayout.LinkOfRow: requires rows that form a tree (`Hierarchical`), so that every row of a category names the same parent. On other rows the link's source is the parent of the category's first row; SankeyLevels.RecordOf states that for any rows.

**Behaviour of the code worth noting**

- The root node and the level-1 parent are named "Total " with a trailing space.
- Blank categories are kept at levels 1 and 2 and dropped at levels 3 to 5.
- Entries with equal totals keep their first-appearance order (a stable sort).
- A shared blank category merges across parents. When rows under two colleges both leave level 2 blank, there is one level-2 entry with both rows' awards. Its parent and parent value come from the first row's college alone (SankeyLayout.SharedBlankMerges).
