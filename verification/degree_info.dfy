/**
 * The summary panel of app/components/degreeInfo.tsx: the items of the bar
 * chart ranked by count, the three largest, and the totals per degree type
 * with the most common type.
 */
module DegreeInfo {
  import opened Seqs
  import opened Grouping
  import opened Sorting

  /** The type an item without a (non-empty) degree type is counted under. */
  const UnknownType: string := "Unknown"

  /** How many leading items the panel names. */
  const TopCount: nat := 3

  datatype Item = Item(name: string, value: nat, degreeType: Option<string>)

  function Value(it: Item): nat { it.value }
  function ItemName(it: Item): string { it.name }

  /** `item.degreeType || "Unknown"`: a missing or empty type reads as "Unknown". */
  function TypeOf(it: Item): string
  {
    if it.degreeType.Some? && it.degreeType.value != "" then it.degreeType.value else UnknownType
  }

  function TypePair(it: Item): (string, nat) { (TypeOf(it), it.value) }

  /** `sortedByCount`: a stable sort by value, largest first. */
  function SortedByCount(items: seq<Item>): seq<Item>
  {
    SortDesc(items, Value)
  }

  /** `topMajors`: the names of the first three sorted items (fewer when there are fewer). */
  function TopMajors(items: seq<Item>): seq<string>
  {
    var s := SortedByCount(items);
    Map(ItemName, s[..if |s| < TopCount then |s| else TopCount])
  }

  /** `topMajorsCount`: the sorted values. */
  function TopMajorsCount(items: seq<Item>): seq<nat>
  {
    Map(Value, SortedByCount(items))
  }

  /** `degreeTypeMap`: the per-type totals, types in first-appearance order. */
  function TypeTotals(items: seq<Item>): seq<(string, nat)>
  {
    Accumulate(Map(TypePair, items))
  }

  /** `sortedDegreeTypes`: the type totals stably sorted, largest first. */
  function SortedTypes(items: seq<Item>): seq<(string, nat)>
  {
    SortDesc(TypeTotals(items), Snd)
  }

  /** `sortedDegreeTypes[0]?.[0] || ""`. */
  function MostCommon(items: seq<Item>): string
  {
    var st := SortedTypes(items);
    if |st| == 0 || st[0].0 == "" then "" else st[0].0
  }

  function OfType(t: string): Item -> bool { (it: Item) => TypeOf(it) == t }

  /** The reference a type total is checked against: the values of the items of that type, summed. */
  function ValueOfType(items: seq<Item>, t: string): nat
  {
    SumBy(Filter(OfType(t), items), Value)
  }

  /**
   * The ranking is a permutation of the items, non-increasing by value, and
   * keeps items of equal value in input order; it is the only arrangement
   * with these properties.
   */
  lemma {:induction false} SortedByCountIsStableSort(items: seq<Item>, other: seq<Item>)
    ensures multiset(SortedByCount(items)) == multiset(items)
    ensures NonIncreasing(SortedByCount(items), Value)
    ensures forall v :: OfWeight(SortedByCount(items), Value, v) == OfWeight(items, Value, v)
    ensures NonIncreasing(other, Value) && (forall v :: OfWeight(other, Value, v) == OfWeight(items, Value, v))
      ==> other == SortedByCount(items)
  {
    forall v ensures OfWeight(SortedByCount(items), Value, v) == OfWeight(items, Value, v) {
      SortDescStable(items, Value, v);
    }
    if NonIncreasing(other, Value) && (forall v :: OfWeight(other, Value, v) == OfWeight(items, Value, v)) {
      StableSortUnique(other, SortedByCount(items), Value);
    }
  }

  /**
   * The panel names min(3, n) items, the largest ones in ranking order, and
   * no item left out has a larger value than one named; the count list is
   * the ranked values, a rearrangement of the item values.
   */
  lemma TopMajorsAreLargest(items: seq<Item>)
    ensures |TopMajors(items)| == if |items| < TopCount then |items| else TopCount
    ensures forall k :: 0 <= k < |TopMajors(items)| ==> TopMajors(items)[k] == SortedByCount(items)[k].name
    ensures forall k, j :: 0 <= k < |TopMajors(items)| <= j < |items| ==>
      SortedByCount(items)[j].value <= SortedByCount(items)[k].value
    ensures |TopMajorsCount(items)| == |items|
    ensures forall k :: 0 <= k < |items| ==> TopMajorsCount(items)[k] == SortedByCount(items)[k].value
    ensures multiset(TopMajorsCount(items)) == multiset(Map(Value, items))
  {
    SortDescMap(Value, items, Value, Identity);
  }

  function Identity(n: nat): nat { n }

  lemma {:induction false} ValueOfTypeIsTotal(items: seq<Item>, t: string)
    ensures Total(Map(TypePair, items), t) == ValueOfType(items, t)
  {
    if |items| > 0 {
      var init := items[..|items| - 1];
      var last := items[|items| - 1];
      ValueOfTypeIsTotal(init, t);
      assert Map(TypePair, items)[..|items| - 1] == Map(TypePair, init);
      var fi := Filter(OfType(t), init);
      if TypeOf(last) == t {
        assert (fi + [last])[..|fi|] == fi;
      }
    }
  }

  lemma {:induction false} KeysOfTypePairs(items: seq<Item>, t: string)
    ensures t in Keys(Map(TypePair, items)) <==> exists i :: 0 <= i < |items| && TypeOf(items[i]) == t
  {
    if t in Keys(Map(TypePair, items)) {
      var i :| 0 <= i < |items| && Keys(Map(TypePair, items))[i] == t;
    }
    if exists i :: 0 <= i < |items| && TypeOf(items[i]) == t {
      var i :| 0 <= i < |items| && TypeOf(items[i]) == t;
      assert Keys(Map(TypePair, items))[i] == t;
    }
  }

  /**
   * One total per type that occurs, each the sum of its items' values; an
   * "Unknown" total exists exactly when some item lacks a type; and the
   * totals add up to the sum of all values.
   */
  lemma {:induction false} TypeTotalsFacts(items: seq<Item>)
    ensures Distinct(Keys(TypeTotals(items)))
    ensures forall t :: t in Keys(TypeTotals(items)) <==> exists i :: 0 <= i < |items| && TypeOf(items[i]) == t
    ensures forall k :: 0 <= k < |TypeTotals(items)| ==>
      TypeTotals(items)[k].1 == ValueOfType(items, TypeTotals(items)[k].0)
    ensures UnknownType in Keys(TypeTotals(items)) <==>
      exists i :: 0 <= i < |items| && (items[i].degreeType == None || items[i].degreeType == Some("") || items[i].degreeType == Some(UnknownType))
    ensures Sum(TypeTotals(items)) == SumBy(items, Value)
  {
    var ps := Map(TypePair, items);
    AccumulateIsGroupSum(ps);
    forall t ensures t in Keys(TypeTotals(items)) <==> exists i :: 0 <= i < |items| && TypeOf(items[i]) == t {
      KeysOfTypePairs(items, t);
    }
    forall k | 0 <= k < |TypeTotals(items)| ensures TypeTotals(items)[k].1 == ValueOfType(items, TypeTotals(items)[k].0) {
      ValueOfTypeIsTotal(items, TypeTotals(items)[k].0);
    }
    AccumulateSum(ps);
    SumByMap(TypePair, items, Value, Snd);
  }

  /** No type is the empty text. */
  lemma TypesNonEmpty(items: seq<Item>)
    ensures "" !in Keys(TypeTotals(items))
  {
    TypeTotalsFacts(items);
  }

  /** The sorted type totals keep every type with its own total. */
  lemma {:induction false} SortedTypesFacts(items: seq<Item>)
    ensures forall t :: t in Keys(SortedTypes(items)) <==> exists i :: 0 <= i < |items| && TypeOf(items[i]) == t
    ensures forall j :: 0 <= j < |SortedTypes(items)| ==> SortedTypes(items)[j].1 == ValueOfType(items, SortedTypes(items)[j].0)
  {
    var tt := TypeTotals(items);
    var st := SortedTypes(items);
    TypeTotalsFacts(items);
    KeysOfPermutation(tt, st);
    forall j | 0 <= j < |st| ensures st[j].1 == ValueOfType(items, st[j].0) {
      assert st[j] in multiset(tt);
      var k :| 0 <= k < |tt| && tt[k] == st[j];
    }
  }

  /** A type that occurs totals no more than the head of the sorted totals. */
  lemma {:induction false} TypeAtMostHead(items: seq<Item>, i: nat)
    requires i < |items|
    ensures |SortedTypes(items)| > 0
    ensures ValueOfType(items, TypeOf(items[i])) <= SortedTypes(items)[0].1
  {
    var st := SortedTypes(items);
    SortedTypesFacts(items);
    var t := TypeOf(items[i]);
    assert t in Keys(st);
    var j :| 0 <= j < |st| && Keys(st)[j] == t;
    assert st[j].1 <= st[0].1;
  }

  /** With items, the most common type is the head of the sorted totals, a type that occurs. */
  lemma {:induction false} MostCommonIsHead(items: seq<Item>)
    requires |items| > 0
    ensures |SortedTypes(items)| > 0 && MostCommon(items) == SortedTypes(items)[0].0
    ensures SortedTypes(items)[0].1 == ValueOfType(items, MostCommon(items))
    ensures exists i :: 0 <= i < |items| && TypeOf(items[i]) == MostCommon(items)
  {
    var st := SortedTypes(items);
    SortedTypesFacts(items);
    TypeAtMostHead(items, 0);
    assert Keys(st)[0] == st[0].0;
    assert st[0].0 in Keys(SortedTypes(items));
    var i0 :| 0 <= i0 < |items| && TypeOf(items[i0]) == st[0].0;
    assert st[0].0 != "";
  }

  /**
   * The most common type is "" exactly when there are no items; otherwise
   * it is a type that occurs, and no type totals more.
   */
  lemma {:induction false} MostCommonIsLargest(items: seq<Item>)
    ensures MostCommon(items) == "" <==> |items| == 0
    ensures |items| > 0 ==> exists i :: 0 <= i < |items| && TypeOf(items[i]) == MostCommon(items)
    ensures forall i :: 0 <= i < |items| ==> ValueOfType(items, TypeOf(items[i])) <= ValueOfType(items, MostCommon(items))
  {
    if |items| > 0 {
      MostCommonIsHead(items);
      forall i | 0 <= i < |items| ensures ValueOfType(items, TypeOf(items[i])) <= ValueOfType(items, MostCommon(items)) {
        TypeAtMostHead(items, i);
      }
    } else {
      assert TypeTotals(items) == [];
    }
  }
}
