/**
 * The stable descending sort every chart applies to its groups
 * (`sort((a, b) => b.value - a.value)` and its three-way spelling in the
 * flow diagram). JavaScript's `Array.prototype.sort` is stable, and a stable
 * sort's result is unique (`StableSortUnique`), so an insertion sort models it.
 */
module Sorting {
  import opened Seqs

  /** Weights never increase from left to right. */
  predicate NonIncreasing<T>(s: seq<T>, w: T -> nat)
  {
    forall i, j :: 0 <= i < j < |s| ==> w(s[i]) >= w(s[j])
  }

  /** The elements of weight `v`, in order: what a stable sort must not reorder. */
  function OfWeight<T>(s: seq<T>, w: T -> nat, v: nat): seq<T>
  {
    if |s| == 0 then []
    else (if w(s[0]) == v then [s[0]] else []) + OfWeight(s[1..], w, v)
  }

  /** Puts `x` in front of the first element that is not heavier than it. */
  function Insert<T>(x: T, s: seq<T>, w: T -> nat): seq<T>
  {
    if |s| == 0 then [x]
    else if w(s[0]) <= w(x) then [x] + s
    else [s[0]] + Insert(x, s[1..], w)
  }

  /** Insertion adds exactly `x`. */
  lemma {:induction false} InsertMultiset<T>(x: T, s: seq<T>, w: T -> nat)
    ensures |Insert(x, s, w)| == |s| + 1
    ensures multiset(Insert(x, s, w)) == multiset(s) + multiset{x}
  {
    if |s| > 0 && w(s[0]) > w(x) {
      InsertMultiset(x, s[1..], w);
      assert s == [s[0]] + s[1..];
    }
  }

  /** Insertion into a non-increasing sequence keeps it non-increasing. */
  lemma {:induction false} InsertSorted<T>(x: T, s: seq<T>, w: T -> nat)
    requires NonIncreasing(s, w)
    ensures NonIncreasing(Insert(x, s, w), w)
    ensures Insert(x, s, w)[0] == x || (|s| > 0 && Insert(x, s, w)[0] == s[0])
  {
    InsertMultiset(x, s, w);
    if |s| > 0 && w(s[0]) > w(x) {
      InsertSorted(x, s[1..], w);
      InsertMultiset(x, s[1..], w);
    }
  }

  /** Stable sort by non-increasing weight. */
  function SortDesc<T>(s: seq<T>, w: T -> nat): (r: seq<T>)
    ensures |r| == |s|
    ensures NonIncreasing(r, w)
    ensures multiset(r) == multiset(s)
  {
    if |s| == 0 then []
    else
      var t := SortDesc(s[1..], w);
      InsertSorted(s[0], t, w);
      InsertMultiset(s[0], t, w);
      assert s == [s[0]] + s[1..];
      Insert(s[0], t, w)
  }

  /** Inserting `x` before its equals puts it first among the elements of its weight. */
  lemma {:induction false} InsertOfWeight<T>(x: T, s: seq<T>, w: T -> nat, v: nat)
    ensures OfWeight(Insert(x, s, w), w, v) == (if w(x) == v then [x] else []) + OfWeight(s, w, v)
  {
    var hx: seq<T> := if w(x) == v then [x] else [];
    if |s| == 0 {
      assert OfWeight([x], w, v) == hx + OfWeight([x][1..], w, v);
    } else if w(s[0]) <= w(x) {
      assert ([x] + s)[1..] == s;
      assert OfWeight([x] + s, w, v) == hx + OfWeight(s, w, v);
    } else {
      InsertOfWeight(x, s[1..], w, v);
      var rest := Insert(x, s[1..], w);
      var hs: seq<T> := if w(s[0]) == v then [s[0]] else [];
      assert ([s[0]] + rest)[1..] == rest;
      calc {
        OfWeight(Insert(x, s, w), w, v);
        OfWeight([s[0]] + rest, w, v);
        hs + OfWeight(rest, w, v);
        hs + (hx + OfWeight(s[1..], w, v));
        { assert w(x) == v ==> hs == []; }
        hx + (hs + OfWeight(s[1..], w, v));
        hx + OfWeight(s, w, v);
      }
    }
  }

  /** The sort is stable: among equal weights the input order survives. */
  lemma {:induction false} SortDescStable<T>(s: seq<T>, w: T -> nat, v: nat)
    ensures OfWeight(SortDesc(s, w), w, v) == OfWeight(s, w, v)
  {
    if |s| > 0 {
      SortDescStable(s[1..], w, v);
      InsertOfWeight(s[0], SortDesc(s[1..], w), w, v);
    }
  }

  /** The first element of a non-empty non-increasing sequence is its heaviest. */
  lemma {:induction false} OfWeightNonEmpty<T>(s: seq<T>, w: T -> nat, v: nat)
    requires NonIncreasing(s, w)
    ensures OfWeight(s, w, v) != [] <==> exists i :: 0 <= i < |s| && w(s[i]) == v
  {
    if |s| > 0 {
      OfWeightNonEmpty(s[1..], w, v);
      assert forall i :: 1 <= i < |s| ==> s[i] == s[1..][i - 1];
      if w(s[0]) != v && OfWeight(s, w, v) == [] {
        forall i | 1 <= i < |s| ensures w(s[i]) != v {
          assert s[i] == s[1..][i - 1];
        }
      }
    }
  }

  /**
   * Two non-increasing sequences that agree on the order of every weight class
   * are equal: every stable descending sort of a sequence gives the same answer.
   */
  lemma {:induction false} StableSortUnique<T>(a: seq<T>, b: seq<T>, w: T -> nat)
    requires NonIncreasing(a, w) && NonIncreasing(b, w)
    requires forall v :: OfWeight(a, w, v) == OfWeight(b, w, v)
    ensures a == b
  {
    if |a| == 0 {
      if |b| > 0 {
        OfWeightNonEmpty(b, w, w(b[0]));
        OfWeightNonEmpty(a, w, w(b[0]));
        assert false;
      }
    } else if |b| == 0 {
      OfWeightNonEmpty(a, w, w(a[0]));
      OfWeightNonEmpty(b, w, w(a[0]));
      assert false;
    } else {
      var m, n := w(a[0]), w(b[0]);
      OfWeightNonEmpty(a, w, m);
      OfWeightNonEmpty(b, w, m);
      OfWeightNonEmpty(a, w, n);
      OfWeightNonEmpty(b, w, n);
      assert OfWeight(a, w, m) == OfWeight(b, w, m);
      assert OfWeight(a, w, n) == OfWeight(b, w, n);
      assert m == n;
      assert OfWeight(a, w, m)[0] == a[0];
      assert OfWeight(b, w, m)[0] == b[0];
      assert a[0] == b[0];
      forall v
        ensures OfWeight(a[1..], w, v) == OfWeight(b[1..], w, v)
      {
        var head := if w(a[0]) == v then [a[0]] else [];
        assert OfWeight(a, w, v) == head + OfWeight(a[1..], w, v);
        assert OfWeight(b, w, v) == head + OfWeight(b[1..], w, v);
        assert OfWeight(a[1..], w, v) == OfWeight(a, w, v)[|head|..];
        assert OfWeight(b[1..], w, v) == OfWeight(b, w, v)[|head|..];
      }
      StableSortUnique(a[1..], b[1..], w);
      assert a == [a[0]] + a[1..] && b == [b[0]] + b[1..];
    }
  }

  /** Sorting keeps every measure's sum, since it only permutes. */
  lemma {:induction false} SortDescSum<T>(s: seq<T>, w: T -> nat, m: T -> nat)
    ensures SumBy(SortDesc(s, w), m) == SumBy(s, m)
  {
    if |s| > 0 {
      SortDescSum(s[1..], w, m);
      InsertSum(s[0], SortDesc(s[1..], w), w, m);
      SumByConcat([s[0]], s[1..], m);
      assert s == [s[0]] + s[1..];
    }
  }

  lemma {:induction false} InsertSum<T>(x: T, s: seq<T>, w: T -> nat, m: T -> nat)
    ensures SumBy(Insert(x, s, w), m) == m(x) + SumBy(s, m)
  {
    if |s| == 0 {
      assert SumBy([x], m) == SumBy([], m) + m(x) by { assert [x][..0] == []; }
    } else if w(s[0]) <= w(x) {
      SumByConcat([x], s, m);
      assert SumBy([x], m) == m(x) by { assert [x][..0] == []; }
    } else {
      InsertSum(x, s[1..], w, m);
      SumByConcat([s[0]], Insert(x, s[1..], w), m);
      SumByConcat([s[0]], s[1..], m);
      assert SumBy([s[0]], m) == m(s[0]) by { assert [s[0]][..0] == []; }
      assert s == [s[0]] + s[1..];
    }
  }

  /** Sorting commutes with a relabelling that keeps weights. */
  lemma {:induction false} SortDescMap<T, U>(f: T -> U, s: seq<T>, w: T -> nat, w': U -> nat)
    requires forall x :: w'(f(x)) == w(x)
    ensures SortDesc(Map(f, s), w') == Map(f, SortDesc(s, w))
  {
    if |s| > 0 {
      assert Map(f, s)[1..] == Map(f, s[1..]);
      SortDescMap(f, s[1..], w, w');
      InsertMap(f, s[0], SortDesc(s[1..], w), w, w');
    }
  }

  lemma {:induction false} InsertMap<T, U>(f: T -> U, x: T, s: seq<T>, w: T -> nat, w': U -> nat)
    requires forall y :: w'(f(y)) == w(y)
    ensures Insert(f(x), Map(f, s), w') == Map(f, Insert(x, s, w))
  {
    if |s| > 0 {
      var m := Map(f, s);
      assert w'(m[0]) == w(s[0]);
      if w(s[0]) <= w(x) {
        MapCons(f, x, s);
      } else {
        assert m[1..] == Map(f, s[1..]);
        InsertMap(f, x, s[1..], w, w');
        MapCons(f, s[0], Insert(x, s[1..], w));
      }
    }
  }

  lemma MapCons<T, U>(f: T -> U, x: T, s: seq<T>)
    ensures Map(f, [x] + s) == [f(x)] + Map(f, s)
  {
  }

  /** Keys that were distinct before the sort are still distinct after it. */
  lemma {:induction false} SortDescDistinct<T, K>(s: seq<T>, w: T -> nat, key: T -> K)
    requires Distinct(Map(key, s))
    ensures Distinct(Map(key, SortDesc(s, w)))
  {
    if |s| > 0 {
      assert Map(key, s)[1..] == Map(key, s[1..]);
      SortDescDistinct(s[1..], w, key);
      var t := SortDesc(s[1..], w);
      forall y | y in t ensures key(y) != key(s[0]) {
        assert y in multiset(s[1..]);
        var i :| 0 <= i < |s[1..]| && s[1..][i] == y;
        assert Map(key, s)[i + 1] == key(y);
      }
      InsertDistinct(s[0], t, w, key);
    }
  }

  lemma {:induction false} InsertDistinct<T, K>(x: T, s: seq<T>, w: T -> nat, key: T -> K)
    requires Distinct(Map(key, s))
    requires forall y :: y in s ==> key(y) != key(x)
    ensures Distinct(Map(key, Insert(x, s, w)))
  {
    if |s| == 0 {
    } else if w(s[0]) <= w(x) {
      var r := [x] + s;
      forall i, j | 0 <= i < j < |r| ensures key(r[i]) != key(r[j]) {
        if i > 0 {
          assert Map(key, s)[i - 1] == key(r[i]) && Map(key, s)[j - 1] == key(r[j]);
        } else {
          assert r[j] in s;
        }
      }
    } else {
      assert Map(key, s)[1..] == Map(key, s[1..]);
      InsertDistinct(x, s[1..], w, key);
      var rest := Insert(x, s[1..], w);
      InsertMultiset(x, s[1..], w);
      var r := [s[0]] + rest;
      forall i, j | 0 <= i < j < |r| ensures key(r[i]) != key(r[j]) {
        if i > 0 {
          assert Map(key, rest)[i - 1] == key(r[i]) && Map(key, rest)[j - 1] == key(r[j]);
        } else {
          assert r[j] in multiset(rest);
          if r[j] != x {
            assert r[j] in multiset(s[1..]);
            var k :| 0 <= k < |s[1..]| && s[1..][k] == r[j];
            assert Map(key, s)[k + 1] == key(r[j]) && Map(key, s)[0] == key(s[0]);
          }
        }
      }
    }
  }

  /** Among elements of equal weight, `rank` increases from left to right. */
  predicate TiesByRank<T>(s: seq<T>, w: T -> nat, rank: T -> int)
  {
    forall i, j :: 0 <= i < j < |s| && w(s[i]) == w(s[j]) ==> rank(s[i]) < rank(s[j])
  }

  /** If `rank` increases along the input, the sort lists equal weights by increasing rank. */
  lemma {:induction false} SortDescTies<T>(s: seq<T>, w: T -> nat, rank: T -> int)
    requires forall i, j :: 0 <= i < j < |s| ==> rank(s[i]) < rank(s[j])
    ensures TiesByRank(SortDesc(s, w), w, rank)
  {
    if |s| > 0 {
      var t := SortDesc(s[1..], w);
      SortDescTies(s[1..], w, rank);
      forall y | y in t ensures rank(s[0]) < rank(y) {
        assert y in multiset(s[1..]);
        var k :| 0 <= k < |s| - 1 && s[1..][k] == y;
        assert s[k + 1] == y;
      }
      InsertTies(s[0], t, w, rank);
    }
  }

  lemma {:induction false} InsertTies<T>(x: T, s: seq<T>, w: T -> nat, rank: T -> int)
    requires TiesByRank(s, w, rank)
    requires forall y :: y in s ==> rank(x) < rank(y)
    ensures TiesByRank(Insert(x, s, w), w, rank)
  {
    if |s| == 0 {
    } else if w(s[0]) <= w(x) {
      TiesCons(x, s, w, rank);
    } else {
      TiesTail(s, w, rank);
      InsertTies(x, s[1..], w, rank);
      var rest := Insert(x, s[1..], w);
      InsertMultiset(x, s[1..], w);
      forall y | y in rest && w(y) == w(s[0]) ensures rank(s[0]) < rank(y) {
        assert y in multiset(rest);
        if y != x {
          assert y in multiset(s[1..]);
          var k :| 0 <= k < |s| - 1 && s[1..][k] == y;
          assert s[k + 1] == y;
        }
      }
      TiesConsEqual(s[0], rest, w, rank);
    }
  }

  lemma TiesTail<T>(s: seq<T>, w: T -> nat, rank: T -> int)
    requires |s| > 0 && TiesByRank(s, w, rank)
    ensures TiesByRank(s[1..], w, rank)
  {
    forall i, j | 0 <= i < j < |s| - 1 && w(s[1..][i]) == w(s[1..][j]) ensures rank(s[1..][i]) < rank(s[1..][j]) {
      assert s[1..][i] == s[i + 1] && s[1..][j] == s[j + 1];
    }
  }

  /** Consing an element ranked below everything behind it keeps ties ordered. */
  lemma TiesCons<T>(x: T, s: seq<T>, w: T -> nat, rank: T -> int)
    requires TiesByRank(s, w, rank)
    requires forall y :: y in s ==> rank(x) < rank(y)
    ensures TiesByRank([x] + s, w, rank)
  {
    TiesConsEqual(x, s, w, rank);
  }

  lemma TiesConsEqual<T>(x: T, s: seq<T>, w: T -> nat, rank: T -> int)
    requires TiesByRank(s, w, rank)
    requires forall y :: y in s && w(y) == w(x) ==> rank(x) < rank(y)
    ensures TiesByRank([x] + s, w, rank)
  {
    var r := [x] + s;
    forall i, j | 0 <= i < j < |r| && w(r[i]) == w(r[j]) ensures rank(r[i]) < rank(r[j]) {
      if i > 0 {
        assert r[i] == s[i - 1] && r[j] == s[j - 1];
      } else {
        assert r[j] in s;
      }
    }
  }
}
