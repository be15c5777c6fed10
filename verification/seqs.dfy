/** Generic sequence helpers shared by every aggregation of the model. */
module Seqs {

  /** An optional value; `None` plays the part of JavaScript's `undefined`. */
  datatype Option<T> = None | Some(value: T)

  /** Applies `f` to every element, keeping positions (JavaScript's `Array.map`). */
  function Map<T, U>(f: T -> U, s: seq<T>): (r: seq<U>)
    ensures |r| == |s|
    ensures forall i :: 0 <= i < |s| ==> r[i] == f(s[i])
  {
    seq(|s|, i requires 0 <= i < |s| => f(s[i]))
  }

  /** Keeps the elements satisfying `p`, in order (JavaScript's `Array.filter`). */
  function Filter<T>(p: T -> bool, s: seq<T>): (r: seq<T>)
    ensures |r| <= |s|
    ensures forall i :: 0 <= i < |r| ==> r[i] in s && p(r[i])
    ensures forall i :: 0 <= i < |s| && p(s[i]) ==> s[i] in r
  {
    if |s| == 0 then []
    else
      var rest := Filter(p, s[..|s| - 1]);
      assert forall i :: 0 <= i < |s| - 1 ==> s[i] == s[..|s| - 1][i];
      if p(s[|s| - 1]) then rest + [s[|s| - 1]] else rest
  }

  /** The sum of `w` over the elements (JavaScript's summing `Array.reduce`). */
  function SumBy<T>(s: seq<T>, w: T -> nat): nat
  {
    if |s| == 0 then 0 else SumBy(s[..|s| - 1], w) + w(s[|s| - 1])
  }

  lemma {:induction false} SumByConcat<T>(a: seq<T>, b: seq<T>, w: T -> nat)
    ensures SumBy(a + b, w) == SumBy(a, w) + SumBy(b, w)
  {
    if |b| == 0 {
      assert a + b == a;
    } else {
      SumByConcat(a, b[..|b| - 1], w);
      assert (a + b)[..|a + b| - 1] == a + b[..|b| - 1];
    }
  }

  /** Summing through a relabelling that keeps every weight gives the same sum. */
  lemma {:induction false} SumByMap<T, U>(f: T -> U, s: seq<T>, w: T -> nat, w': U -> nat)
    requires forall x :: w'(f(x)) == w(x)
    ensures SumBy(Map(f, s), w') == SumBy(s, w)
  {
    if |s| > 0 {
      assert Map(f, s)[..|s| - 1] == Map(f, s[..|s| - 1]);
      SumByMap(f, s[..|s| - 1], w, w');
    }
  }

  /** No element occurs twice. */
  predicate Distinct<T(==)>(s: seq<T>)
  {
    forall i, j :: 0 <= i < j < |s| ==> s[i] != s[j]
  }

  /** The first position of `x` in `s`, or -1 when it is absent (JavaScript's `indexOf` / `findIndex`). */
  function IndexOf<T(==)>(s: seq<T>, x: T): (i: int)
    ensures -1 <= i < |s|
    ensures i == -1 <==> x !in s
    ensures 0 <= i ==> s[i] == x && x !in s[..i]
  {
    if |s| == 0 then -1
    else if s[0] == x then 0
    else
      var k := IndexOf(s[1..], x);
      if k < 0 then -1
      else
        assert s[..k + 1] == [s[0]] + s[1..][..k];
        k + 1
  }

  /** Appending an element does not move the first occurrence of an element already present. */
  lemma {:induction false} IndexOfAppend<T>(s: seq<T>, y: T, x: T)
    ensures x in s ==> IndexOf(s + [y], x) == IndexOf(s, x)
    ensures x !in s && x == y ==> IndexOf(s + [y], x) == |s|
  {
    var i := IndexOf(s + [y], x);
    if x in s {
      var j := IndexOf(s, x);
      assert (s + [y])[..j] == s[..j];
      assert (s + [y])[j] == x;
    } else if x == y {
      assert (s + [y])[|s|] == x;
    }
  }

  /** `idx` lists, strictly increasing, positions of `b` that spell out `a`. */
  ghost predicate Embeds<T>(idx: seq<nat>, a: seq<T>, b: seq<T>)
  {
    && |idx| == |a|
    && (forall k :: 0 <= k < |idx| ==> idx[k] < |b| && b[idx[k]] == a[k])
    && (forall k, l :: 0 <= k < l < |idx| ==> idx[k] < idx[l])
  }

  /** `a` is `b` with some elements deleted and the rest in their original order. */
  ghost predicate IsSubsequence<T>(a: seq<T>, b: seq<T>)
  {
    exists idx :: Embeds(idx, a, b)
  }

  /** A filter keeps its survivors in their original order. */
  lemma {:induction false} FilterIsSubsequence<T>(p: T -> bool, s: seq<T>)
    ensures IsSubsequence(Filter(p, s), s)
  {
    var idx := FilterEmbedding(p, s);
  }

  lemma {:induction false} FilterEmbedding<T>(p: T -> bool, s: seq<T>) returns (idx: seq<nat>)
    ensures Embeds(idx, Filter(p, s), s)
    ensures forall k :: 0 <= k < |idx| ==> idx[k] < |s|
  {
    if |s| == 0 {
      idx := [];
    } else {
      var init := s[..|s| - 1];
      var prev := FilterEmbedding(p, init);
      if p(s[|s| - 1]) {
        idx := prev + [|s| - 1];
      } else {
        idx := prev;
      }
    }
  }

  /** The number of elements satisfying `p`. */
  function CountWhere<T>(p: T -> bool, s: seq<T>): nat
  {
    if |s| == 0 then 0 else CountWhere(p, s[..|s| - 1]) + (if p(s[|s| - 1]) then 1 else 0)
  }

  /** A filter keeps exactly as many elements as satisfy its predicate, so none is lost. */
  lemma {:induction false} FilterKeepsAll<T>(p: T -> bool, s: seq<T>)
    ensures |Filter(p, s)| == CountWhere(p, s)
  {
    if |s| > 0 {
      FilterKeepsAll(p, s[..|s| - 1]);
    }
  }

  /** Filtering a sequence without repetitions leaves one without repetitions. */
  lemma {:induction false} FilterDistinct<T>(p: T -> bool, s: seq<T>)
    requires Distinct(s)
    ensures Distinct(Filter(p, s))
  {
    var idx := FilterEmbedding(p, s);
    var r := Filter(p, s);
    forall i, j | 0 <= i < j < |r| ensures r[i] != r[j] {
      assert r[i] == s[idx[i]] && r[j] == s[idx[j]] && idx[i] < idx[j];
    }
  }
}
