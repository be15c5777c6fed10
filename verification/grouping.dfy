/**
 * Group-by-sum over (key, amount) pairs: the pattern every chart of the
 * dashboard repeats. Keys come out in first-appearance order, which is the
 * order of a JavaScript `Set` and of `Object.entries` on non-integer keys.
 */
module Grouping {
  import opened Seqs

  function Fst<K>(p: (K, nat)): K { p.0 }
  function Snd<K>(p: (K, nat)): nat { p.1 }

  function Keys<K>(ps: seq<(K, nat)>): seq<K> { Map(Fst, ps) }

  /** The sum of all amounts. */
  function Sum<K>(ps: seq<(K, nat)>): nat { SumBy(ps, Snd) }

  /** The sum of the amounts paired with `k`. */
  function Total<K(==)>(ps: seq<(K, nat)>, k: K): nat
  {
    if |ps| == 0 then 0
    else Total(ps[..|ps| - 1], k) + (if ps[|ps| - 1].0 == k then ps[|ps| - 1].1 else 0)
  }

  /** The distinct elements of `ks` in first-appearance order (`[...new Set(ks)]`). */
  function Dedup<K(==, !new)>(ks: seq<K>): (r: seq<K>)
    ensures Distinct(r)
    ensures forall x :: x in r <==> x in ks
  {
    if |ks| == 0 then []
    else
      var rest := Dedup(ks[..|ks| - 1]);
      var k := ks[|ks| - 1];
      assert ks == ks[..|ks| - 1] + [k];
      if k in rest then rest else rest + [k]
  }

  /** Dedup lists each key earlier than every key that first appears after it. */
  lemma {:induction false} DedupFirstAppearance<K(!new)>(ks: seq<K>)
    ensures forall i, j :: 0 <= i < j < |Dedup(ks)| ==> IndexOf(ks, Dedup(ks)[i]) < IndexOf(ks, Dedup(ks)[j])
  {
    if |ks| > 0 {
      var init := ks[..|ks| - 1];
      var k := ks[|ks| - 1];
      assert ks == init + [k];
      DedupFirstAppearance(init);
      var d := Dedup(init);
      forall x | x in d
        ensures IndexOf(ks, x) == IndexOf(init, x) < |init|
      {
        IndexOfAppend(init, k, x);
      }
      if k !in d {
        IndexOfAppend(init, k, k);
      }
    }
  }

  /**
   * The reference group-by: one (key, total) pair per distinct key, in
   * first-appearance order.
   */
  function GroupSum<K(==, !new)>(ps: seq<(K, nat)>): (r: seq<(K, nat)>)
    ensures Distinct(Keys(r))
    ensures forall k :: k in Keys(r) <==> k in Keys(ps)
    ensures forall i :: 0 <= i < |r| ==> r[i].1 == Total(ps, r[i].0)
  {
    var d := Dedup(Keys(ps));
    var r := seq(|d|, i requires 0 <= i < |d| => (d[i], Total(ps, d[i])));
    assert Keys(r) == d;
    r
  }

  /** A key that never occurs totals zero. */
  lemma {:induction false} TotalAbsent<K(!new)>(ps: seq<(K, nat)>, k: K)
    requires k !in Keys(ps)
    ensures Total(ps, k) == 0
  {
    if |ps| > 0 {
      var init := ps[..|ps| - 1];
      assert forall i :: 0 <= i < |init| ==> Keys(init)[i] == Keys(ps)[i];
      assert Keys(ps)[|ps| - 1] == ps[|ps| - 1].0;
      TotalAbsent(init, k);
    }
  }

  /** One step of the dictionary loop `acc[k] = (acc[k] || 0) + amount`. */
  function Add<K(==)>(acc: seq<(K, nat)>, p: (K, nat)): (r: seq<(K, nat)>)
  {
    var i := IndexOf(Keys(acc), p.0);
    if i < 0 then acc + [p] else acc[i := (p.0, acc[i].1 + p.1)]
  }

  /** The dictionary loop over all pairs, front to back. */
  function Accumulate<K(==)>(ps: seq<(K, nat)>): seq<(K, nat)>
  {
    if |ps| == 0 then [] else Add(Accumulate(ps[..|ps| - 1]), ps[|ps| - 1])
  }

  lemma {:induction false} KeysStep<K(!new)>(ps: seq<(K, nat)>, p: (K, nat))
    ensures Keys(ps + [p]) == Keys(ps) + [p.0]
  {
  }

  lemma {:induction false} TotalStep<K(!new)>(ps: seq<(K, nat)>, p: (K, nat), k: K)
    ensures Total(ps + [p], k) == Total(ps, k) + (if p.0 == k then p.1 else 0)
  {
    assert (ps + [p])[..|ps|] == ps;
  }

  lemma {:induction false} DedupStep<K(!new)>(ks: seq<K>, k: K)
    ensures Dedup(ks + [k]) == if k in Dedup(ks) then Dedup(ks) else Dedup(ks) + [k]
  {
    assert (ks + [k])[..|ks|] == ks;
  }

  /** The shape of the reference group-by, one position at a time. */
  lemma {:induction false} GroupSumAt<K(!new)>(ps: seq<(K, nat)>)
    ensures |GroupSum(ps)| == |Dedup(Keys(ps))|
    ensures forall j :: 0 <= j < |GroupSum(ps)| ==>
      GroupSum(ps)[j] == (Dedup(Keys(ps))[j], Total(ps, Dedup(Keys(ps))[j]))
  {
  }

  /** A new key is appended with its amount. */
  lemma {:induction false} GroupSumStepNew<K(!new)>(ps: seq<(K, nat)>, p: (K, nat))
    requires p.0 !in Dedup(Keys(ps))
    ensures GroupSum(ps + [p]) == GroupSum(ps) + [p]
  {
    var d := Dedup(Keys(ps));
    KeysStep(ps, p);
    DedupStep(Keys(ps), p.0);
    GroupSumAt(ps);
    GroupSumAt(ps + [p]);
    TotalAbsent(ps, p.0);
    TotalStep(ps, p, p.0);
    forall j | 0 <= j < |d|
      ensures Total(ps + [p], d[j]) == Total(ps, d[j])
    {
      TotalStep(ps, p, d[j]);
    }
  }

  /** A known key at position i has its total raised in place. */
  lemma {:induction false} GroupSumStepOld<K(!new)>(ps: seq<(K, nat)>, p: (K, nat), i: nat)
    requires i < |Dedup(Keys(ps))| && Dedup(Keys(ps))[i] == p.0
    ensures GroupSum(ps + [p]) == GroupSum(ps)[i := (p.0, GroupSum(ps)[i].1 + p.1)]
  {
    var d := Dedup(Keys(ps));
    KeysStep(ps, p);
    DedupStep(Keys(ps), p.0);
    GroupSumAt(ps);
    GroupSumAt(ps + [p]);
    forall j | 0 <= j < |d|
      ensures Total(ps + [p], d[j]) == Total(ps, d[j]) + (if j == i then p.1 else 0)
    {
      TotalStep(ps, p, d[j]);
    }
  }

  /** Grouping one more pair is one step of the dictionary loop. */
  lemma {:induction false} GroupSumStep<K(!new)>(ps: seq<(K, nat)>, p: (K, nat))
    ensures GroupSum(ps + [p]) == Add(GroupSum(ps), p)
  {
    var g := GroupSum(ps);
    GroupSumAt(ps);
    assert Keys(g) == Dedup(Keys(ps));
    var i := IndexOf(Keys(g), p.0);
    if i < 0 {
      GroupSumStepNew(ps, p);
    } else {
      GroupSumStepOld(ps, p, i);
    }
  }

  /** The dictionary loop computes exactly the reference group-by, order included. */
  lemma {:induction false} AccumulateIsGroupSum<K(!new)>(ps: seq<(K, nat)>)
    ensures Accumulate(ps) == GroupSum(ps)
  {
    if |ps| > 0 {
      var init := ps[..|ps| - 1];
      AccumulateIsGroupSum(init);
      assert ps == init + [ps[|ps| - 1]];
      GroupSumStep(init, ps[|ps| - 1]);
    }
  }

  /** Replacing one amount changes the sum by the difference. */
  lemma {:induction false} SumUpdate<K(!new)>(ps: seq<(K, nat)>, i: nat, p: (K, nat))
    requires i < |ps|
    ensures Sum(ps[i := p]) + ps[i].1 == Sum(ps) + p.1
  {
    var n := |ps| - 1;
    if i == n {
      assert ps[i := p][..n] == ps[..n];
    } else {
      SumUpdate(ps[..n], i, p);
      assert ps[i := p][..n] == ps[..n][i := p];
    }
  }

  /** One step of the dictionary loop adds the pair's amount to the sum. */
  lemma {:induction false} AddSum<K(!new)>(acc: seq<(K, nat)>, p: (K, nat))
    ensures Sum(Add(acc, p)) == Sum(acc) + p.1
  {
    var i := IndexOf(Keys(acc), p.0);
    if i < 0 {
      assert (acc + [p])[..|acc|] == acc;
    } else {
      SumUpdate(acc, i, (p.0, acc[i].1 + p.1));
    }
  }

  /** The dictionary loop loses and invents nothing: its totals add up to the input's. */
  lemma {:induction false} AccumulateSum<K(!new)>(ps: seq<(K, nat)>)
    ensures Sum(Accumulate(ps)) == Sum(ps)
  {
    if |ps| > 0 {
      var init := ps[..|ps| - 1];
      AccumulateSum(init);
      AddSum(Accumulate(init), ps[|ps| - 1]);
    }
  }

  /** Sum over the groups equals the sum over the input. */
  lemma {:induction false} GroupSumSum<K(!new)>(ps: seq<(K, nat)>)
    ensures Sum(GroupSum(ps)) == Sum(ps)
  {
    AccumulateIsGroupSum(ps);
    AccumulateSum(ps);
  }

  /** Dropping keys before or after removing repetitions gives the same list. */
  lemma {:induction false} DedupFilter<K(!new)>(p: K -> bool, ks: seq<K>)
    ensures Dedup(Filter(p, ks)) == Filter(p, Dedup(ks))
  {
    if |ks| > 0 {
      var init := ks[..|ks| - 1];
      var k := ks[|ks| - 1];
      assert ks == init + [k];
      DedupFilter(p, init);
      DedupStep(init, k);
      var fi := Filter(p, init);
      assert Filter(p, ks) == if p(k) then fi + [k] else fi;
      var d := Dedup(init);
      if p(k) {
        DedupStep(fi, k);
        assert k in Dedup(fi) <==> k in d;
        if k !in d {
          assert Filter(p, d + [k]) == Filter(p, d) + [k] by {
            assert (d + [k])[..|d|] == d;
          }
        }
      } else if k !in d {
        assert Filter(p, d + [k]) == Filter(p, d) + [] by {
          assert (d + [k])[..|d|] == d;
        }
      }
    }
  }

  /** Every group carries its key's total, and its key occurs among the pairs. */
  lemma GroupMember<K(!new)>(ps: seq<(K, nat)>, x: (K, nat))
    requires x in GroupSum(ps)
    ensures x.1 == Total(ps, x.0) && x.0 in Keys(ps)
  {
    var g := GroupSum(ps);
    var j :| 0 <= j < |g| && g[j] == x;
    assert Keys(g)[j] == x.0;
  }

  /** Rearranging pairs keeps the set of keys. */
  lemma KeysOfPermutation<K>(a: seq<(K, nat)>, b: seq<(K, nat)>)
    requires multiset(a) == multiset(b)
    ensures forall k :: k in Keys(a) <==> k in Keys(b)
  {
    forall k ensures k in Keys(a) ==> k in Keys(b) {
      if k in Keys(a) {
        var i :| 0 <= i < |a| && Keys(a)[i] == k;
        assert a[i] in multiset(b);
        var j :| 0 <= j < |b| && b[j] == a[i];
        assert Keys(b)[j] == k;
      }
    }
    forall k ensures k in Keys(b) ==> k in Keys(a) {
      if k in Keys(b) {
        var i :| 0 <= i < |b| && Keys(b)[i] == k;
        assert b[i] in multiset(a);
        var j :| 0 <= j < |a| && a[j] == b[i];
        assert Keys(a)[j] == k;
      }
    }
  }

  /** The plain sum of a list of amounts. */
  function SumAll(s: seq<nat>): nat
  {
    if |s| == 0 then 0 else SumAll(s[..|s| - 1]) + s[|s| - 1]
  }

  /** The amounts of the pairs add up to the pairs' sum. */
  lemma {:induction false} SumAllValues<K>(ps: seq<(K, nat)>)
    ensures SumAll(Map(Snd, ps)) == Sum(ps)
  {
    if |ps| > 0 {
      assert Map(Snd, ps)[..|ps| - 1] == Map(Snd, ps[..|ps| - 1]);
      SumAllValues(ps[..|ps| - 1]);
    }
  }
}
