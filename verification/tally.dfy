/**
 Counting occurrences the way the handlers do it: a `dict` (or `collections.Counter`)
 filled by one pass, whose keys keep first-seen order, then ranked by
 `sorted(items, key=count, reverse=True)` or `Counter.most_common(n)`. Because the
 sort is stable, equal counts stay in first-seen order.
 */
module Tallies {
  import opened Seqs
  import opened Sorting

  /** One `(key, count)` item of a counting dict. */
  datatype Bucket<T> = Bucket(key: T, count: nat)

  function KeysOf<T>(bs: seq<Bucket<T>>): seq<T> {
    seq(|bs|, i requires 0 <= i < |bs| => bs[i].key)
  }

  function CountOf<T>(b: Bucket<T>): nat {
    b.count
  }

  /** Sort key of an item: its count. */
  function CountRank<T>(b: Bucket<T>): Key {
    Num(b.count)
  }

  function BucketsOf<T>(keys: seq<T>, m: multiset<T>): seq<Bucket<T>>
    decreases |keys|
  {
    if |keys| == 0 then [] else [Bucket(keys[0], m[keys[0]])] + BucketsOf(keys[1..], m)
  }

  lemma {:induction false} BucketsOfShape<T>(keys: seq<T>, m: multiset<T>)
    ensures |BucketsOf(keys, m)| == |keys|
    ensures forall i :: 0 <= i < |keys| ==> BucketsOf(keys, m)[i] == Bucket(keys[i], m[keys[i]])
    decreases |keys|
  {
    if |keys| > 0 {
      BucketsOfShape(keys[1..], m);
    }
  }

  /** The items of a dict that counts `xs` in one pass: each distinct element, in order
      of first appearance, with its number of occurrences. */
  function Tally<T(==,!new)>(xs: seq<T>): seq<Bucket<T>> {
    BucketsOf(FirstSeen(xs), multiset(xs))
  }

  /** The items of a dict with key order `keys` and values `counts`. */
  function ItemsOf<T>(keys: seq<T>, counts: map<T, nat>): seq<Bucket<T>>
    requires forall k :: k in keys ==> k in counts
    decreases |keys|
  {
    if |keys| == 0 then [] else [Bucket(keys[0], counts[keys[0]])] + ItemsOf(keys[1..], counts)
  }

  /** A dict whose values are the multiplicities in `m` lists the same items as the tally
      built from `m`. */
  lemma {:induction false} ItemsOfCounts<T>(keys: seq<T>, counts: map<T, nat>, m: multiset<T>)
    requires forall k :: k in keys ==> k in counts && counts[k] == m[k]
    ensures ItemsOf(keys, counts) == BucketsOf(keys, m)
    decreases |keys|
  {
    if |keys| > 0 {
      ItemsOfCounts(keys[1..], counts, m);
    }
  }

  /** `keys` and `counts` are the key order and the values of the dict that counts the
      strings `xs`. */
  ghost predicate CountsOf<T(!new)>(keys: seq<T>, counts: map<T, nat>, xs: seq<T>) {
    keys == FirstSeen(xs) && counts.Keys == Elements(xs)
    && forall k :: k in counts ==> counts[k] == multiset(xs)[k]
  }

  /** Counting one more occurrence of `l` on a dict that counts `seen`: a known key is
      incremented, a new one is appended with count 1. */
  method CountOne<T(==,!new)>(keys: seq<T>, counts: map<T, nat>, ghost seen: seq<T>, l: T)
    returns (keys': seq<T>, counts': map<T, nat>)
    requires CountsOf(keys, counts, seen)
    ensures CountsOf(keys', counts', seen + [l])
  {
    if l in counts {
      keys', counts' := keys, counts[l := counts[l] + 1];
      CountedAgain(keys, counts, seen, l);
    } else {
      keys', counts' := keys + [l], counts[l := 1];
      CountedFirst(keys, counts, seen, l);
    }
  }

  lemma CountedAgain<T(!new)>(keys: seq<T>, counts: map<T, nat>, seen: seq<T>, l: T)
    requires CountsOf(keys, counts, seen) && l in counts
    ensures CountsOf(keys, counts[l := counts[l] + 1], seen + [l])
  {
    FirstSeenSnoc(seen, l);
    var m := multiset(seen + [l]);
    assert m == multiset(seen) + multiset{l};
    var c := counts[l := counts[l] + 1];
    forall k | k in c
      ensures c[k] == m[k]
    {
    }
  }

  lemma CountedFirst<T(!new)>(keys: seq<T>, counts: map<T, nat>, seen: seq<T>, l: T)
    requires CountsOf(keys, counts, seen) && l !in counts
    ensures CountsOf(keys + [l], counts[l := 1], seen + [l])
  {
    FirstSeenSnoc(seen, l);
    var m := multiset(seen + [l]);
    assert m == multiset(seen) + multiset{l};
    var c := counts[l := 1];
    forall k | k in c
      ensures c[k] == m[k]
    {
    }
  }

  /** The counting loop itself (api/index.py, api/stats.py): a key list in insertion
      order and a count map. It produces exactly the first-seen keys of `xs`, each
      mapped to its number of occurrences. */
  method CountOccurrences<T(==,!new)>(xs: seq<T>) returns (keys: seq<T>, counts: map<T, nat>)
    ensures keys == FirstSeen(xs)
    ensures counts.Keys == Elements(xs)
    ensures forall k :: k in counts ==> counts[k] == multiset(xs)[k]
  {
    keys := [];
    counts := map[];
    for i := 0 to |xs|
      invariant CountsOf(keys, counts, xs[..i])
    {
      assert xs[..i + 1] == xs[..i] + [xs[i]];
      keys, counts := CountOne(keys, counts, xs[..i], xs[i]);
    }
    assert xs[..|xs|] == xs;
  }

  lemma {:induction false} BucketsOfAppend<T>(keys: seq<T>, l: T, m: multiset<T>)
    ensures SumOf(BucketsOf(keys + [l], m), CountOf) == SumOf(BucketsOf(keys, m), CountOf) + m[l]
    decreases |keys|
  {
    if |keys| == 0 {
      assert keys + [l] == [l];
    } else {
      assert (keys + [l])[1..] == keys[1..] + [l];
      BucketsOfAppend(keys[1..], l, m);
    }
  }

  lemma {:induction false} BucketsOfBump<T>(keys: seq<T>, l: T, m: multiset<T>)
    requires Distinct(keys)
    ensures SumOf(BucketsOf(keys, m + multiset{l}), CountOf)
         == SumOf(BucketsOf(keys, m), CountOf) + (if l in keys then 1 else 0)
    decreases |keys|
  {
    if |keys| > 0 {
      BucketsOfBump(keys[1..], l, m);
      assert keys[0] == l ==> l !in keys[1..];
      assert keys == [keys[0]] + keys[1..];
    }
  }

  /** The counts of a tally add up to the length of the counted list: every occurrence
      is counted once, under its own key. */
  lemma {:induction false} TallyTotal<T(!new)>(xs: seq<T>)
    ensures SumOf(Tally(xs), CountOf) == |xs|
    decreases |xs|
  {
    if |xs| > 0 {
      var p := xs[..|xs| - 1];
      var l := xs[|xs| - 1];
      assert xs == p + [l];
      assert multiset(xs) == multiset(p) + multiset{l};
      TallyTotal(p);
      BucketsOfBump(FirstSeen(p), l, multiset(p));
      if l !in FirstSeen(p) {
        BucketsOfAppend(FirstSeen(p), l, multiset(xs));
        assert multiset(p)[l] == 0;
      }
    }
  }

  ghost predicate KeyEarlier<T>(xs: seq<T>, p: Bucket<T>, q: Bucket<T>) {
    p.key in xs && q.key in xs && FirstIndex(xs, p.key) < FirstIndex(xs, q.key)
  }

  /** The tally's items sorted by count, highest first, which is also what
      `Counter.most_common()` returns: every distinct element of `xs` exactly once,
      paired with its number of occurrences, by count from high to low, equal counts
      in order of first appearance. */
  function Ranking<T(==,!new)>(xs: seq<T>): (r: seq<Bucket<T>>)
    ensures forall i :: 0 <= i < |r| ==> r[i].key in xs && r[i].count == multiset(xs)[r[i].key]
    ensures forall c :: c in xs ==> c in KeysOf(r)
    ensures Distinct(KeysOf(r)) && |r| == |FirstSeen(xs)|
    ensures forall i, j :: 0 <= i < j < |r| ==> r[i].count >= r[j].count
    ensures forall i, j :: 0 <= i < j < |r| && r[i].count == r[j].count ==>
      FirstIndex(xs, r[i].key) < FirstIndex(xs, r[j].key)
  {
    var r := SortBy(Tally(xs), CountRank, true);
    RankingFacts(xs, r);
    r
  }

  /** The tally lists each first-seen key once, with its multiplicity. */
  lemma TallyShape<T(!new)>(xs: seq<T>)
    ensures |Tally(xs)| == |FirstSeen(xs)|
    ensures forall i :: 0 <= i < |Tally(xs)| ==>
      Tally(xs)[i] == Bucket(FirstSeen(xs)[i], multiset(xs)[FirstSeen(xs)[i]])
  {
    BucketsOfShape(FirstSeen(xs), multiset(xs));
  }

  /** The tally's items are in first-appearance order of their keys. */
  lemma TallyInOrder<T(!new)>(xs: seq<T>)
    ensures forall i, j :: 0 <= i < j < |Tally(xs)| ==> KeyEarlier(xs, Tally(xs)[i], Tally(xs)[j])
  {
    TallyShape(xs);
    FirstSeenOrder(xs);
  }

  lemma TallyDistinct<T(!new)>(xs: seq<T>)
    ensures Distinct(Tally(xs))
  {
    TallyShape(xs);
    var t := Tally(xs);
    var ks := FirstSeen(xs);
    forall i, j | 0 <= i < j < |t|
      ensures t[i] != t[j]
    {
      assert t[i].key == ks[i] && t[j].key == ks[j];
    }
  }

  /** Every element of a permutation of the tally is one of its items. */
  lemma PermutedItems<T(!new)>(xs: seq<T>, r: seq<Bucket<T>>)
    requires multiset(r) == multiset(Tally(xs))
    ensures forall i :: 0 <= i < |r| ==> r[i].key in xs && r[i].count == multiset(xs)[r[i].key]
    ensures forall c :: c in xs ==> c in KeysOf(r)
  {
    var t := Tally(xs);
    var ks := FirstSeen(xs);
    TallyShape(xs);
    forall i | 0 <= i < |r|
      ensures r[i].key in xs && r[i].count == multiset(xs)[r[i].key]
    {
      assert r[i] in multiset(t);
      var m :| 0 <= m < |t| && t[m] == r[i];
    }
    forall c | c in xs
      ensures c in KeysOf(r)
    {
      var m :| 0 <= m < |ks| && ks[m] == c;
      assert t[m] in multiset(r);
      var i :| 0 <= i < |r| && r[i] == t[m];
      assert KeysOf(r)[i] == c;
    }
  }

  /** Items that each pair their key with its own multiplicity, and are pairwise
      different, have pairwise different keys. */
  lemma DistinctKeys<T>(xs: seq<T>, r: seq<Bucket<T>>)
    requires Distinct(r)
    requires forall i :: 0 <= i < |r| ==> r[i].count == multiset(xs)[r[i].key]
    ensures Distinct(KeysOf(r))
  {
    forall i, j | 0 <= i < j < |r|
      ensures KeysOf(r)[i] != KeysOf(r)[j]
    {
      assert r[i] != r[j];
    }
  }

  lemma RankingFacts<T(!new)>(xs: seq<T>, r: seq<Bucket<T>>)
    requires r == SortBy(Tally(xs), CountRank, true)
    ensures forall i :: 0 <= i < |r| ==> r[i].key in xs && r[i].count == multiset(xs)[r[i].key]
    ensures forall c :: c in xs ==> c in KeysOf(r)
    ensures Distinct(KeysOf(r)) && |r| == |FirstSeen(xs)|
    ensures forall i, j :: 0 <= i < j < |r| ==> r[i].count >= r[j].count
    ensures forall i, j :: 0 <= i < j < |r| && r[i].count == r[j].count ==>
      FirstIndex(xs, r[i].key) < FirstIndex(xs, r[j].key)
  {
    var t := Tally(xs);
    TallyShape(xs);
    assert |r| == |t| by {
      assert |multiset(r)| == |multiset(t)|;
    }
    PermutedItems(xs, r);
    TallyDistinct(xs);
    DistinctPermutation(t, r);
    DistinctKeys(xs, r);
    TallyInOrder(xs);
    SortKeepsTieOrder(t, CountRank, true, (p, q) => KeyEarlier(xs, p, q));
    forall i, j | 0 <= i < j < |r|
      ensures r[i].count >= r[j].count
    {
      assert !Precedes(CountRank, true, r[j], r[i]);
    }
    forall i, j | 0 <= i < j < |r| && r[i].count == r[j].count
      ensures FirstIndex(xs, r[i].key) < FirstIndex(xs, r[j].key)
    {
      assert CountRank(r[i]) == CountRank(r[j]);
      assert KeyEarlier(xs, r[i], r[j]);
    }
  }

  /** The ranking loses no occurrence: its counts add up to the length of the list. */
  lemma RankingTotal<T(!new)>(xs: seq<T>)
    ensures SumOf(Ranking(xs), CountOf) == |xs|
  {
    TallyTotal(xs);
    SumOfPermutation(Tally(xs), Ranking(xs), CountOf);
  }

  /** `Counter.most_common(n)` / `sorted(...)[:n]`: the first `n` items of the ranking
      (`heapq.nlargest` is documented as equal to that slice, ties included). */
  function MostCommon<T(==,!new)>(xs: seq<T>, n: nat): (r: seq<Bucket<T>>)
    ensures |r| <= n
    ensures r <= Ranking(xs)
    ensures |r| == n || r == Ranking(xs)
  {
    var all := Ranking(xs);
    if n < |all| then all[..n] else all
  }

  /** The top `n` are the most frequent: every element left out occurs at most as often
      as any element listed. */
  lemma MostCommonIsTop<T(!new)>(xs: seq<T>, n: nat, c: T, i: nat)
    requires c in xs && c !in KeysOf(MostCommon(xs, n)) && i < |MostCommon(xs, n)|
    ensures multiset(xs)[c] <= MostCommon(xs, n)[i].count
  {
    var all := Ranking(xs);
    var top := MostCommon(xs, n);
    var k :| 0 <= k < |all| && KeysOf(all)[k] == c;
    forall m | 0 <= m < |top|
      ensures KeysOf(all)[m] != c
    {
      assert KeysOf(top)[m] == KeysOf(all)[m];
    }
    assert top[i] == all[i];
  }

  /** The top `n` name each element at most once. */
  lemma MostCommonDistinct<T(!new)>(xs: seq<T>, n: nat)
    ensures Distinct(KeysOf(MostCommon(xs, n)))
  {
    var all := Ranking(xs);
    var top := MostCommon(xs, n);
    forall i, j | 0 <= i < j < |top|
      ensures KeysOf(top)[i] != KeysOf(top)[j]
    {
      assert KeysOf(top)[i] == KeysOf(all)[i] && KeysOf(top)[j] == KeysOf(all)[j];
    }
  }
}
