/** Sorting by a key and dense ranks, over any total order. */
module Ranking {
  import opened Order

  // ----- mapping and permuting -----

  function Map<T, U>(f: T -> U, s: seq<T>): seq<U> { seq(|s|, i requires 0 <= i < |s| => f(s[i])) }

  lemma TakenOnce<T>(s: seq<T>, at: nat, others: seq<T>)
    requires at < |s| && others == s[..at] + s[at + 1..]
    ensures multiset(s) == multiset(others) + multiset{s[at]} && multiset(others) == multiset(s) - multiset{s[at]}
  {
    InsertedOnce(others, at, s[at]);
    assert s == others[..at] + [s[at]] + others[at..];
  }

  lemma MapTaken<T, U>(f: T -> U, s: seq<T>, at: nat, others: seq<T>)
    requires at < |s| && others == s[..at] + s[at + 1..]
    ensures multiset(Map(f, s)) == multiset(Map(f, others)) + multiset{f(s[at])}
  {
    assert Map(f, others) == Map(f, s)[..at] + Map(f, s)[at + 1..];
    TakenOnce(Map(f, s), at, Map(f, others));
  }

  /** Mapping a permutation gives a permutation. */
  lemma {:induction false} MapPermutation<T, U>(f: T -> U, a: seq<T>, b: seq<T>)
    requires multiset(a) == multiset(b)
    ensures multiset(Map(f, a)) == multiset(Map(f, b))
    decreases |a|
  {
    PermutationElements(a, b);
    if a != [] {
      var x, rest := a[0], a[..0] + a[1..];
      assert x in Elements(b);
      var i :| 0 <= i < |b| && b[i] == x;
      var others := b[..i] + b[i + 1..];
      TakenOnce(a, 0, rest);
      TakenOnce(b, i, others);
      MapPermutation(f, rest, others);
      MapTaken(f, a, 0, rest);
      MapTaken(f, b, i, others);
    }
  }

  lemma PermutationElements<T>(a: seq<T>, b: seq<T>)
    requires multiset(a) == multiset(b)
    ensures |a| == |b| && Elements(a) == Elements(b)
  {
    assert |multiset(a)| == |a| && |multiset(b)| == |b|;
    forall x ensures x in a <==> x in b { assert x in multiset(a) <==> x in multiset(b); }
  }

  // ----- sorting by a key -----

  ghost predicate NonDescending<K>(less: (K, K) -> bool, keys: seq<K>) {
    forall i, j | 0 <= i < j < |keys| :: !less(keys[j], keys[i])
  }

  method InsertByKey<T, K(!new)>(less: (K, K) -> bool, key: T -> K, x: T, s: seq<T>) returns (more: seq<T>)
    requires StrictTotal(less) && NonDescending(less, Map(key, s))
    ensures NonDescending(less, Map(key, more)) && multiset(more) == multiset(s) + multiset{x}
  {
    var at := 0;
    while at < |s| && less(key(s[at]), key(x))
      invariant 0 <= at <= |s| && forall j | 0 <= j < at :: less(key(s[j]), key(x))
    {
      at := at + 1;
    }
    more := s[..at] + [x] + s[at..];
    InsertedOnce(s, at, x);
    InsertKeepsOrder(less, Map(key, s), at, key(x));
    assert Map(key, more) == Map(key, s)[..at] + [key(x)] + Map(key, s)[at..];
  }

  lemma InsertKeepsOrder<K(!new)>(less: (K, K) -> bool, keys: seq<K>, at: nat, k: K)
    requires StrictTotal(less) && NonDescending(less, keys) && at <= |keys|
    requires (forall j | 0 <= j < at :: less(keys[j], k)) && (at < |keys| ==> !less(keys[at], k))
    ensures NonDescending(less, keys[..at] + [k] + keys[at..])
  {
    forall j | at <= j < |keys| ensures !less(keys[j], k) {
      if j > at { assert !less(keys[j], keys[at]); }
    }
  }

  method SortByKey<T, K(!new)>(less: (K, K) -> bool, key: T -> K, s: seq<T>) returns (sorted: seq<T>)
    requires StrictTotal(less)
    ensures NonDescending(less, Map(key, sorted)) && multiset(sorted) == multiset(s)
  {
    sorted := [];
    for i := 0 to |s|
      invariant NonDescending(less, Map(key, sorted)) && multiset(sorted) == multiset(s[..i])
    {
      assert s[..i + 1] == s[..i] + [s[i]];
      sorted := InsertByKey(less, key, s[i], sorted);
    }
    assert s[..|s|] == s;
  }

  // ----- dense ranks -----

  ghost function Smaller<K(!new)>(less: (K, K) -> bool, values: set<K>, v: K): set<K> {
    set u | u in values && less(u, v)
  }

  /** The dense rank of a value: one more than the number of smaller values. */
  ghost function Rank<K(!new)>(less: (K, K) -> bool, values: set<K>, v: K): nat { 1 + |Smaller(less, values, v)| }

  lemma StrictSubsetSize<T>(a: set<T>, b: set<T>, x: T)
    requires a <= b && x in b && x !in a
    ensures |a| < |b|
  {
    var rest := b - a;
    assert b == a + rest && x in rest;
  }

  lemma LowerRank<K(!new)>(less: (K, K) -> bool, values: set<K>, u: K, v: K)
    requires StrictTotal(less) && u in values && v in values && less(u, v)
    ensures Rank(less, values, u) < Rank(less, values, v)
  {
    StrictSubsetSize(Smaller(less, values, u), Smaller(less, values, v), u);
  }

  /** Ranks are ordered as the values are, and only equal values share one. */
  lemma RanksAreIsomorphic<K(!new)>(less: (K, K) -> bool, values: set<K>, u: K, v: K)
    requires StrictTotal(less) && u in values && v in values
    ensures less(u, v) <==> Rank(less, values, u) < Rank(less, values, v)
    ensures u == v <==> Rank(less, values, u) == Rank(less, values, v)
    ensures 1 <= Rank(less, values, u) <= |values|
  {
    if less(u, v) { LowerRank(less, values, u, v); }
    if less(v, u) { LowerRank(less, values, v, u); }
    StrictSubsetSize(Smaller(less, values, u), values, u);
  }

  /** The ranks fill the range from one to the number of distinct values. */
  lemma RanksFillRange<K(!new)>(less: (K, K) -> bool, values: set<K>, k: nat)
    requires StrictTotal(less) && 1 <= k <= |values|
    ensures exists v :: v in values && Rank(less, values, v) == k
  {
    var l := Listing(less, values);
    ListingSize(less, values);
    PrefixSize(less, l, k - 1);
    SmallerAreListedBefore(less, l, values, k - 1);
    assert l[k - 1] in l && Rank(less, values, l[k - 1]) == k;
  }

  lemma PrefixSize<K(!new)>(less: (K, K) -> bool, l: seq<K>, n: nat)
    requires StrictTotal(less) && Ascending(less, l) && n <= |l|
    ensures |Elements(l[..n])| == n
  {
    AscendingIsDistinct(less, l);
    DistinctSize(l[..n]);
  }

  lemma SmallerAreListedBefore<K(!new)>(less: (K, K) -> bool, l: seq<K>, values: set<K>, i: nat)
    requires StrictTotal(less) && Ascending(less, l) && (forall x :: x in l <==> x in values) && i < |l|
    ensures Elements(l[..i]) == Smaller(less, values, l[i])
  {
    assert forall j | i < j < |l| :: less(l[i], l[j]);
    forall u | u in Smaller(less, values, l[i]) ensures u in l[..i] {
      assert u in l;
      var j :| 0 <= j < |l| && l[j] == u;
    }
    assert forall j | 0 <= j < i :: l[j] in l && less(l[j], l[i]);
  }

  lemma OneMoreElement<K>(keys: seq<K>, i: nat)
    requires i < |keys|
    ensures Elements(keys[..i + 1]) == Elements(keys[..i]) + {keys[i]}
  {
    assert keys[..i + 1] == keys[..i] + [keys[i]];
  }

  /** In sorted keys, what is smaller than a key comes before it. */
  lemma SmallerComeFirst<K(!new)>(less: (K, K) -> bool, keys: seq<K>, i: nat)
    requires StrictTotal(less) && NonDescending(less, keys) && i < |keys|
    ensures Smaller(less, Elements(keys), keys[i]) == Elements(keys[..i]) - {keys[i]}
  {
    var v := keys[i];
    forall u | u in Elements(keys[..i]) - {v} ensures u in Smaller(less, Elements(keys), v) {
      var j :| 0 <= j < i && keys[j] == u;
      assert !less(v, u);
    }
    forall u | u in Smaller(less, Elements(keys), v) ensures u in Elements(keys[..i]) {
      var j :| 0 <= j < |keys| && keys[j] == u;
      assert j < i && keys[..i][j] == u;
    }
  }

  /** A key has been seen exactly when it equals the key before it. */
  lemma SeenMeansEqual<K(!new)>(less: (K, K) -> bool, keys: seq<K>, i: nat)
    requires StrictTotal(less) && NonDescending(less, keys) && i < |keys|
    ensures keys[i] in Elements(keys[..i]) <==> i > 0 && !less(keys[i - 1], keys[i])
  {
    if i > 0 {
      assert keys[..i][i - 1] in keys[..i];
      assert !less(keys[i], keys[i - 1]);
      if keys[i] in keys[..i] {
        var j :| 0 <= j < i && keys[j] == keys[i];
        if j < i - 1 { assert !less(keys[i - 1], keys[j]); }
      }
    }
  }

  /** Going through sorted keys, the rank is the number of values seen, and it grows exactly when
      the value changes. */
  lemma NextRank<K(!new)>(less: (K, K) -> bool, keys: seq<K>, i: nat)
    requires StrictTotal(less) && NonDescending(less, keys) && i < |keys|
    ensures Rank(less, Elements(keys), keys[i]) == |Elements(keys[..i + 1])|
    ensures |Elements(keys[..i + 1])| == |Elements(keys[..i])| + if i == 0 || less(keys[i - 1], keys[i]) then 1 else 0
  {
    var before, v := Elements(keys[..i]), keys[i];
    OneMoreElement(keys, i);
    SmallerComeFirst(less, keys, i);
    SeenMeansEqual(less, keys, i);
    assert before + {v} == (before - {v}) + {v};
    if v in before { assert before + {v} == before; }
  }

  /** Number the distinct values of sorted keys: every key gets its dense rank. */
  method DenseRanks<K(!new)>(less: (K, K) -> bool, keys: seq<K>) returns (ranks: seq<nat>)
    requires StrictTotal(less) && NonDescending(less, keys)
    ensures |ranks| == |keys| && forall i | 0 <= i < |keys| :: ranks[i] == Rank(less, Elements(keys), keys[i])
  {
    ranks := [];
    var rank: nat := 0;
    for i := 0 to |keys|
      invariant rank == |Elements(keys[..i])|
      invariant |ranks| == i && forall j | 0 <= j < i :: ranks[j] == Rank(less, Elements(keys), keys[j])
    {
      NextRank(less, keys, i);
      if i == 0 || less(keys[i - 1], keys[i]) {
        rank := rank + 1;
      }
      ranks := ranks + [rank];
    }
  }

  // ----- keys that number the elements -----

  lemma {:induction false} CountUp(ks: seq<int>)
    requires (forall i | 0 <= i < |ks| :: 0 <= ks[i] < |ks|) && forall i, j | 0 <= i < j < |ks| :: ks[i] < ks[j]
    ensures forall i | 0 <= i < |ks| :: ks[i] == i
    decreases |ks|
  {
    if ks != [] {
      var last := |ks| - 1;
      var front := ks[..last];
      assert forall i | 0 <= i < last :: front[i] < ks[last];
      CountUp(front);
      assert forall i | 0 <= i < last :: ks[i] == front[i];
      if last > 0 { assert ks[last - 1] == last - 1; }
    }
  }

  /** A permutation that is sorted by a key which numbers the elements is the original sequence. */
  lemma SortedByNumber<T(!new)>(sorted: seq<T>, original: seq<T>, number: T -> int)
    requires multiset(sorted) == multiset(original)
    requires forall i | 0 <= i < |original| :: number(original[i]) == i
    requires forall i, j | 0 <= i < j < |sorted| :: number(sorted[i]) <= number(sorted[j])
    ensures sorted == original
  {
    PermutationElements(sorted, original);
    forall i | 0 <= i < |sorted| ensures 0 <= number(sorted[i]) < |sorted| && sorted[i] == original[number(sorted[i])] {
      assert sorted[i] in Elements(original);
      var j :| 0 <= j < |original| && original[j] == sorted[i];
    }
    DistinctCounts(original);
    CountsDistinct(sorted);
    forall i, j | 0 <= i < j < |sorted| ensures number(sorted[i]) < number(sorted[j]) {
      assert sorted[i] != sorted[j];
    }
    var ks := seq(|sorted|, i requires 0 <= i < |sorted| => number(sorted[i]));
    CountUp(ks);
    forall i | 0 <= i < |sorted| ensures sorted[i] == original[i] {
      assert ks[i] == i;
    }
  }
}
