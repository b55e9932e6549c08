/** Counting by key, as the services do with a Python dict
    (`counts[k] = counts.get(k, 0) + 1`) or a `collections.Counter`: one entry
    per distinct key, in order of first appearance, plus `most_common(n)`. */
module Tally {
  import opened Sorting

  /** One histogram entry: `{"name": key, "value": n}`. */
  datatype Count<K> = Count(key: K, n: nat)

  /** Number of times `k` occurs in `s`. */
  function Occurrences<K(==)>(s: seq<K>, k: K): nat {
    multiset(s)[k]
  }

  /** The keys of a histogram, in order. */
  function Keys<K>(t: seq<Count<K>>): (r: seq<K>)
    ensures |r| == |t|
    ensures forall i :: 0 <= i < |t| ==> r[i] == t[i].key
  {
    seq(|t|, i requires 0 <= i < |t| => t[i].key)
  }

  /** No key appears twice. */
  predicate Distinct<K(==)>(ks: seq<K>) {
    forall i, j :: 0 <= i < j < |ks| ==> ks[i] != ks[j]
  }

  /** `[f(x) for x in s]`. */
  function Project<T, K>(s: seq<T>, f: T -> K): (r: seq<K>)
    ensures |r| == |s|
    ensures forall i :: 0 <= i < |s| ==> r[i] == f(s[i])
  {
    seq(|s|, i requires 0 <= i < |s| => f(s[i]))
  }

  lemma KeysPrepend<K>(c: Count<K>, t: seq<Count<K>>)
    ensures Keys([c] + t) == [c.key] + Keys(t)
  {
  }

  /** A key new to a distinct list keeps it distinct when put in front. */
  lemma DistinctPrepend<K>(x: K, ks: seq<K>)
    requires Distinct(ks) && x !in ks
    ensures Distinct([x] + ks)
  {
    var r := [x] + ks;
    forall i, j | 0 <= i < j < |r|
      ensures r[i] != r[j]
    {
      assert r[j] == ks[j - 1];
      if i > 0 {
        assert r[i] == ks[i - 1];
      }
    }
  }

  /** A value occurs in a projection exactly when some element maps to it. */
  lemma InProject<T, K>(s: seq<T>, f: T -> K, k: K)
    ensures k in Project(s, f) <==> exists x :: x in s && f(x) == k
  {
    if k in Project(s, f) {
      var i :| 0 <= i < |s| && Project(s, f)[i] == k;
      assert s[i] in s;
    }
  }

  /** Sum of the counts. */
  function Total<K>(t: seq<Count<K>>): nat {
    if |t| == 0 then 0 else t[0].n + Total(t[1..])
  }

  lemma {:induction false} TotalConcat<K>(a: seq<Count<K>>, b: seq<Count<K>>)
    ensures Total(a + b) == Total(a) + Total(b)
  {
    if |a| == 0 {
      assert a + b == b;
    } else {
      assert (a + b)[0] == a[0];
      assert (a + b)[1..] == a[1..] + b;
      TotalConcat(a[1..], b);
    }
  }

  /** The count recorded for `k` (0 when `k` has no entry). */
  function CountOf<K(==)>(t: seq<Count<K>>, k: K): nat {
    if |t| == 0 then 0
    else if t[0].key == k then t[0].n
    else CountOf(t[1..], k)
  }

  /** `counts[k] = counts.get(k, 0) + 1`: increments the entry for `k`, or
      appends a new entry `k -> 1` at the end (dict insertion order). */
  function Bump<K(==)>(t: seq<Count<K>>, k: K): (r: seq<Count<K>>)
    ensures Total(r) == Total(t) + 1
  {
    if |t| == 0 then [Count(k, 1)]
    else if t[0].key == k then [Count(k, t[0].n + 1)] + t[1..]
    else
      var r := [t[0]] + Bump(t[1..], k);
      assert r[1..] == Bump(t[1..], k);
      r
  }

  lemma {:induction false} BumpPresent<K>(t: seq<Count<K>>, k: K)
    requires Distinct(Keys(t))
    requires k in Keys(t)
    ensures |Bump(t, k)| == |t| && Keys(Bump(t, k)) == Keys(t)
    ensures forall i :: 0 <= i < |t| ==>
              Bump(t, k)[i].n == t[i].n + (if t[i].key == k then 1 else 0)
  {
    assert Keys(t)[0] == t[0].key;
    if t[0].key != k {
      assert Keys(t) == [t[0].key] + Keys(t[1..]);
      BumpPresent(t[1..], k);
      var rest := Bump(t[1..], k);
      assert Bump(t, k) == [t[0]] + rest;
      assert Keys(Bump(t, k)) == [t[0].key] + Keys(rest);
    } else {
      assert Keys(Bump(t, k)) == Keys(t);
      forall i | 0 < i < |t|
        ensures t[i].key != k
      {
        assert Keys(t)[0] != Keys(t)[i];
      }
    }
  }

  lemma {:induction false} BumpAbsent<K>(t: seq<Count<K>>, k: K)
    requires k !in Keys(t)
    ensures Bump(t, k) == t + [Count(k, 1)]
  {
    if |t| > 0 {
      assert Keys(t) == [t[0].key] + Keys(t[1..]);
      BumpAbsent(t[1..], k);
    }
  }

  /** `for x in s: counts[x] += 1` over a table that already has an entry
      for every key of `s`: each entry gains the occurrences of its key. */
  function BumpAll<K(==)>(t: seq<Count<K>>, s: seq<K>): (r: seq<Count<K>>)
    requires Distinct(Keys(t))
    requires forall i :: 0 <= i < |s| ==> s[i] in Keys(t)
    ensures Keys(r) == Keys(t)
    ensures forall i :: 0 <= i < |t| ==> r[i].n == t[i].n + Occurrences(s, t[i].key)
    ensures Total(r) == Total(t) + |s|
    decreases |s|
  {
    if |s| == 0 then t
    else
      var init := s[..|s| - 1];
      var last := s[|s| - 1];
      var prev := BumpAll(t, init);
      assert s == init + [last];
      BumpStep(t, prev, init, last);
      Bump(prev, last)
  }

  /** One step of `BumpAll`: bumping one more present key keeps the
      entries counting what they counted plus that key. */
  lemma BumpStep<K>(t: seq<Count<K>>, prev: seq<Count<K>>, init: seq<K>, last: K)
    requires Distinct(Keys(t)) && last in Keys(t) && Keys(prev) == Keys(t)
    requires forall i :: 0 <= i < |t| ==> prev[i].n == t[i].n + Occurrences(init, t[i].key)
    requires Total(prev) == Total(t) + |init|
    ensures Keys(Bump(prev, last)) == Keys(t)
    ensures forall i :: 0 <= i < |t| ==> Bump(prev, last)[i].n == t[i].n + Occurrences(init + [last], t[i].key)
    ensures Total(Bump(prev, last)) == Total(t) + |init| + 1
  {
    BumpPresent(prev, last);
    forall i | 0 <= i < |t|
      ensures Bump(prev, last)[i].n == t[i].n + Occurrences(init + [last], t[i].key)
    {
      assert prev[i].key == t[i].key by {
        assert Keys(prev)[i] == Keys(t)[i];
      }
      OccurrencesAppend(init, last, t[i].key);
    }
  }

  /** One more occurrence of a key that already has an entry: the entries
      keep counting the occurrences of their keys. */
  lemma BumpKeepsCounts<K>(t: seq<Count<K>>, s: seq<K>, k: K)
    requires Distinct(Keys(t)) && k in Keys(t)
    requires forall i :: 0 <= i < |t| ==> t[i].n == Occurrences(s, t[i].key)
    ensures Keys(Bump(t, k)) == Keys(t)
    ensures forall i :: 0 <= i < |t| ==> Bump(t, k)[i].n == Occurrences(s + [k], Bump(t, k)[i].key)
  {
    BumpPresent(t, k);
    var r := Bump(t, k);
    forall i | 0 <= i < |t|
      ensures r[i].n == Occurrences(s + [k], r[i].key)
    {
      assert r[i].key == t[i].key by {
        assert Keys(r)[i] == Keys(t)[i];
      }
      OccurrencesAppend(s, k, t[i].key);
    }
  }

  lemma OccurrencesAppend<K>(s: seq<K>, k: K, key: K)
    ensures Occurrences(s + [k], key) == Occurrences(s, key) + (if key == k then 1 else 0)
  {
    assert multiset(s + [k]) == multiset(s) + multiset{k};
  }

  /** The histogram of `s`: one entry per distinct element, in order of first
      appearance, each carrying its number of occurrences. */
  function Tally<K(==,!new)>(s: seq<K>): (r: seq<Count<K>>)
    ensures Distinct(Keys(r))
    ensures forall k :: k in Keys(r) <==> k in s
    ensures forall i :: 0 <= i < |r| ==> r[i].n == Occurrences(s, r[i].key) && r[i].n > 0
    ensures Total(r) == |s|
    decreases |s|
  {
    if |s| == 0 then []
    else
      var init := s[..|s| - 1];
      var last := s[|s| - 1];
      assert s == init + [last];
      var prev := Tally(init);
      var r := Bump(prev, last);
      assert forall k :: k in s <==> k in init || k == last;
      if last in Keys(prev) then
        BumpPresent(prev, last);
        r
      else
        BumpAbsent(prev, last);
        assert Keys(r) == Keys(prev) + [last];
        r
  }

  /** `CountOf` reads the count of a key that has an entry. */
  lemma {:induction false} CountOfEntry<K>(t: seq<Count<K>>, i: nat)
    requires Distinct(Keys(t))
    requires i < |t|
    ensures CountOf(t, t[i].key) == t[i].n
  {
    if i > 0 {
      assert Keys(t[1..]) == Keys(t)[1..];
      assert Keys(t)[0] != Keys(t)[i];
      CountOfEntry(t[1..], i - 1);
    }
  }

  /** A key without an entry reads as 0. */
  lemma {:induction false} CountOfAbsent<K>(t: seq<Count<K>>, k: K)
    requires k !in Keys(t)
    ensures CountOf(t, k) == 0
  {
    if |t| > 0 {
      assert Keys(t) == [t[0].key] + Keys(t[1..]);
      CountOfAbsent(t[1..], k);
    }
  }

  /** Reading a tally back: every key reads as its number of occurrences. */
  lemma TallyCounts<K(!new)>(s: seq<K>, k: K)
    ensures CountOf(Tally(s), k) == Occurrences(s, k)
  {
    var t := Tally(s);
    if k in Keys(t) {
      var i :| 0 <= i < |t| && Keys(t)[i] == k;
      CountOfEntry(t, i);
    } else {
      CountOfAbsent(t, k);
    }
  }

  // ---------------------------------------------------------------------
  // Counter.most_common(n)
  // ---------------------------------------------------------------------

  /** Orders entries by count. */
  function CountLe<K>(a: Count<K>, b: Count<K>): bool {
    a.n <= b.n
  }

  lemma CountLeTotalPreorder<K(!new)>()
    ensures TotalPreorder(CountLe<K>)
  {
  }

  /** `Counter.most_common(n)`: the `n` entries with the largest counts, by
      decreasing count, ties in insertion order. */
  function MostCommon<K(==,!new)>(t: seq<Count<K>>, n: nat): (r: seq<Count<K>>)
    ensures |r| == if n < |t| then n else |t|
    ensures multiset(r) <= multiset(t)
    ensures forall i, j :: 0 <= i < j < |r| ==> r[j].n <= r[i].n
    ensures forall c :: multiset(r)[c] < multiset(t)[c] ==>
              forall i :: 0 <= i < |r| ==> c.n <= r[i].n
  {
    var sorted := SortDesc(t, CountLe<K>);
    var m := if n < |t| then n else |t|;
    CountLeTotalPreorder<K>();
    SortDescSorted(t, CountLe<K>);
    TopOfSorted(t, sorted, m, CountLe<K>);
    PrefixCountsDesc(sorted, m);
    PrefixCountsTop(t, sorted, m);
    sorted[..m]
  }

  /** A prefix of a list sorted by decreasing count is itself by decreasing
      count. */
  lemma PrefixCountsDesc<K>(sorted: seq<Count<K>>, m: nat)
    requires m <= |sorted| && SortedDesc(sorted, CountLe<K>)
    ensures forall i, j :: 0 <= i < j < |sorted[..m]| ==> sorted[..m][j].n <= sorted[..m][i].n
  {
    forall i, j | 0 <= i < j < m
      ensures sorted[..m][j].n <= sorted[..m][i].n
    {
      assert CountLe(sorted[j], sorted[i]);
    }
  }

  /** An entry left out of the top `m` of a sorted permutation of `t` counts
      no more than any entry kept. */
  lemma PrefixCountsTop<K(!new)>(t: seq<Count<K>>, sorted: seq<Count<K>>, m: nat)
    requires m <= |sorted| && multiset(sorted) == multiset(t) && SortedDesc(sorted, CountLe<K>)
    ensures forall c :: multiset(sorted[..m])[c] < multiset(t)[c] ==>
              forall i :: 0 <= i < |sorted[..m]| ==> c.n <= sorted[..m][i].n
  {
    TopOfSorted(t, sorted, m, CountLe<K>);
    forall c, i | multiset(sorted[..m])[c] < multiset(t)[c] && 0 <= i < m
      ensures c.n <= sorted[..m][i].n
    {
      assert CountLe(c, sorted[i]);
    }
  }
}
