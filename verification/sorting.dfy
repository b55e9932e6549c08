/** Python's `sorted(xs, key=k, reverse=True)`: a stable sort into descending
    key order. The key order is given as a relation `le` ("key of a <= key of
    b") that must be a total preorder; elements with equal keys keep their
    input order. Modelled as insertion sort. */
module Sorting {

  /** `le` is total and transitive. */
  ghost predicate TotalPreorder<T(!new)>(le: (T, T) -> bool) {
    && (forall a, b :: le(a, b) || le(b, a))
    && (forall a, b, c :: le(a, b) && le(b, c) ==> le(a, c))
  }

  /** Keys never increase from left to right. */
  ghost predicate SortedDesc<T>(s: seq<T>, le: (T, T) -> bool) {
    forall i, j :: 0 <= i < j < |s| ==> le(s[j], s[i])
  }

  /** Equal keys. */
  predicate Tied<T>(a: T, b: T, le: (T, T) -> bool) {
    le(a, b) && le(b, a)
  }

  /** The elements of `s` whose key equals the key of `k`, in order. */
  function TiedWith<T>(s: seq<T>, k: T, le: (T, T) -> bool): (r: seq<T>)
    ensures |r| <= |s|
  {
    if |s| == 0 then []
    else (if Tied(s[0], k, le) then [s[0]] else []) + TiedWith(s[1..], k, le)
  }

  /** Places `x` in front of the first element whose key is not greater. */
  function Insert<T>(x: T, s: seq<T>, le: (T, T) -> bool): (r: seq<T>)
    ensures |r| == |s| + 1
    ensures multiset(r) == multiset(s) + multiset{x}
  {
    if |s| == 0 then [x]
    else if le(s[0], x) then [x] + s
    else
      assert s == [s[0]] + s[1..];
      [s[0]] + Insert(x, s[1..], le)
  }

  /** `sorted(s, key=..., reverse=True)`. */
  function SortDesc<T>(s: seq<T>, le: (T, T) -> bool): (r: seq<T>)
    ensures |r| == |s|
    ensures multiset(r) == multiset(s)
  {
    if |s| == 0 then []
    else
      assert s == [s[0]] + s[1..];
      Insert(s[0], SortDesc(s[1..], le), le)
  }

  lemma {:induction false} InsertSorted<T(!new)>(x: T, s: seq<T>, le: (T, T) -> bool)
    requires TotalPreorder(le)
    requires SortedDesc(s, le)
    ensures SortedDesc(Insert(x, s, le), le)
  {
    if |s| > 0 && !le(s[0], x) {
      InsertSorted(x, s[1..], le);
      var r := Insert(x, s, le);
      var t := Insert(x, s[1..], le);
      assert r == [s[0]] + t;
      assert forall y | y in multiset(t) :: y == x || y in multiset(s[1..]);
      forall j | 0 < j < |r|
        ensures le(r[j], r[0])
      {
        assert r[j] in multiset(t);
        if r[j] != x {
          var k :| 0 <= k < |s[1..]| && s[1..][k] == r[j];
          assert le(s[k + 1], s[0]);
        }
      }
    }
  }

  /** The result of `SortDesc` is in descending key order. */
  lemma {:induction false} SortDescSorted<T(!new)>(s: seq<T>, le: (T, T) -> bool)
    requires TotalPreorder(le)
    ensures SortedDesc(SortDesc(s, le), le)
  {
    if |s| > 0 {
      SortDescSorted(s[1..], le);
      InsertSorted(s[0], SortDesc(s[1..], le), le);
    }
  }

  lemma {:induction false} TiedWithInsert<T(!new)>(x: T, s: seq<T>, k: T, le: (T, T) -> bool)
    requires TotalPreorder(le)
    ensures TiedWith(Insert(x, s, le), k, le)
         == (if Tied(x, k, le) then [x] else []) + TiedWith(s, k, le)
  {
    if |s| > 0 && !le(s[0], x) {
      var t := Insert(x, s[1..], le);
      var rest := TiedWith(s[1..], k, le);
      assert Insert(x, s, le) == [s[0]] + t;
      TiedWithInsert(x, s[1..], k, le);
      TiedWithCons(s[0], t, k, le);
      TiedWithCons(s[0], s[1..], k, le);
      assert s == [s[0]] + s[1..];
      if Tied(x, k, le) {
        assert !Tied(s[0], k, le);
        assert TiedWith(Insert(x, s, le), k, le) == [x] + rest;
        assert TiedWith(s, k, le) == rest;
      } else {
        assert TiedWith(t, k, le) == rest;
        assert [] + TiedWith(s, k, le) == TiedWith(s, k, le);
      }
    } else if |s| > 0 {
      TiedWithCons(x, s, k, le);
    }
  }

  lemma TiedWithCons<T>(a: T, t: seq<T>, k: T, le: (T, T) -> bool)
    ensures TiedWith([a] + t, k, le) == (if Tied(a, k, le) then [a] else []) + TiedWith(t, k, le)
  {
    assert ([a] + t)[1..] == t;
  }

  /** Stability: the elements sharing one key appear in the output in the
      same order as in the input. */
  lemma {:induction false} SortDescStable<T(!new)>(s: seq<T>, k: T, le: (T, T) -> bool)
    requires TotalPreorder(le)
    ensures TiedWith(SortDesc(s, le), k, le) == TiedWith(s, k, le)
  {
    if |s| > 0 {
      SortDescStable(s[1..], k, le);
      TiedWithInsert(s[0], SortDesc(s[1..], le), k, le);
    }
  }

  /** Sorting a sequence already in descending key order changes nothing. */
  lemma {:induction false} SortDescOfSorted<T>(s: seq<T>, le: (T, T) -> bool)
    requires SortedDesc(s, le)
    ensures SortDesc(s, le) == s
  {
    if |s| > 0 {
      SortDescOfSorted(s[1..], le);
      assert s == [s[0]] + s[1..];
      if |s| > 1 {
        assert le(s[1], s[0]);
      }
    }
  }

  /** A prefix of a descending permutation of `s` holds the largest elements
      of `s`: every element left out is no greater than any element kept. */
  lemma TopOfSorted<T(!new)>(s: seq<T>, sorted: seq<T>, m: nat, le: (T, T) -> bool)
    requires m <= |sorted|
    requires multiset(sorted) == multiset(s)
    requires SortedDesc(sorted, le)
    ensures multiset(sorted[..m]) <= multiset(s)
    ensures forall c :: multiset(sorted[..m])[c] < multiset(s)[c] ==>
              forall i :: 0 <= i < m ==> le(c, sorted[i])
  {
    var r := sorted[..m];
    assert sorted == r + sorted[m..];
    assert multiset(sorted) == multiset(r) + multiset(sorted[m..]);
    forall c | multiset(r)[c] < multiset(sorted)[c]
      ensures forall i :: 0 <= i < m ==> le(c, sorted[i])
    {
      assert c in multiset(sorted[m..]);
      var j :| 0 <= j < |sorted[m..]| && sorted[m..][j] == c;
      assert sorted[m + j] == c;
    }
  }
}
