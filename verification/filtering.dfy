/** Order-preserving filtering of a list by a test, the shape of the
    services' `[x for x in xs if test(x)]` loops. */
module Filtering {

  /** The elements of `s` that pass `p`, in order. */
  function Keep<T(==,!new)>(s: seq<T>, p: T -> bool): (r: seq<T>)
    ensures |r| <= |s|
    ensures multiset(r) <= multiset(s)
    ensures forall x :: x in r <==> x in s && p(x)
  {
    if |s| == 0 then []
    else
      assert s == [s[0]] + s[1..];
      (if p(s[0]) then [s[0]] else []) + Keep(s[1..], p)
  }

  /** Keeping works element by element: keeping from a concatenation
      concatenates what is kept from the parts. */
  lemma {:induction false} KeepConcat<T(!new)>(s: seq<T>, t: seq<T>, p: T -> bool)
    ensures Keep(s + t, p) == Keep(s, p) + Keep(t, p)
  {
    if |s| == 0 {
      assert s + t == t;
    } else {
      assert (s + t)[0] == s[0];
      assert (s + t)[1..] == s[1..] + t;
      KeepConcat(s[1..], t, p);
    }
  }

  /** `[f(x) for x in s if p(x)]`: the images of the elements passing `p`,
      in order. */
  function KeepMap<T(!new), U(==,!new)>(s: seq<T>, p: T -> bool, f: T -> U): (r: seq<U>)
    ensures |r| <= |s|
    ensures forall y :: y in r <==> exists x :: x in s && p(x) && y == f(x)
  {
    if |s| == 0 then []
    else
      assert forall x :: x in s <==> x == s[0] || x in s[1..];
      (if p(s[0]) then [f(s[0])] else []) + KeepMap(s[1..], p, f)
  }

  /** Mapping the kept elements keeps their order: the result for a
      concatenation is the results for the parts, in turn. */
  lemma {:induction false} KeepMapConcat<T(!new), U(!new)>(s: seq<T>, t: seq<T>, p: T -> bool, f: T -> U)
    ensures KeepMap(s + t, p, f) == KeepMap(s, p, f) + KeepMap(t, p, f)
  {
    if |s| == 0 {
      assert s + t == t;
    } else {
      var h := if p(s[0]) then [f(s[0])] else [];
      assert (s + t)[0] == s[0];
      assert (s + t)[1..] == s[1..] + t;
      assert KeepMap(s + t, p, f) == h + KeepMap(s[1..] + t, p, f);
      KeepMapConcat(s[1..], t, p, f);
      assert h + (KeepMap(s[1..], p, f) + KeepMap(t, p, f)) == (h + KeepMap(s[1..], p, f)) + KeepMap(t, p, f);
    }
  }

  /** A test and its negation split a list: every element is kept by
      exactly one of them, with its multiplicity. */
  lemma {:induction false} KeepPartition<T(!new)>(s: seq<T>, p: T -> bool, q: T -> bool)
    requires forall x :: q(x) == !p(x)
    ensures multiset(Keep(s, p)) + multiset(Keep(s, q)) == multiset(s)
  {
    if |s| > 0 {
      var a, t := [s[0]], s[1..];
      assert s == a + t;
      KeepPartition(t, p, q);
      KeepConcat(a, t, p);
      KeepConcat(a, t, q);
      KeepSingle(s[0], p, q);
      SplitsJoin(Keep(a, p), Keep(a, q), a, Keep(t, p), Keep(t, q), t);
    }
  }

  /** One element is kept by exactly one of a test and its negation. */
  lemma KeepSingle<T(!new)>(x: T, p: T -> bool, q: T -> bool)
    requires forall x :: q(x) == !p(x)
    ensures multiset(Keep([x], p)) + multiset(Keep([x], q)) == multiset([x])
  {
    assert [x][1..] == [];
  }

  /** Splits of two lists join into a split of their concatenation. */
  lemma SplitsJoin<T>(a1: seq<T>, a2: seq<T>, a: seq<T>, b1: seq<T>, b2: seq<T>, b: seq<T>)
    requires multiset(a1) + multiset(a2) == multiset(a)
    requires multiset(b1) + multiset(b2) == multiset(b)
    ensures multiset(a1 + b1) + multiset(a2 + b2) == multiset(a + b)
  {
  }
}
