/** The security event record shared by every service, the timestamp order
    used by all "newest first" queries, and the `id`-keyed helpers used by
    the persistence layer (upsert and the id deltas of a sync). */
module Events {
  import opened Wrappers
  import opened Text
  import opened Sorting

  /** One stored event. Every field is optional at the storage layer
      (a JSON object may lack any key); fields the core never reads
      (ports, protocol, packet size, metadata) are not modelled. */
  datatype Event = Event(
    id: Option<string>,
    timestamp: Option<string>,
    sourceIp: Option<string>,
    destinationIp: Option<string>,
    predictedLabel: Option<string>,
    riskScore: Option<real>,
    confidence: Option<real>,
    status: Option<string>,
    sourceCountry: Option<string>,
    escalationFlag: Option<bool>)

  const StatusActive: string := "Active"
  const StatusResolved: string := "Resolved"

  /** `event.get('risk_score', 0)`. */
  function Score(e: Event): real {
    e.riskScore.GetOr(0.0)
  }

  // ---------------------------------------------------------------------
  // Newest first
  // ---------------------------------------------------------------------

  /** `x.get('timestamp', '')`: the sort key; a missing timestamp is "". */
  function TimeKey(e: Event): string {
    e.timestamp.GetOr("")
  }

  /** `a` is not newer than `b`. */
  predicate NotNewer(a: Event, b: Event) {
    LessEq(TimeKey(a), TimeKey(b))
  }

  lemma NotNewerTotalPreorder()
    ensures TotalPreorder(NotNewer)
  {
    forall a, b
      ensures NotNewer(a, b) || NotNewer(b, a)
    {
      LessEqTotalOrder(TimeKey(a), TimeKey(b), TimeKey(b));
    }
    forall a, b, c | NotNewer(a, b) && NotNewer(b, c)
      ensures NotNewer(a, c)
    {
      LessEqTotalOrder(TimeKey(a), TimeKey(b), TimeKey(c));
    }
  }

  /** `sorted(data, key=lambda x: x.get('timestamp', ''), reverse=True)`:
      the same events, newest first, events with equal timestamps in their
      original order. */
  function ByRecency(s: seq<Event>): (r: seq<Event>)
    ensures multiset(r) == multiset(s)
    ensures forall e :: e in r <==> e in s
    ensures forall i, j :: 0 <= i < j < |r| ==> LessEq(TimeKey(r[j]), TimeKey(r[i]))
    ensures forall k :: TiedWith(r, k, NotNewer) == TiedWith(s, k, NotNewer)
  {
    NotNewerTotalPreorder();
    SortDescSorted(s, NotNewer);
    forall k
      ensures TiedWith(SortDesc(s, NotNewer), k, NotNewer) == TiedWith(s, k, NotNewer)
    {
      SortDescStable(s, k, NotNewer);
    }
    var r := SortDesc(s, NotNewer);
    assert forall i, j :: 0 <= i < j < |r| ==> NotNewer(r[j], r[i]);
    assert forall e :: e in r <==> e in multiset(s);
    r
  }

  /** `xs[:limit]` when `limit` is a positive number, all of `xs` otherwise
      (`if limit and limit > 0`; Python's None is modelled as 0). */
  function Take<T>(xs: seq<T>, limit: int): (r: seq<T>)
    ensures |r| == if 0 < limit < |xs| then limit else |xs|
    ensures r == xs[..|r|]
  {
    if 0 < limit < |xs| then xs[..limit] else xs
  }

  // ---------------------------------------------------------------------
  // Ids
  // ---------------------------------------------------------------------

  /** The ids carried by the records of `s` (records without id ignored). */
  function Ids(s: seq<Event>): set<string> {
    set i | 0 <= i < |s| && s[i].id.Some? :: s[i].id.value
  }

  /** Permuting records does not change the set of ids. */
  lemma IdsOfPermutation(a: seq<Event>, b: seq<Event>)
    requires multiset(a) == multiset(b)
    ensures Ids(a) == Ids(b)
  {
    forall x | x in Ids(a)
      ensures x in Ids(b)
    {
      var i :| 0 <= i < |a| && a[i].id == Some(x);
      assert a[i] in multiset(b);
      var j :| 0 <= j < |b| && b[j] == a[i];
    }
    forall x | x in Ids(b)
      ensures x in Ids(a)
    {
      var j :| 0 <= j < |b| && b[j].id == Some(x);
      assert b[j] in multiset(a);
      var i :| 0 <= i < |a| && a[i] == b[j];
    }
  }

  lemma IdsOfConcat(a: seq<Event>, b: seq<Event>)
    ensures Ids(a + b) == Ids(a) + Ids(b)
  {
    var ab := a + b;
    forall x | x in Ids(ab)
      ensures x in Ids(a) + Ids(b)
    {
      var i :| 0 <= i < |ab| && ab[i].id == Some(x);
      if i >= |a| {
        assert b[i - |a|] == ab[i];
      }
    }
    forall x | x in Ids(a)
      ensures x in Ids(ab)
    {
      var i :| 0 <= i < |a| && a[i].id == Some(x);
      assert ab[i] == a[i];
    }
    forall x | x in Ids(b)
      ensures x in Ids(ab)
    {
      var j :| 0 <= j < |b| && b[j].id == Some(x);
      assert ab[|a| + j] == b[j];
    }
  }

  /** `{item['id']: item for item in data if 'id' in item}`. */
  function IdMap(s: seq<Event>): (m: map<string, Event>)
    ensures m.Keys == Ids(s)
    ensures forall x :: x in m ==> m[x] in s && m[x].id == Some(x)
    decreases |s|
  {
    if |s| == 0 then map[]
    else
      var init := s[..|s| - 1];
      var e := s[|s| - 1];
      var m := IdMap(init);
      assert s == init + [e];
      IdsOfConcat(init, [e]);
      if e.id.Some? then m[e.id.value := e] else m
  }

  /** In the id map the LAST record carrying an id wins. */
  lemma {:induction false} IdMapKeepsLast(s: seq<Event>, i: nat)
    requires i < |s| && s[i].id.Some?
    requires forall j :: i < j < |s| ==> s[j].id != s[i].id
    ensures IdMap(s)[s[i].id.value] == s[i]
    decreases |s|
  {
    var init := s[..|s| - 1];
    assert s == init + [s[|s| - 1]];
    if i < |s| - 1 {
      IdMapKeepsLast(init, i);
    }
  }

  /** The distinct ids of `s`, in order of first appearance (Python set
      iteration order is unspecified; the model fixes this one). */
  function FirstIds(s: seq<Event>): (r: seq<string>)
    ensures forall i, j :: 0 <= i < j < |r| ==> r[i] != r[j]
    ensures forall x :: x in r <==> x in Ids(s)
    decreases |s|
  {
    if |s| == 0 then []
    else
      var init := s[..|s| - 1];
      var e := s[|s| - 1];
      assert s == init + [e];
      IdsOfConcat(init, [e]);
      var prev := FirstIds(init);
      if e.id.Some? && e.id.value !in prev then prev + [e.id.value] else prev
  }

  /** No two records share an `id` value (absent ids included). */
  predicate DistinctIds(s: seq<Event>) {
    forall i, j :: 0 <= i < j < |s| ==> s[i].id != s[j].id
  }

  /** Every record of `r` has an id and is the record the id map of `s`
      keeps for it. */
  predicate KeptBy(r: seq<Event>, s: seq<Event>) {
    forall i :: 0 <= i < |r| ==> r[i].id.Some? && r[i].id.value in IdMap(s) && r[i] == IdMap(s)[r[i].id.value]
  }

  /** One record per id (the one the id map keeps), in first-appearance
      order of the ids. */
  function Dedup(s: seq<Event>): (r: seq<Event>)
    ensures Ids(r) == Ids(s)
    ensures KeptBy(r, s)
    ensures DistinctIds(r)
  {
    var ids := FirstIds(s);
    var m := IdMap(s);
    var r := seq(|ids|, i requires 0 <= i < |ids| => m[ids[i]]);
    assert forall i :: 0 <= i < |r| ==> r[i].id == Some(ids[i]);
    forall x | x in Ids(s)
      ensures x in Ids(r)
    {
      var i :| 0 <= i < |ids| && ids[i] == x;
      assert r[i].id == Some(x);
    }
    r
  }

  /** The records of `s` whose id is in `ids`, in order. */
  function WithIdsIn(s: seq<Event>, ids: set<string>): (r: seq<Event>)
    ensures |r| <= |s|
    ensures multiset(r) <= multiset(s)
    ensures forall e :: e in r <==> e in s && e.id.Some? && e.id.value in ids
    ensures Ids(r) == Ids(s) * ids
  {
    if |s| == 0 then []
    else
      var rest := WithIdsIn(s[1..], ids);
      var keep := s[0].id.Some? && s[0].id.value in ids;
      var r := if keep then [s[0]] + rest else rest;
      assert s == [s[0]] + s[1..];
      IdsOfConcat([s[0]], s[1..]);
      if keep then IdsOfConcat([s[0]], rest); r else r
  }

  // ---------------------------------------------------------------------
  // Upsert by id
  // ---------------------------------------------------------------------

  /** The position of the first record whose `get("id")` equals `id`
      (two records without id match each other, as None == None). */
  function FindId(s: seq<Event>, id: Option<string>): (r: Option<nat>)
    ensures r.Some? ==>
              (r.value < |s| && s[r.value].id == id
                 && forall j :: 0 <= j < r.value ==> s[j].id != id)
    ensures r.None? ==> forall j :: 0 <= j < |s| ==> s[j].id != id
  {
    if |s| == 0 then None
    else if s[0].id == id then Some(0)
    else match FindId(s[1..], id)
      case Some(i) => Some(i + 1)
      case None => None
  }

  /** Replace the first record with the same id in place, or append. */
  function Upsert(s: seq<Event>, e: Event): (r: seq<Event>)
    ensures FindId(s, e.id).Some? ==> r == s[FindId(s, e.id).value := e]
    ensures FindId(s, e.id).None? ==> r == s + [e]
  {
    if |s| == 0 then [e]
    else if s[0].id == e.id then [e] + s[1..]
    else [s[0]] + Upsert(s[1..], e)
  }

  /** No id is carried by two records. */
  ghost predicate UniqueIds(s: seq<Event>) {
    forall i, j :: 0 <= i < j < |s| && s[i].id.Some? ==> s[i].id != s[j].id
  }

  /** Writing the same id twice leaves only the second payload: the first
      write's record is replaced in the very slot it took. */
  lemma {:induction false} UpsertTwice(s: seq<Event>, e1: Event, e2: Event)
    requires e1.id == e2.id
    ensures Upsert(Upsert(s, e1), e2) == Upsert(s, e2)
  {
    if |s| > 0 && s[0].id != e1.id {
      UpsertTwice(s[1..], e1, e2);
    }
  }

  /** Upsert never duplicates an id, and the written id is then present. */
  lemma UpsertKeepsIdsUnique(s: seq<Event>, e: Event)
    requires UniqueIds(s)
    ensures UniqueIds(Upsert(s, e))
    ensures Ids(Upsert(s, e)) == Ids(s) + Ids([e])
  {
    var r := Upsert(s, e);
    match FindId(s, e.id)
    case Some(k) =>
      assert r == s[k := e];
      forall x | x in Ids(r)
        ensures x in Ids(s) + Ids([e])
      {
        var i :| 0 <= i < |r| && r[i].id == Some(x);
        if i != k {
          assert s[i] == r[i];
        } else {
          assert [e][0] == e;
        }
      }
      forall x | x in Ids(s)
        ensures x in Ids(r)
      {
        var i :| 0 <= i < |s| && s[i].id == Some(x);
        if i != k {
          assert r[i] == s[i];
        } else {
          assert r[k].id == e.id;
        }
      }
    case None =>
      IdsOfConcat(s, [e]);
  }
}
