/** Properties of the bidirectional sync (`synchronize_state`): what it
    pushes and pulls, what it never does (truncate, rewrite remote documents,
    touch anything in local mode), when it is a no-op, and its idempotence. */
module SyncProps {
  import opened Wrappers
  import opened Events
  import opened Database

  /** A list of records that all carry distinct ids has one id per record. */
  lemma {:induction false} IdsCountDistinct(s: seq<Event>)
    requires DistinctIds(s)
    requires forall i :: 0 <= i < |s| ==> s[i].id.Some?
    ensures |Ids(s)| == |s|
  {
    if |s| > 0 {
      var tail := s[1..];
      assert DistinctIds(tail) by {
        forall i, j | 0 <= i < j < |tail|
          ensures tail[i].id != tail[j].id
        {
          assert tail[i] == s[i + 1] && tail[j] == s[j + 1];
        }
      }
      IdsCountDistinct(tail);
      assert s == [s[0]] + tail;
      IdsOfConcat([s[0]], tail);
      assert Ids([s[0]]) == {s[0].id.value};
      forall k | 0 <= k < |tail|
        ensures tail[k].id != s[0].id
      {
        assert tail[k] == s[k + 1];
      }
      assert s[0].id.value !in Ids(tail);
    }
  }

  /** Records that all carry an id are absent exactly when their id set is. */
  lemma EmptyIds(s: seq<Event>)
    requires forall i :: 0 <= i < |s| ==> s[i].id.Some?
    ensures s == [] <==> Ids(s) == {}
  {
    if s != [] {
      assert s[0].id.value in Ids(s);
    }
  }

  /** The documents a sync appends to the remote collection: the accepted
      ones among the local records whose id the cloud window lacks. */
  function PushedOf(localData: seq<Event>, cloud: seq<Event>, accepted: set<string>): seq<Event> {
    WithIdsIn(ComputeDelta(localData, cloud).toPush, accepted)
  }

  /** What a successful sync leaves in the remote collection. */
  lemma SyncRemoteIs(g: Gateway, accepted: set<string>, write: DiskWrite)
    requires g.mode == RemoteMode
    ensures Synchronize(g, true, accepted, write).remote
              == g.remote + PushedOf(ReadLocal(g.local), CloudWindow(g.remote), accepted)
  {
    var d := ComputeDelta(ReadLocal(g.local), CloudWindow(g.remote));
    assert Synchronize(g, true, accepted, write).remote == PushStep(g.remote, d.toPush, accepted);
    if d.toPush == [] {
      AppendNothing(g.remote, WithIdsIn(d.toPush, accepted));
    }
  }

  lemma AppendNothing<T>(s: seq<T>, t: seq<T>)
    requires |t| <= 0
    ensures s + t == s
  {
  }

  /** The pushed documents carry exactly the accepted local ids the window
      lacks, one document per id, each a local record. */
  lemma PushShape(localData: seq<Event>, cloud: seq<Event>, accepted: set<string>)
    ensures var p := PushedOf(localData, cloud, accepted);
            && Ids(p) == (Ids(localData) - Ids(cloud)) * accepted
            && DistinctIds(p)
            && (forall e :: e in p ==> e in localData)
  {
    var d := ComputeDelta(localData, cloud).toPush;
    var p := PushedOf(localData, cloud, accepted);
    PreservesDistinctIds(d, accepted);
    forall e | e in p
      ensures e in localData
    {
      var k :| 0 <= k < |d| && d[k] == e;
    }
  }

  /** The push: the remote collection keeps every document it had, in place,
      and gains one document for each local id the capped cloud window lacks
      and the remote accepted; records without id are never pushed. */
  lemma SyncPush(g: Gateway, accepted: set<string>, write: DiskWrite)
    requires g.mode == RemoteMode
    ensures var r := Synchronize(g, true, accepted, write);
            var localData := ReadLocal(g.local);
            var cloud := CloudWindow(g.remote);
            && |g.remote| <= |r.remote|
            && r.remote[..|g.remote|] == g.remote
            && Ids(r.remote[|g.remote|..]) == (Ids(localData) - Ids(cloud)) * accepted
            && DistinctIds(r.remote[|g.remote|..])
            && (forall e :: e in r.remote[|g.remote|..] ==> e in localData)
  {
    var r := Synchronize(g, true, accepted, write);
    var p := PushedOf(ReadLocal(g.local), CloudWindow(g.remote), accepted);
    SyncRemoteIs(g, accepted, write);
    PushShape(ReadLocal(g.local), CloudWindow(g.remote), accepted);
    assert r.remote[..|g.remote|] == g.remote;
    assert r.remote[|g.remote|..] == p;
  }

  /** The cache after the pull step: unchanged when nothing was pulled,
      otherwise the old cache plus the pulled records, newest first. */
  function Merged(before: seq<Event>, pulled: seq<Event>): seq<Event> {
    if pulled != [] then ByRecency(before + pulled) else before
  }

  /** `pulled` is a valid pull of `cloud` into `before`: one record per id
      the window has and the cache lacks, each taken from the window. */
  predicate PullOf(before: seq<Event>, cloud: seq<Event>, pulled: seq<Event>) {
    && Ids(pulled) == Ids(cloud) - Ids(before)
    && DistinctIds(pulled)
    && forall i :: 0 <= i < |pulled| ==> pulled[i].id.Some? && pulled[i] in cloud
  }

  /** The records a sync pulls form a valid pull. */
  lemma PulledFromCloud(before: seq<Event>, cloud: seq<Event>)
    ensures PullOf(before, cloud, ComputeDelta(before, cloud).toPull)
  {
    var pulled := ComputeDelta(before, cloud).toPull;
    forall i | 0 <= i < |pulled|
      ensures pulled[i].id.Some? && pulled[i] in cloud
    {
      assert pulled[i] == IdMap(cloud)[pulled[i].id.value];
    }
  }

  /** Merging never loses or truncates a cached record. */
  lemma MergeKeeps(before: seq<Event>, pulled: seq<Event>)
    ensures multiset(before) <= multiset(Merged(before, pulled))
  {
  }

  /** The merged cache grows by exactly one record per id the window has
      and the cache lacks. */
  lemma MergeCount(before: seq<Event>, cloud: seq<Event>, pulled: seq<Event>)
    requires PullOf(before, cloud, pulled)
    ensures |Merged(before, pulled)| == |before| + |Ids(cloud) - Ids(before)|
  {
    IdsCountDistinct(pulled);
    if pulled != [] {
      assert |ByRecency(before + pulled)| == |before + pulled|;
    } else {
      EmptyIds(pulled);
    }
  }

  /** After merging, the cache carries the ids of both sides. */
  lemma MergeIds(before: seq<Event>, cloud: seq<Event>, pulled: seq<Event>)
    requires PullOf(before, cloud, pulled)
    ensures Ids(Merged(before, pulled)) == Ids(before) + Ids(cloud)
  {
    IdsOfConcat(before, pulled);
    if pulled != [] {
      IdsOfPermutation(ByRecency(before + pulled), before + pulled);
    } else {
      EmptyIds(pulled);
    }
  }

  /** Every record the merge adds comes from the cloud window. */
  lemma MergeFromCloud(before: seq<Event>, cloud: seq<Event>, pulled: seq<Event>)
    requires PullOf(before, cloud, pulled)
    ensures forall e :: multiset(before)[e] < multiset(Merged(before, pulled))[e] ==> e in cloud
  {
    var after := Merged(before, pulled);
    assert multiset(after) == multiset(before) + multiset(pulled);
    forall e | multiset(before)[e] < multiset(after)[e]
      ensures e in cloud
    {
      assert e in multiset(pulled);
      var k :| 0 <= k < |pulled| && pulled[k] == e;
    }
  }

  /** Whenever the window had something new, the merged cache is newest
      first. */
  lemma MergeOrder(before: seq<Event>, cloud: seq<Event>, pulled: seq<Event>)
    requires PullOf(before, cloud, pulled)
    requires Ids(cloud) - Ids(before) != {}
    ensures forall i, j :: 0 <= i < j < |Merged(before, pulled)| ==>
              Text.LessEq(TimeKey(Merged(before, pulled)[j]), TimeKey(Merged(before, pulled)[i]))
  {
    assert pulled != [];
  }

  /** What a successful sync leaves in the cache. */
  lemma SyncLocalIs(g: Gateway, accepted: set<string>, write: DiskWrite)
    requires g.mode == RemoteMode
    ensures ReadLocal(Synchronize(g, true, accepted, write).local)
              == Merged(ReadLocal(g.local), ComputeDelta(ReadLocal(g.local), CloudWindow(g.remote)).toPull)
  {
  }

  /** The pull: the cache keeps every record it had, gains exactly one
      record per id present in the cloud window but not locally (taken from
      the window), is not truncated, and is newest first whenever something
      was pulled. */
  lemma SyncPull(g: Gateway, accepted: set<string>, write: DiskWrite)
    requires g.mode == RemoteMode
    ensures multiset(ReadLocal(g.local)) <= multiset(ReadLocal(Synchronize(g, true, accepted, write).local))
    ensures |ReadLocal(Synchronize(g, true, accepted, write).local)|
            == |ReadLocal(g.local)| + |Ids(CloudWindow(g.remote)) - Ids(ReadLocal(g.local))|
    ensures Ids(ReadLocal(Synchronize(g, true, accepted, write).local))
            == Ids(ReadLocal(g.local)) + Ids(CloudWindow(g.remote))
    ensures forall e :: multiset(ReadLocal(g.local))[e] < multiset(ReadLocal(Synchronize(g, true, accepted, write).local))[e]
              ==> e in CloudWindow(g.remote)
    ensures Ids(CloudWindow(g.remote)) - Ids(ReadLocal(g.local)) != {} ==>
              var after := ReadLocal(Synchronize(g, true, accepted, write).local);
              forall i, j :: 0 <= i < j < |after| ==> Text.LessEq(TimeKey(after[j]), TimeKey(after[i]))
  {
    var before := ReadLocal(g.local);
    var cloud := CloudWindow(g.remote);
    var pulled := ComputeDelta(before, cloud).toPull;
    SyncLocalIs(g, accepted, write);
    PulledFromCloud(before, cloud);
    MergeKeeps(before, pulled);
    MergeCount(before, cloud, pulled);
    MergeIds(before, cloud, pulled);
    MergeFromCloud(before, cloud, pulled);
    if Ids(cloud) - Ids(before) != {} {
      MergeOrder(before, cloud, pulled);
    }
  }

  /** When the cache and the cloud window carry the same ids, a sync pushes
      nothing, pulls nothing and rewrites nothing. */
  lemma SyncNoOpWhenIdsAgree(g: Gateway, accepted: set<string>, write: DiskWrite)
    requires g.mode == RemoteMode
    requires Ids(ReadLocal(g.local)) == Ids(CloudWindow(g.remote))
    ensures Synchronize(g, true, accepted, write) == g
  {
    var d := ComputeDelta(ReadLocal(g.local), CloudWindow(g.remote));
    EmptyIds(d.toPush);
    EmptyIds(d.toPull);
  }

  /** After a fully accepted sync that leaves the remote collection within
      the cap, the cache and the cloud window carry the same ids. */
  lemma SyncAligns(g: Gateway, accepted: set<string>, write: DiskWrite)
    requires g.mode == RemoteMode
    requires Ids(ReadLocal(g.local)) <= accepted
    requires |Synchronize(g, true, accepted, write).remote| <= SyncCap
    ensures Ids(ReadLocal(Synchronize(g, true, accepted, write).local))
            == Ids(CloudWindow(Synchronize(g, true, accepted, write).remote))
  {
    var g1 := Synchronize(g, true, accepted, write);
    var before := ReadLocal(g.local);
    var cloud := CloudWindow(g.remote);
    var pushed := PushedOf(before, cloud, accepted);
    var L := Ids(before);
    var R := Ids(g.remote);
    var P := Ids(pushed);
    assert g1.remote == g.remote + pushed by {
      SyncRemoteIs(g, accepted, write);
    }
    assert Ids(cloud) == R by {
      WindowIdsBelowCap(g.remote);
    }
    assert P == (L - R) * accepted by {
      PushShape(before, cloud, accepted);
    }
    assert Ids(ReadLocal(g1.local)) == L + R by {
      SyncLocalIs(g, accepted, write);
      PulledFromCloud(before, cloud);
      MergeIds(before, cloud, ComputeDelta(before, cloud).toPull);
    }
    assert Ids(CloudWindow(g1.remote)) == R + P by {
      WindowIdsBelowCap(g1.remote);
      IdsOfConcat(g.remote, pushed);
    }
    SetsAlign(L, R, P, accepted);
  }

  lemma SetsAlign(local: set<string>, remote: set<string>, pushed: set<string>, accepted: set<string>)
    requires local <= accepted
    requires pushed == (local - remote) * accepted
    ensures local + remote == remote + pushed
  {
  }

  /** Idempotence: when every push is accepted and the remote collection
      still fits in the sync cap afterwards, a second sync with no
      intervening writes finds nothing to push or pull and changes
      nothing. */
  lemma SyncIdempotent(g: Gateway, accepted: set<string>, write: DiskWrite,
                       accepted2: set<string>, write2: DiskWrite)
    requires g.mode == RemoteMode
    requires Ids(ReadLocal(g.local)) <= accepted
    requires |Synchronize(g, true, accepted, write).remote| <= SyncCap
    ensures Synchronize(Synchronize(g, true, accepted, write), true, accepted2, write2)
            == Synchronize(g, true, accepted, write)
  {
    SyncAligns(g, accepted, write);
    SyncNoOpWhenIdsAgree(Synchronize(g, true, accepted, write), accepted2, write2);
  }

  /** Below the cap the cloud window carries every remote id. */
  lemma WindowIdsBelowCap(remote: seq<Event>)
    requires |remote| <= SyncCap
    ensures Ids(CloudWindow(remote)) == Ids(remote)
  {
    IdsOfPermutation(CloudWindow(remote), remote);
  }

  /** Appending records with fresh, pairwise distinct ids keeps ids unique. */
  lemma AppendFreshIds(prior: seq<Event>, pushed: seq<Event>)
    requires UniqueIds(prior)
    requires DistinctIds(pushed)
    requires Ids(pushed) !! Ids(prior)
    ensures UniqueIds(prior + pushed)
  {
    var all := prior + pushed;
    var n := |prior|;
    forall i, j | 0 <= i < j < |all| && all[i].id.Some?
      ensures all[i].id != all[j].id
    {
      if j >= n {
        assert all[j] == pushed[j - n];
        if i < n {
          assert all[i] == prior[i];
          assert all[i].id.value in Ids(prior);
          if all[j].id.Some? {
            assert all[j].id.value in Ids(pushed);
          }
        } else {
          assert all[i] == pushed[i - n];
        }
      } else {
        assert all[i] == prior[i] && all[j] == prior[j];
      }
    }
  }

  /** While the remote collection fits in the sync cap, a sync never gives
      two remote documents the same id. */
  lemma SyncKeepsRemoteIdsUnique(g: Gateway, accepted: set<string>, write: DiskWrite)
    requires g.mode == RemoteMode
    requires |g.remote| <= SyncCap
    requires UniqueIds(g.remote)
    ensures UniqueIds(Synchronize(g, true, accepted, write).remote)
  {
    var pushed := PushedOf(ReadLocal(g.local), CloudWindow(g.remote), accepted);
    SyncRemoteIs(g, accepted, write);
    PushShape(ReadLocal(g.local), CloudWindow(g.remote), accepted);
    WindowIdsBelowCap(g.remote);
    AppendFreshIds(g.remote, pushed);
  }

  /** An id carried both by `prior` and by `pushed` occurs twice in their
      concatenation, once on each side. */
  lemma SharedIdTwice(prior: seq<Event>, pushed: seq<Event>, x: string)
    requires x in Ids(prior) && x in Ids(pushed)
    ensures exists i, j :: 0 <= i < |prior| <= j < |prior + pushed|
              && (prior + pushed)[i].id == Some(x) && (prior + pushed)[j].id == Some(x)
  {
    var i :| 0 <= i < |prior| && prior[i].id == Some(x);
    var j :| 0 <= j < |pushed| && pushed[j].id == Some(x);
    assert (prior + pushed)[i] == prior[i];
    assert (prior + pushed)[|prior| + j] == pushed[j];
  }

  /** Beyond the cap the guarantee is lost: a local record whose id belongs
      to a remote document older than the newest `SyncCap` is pushed again,
      so the remote collection then holds that id twice. */
  lemma SyncDuplicatesBeyondCap(g: Gateway, accepted: set<string>, write: DiskWrite, x: string)
    requires g.mode == RemoteMode
    requires x in Ids(ReadLocal(g.local)) && x in accepted
    requires x in Ids(g.remote) && x !in Ids(CloudWindow(g.remote))
    ensures exists i, j :: 0 <= i < |g.remote| <= j < |Synchronize(g, true, accepted, write).remote|
              && Synchronize(g, true, accepted, write).remote[i].id == Some(x)
              && Synchronize(g, true, accepted, write).remote[j].id == Some(x)
  {
    var pushed := PushedOf(ReadLocal(g.local), CloudWindow(g.remote), accepted);
    SyncRemoteIs(g, accepted, write);
    PushShape(ReadLocal(g.local), CloudWindow(g.remote), accepted);
    SharedIdTwice(g.remote, pushed, x);
  }
}
