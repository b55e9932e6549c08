/** The hybrid persistence layer (`DataAccessLayer`): a local JSON cache held
    behind an in-memory mirror, a remote document collection whose every call
    may fail, and the mode flag that decides which of the two serves reads and
    writes. Every remote call's success, and every disk write's, is a
    parameter; the remote collection is the list of its documents in
    insertion order. */
module Database {
  import opened Wrappers
  import opened Text
  import opened Sorting
  import opened Events

  /** `config.MAX_HISTORY_LIMIT`. */
  const MaxHistoryLimit: nat := 2000
  /** The remote fetch cap of a sync. */
  const SyncCap: nat := 1000

  /** `_is_local_mode`. */
  datatype Mode = LocalMode | RemoteMode

  /** What the local JSON file holds. */
  datatype Disk = Missing | Corrupt | Stored(events: seq<Event>)

  /** The local store: the in-memory mirror (`_memory_cache`, None until the
      first successful load or write) and the file behind it. */
  datatype LocalStore = LocalStore(mirror: Option<seq<Event>>, disk: Disk)

  /** The gateway's whole state. */
  datatype Gateway = Gateway(mode: Mode, local: LocalStore, remote: seq<Event>)

  /** Which backend answered a read, and what it returned. */
  datatype Answer = Answer(events: seq<Event>, servedBy: Mode)

  // ---------------------------------------------------------------------
  // Local store
  // ---------------------------------------------------------------------

  /** `_read_local_data`: the mirror once set; before that the file, where a
      missing or unparseable file reads as empty. */
  function ReadLocal(ls: LocalStore): seq<Event> {
    match ls.mirror
    case Some(data) => data
    case None =>
      match ls.disk
      case Stored(data) => data
      case _ => []
  }

  /** How `with open(path, 'w')` followed by `json.dump` ends: the whole
      list written; `open` raising before anything happens, leaving the old
      file; or the dump raising part-way (this dump has no `default=`, so a
      value JSON cannot encode stops it), leaving the file truncated and
      unparseable. */
  datatype DiskWrite = Written | OpenFailed | DumpFailed

  /** `update_fallback_cache`: the mirror is replaced before the file is
      written, so the new content is what later reads see whatever the disk
      write does; nothing is truncated. */
  function WriteAll(ls: LocalStore, data: seq<Event>, write: DiskWrite): (r: LocalStore)
    ensures ReadLocal(r) == data
    ensures write == Written ==> r.disk == Stored(data)
    ensures write == OpenFailed ==> r.disk == ls.disk
    ensures write == DumpFailed ==> r.disk == Corrupt
  {
    LocalStore(Some(data),
      match write
      case Written => Stored(data)
      case OpenFailed => ls.disk
      case DumpFailed => Corrupt)
  }

  /** A fresh process: the mirror is empty again and only the file is
      left. */
  function Restart(ls: LocalStore): LocalStore {
    LocalStore(None, ls.disk)
  }

  /** What a restarted process reads back after a write: the data after a
      full write, the old file's content after a failed `open`, and nothing
      at all after a dump that failed part-way. */
  lemma WriteThenRestart(ls: LocalStore, data: seq<Event>, write: DiskWrite)
    ensures write == Written ==> ReadLocal(Restart(WriteAll(ls, data, write))) == data
    ensures write == OpenFailed ==> ReadLocal(Restart(WriteAll(ls, data, write))) == ReadLocal(Restart(ls))
    ensures write == DumpFailed ==> ReadLocal(Restart(WriteAll(ls, data, write))) == []
  {
  }

  /** `_query_local_events`: the cache newest first, cut to `limit` when
      `limit` is positive. */
  function QueryRecentLocal(ls: LocalStore, limit: int): (r: seq<Event>)
    ensures |r| == if 0 < limit < |ReadLocal(ls)| then limit else |ReadLocal(ls)|
    ensures multiset(r) <= multiset(ReadLocal(ls))
    ensures forall i, j :: 0 <= i < j < |r| ==> LessEq(TimeKey(r[j]), TimeKey(r[i]))
    ensures forall e :: multiset(r)[e] < multiset(ReadLocal(ls))[e] ==>
              forall i :: 0 <= i < |r| ==> LessEq(TimeKey(e), TimeKey(r[i]))
  {
    NewestPrefix(ReadLocal(ls), limit)
  }

  /** The first `limit` records (all when `limit <= 0`) of `data` newest
      first: a descending selection of the newest records, every record left
      out being no newer than any record kept. */
  function NewestPrefix(data: seq<Event>, limit: int): (r: seq<Event>)
    ensures |r| == if 0 < limit < |data| then limit else |data|
    ensures multiset(r) <= multiset(data)
    ensures forall i, j :: 0 <= i < j < |r| ==> LessEq(TimeKey(r[j]), TimeKey(r[i]))
    ensures forall e :: multiset(r)[e] < multiset(data)[e] ==>
              forall i :: 0 <= i < |r| ==> LessEq(TimeKey(e), TimeKey(r[i]))
  {
    var sorted := ByRecency(data);
    var r := Take(sorted, limit);
    NewestFirstPrefix(data, sorted, |r|);
    r
  }

  /** A prefix of `data` sorted newest first is newest first, and holds the
      newest records of `data`. */
  lemma NewestFirstPrefix(data: seq<Event>, sorted: seq<Event>, m: nat)
    requires m <= |sorted|
    requires multiset(sorted) == multiset(data)
    requires forall i, j :: 0 <= i < j < |sorted| ==> LessEq(TimeKey(sorted[j]), TimeKey(sorted[i]))
    ensures multiset(sorted[..m]) <= multiset(data)
    ensures forall i, j :: 0 <= i < j < m ==> LessEq(TimeKey(sorted[..m][j]), TimeKey(sorted[..m][i]))
    ensures forall e :: multiset(sorted[..m])[e] < multiset(data)[e] ==>
              forall i :: 0 <= i < m ==> LessEq(TimeKey(e), TimeKey(sorted[..m][i]))
  {
    assert SortedDesc(sorted, NotNewer);
    TopOfSorted(data, sorted, m, NotNewer);
  }

  /** `start <= event.get('timestamp', '') < end`. */
  predicate InRange(e: Event, start: string, end: string) {
    LessEq(start, TimeKey(e)) && Less(TimeKey(e), end)
  }

  /** The Mongo filter `{"timestamp": {"$gte": start, "$lt": end}}`: a
      document without a timestamp never matches. */
  predicate InRangeRemote(e: Event, start: string, end: string) {
    e.timestamp.Some? && InRange(e, start, end)
  }

  /** The events of `s` in the half-open range, in order. */
  function FilterRange(s: seq<Event>, start: string, end: string, remote: bool): (r: seq<Event>)
    ensures multiset(r) <= multiset(s)
    ensures forall e :: e in r <==> e in s && (if remote then InRangeRemote(e, start, end) else InRange(e, start, end))
    ensures forall e :: multiset(r)[e]
              == if (if remote then InRangeRemote(e, start, end) else InRange(e, start, end)) then multiset(s)[e] else 0
  {
    if |s| == 0 then []
    else
      var keep := if remote then InRangeRemote(s[0], start, end) else InRange(s[0], start, end);
      var rest := FilterRange(s[1..], start, end, remote);
      assert s == [s[0]] + s[1..];
      if keep then [s[0]] + rest else rest
  }

  /** The local range fallback: exactly the cached events with
      `start <= timestamp < end`, newest first. */
  function QueryRangeLocal(ls: LocalStore, start: string, end: string): (r: seq<Event>)
    ensures forall e :: e in r <==> e in ReadLocal(ls) && InRange(e, start, end)
    ensures multiset(r) <= multiset(ReadLocal(ls))
    ensures forall e :: multiset(r)[e] == if InRange(e, start, end) then multiset(ReadLocal(ls))[e] else 0
    ensures forall i, j :: 0 <= i < j < |r| ==> LessEq(TimeKey(r[j]), TimeKey(r[i]))
  {
    ByRecency(FilterRange(ReadLocal(ls), start, end, false))
  }

  // ---------------------------------------------------------------------
  // Gateway reads
  // ---------------------------------------------------------------------

  /** `query_security_events(limit)`: served by the remote collection when
      the gateway is in remote mode and the call succeeds, by the local cache
      otherwise. A failed remote call only reroutes this one read: reads
      return no new state, so the mode flag is untouched. */
  function QueryRecent(g: Gateway, limit: int, remoteOk: bool): (r: Answer)
    ensures r.servedBy == RemoteMode <==> g.mode == RemoteMode && remoteOk
    ensures var source := if r.servedBy == RemoteMode then g.remote else ReadLocal(g.local);
            && |r.events| == (if 0 < limit < |source| then limit else |source|)
            && multiset(r.events) <= multiset(source)
            && (forall i, j :: 0 <= i < j < |r.events| ==> LessEq(TimeKey(r.events[j]), TimeKey(r.events[i])))
            && (forall e :: multiset(r.events)[e] < multiset(source)[e] ==>
                  forall i :: 0 <= i < |r.events| ==> LessEq(TimeKey(e), TimeKey(r.events[i])))
  {
    if g.mode == RemoteMode && remoteOk then Answer(NewestPrefix(g.remote, limit), RemoteMode)
    else Answer(QueryRecentLocal(g.local, limit), LocalMode)
  }

  /** `query_security_events_by_timerange(start, end)`: inclusive start,
      exclusive end, newest first, from whichever backend answers. */
  function QueryRange(g: Gateway, start: string, end: string, remoteOk: bool): (r: Answer)
    ensures r.servedBy == RemoteMode <==> g.mode == RemoteMode && remoteOk
    ensures r.servedBy == RemoteMode ==>
              forall e :: e in r.events <==> e in g.remote && InRangeRemote(e, start, end)
    ensures r.servedBy == LocalMode ==>
              forall e :: e in r.events <==> e in ReadLocal(g.local) && InRange(e, start, end)
    ensures r.servedBy == RemoteMode ==>
              forall e :: multiset(r.events)[e] == if InRangeRemote(e, start, end) then multiset(g.remote)[e] else 0
    ensures r.servedBy == LocalMode ==>
              forall e :: multiset(r.events)[e] == if InRange(e, start, end) then multiset(ReadLocal(g.local))[e] else 0
    ensures forall i, j :: 0 <= i < j < |r.events| ==> LessEq(TimeKey(r.events[j]), TimeKey(r.events[i]))
  {
    if g.mode == RemoteMode && remoteOk then
      Answer(ByRecency(FilterRange(g.remote, start, end, true)), RemoteMode)
    else Answer(QueryRangeLocal(g.local, start, end), LocalMode)
  }

  // ---------------------------------------------------------------------
  // Gateway writes
  // ---------------------------------------------------------------------

  /** `_save_local_event`: upsert into the cache, then write it all back. */
  function SaveLocal(ls: LocalStore, e: Event, write: DiskWrite): (r: LocalStore)
    ensures ReadLocal(r) == Upsert(ReadLocal(ls), e)
  {
    WriteAll(ls, Upsert(ReadLocal(ls), e), write)
  }

  /** `save_event`: an upsert keyed on `id` against the remote collection in
      remote mode; a failed remote write, or an event without `id` (the
      source's `event_data["id"]` raises), lands in the local cache instead.
      The mode never changes. */
  function SaveEvent(g: Gateway, e: Event, remoteOk: bool, write: DiskWrite): (r: Gateway)
    ensures r.mode == g.mode
    ensures g.mode == RemoteMode && remoteOk && e.id.Some? ==>
              r.local == g.local && r.remote == Upsert(g.remote, e)
    ensures !(g.mode == RemoteMode && remoteOk && e.id.Some?) ==>
              r.remote == g.remote && ReadLocal(r.local) == Upsert(ReadLocal(g.local), e)
  {
    if g.mode == RemoteMode && remoteOk && e.id.Some? then g.(remote := Upsert(g.remote, e))
    else g.(local := SaveLocal(g.local, e, write))
  }

  /** `update_fallback_cache` at gateway level: always the LOCAL store,
      whatever the mode. */
  function UpdateFallbackCache(g: Gateway, data: seq<Event>, write: DiskWrite): (r: Gateway)
    ensures r.mode == g.mode && r.remote == g.remote
    ensures ReadLocal(r.local) == data
  {
    g.(local := WriteAll(g.local, data, write))
  }

  // ---------------------------------------------------------------------
  // Mode transitions
  // ---------------------------------------------------------------------

  /** `_initialize_connection`: remote mode exactly when the startup probe
      succeeds. */
  function Connect(local: LocalStore, remote: seq<Event>, probeOk: bool): (g: Gateway)
    ensures g.mode == RemoteMode <==> probeOk
    ensures g.local == local && g.remote == remote
  {
    Gateway(if probeOk then RemoteMode else LocalMode, local, remote)
  }

  /** `check_connection`: true at once in remote mode (no probe); in local
      mode the probe decides, and only a successful probe switches to
      remote. Nothing but the mode ever changes. */
  function CheckConnection(g: Gateway, probeOk: bool): (r: (bool, Gateway))
    ensures r.1.local == g.local && r.1.remote == g.remote
    ensures r.0 <==> r.1.mode == RemoteMode
    ensures g.mode == RemoteMode ==> r.0
    ensures g.mode == LocalMode ==> (r.0 <==> probeOk)
  {
    if g.mode == RemoteMode then (true, g)
    else if probeOk then (true, g.(mode := RemoteMode))
    else (false, g)
  }

  /** `set_mode`: "local" forces local mode and succeeds, "cloud" is
      `check_connection`, anything else fails and changes nothing. */
  function SetMode(g: Gateway, mode: string, probeOk: bool): (r: (bool, Gateway))
    ensures r.1.local == g.local && r.1.remote == g.remote
    ensures mode == "local" ==> r.0 && r.1.mode == LocalMode
    ensures mode == "cloud" ==> r == CheckConnection(g, probeOk)
    ensures mode != "local" && mode != "cloud" ==> !r.0 && r.1 == g
  {
    if mode == "local" then (true, g.(mode := LocalMode))
    else if mode == "cloud" then CheckConnection(g, probeOk)
    else (false, g)
  }

  /** `get_db_handle() is not None`: native aggregation is possible exactly in
      remote mode. */
  predicate HasNativeHandle(g: Gateway) {
    g.mode == RemoteMode
  }

  // ---------------------------------------------------------------------
  // Bidirectional sync
  // ---------------------------------------------------------------------

  /** `find().sort('timestamp', DESCENDING).limit(1000)`: the sync only sees
      the newest `SyncCap` remote documents. */
  function CloudWindow(remote: seq<Event>): (r: seq<Event>)
    ensures |r| <= SyncCap
    ensures |r| == if SyncCap < |remote| then SyncCap else |remote|
    ensures multiset(r) <= multiset(remote)
    ensures |remote| <= SyncCap ==> multiset(r) == multiset(remote)
    ensures forall i, j :: 0 <= i < j < |r| ==> LessEq(TimeKey(r[j]), TimeKey(r[i]))
    ensures forall e :: multiset(r)[e] < multiset(remote)[e] ==>
              forall i :: 0 <= i < |r| ==> LessEq(TimeKey(e), TimeKey(r[i]))
  {
    NewestPrefix(remote, SyncCap)
  }

  /** What a sync moves: the local records whose id the cloud window lacks
      (to push) and the window's records whose id the cache lacks (to pull),
      one record per id (the last one carrying it), records without id
      ignored. */
  datatype Delta = Delta(toPush: seq<Event>, toPull: seq<Event>)

  function ComputeDelta(localData: seq<Event>, cloudData: seq<Event>): (d: Delta)
    ensures Ids(d.toPush) == Ids(localData) - Ids(cloudData)
    ensures Ids(d.toPull) == Ids(cloudData) - Ids(localData)
    ensures KeptBy(d.toPush, localData) && DistinctIds(d.toPush)
    ensures KeptBy(d.toPull, cloudData) && DistinctIds(d.toPull)
  {
    var push := SelectIds(localData, Ids(localData) - Ids(cloudData));
    var pull := SelectIds(cloudData, Ids(cloudData) - Ids(localData));
    Delta(push, pull)
  }

  /** One record per id of `ids` present in `s`: the record the id map
      keeps. */
  function SelectIds(s: seq<Event>, ids: set<string>): (r: seq<Event>)
    ensures Ids(r) == Ids(s) * ids
    ensures KeptBy(r, s)
    ensures DistinctIds(r)
  {
    var dd := Dedup(s);
    var r := WithIdsIn(dd, ids);
    KeptBySubsequence(r, dd, s);
    PreservesDistinctIds(dd, ids);
    r
  }

  lemma KeptBySubsequence(r: seq<Event>, dd: seq<Event>, s: seq<Event>)
    requires KeptBy(dd, s)
    requires forall e :: e in r ==> e in dd
    ensures KeptBy(r, s)
  {
    forall i | 0 <= i < |r|
      ensures r[i].id.Some? && r[i].id.value in IdMap(s) && r[i] == IdMap(s)[r[i].id.value]
    {
      assert r[i] in dd;
      var k :| 0 <= k < |dd| && dd[k] == r[i];
    }
  }

  lemma {:induction false} PreservesDistinctIds(s: seq<Event>, ids: set<string>)
    requires DistinctIds(s)
    ensures DistinctIds(WithIdsIn(s, ids))
  {
    if |s| > 0 {
      var tail := s[1..];
      assert DistinctIds(tail) by {
        assert forall i :: 0 <= i < |tail| ==> tail[i] == s[i + 1];
      }
      PreservesDistinctIds(tail, ids);
      var rest := WithIdsIn(tail, ids);
      if s[0].id.Some? && s[0].id.value in ids {
        assert WithIdsIn(s, ids) == [s[0]] + rest;
        forall e | e in rest
          ensures e.id != s[0].id
        {
          var k :| 0 <= k < |tail| && tail[k] == e;
          assert s[k + 1] == e;
        }
        DistinctCons(s[0], rest);
      } else {
        assert WithIdsIn(s, ids) == rest;
      }
    }
  }

  /** A record whose id no record of `rest` carries keeps ids distinct. */
  lemma DistinctCons(x: Event, rest: seq<Event>)
    requires DistinctIds(rest)
    requires forall e :: e in rest ==> e.id != x.id
    ensures DistinctIds([x] + rest)
  {
    var r := [x] + rest;
    forall i, j | 0 <= i < j < |r|
      ensures r[i].id != r[j].id
    {
      assert r[j] == rest[j - 1];
      if i > 0 {
        assert r[i] == rest[i - 1];
      } else {
        assert rest[j - 1] in rest;
      }
    }
  }

  /** `synchronize_state`. In local mode nothing happens. A failed cloud
      fetch aborts and forces local mode with both stores untouched.
      Otherwise the records to push are appended to the remote collection
      (`insert_many`, unordered: only the ids in `accepted` land) and, when
      there is something to pull, the cache becomes the old cache plus the
      pulled records, newest first, written back in full. A failed push does
      not change the mode. */
  function Synchronize(g: Gateway, fetchOk: bool, accepted: set<string>, write: DiskWrite): (r: Gateway)
    ensures g.mode == LocalMode ==> r == g
    ensures g.mode == RemoteMode && !fetchOk ==> r == g.(mode := LocalMode)
    ensures g.mode == RemoteMode && fetchOk ==> r.mode == RemoteMode
  {
    if g.mode == LocalMode then g
    else if !fetchOk then g.(mode := LocalMode)
    else
      var localData := ReadLocal(g.local);
      var d := ComputeDelta(localData, CloudWindow(g.remote));
      Gateway(RemoteMode, PullStep(g.local, localData, d.toPull, write), PushStep(g.remote, d.toPush, accepted))
  }

  /** Step 3 of a sync: `insert_many(to_push, ordered=False)` when there is
      something to push. */
  function PushStep(remote: seq<Event>, toPush: seq<Event>, accepted: set<string>): seq<Event> {
    if toPush != [] then remote + WithIdsIn(toPush, accepted) else remote
  }

  /** Step 4 of a sync: when there is something to pull, the cache is
      rewritten with the old records plus the pulled ones, newest first. */
  function PullStep(ls: LocalStore, localData: seq<Event>, toPull: seq<Event>, write: DiskWrite): LocalStore {
    if toPull != [] then WriteAll(ls, ByRecency(localData + toPull), write) else ls
  }
}
