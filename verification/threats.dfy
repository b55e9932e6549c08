/** The incident lifecycle (`IncidentLifecycleManager`): the status-filtered
    incident feed and resolving an incident by id. */
module Threats {
  import opened Wrappers
  import opened Text
  import opened Sorting
  import opened Filtering
  import opened Events
  import opened Database

  // ---------------------------------------------------------------------
  // Status filtering
  // ---------------------------------------------------------------------

  /** `event.get('status', 'Active')`. */
  function StatusOf(e: Event): string {
    e.status.GetOr(StatusActive)
  }

  predicate IsResolved(e: Event) {
    StatusOf(e) == StatusResolved
  }

  /** The test "resolved-ness is `resolved`". */
  function ResolvedIs(resolved: bool): Event -> bool {
    e => IsResolved(e) == resolved
  }

  /** The events of `s` whose resolved-ness is `resolved`, in order. */
  function KeepStatus(s: seq<Event>, resolved: bool): (r: seq<Event>)
    ensures |r| <= |s|
    ensures multiset(r) <= multiset(s)
    ensures forall e :: e in r <==> e in s && IsResolved(e) == resolved
  {
    Keep(s, ResolvedIs(resolved))
  }

  /** The status filter keeps the feed's order: filtering a concatenation
      concatenates the filtered parts. */
  lemma KeepStatusConcat(s: seq<Event>, t: seq<Event>, resolved: bool)
    ensures KeepStatus(s + t, resolved) == KeepStatus(s, resolved) + KeepStatus(t, resolved)
  {
    KeepConcat(s, t, ResolvedIs(resolved));
  }

  /** The resolved and the unresolved feed split the raw feed: every event
      lands in exactly one of them, with its multiplicity. */
  lemma StatusPartition(s: seq<Event>)
    ensures multiset(KeepStatus(s, true)) + multiset(KeepStatus(s, false)) == multiset(s)
  {
    KeepPartition(s, ResolvedIs(true), ResolvedIs(false));
  }

  /** So the two feeds together are exactly as long as the raw feed. */
  lemma StatusPartitionLength(s: seq<Event>)
    ensures |KeepStatus(s, true)| + |KeepStatus(s, false)| == |s|
  {
    StatusPartition(s);
    assert |multiset(KeepStatus(s, true)) + multiset(KeepStatus(s, false))| == |multiset(s)|;
  }

  /** A record without a status counts as active. */
  lemma MissingStatusIsActive(e: Event)
    requires e.status.None?
    ensures e in KeepStatus([e], false)
  {
  }

  /** What a feed request asks for. */
  datatype FeedFilter = Everything | OnlyResolved | OnlyUnresolved

  /** `lifecycle_state.lower() if lifecycle_state else 'all'`, then the
      comparisons with 'all' and 'resolved'. */
  function ParseFilter(state: Option<string>): (f: FeedFilter)
    ensures state.None? || state == Some("") ==> f == Everything
    ensures state.Some? && Lower(state.value) == "all" ==> f == Everything
    ensures state.Some? && Lower(state.value) == "resolved" ==> f == OnlyResolved
    ensures state.Some? && state.value != "" ==>
              (Lower(state.value) != "all" && Lower(state.value) != "resolved" ==> f == OnlyUnresolved)
  {
    if state.None? || state.value == "" then Everything
    else
      var target := Lower(state.value);
      if target == "all" then Everything
      else if target == "resolved" then OnlyResolved
      else OnlyUnresolved
  }

  /** The filter is case-insensitive: two spellings that lower to the same
      string ask for the same thing. */
  lemma ParseFilterCaseInsensitive(a: string, b: string)
    requires Lower(a) == Lower(b)
    ensures ParseFilter(Some(a)) == ParseFilter(Some(b))
  {
    assert |a| == |Lower(a)|;
    assert |b| == |Lower(b)|;
  }

  lemma ParseFilterExamples()
    ensures ParseFilter(Some("ALL")) == Everything
    ensures ParseFilter(Some("All")) == Everything
    ensures ParseFilter(Some("Resolved")) == OnlyResolved
    ensures ParseFilter(Some("Active")) == OnlyUnresolved
    ensures ParseFilter(Some("anything")) == OnlyUnresolved
  {
    assert Lower("ALL") == "all";
    assert Lower("All") == "all";
    assert Lower("Resolved") == "resolved";
    assert Lower("Active") == "active";
    assert Lower("anything") == "anything";
  }

  // ---------------------------------------------------------------------
  // The feed
  // ---------------------------------------------------------------------

  /** `start_time and end_time`: both present and non-empty. */
  predicate UsesRange(start: Option<string>, end: Option<string>) {
    start.Some? && start.value != "" && end.Some? && end.value != ""
  }

  /** The raw feed: the range query when both bounds are given, the
      `limit` newest events otherwise. */
  function RawFeed(g: Gateway, limit: int, start: Option<string>, end: Option<string>, remoteOk: bool): (r: seq<Event>)
    ensures UsesRange(start, end) ==> r == QueryRange(g, start.value, end.value, remoteOk).events
    ensures !UsesRange(start, end) ==> r == QueryRecent(g, limit, remoteOk).events
  {
    if UsesRange(start, end) then QueryRange(g, start.value, end.value, remoteOk).events
    else QueryRecent(g, limit, remoteOk).events
  }

  /** `retrieve_incident_feed`: the raw feed unchanged for no filter or
      'all', otherwise exactly its resolved events ('resolved') or exactly
      its unresolved ones (any other string), in feed order. */
  function RetrieveFeed(g: Gateway, limit: int, state: Option<string>,
                        start: Option<string>, end: Option<string>, remoteOk: bool): (r: seq<Event>)
    ensures var raw := RawFeed(g, limit, start, end, remoteOk);
            && multiset(r) <= multiset(raw)
            && (ParseFilter(state) == Everything ==> r == raw)
            && (ParseFilter(state) == OnlyResolved ==> forall e :: e in r <==> e in raw && IsResolved(e))
            && (ParseFilter(state) == OnlyUnresolved ==> forall e :: e in r <==> e in raw && !IsResolved(e))
            && (ParseFilter(state) == OnlyResolved ==> r == KeepStatus(raw, true))
            && (ParseFilter(state) == OnlyUnresolved ==> r == KeepStatus(raw, false))
  {
    var raw := RawFeed(g, limit, start, end, remoteOk);
    match ParseFilter(state)
    case Everything => raw
    case OnlyResolved => KeepStatus(raw, true)
    case OnlyUnresolved => KeepStatus(raw, false)
  }

  // ---------------------------------------------------------------------
  // Triage
  // ---------------------------------------------------------------------

  /** `record['status'] = 'Resolved'`. */
  function Resolve(e: Event): (r: Event)
    ensures r.status == Some(StatusResolved) && IsResolved(r)
    ensures r.id == e.id && TimeKey(r) == TimeKey(e)
    ensures r.(status := e.status) == e
  {
    e.(status := Some(StatusResolved))
  }

  /** `triage_incident(id)`: the whole dataset is fetched (`limit=None`),
      the FIRST record carrying the id is resolved and returned, and the
      whole dataset is written to the LOCAL cache whatever the mode; for an
      absent id nothing is written and None is returned. */
  function Triage(g: Gateway, incidentId: string, fetchOk: bool, write: DiskWrite): (r: (Option<Event>, Gateway))
    ensures r.1.mode == g.mode && r.1.remote == g.remote
    ensures var data := QueryRecent(g, 0, fetchOk).events;
            && (FindId(data, Some(incidentId)).None? ==> r.0.None? && r.1 == g)
            && (FindId(data, Some(incidentId)).Some? ==>
                  var i := FindId(data, Some(incidentId)).value;
                  && r.0 == Some(Resolve(data[i]))
                  && ReadLocal(r.1.local) == data[i := Resolve(data[i])])
  {
    var data := QueryRecent(g, 0, fetchOk).events;
    match FindId(data, Some(incidentId))
    case None => (None, g)
    case Some(i) =>
      var updated := data[i := Resolve(data[i])];
      (Some(updated[i]), UpdateFallbackCache(g, updated, write))
  }

  /** Resolving the first record carrying `id` changes that record's
      status and nothing else. */
  lemma ResolveFirstOnly(data: seq<Event>, id: string)
    requires FindId(data, Some(id)).Some?
    ensures var i := FindId(data, Some(id)).value;
            var written := data[i := Resolve(data[i])];
            && |written| == |data|
            && data[i].id == Some(id)
            && written[i] == Resolve(data[i])
            && (forall j :: 0 <= j < i ==> data[j].id != Some(id))
            && (forall j :: 0 <= j < |data| && j != i ==> written[j] == data[j])
  {
  }

  /** What triage writes: the fetched dataset with one record changed, the
      first one carrying the id, whose status becomes 'Resolved' and
      nothing else; no record before it carries the id. */
  lemma TriageChangesOnlyTarget(g: Gateway, incidentId: string, fetchOk: bool, write: DiskWrite)
    requires Triage(g, incidentId, fetchOk, write).0.Some?
    ensures var data := QueryRecent(g, 0, fetchOk).events;
            var written := ReadLocal(Triage(g, incidentId, fetchOk, write).1.local);
            && |written| == |data|
            && (exists i :: 0 <= i < |data|
                 && data[i].id == Some(incidentId)
                 && written[i] == Resolve(data[i])
                 && (forall j :: 0 <= j < i ==> data[j].id != Some(incidentId))
                 && (forall j :: 0 <= j < |data| && j != i ==> written[j] == data[j]))
  {
    var data := QueryRecent(g, 0, fetchOk).events;
    assert FindId(data, Some(incidentId)).Some?;
    var i := FindId(data, Some(incidentId)).value;
    assert ReadLocal(Triage(g, incidentId, fetchOk, write).1.local) == data[i := Resolve(data[i])];
    ResolveFirstOnly(data, incidentId);
  }

  /** A record read back unchanged keeps the cache order: the written
      dataset is still newest first. */
  lemma ResolvedKeepsOrder(data: seq<Event>, i: nat)
    requires i < |data|
    requires forall a, b :: 0 <= a < b < |data| ==> LessEq(TimeKey(data[b]), TimeKey(data[a]))
    ensures ByRecency(data[i := Resolve(data[i])]) == data[i := Resolve(data[i])]
  {
    var w := data[i := Resolve(data[i])];
    assert forall k :: 0 <= k < |w| ==> TimeKey(w[k]) == TimeKey(data[k]);
    assert SortedDesc(w, NotNewer);
    SortDescOfSorted(w, NotNewer);
  }

  /** Once resolved, the first record carrying `id` is found at the same
      place and resolving it again changes nothing. */
  lemma ResolveAgain(data: seq<Event>, id: string)
    requires FindId(data, Some(id)).Some?
    ensures var i := FindId(data, Some(id)).value;
            var w := data[i := Resolve(data[i])];
            FindId(w, Some(id)) == Some(i) && w[i := Resolve(w[i])] == w
  {
    var i := FindId(data, Some(id)).value;
    var w := data[i := Resolve(data[i])];
    assert w[i].id == Some(id);
    assert forall j :: 0 <= j < i ==> w[j].id != Some(id) by {
      assert forall j :: 0 <= j < i ==> w[j] == data[j];
    }
    match FindId(w, Some(id))
    case Some(k) =>
      assert !(k < i) && !(i < k);
    case None =>
      assert false;
  }

  /** Resolving twice is resolving once: with the same fetch outcome, a
      second triage of the same id returns the same record and leaves the
      cache reading the same. */
  lemma TriageTwice(g: Gateway, incidentId: string, fetchOk: bool, write: DiskWrite, write2: DiskWrite)
    requires Triage(g, incidentId, fetchOk, write).0.Some?
    ensures var (rec1, g1) := Triage(g, incidentId, fetchOk, write);
            var (rec2, g2) := Triage(g1, incidentId, fetchOk, write2);
            rec2 == rec1 && ReadLocal(g2.local) == ReadLocal(g1.local)
  {
    var g1 := Triage(g, incidentId, fetchOk, write).1;
    var data := QueryRecent(g, 0, fetchOk).events;
    assert FindId(data, Some(incidentId)).Some?;
    var i := FindId(data, Some(incidentId)).value;
    var w := data[i := Resolve(data[i])];
    assert ReadLocal(g1.local) == w;
    assert QueryRecent(g1, 0, fetchOk).events == data || QueryRecent(g1, 0, fetchOk).events == w by {
      if !(g.mode == RemoteMode && fetchOk) {
        assert data == ByRecency(ReadLocal(g.local));
        ResolvedKeepsOrder(data, i);
      }
    }
    ResolveAgain(data, incidentId);
  }
}
