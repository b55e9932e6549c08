/** The live sentinel (`run_live_detection.py`): the bounded recent-events
    cache it writes, and the state one telemetry batch moves — the
    repeat-offender history, the batch counter and the archival buffer.
    Prediction is an oracle; the new incident ids, the clock, the cache
    write's and the archive upload's outcomes are parameters. */
module Sentinel {
  import opened Wrappers
  import opened Events
  import opened Database

  // ---------------------------------------------------------------------
  // The recent-events cache
  // ---------------------------------------------------------------------

  /** The retention cap of the sentinel's cache. */
  const CacheCap: nat := 200

  /** What the cache file yields: its events, or nothing when it is missing
      or cannot be parsed. */
  function CacheContents(d: Disk): seq<Event> {
    if d.Stored? then d.events else []
  }

  /** `_update_local_cache`: the new events, in order, in front of the old
      cache, cut to the first `CacheCap`; a failed write leaves the file as
      it was. */
  function UpdateLocalCache(d: Disk, incoming: seq<Event>, writeOk: bool): (r: Disk)
    ensures !writeOk ==> r == d
    ensures writeOk ==> r.Stored?
    ensures writeOk ==>
              var current := CacheContents(d);
              var cut := if |incoming| + |current| < CacheCap then |incoming| + |current| else CacheCap;
              && |r.events| == cut
              && (forall i :: 0 <= i < cut && i < |incoming| ==> r.events[i] == incoming[i])
              && (forall i :: |incoming| <= i < cut ==> r.events[i] == current[i - |incoming|])
  {
    if writeOk then
      var merged := incoming + CacheContents(d);
      Stored(if |merged| <= CacheCap then merged else merged[..CacheCap])
    else d
  }

  /** Within the cap nothing is lost: every old and every new event is kept. */
  lemma CacheKeepsAllBelowCap(d: Disk, incoming: seq<Event>)
    requires |incoming| + |CacheContents(d)| <= CacheCap
    ensures multiset(UpdateLocalCache(d, incoming, true).events) == multiset(incoming) + multiset(CacheContents(d))
  {
    assert UpdateLocalCache(d, incoming, true).events == incoming + CacheContents(d);
  }

  /** A batch of at least `CacheCap` new events pushes the old cache out
      entirely. */
  lemma CacheFloodedByLargeBatch(d: Disk, incoming: seq<Event>)
    requires |incoming| >= CacheCap
    ensures UpdateLocalCache(d, incoming, true).events == incoming[..CacheCap]
  {
    assert (incoming + CacheContents(d))[..CacheCap] == incoming[..CacheCap];
  }

  /** `persist_batch`: an empty batch does not touch the file. */
  function PersistBatch(d: Disk, incidents: seq<Event>, writeOk: bool): (r: Disk)
    ensures incidents == [] ==> r == d
    ensures incidents != [] ==> r == UpdateLocalCache(d, incidents, writeOk)
  {
    if incidents == [] then d else UpdateLocalCache(d, incidents, writeOk)
  }

  // ---------------------------------------------------------------------
  // One telemetry record
  // ---------------------------------------------------------------------

  /** The telemetry fields the sentinel copies into an incident. */
  datatype Telemetry = Telemetry(
    sourceIp: Option<string>,
    destinationIp: Option<string>,
    timestamp: Option<string>)

  /** The model's verdict on one record: its label, the confidence of that
      label, and the severity index computed from them. */
  datatype Verdict = Verdict(kind: string, confidence: real, severity: real)

  /** `telemetry.get('source_ip', '0.0.0.0')`: the offender-history key. */
  function OffenderKey(t: Telemetry): string {
    t.sourceIp.GetOr("0.0.0.0")
  }

  /** How many earlier detections the history holds for `k`. */
  function Seen(h: map<string, nat>, k: string): nat {
    if k in h then h[k] else 0
  }

  /** The record is an incident: inference succeeded (None models the
      exception path) and the label is not 'Normal'. */
  predicate Detected(v: Option<Verdict>) {
    v.Some? && v.value.kind != "Normal"
  }

  /** `min(severity * 1.2, 100.0)`. */
  function Escalate(severity: real): (r: real)
    ensures r <= 100.0
    ensures severity * 1.2 <= 100.0 ==> r == severity * 1.2
    ensures 100.0 <= severity * 1.2 ==> r == 100.0
  {
    if severity * 1.2 < 100.0 then severity * 1.2 else 100.0
  }

  /** The incident built for a detection. */
  function Incident(t: Telemetry, v: Verdict, escalated: bool, id: string, now: string): (e: Event)
    ensures e.id == Some(id) && e.status == Some(StatusActive)
    ensures e.predictedLabel == Some(v.kind) && e.escalationFlag == Some(escalated)
    ensures e.riskScore == Some(if escalated then Escalate(v.severity) else v.severity)
    ensures e.sourceIp == t.sourceIp && e.timestamp == Some(t.timestamp.GetOr(now))
  {
    Event(Some(id), Some(t.timestamp.GetOr(now)), t.sourceIp, t.destinationIp,
          Some(v.kind), Some(if escalated then Escalate(v.severity) else v.severity),
          Some(v.confidence), Some(StatusActive), None, Some(escalated))
  }

  /** One pass of the loop body: a detection bumps the offender count of its
      source and is escalated exactly when that source had been seen
      before; anything else changes nothing. */
  function Inspect(h: map<string, nat>, t: Telemetry, v: Option<Verdict>, id: string, now: string)
    : (r: (Option<Event>, map<string, nat>))
    ensures r.0.Some? <==> Detected(v)
    ensures !Detected(v) ==> r.1 == h
    ensures Detected(v) ==>
              && r.1 == h[OffenderKey(t) := Seen(h, OffenderKey(t)) + 1]
              && r.0.value == Incident(t, v.value, Seen(h, OffenderKey(t)) >= 1, id, now)
  {
    if Detected(v) then
      var k := OffenderKey(t);
      var h' := h[k := Seen(h, k) + 1];
      (Some(Incident(t, v.value, h'[k] > 1, id, now)), h')
    else (None, h)
  }

  // ---------------------------------------------------------------------
  // One batch
  // ---------------------------------------------------------------------

  /** The number of detections from source `k` in `batch`. */
  function Hits(batch: seq<Telemetry>, predict: Telemetry -> Option<Verdict>, k: string): nat {
    if |batch| == 0 then 0
    else Hits(batch[..|batch| - 1], predict, k)
         + (if Detected(predict(batch[|batch| - 1])) && OffenderKey(batch[|batch| - 1]) == k then 1 else 0)
  }

  /** The loop over a batch: one outcome per record (its incident, if any)
      and the resulting offender history. Record `i` gets id `mint(i)`. */
  function Scan(batch: seq<Telemetry>, predict: Telemetry -> Option<Verdict>, h: map<string, nat>,
                mint: nat -> string, now: string): (r: (seq<Option<Event>>, map<string, nat>))
    ensures |r.0| == |batch|
    ensures forall k :: Seen(r.1, k) == Seen(h, k) + Hits(batch, predict, k)
    ensures forall i :: 0 <= i < |batch| ==>
              (r.0[i].Some? <==> Detected(predict(batch[i])))
    ensures forall i :: 0 <= i < |batch| && Detected(predict(batch[i])) ==>
              var prior := Seen(h, OffenderKey(batch[i])) + Hits(batch[..i], predict, OffenderKey(batch[i]));
              r.0[i].value == Incident(batch[i], predict(batch[i]).value, prior >= 1, mint(i), now)
    decreases |batch|
  {
    if |batch| == 0 then ([], h)
    else
      var n := |batch| - 1;
      var prev := Scan(batch[..n], predict, h, mint, now);
      var step := Inspect(prev.1, batch[n], predict(batch[n]), mint(n), now);
      ScanHistoryStep(batch[..n], batch[n], predict, h, prev.1);
      ScanOutcomeStep(batch[..n], batch[n], predict, h, mint, now, prev.0, prev.1);
      assert batch == batch[..n] + [batch[n]];
      (prev.0 + [step.0], step.1)
  }

  /** Inspecting one more record extends the offender counts of a prefix. */
  lemma ScanHistoryStep(init: seq<Telemetry>, t: Telemetry, predict: Telemetry -> Option<Verdict>,
                        h: map<string, nat>, mid: map<string, nat>)
    requires forall k :: Seen(mid, k) == Seen(h, k) + Hits(init, predict, k)
    ensures forall k :: Seen(Inspect(mid, t, predict(t), "", "").1, k) == Seen(h, k) + Hits(init + [t], predict, k)
  {
    assert (init + [t])[..|init|] == init;
  }

  /** Inspecting one more record extends the outcomes of a prefix: earlier
      outcomes are kept, the new one is escalated exactly when its source
      was seen before it. */
  lemma ScanOutcomeStep(init: seq<Telemetry>, t: Telemetry, predict: Telemetry -> Option<Verdict>,
                        h: map<string, nat>, mint: nat -> string, now: string,
                        outs: seq<Option<Event>>, mid: map<string, nat>)
    requires |outs| == |init|
    requires forall k :: Seen(mid, k) == Seen(h, k) + Hits(init, predict, k)
    requires forall i :: 0 <= i < |init| ==> (outs[i].Some? <==> Detected(predict(init[i])))
    requires forall i :: 0 <= i < |init| && Detected(predict(init[i])) ==>
               var prior := Seen(h, OffenderKey(init[i])) + Hits(init[..i], predict, OffenderKey(init[i]));
               outs[i].value == Incident(init[i], predict(init[i]).value, prior >= 1, mint(i), now)
    ensures var batch := init + [t];
            var r := outs + [Inspect(mid, t, predict(t), mint(|init|), now).0];
            && (forall i :: 0 <= i < |batch| ==> (r[i].Some? <==> Detected(predict(batch[i]))))
            && (forall i :: 0 <= i < |batch| && Detected(predict(batch[i])) ==>
                  var prior := Seen(h, OffenderKey(batch[i])) + Hits(batch[..i], predict, OffenderKey(batch[i]));
                  r[i].value == Incident(batch[i], predict(batch[i]).value, prior >= 1, mint(i), now))
  {
    var batch := init + [t];
    var r := outs + [Inspect(mid, t, predict(t), mint(|init|), now).0];
    forall i | 0 <= i < |init|
      ensures r[i] == outs[i] && batch[i] == init[i] && batch[..i] == init[..i]
    {
    }
    assert batch[..|init|] == init;
  }

  /** The incidents of the outcomes, in batch order. */
  function Incidents(outcomes: seq<Option<Event>>): (r: seq<Event>)
    ensures |r| <= |outcomes|
    ensures forall e :: e in r <==> Some(e) in outcomes
  {
    if |outcomes| == 0 then []
    else
      assert forall o :: o in outcomes <==> o == outcomes[0] || o in outcomes[1..];
      (if outcomes[0].Some? then [outcomes[0].value] else []) + Incidents(outcomes[1..])
  }

  /** The sentinel's state between batches. */
  datatype State = State(
    modelLoaded: bool,
    history: map<string, nat>,
    counter: nat,
    buffer: seq<Event>,
    cache: Disk)

  /** Bursts between two archival attempts. */
  const ArchiveEvery: nat := 10

  /** `process_telemetry_batch`. Without a model or with an empty batch
      nothing happens. Otherwise the detections are written to the cache
      and appended to the archival buffer, and the counter advances; on the
      tenth batch a non-empty buffer is archived (and cleared only if that
      succeeds) and the counter restarts at 0. */
  function ProcessBatch(s: State, batch: seq<Telemetry>, predict: Telemetry -> Option<Verdict>,
                        mint: nat -> string, now: string, writeOk: bool, archiveOk: bool): (r: State)
    ensures !s.modelLoaded || batch == [] ==> r == s
    ensures r.modelLoaded == s.modelLoaded
    ensures s.modelLoaded && batch != [] ==> r.counter < ArchiveEvery
    ensures s.counter < ArchiveEvery ==> r.counter < ArchiveEvery
  {
    if !s.modelLoaded || batch == [] then s
    else
      var scan := Scan(batch, predict, s.history, mint, now);
      var found := Incidents(scan.0);
      var cache := PersistBatch(s.cache, found, writeOk);
      var buffer := s.buffer + found;
      var counter := s.counter + 1;
      if counter >= ArchiveEvery then
        State(true, scan.1, 0, if buffer != [] && archiveOk then [] else buffer, cache)
      else State(true, scan.1, counter, buffer, cache)
  }

  /** The buffer only grows by this batch's incidents, and is emptied only
      by a successful archival on an archival batch. */
  lemma BufferGrowsOrArchives(s: State, batch: seq<Telemetry>, predict: Telemetry -> Option<Verdict>,
                              mint: nat -> string, now: string, writeOk: bool, archiveOk: bool)
    requires s.modelLoaded && batch != []
    ensures var r := ProcessBatch(s, batch, predict, mint, now, writeOk, archiveOk);
            var found := Incidents(Scan(batch, predict, s.history, mint, now).0);
            && (r.buffer == s.buffer + found || r.buffer == [])
            && (r.buffer == [] && s.buffer + found != [] ==> archiveOk && s.counter + 1 >= ArchiveEvery)
            && (s.counter + 1 < ArchiveEvery ==> r.buffer == s.buffer + found && r.counter == s.counter + 1)
  {
  }

  /** Every buffered incident is an active, non-Normal detection, as long as
      the buffer held only such incidents before. */
  lemma BufferHoldsDetections(s: State, batch: seq<Telemetry>, predict: Telemetry -> Option<Verdict>,
                              mint: nat -> string, now: string, writeOk: bool, archiveOk: bool)
    requires forall e :: e in s.buffer ==> e.status == Some(StatusActive) && e.predictedLabel != Some("Normal")
    ensures var r := ProcessBatch(s, batch, predict, mint, now, writeOk, archiveOk);
            forall e :: e in r.buffer ==> e.status == Some(StatusActive) && e.predictedLabel != Some("Normal")
  {
    if s.modelLoaded && batch != [] {
      var scan := Scan(batch, predict, s.history, mint, now);
      forall e | e in Incidents(scan.0)
        ensures e.status == Some(StatusActive) && e.predictedLabel != Some("Normal")
      {
        var i :| 0 <= i < |scan.0| && scan.0[i] == Some(e);
      }
    }
  }

  /** The offender history counts detections: after a batch each source
      has its earlier count plus its detections in the batch. */
  lemma HistoryCountsDetections(s: State, batch: seq<Telemetry>, predict: Telemetry -> Option<Verdict>,
                                mint: nat -> string, now: string, writeOk: bool, archiveOk: bool, k: string)
    requires s.modelLoaded
    ensures Seen(ProcessBatch(s, batch, predict, mint, now, writeOk, archiveOk).history, k)
            == Seen(s.history, k) + Hits(batch, predict, k)
  {
    if batch == [] {
      assert Hits(batch, predict, k) == 0;
    }
  }

  /** A source's first detection is not escalated; its second is, even
      within one batch. */
  lemma SecondDetectionEscalates(predict: Telemetry -> Option<Verdict>, t: Telemetry,
                                 mint: nat -> string, now: string)
    requires Detected(predict(t))
    ensures var r := Scan([t, t], predict, map[], mint, now);
            r.0[0].value.escalationFlag == Some(false) && r.0[1].value.escalationFlag == Some(true)
  {
    var b := [t, t];
    assert b[..0] == [];
    assert b[..1] == [t];
    assert b[..1][..0] == [];
    assert Hits([t], predict, OffenderKey(t)) == 1;
  }
}
