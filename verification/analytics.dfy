/** The dashboard aggregations (`MetricPipeline`): severity, attack-vector
    and geography histograms and the priority-alert selection. Each
    histogram has two strategies: a native aggregation over the WHOLE remote
    collection when the gateway holds a remote handle and the aggregation
    call succeeds, and an application-level count over the fetched window
    otherwise. Each aggregation's success is a parameter. */
module Analytics {
  import opened Wrappers
  import opened Tally
  import opened Events
  import opened Database

  // ---------------------------------------------------------------------
  // Severity buckets
  // ---------------------------------------------------------------------

  /** The four severity buckets, in the order the fallback dict lists them. */
  const SeverityOrder: seq<string> := ["Critical", "High", "Medium", "Low"]

  /** The bucket of a risk score: thresholds 80, 60 and 30, each inclusive. */
  function Bucket(score: real): (r: string)
    ensures r in SeverityOrder
    ensures r == "Critical" <==> score >= 80.0
    ensures r == "High" <==> 60.0 <= score < 80.0
    ensures r == "Medium" <==> 30.0 <= score < 60.0
    ensures r == "Low" <==> score < 30.0
  {
    if score >= 80.0 then "Critical"
    else if score >= 60.0 then "High"
    else if score >= 30.0 then "Medium"
    else "Low"
  }

  /** A higher score never lands in a lower bucket. */
  lemma BucketMonotone(a: real, b: real)
    requires a <= b
    ensures Bucket(a) == "Critical" ==> Bucket(b) == "Critical"
    ensures Bucket(b) == "Low" ==> Bucket(a) == "Low"
  {
  }

  /** The bucket of an event (a missing score counts as 0, hence Low). */
  function SeverityOf(e: Event): string {
    Bucket(Score(e))
  }

  /** A record without a risk score is Low. */
  lemma MissingScoreIsLow(e: Event)
    requires e.riskScore.None?
    ensures SeverityOf(e) == "Low"
  {
  }

  function SeverityLabels(data: seq<Event>): seq<string> {
    Project(data, SeverityOf)
  }

  /** The zeroed buckets the fallback starts from. */
  function ZeroBuckets(): (r: seq<Count<string>>)
    ensures Keys(r) == SeverityOrder
    ensures forall i :: 0 <= i < |r| ==> r[i].n == 0
    ensures Total(r) == 0
  {
    var r := [Count("Critical", 0), Count("High", 0), Count("Medium", 0), Count("Low", 0)];
    assert Keys(r) == SeverityOrder;
    assert Total(r[3..]) == 0;
    assert Total(r[2..]) == 0;
    assert Total(r[1..]) == 0;
    r
  }

  lemma SeverityKeysDistinct()
    ensures Distinct(SeverityOrder)
  {
  }

  /** The fallback loop: each event bumps the bucket of its score. */
  function FillBuckets(data: seq<Event>): (r: seq<Count<string>>)
    ensures Keys(r) == SeverityOrder
    ensures forall i :: 0 <= i < |r| ==> r[i].n == Occurrences(SeverityLabels(data), r[i].key)
    ensures Total(r) == |data|
  {
    var zero := ZeroBuckets();
    var labels := SeverityLabels(data);
    SeverityKeysDistinct();
    BumpAll(zero, labels)
  }

  /** `_compute_risk_histogram`, Strategy B: exactly the four buckets, in
      the order Critical, High, Medium, Low, each counting the events of its
      bucket, together counting every event once. */
  function RiskHistogramFallback(data: seq<Event>): (r: seq<Count<string>>)
    ensures Keys(r) == SeverityOrder
    ensures forall i :: 0 <= i < |r| ==> r[i].n == Occurrences(SeverityLabels(data), r[i].key)
    ensures Total(r) == |data|
  {
    FillBuckets(data)
  }

  /** `results.setdefault(bucket, 0)` for each bucket in turn: an entry
      with count 0 is appended for each key the aggregate lacks. */
  function ZeroFill(t: seq<Count<string>>, keys: seq<string>): (r: seq<Count<string>>)
    requires Distinct(Keys(t))
    ensures |t| <= |r| && r[..|t|] == t
    ensures Distinct(Keys(r))
    ensures forall k :: k in Keys(r) <==> k in Keys(t) || k in keys
    ensures forall i :: |t| <= i < |r| ==> r[i].n == 0
    ensures Total(r) == Total(t)
    decreases |keys|
  {
    if |keys| == 0 then t
    else if keys[0] in Keys(t) then ZeroFill(t, keys[1..])
    else
      var t' := t + [Count(keys[0], 0)];
      assert Keys(t') == Keys(t) + [keys[0]];
      TotalConcat(t, [Count(keys[0], 0)]);
      assert Total([Count(keys[0], 0)]) == 0;
      var r := ZeroFill(t', keys[1..]);
      assert r[..|t|] == r[..|t'|][..|t|];
      r
  }

  /** `_compute_risk_histogram`, Strategy A: the `$switch` bucket of every
      remote document grouped and counted (groups in order of first
      appearance), then zero-filled: all four buckets present, no other
      key, one entry per bucket, counts summing to the collection size. */
  function RiskHistogramNative(remote: seq<Event>): (r: seq<Count<string>>)
    ensures Distinct(Keys(r))
    ensures forall k :: k in Keys(r) <==> k in SeverityOrder
    ensures forall i :: 0 <= i < |r| ==> r[i].n == Occurrences(SeverityLabels(remote), r[i].key)
    ensures Total(r) == |remote|
  {
    NativeRiskShape(SeverityLabels(remote));
    ZeroFill(Tally.Tally(SeverityLabels(remote)), SeverityOrder)
  }

  lemma NativeRiskShape(labels: seq<string>)
    requires forall k :: k in labels ==> k in SeverityOrder
    ensures var r := ZeroFill(Tally.Tally(labels), SeverityOrder);
            && Distinct(Keys(r))
            && (forall k :: k in Keys(r) <==> k in SeverityOrder)
            && (forall i :: 0 <= i < |r| ==> r[i].n == Occurrences(labels, r[i].key))
            && Total(r) == |labels|
  {
    var t := Tally.Tally(labels);
    ZeroFillCounts(t, SeverityOrder, labels);
  }

  /** The entries zero-fill adds carry keys that never occur, so every
      entry still counts the occurrences of its key. */
  lemma ZeroFillCounts(t: seq<Count<string>>, keys: seq<string>, labels: seq<string>)
    requires Distinct(Keys(t))
    requires forall k :: k in Keys(t) <==> k in labels
    requires forall i :: 0 <= i < |t| ==> t[i].n == Occurrences(labels, t[i].key)
    ensures var r := ZeroFill(t, keys);
            forall i :: 0 <= i < |r| ==> r[i].n == Occurrences(labels, r[i].key)
  {
    var r := ZeroFill(t, keys);
    forall i | 0 <= i < |r|
      ensures r[i].n == Occurrences(labels, r[i].key)
    {
      if i < |t| {
        assert r[i] == r[..|t|][i];
      } else {
        assert Keys(r)[i] == r[i].key;
        assert r[i].key !in Keys(t);
      }
    }
  }

  /** Both strategies, run over the same events, report the same buckets
      with the same counts; only the order of the entries may differ. */
  lemma RiskStrategiesAgree(data: seq<Event>)
    ensures forall k :: k in Keys(RiskHistogramNative(data)) <==> k in Keys(RiskHistogramFallback(data))
    ensures forall k :: CountOf(RiskHistogramNative(data), k) == CountOf(RiskHistogramFallback(data), k)
  {
    var a := RiskHistogramNative(data);
    var b := RiskHistogramFallback(data);
    SeverityKeysDistinct();
    forall k
      ensures CountOf(a, k) == CountOf(b, k)
    {
      if k in SeverityOrder {
        var i :| 0 <= i < |a| && Keys(a)[i] == k;
        var j :| 0 <= j < |b| && Keys(b)[j] == k;
        CountOfEntry(a, i);
        CountOfEntry(b, j);
      } else {
        CountOfAbsent(a, k);
        CountOfAbsent(b, k);
      }
    }
  }

  /** `_compute_risk_histogram`: native when possible, fallback otherwise. */
  function RiskHistogram(g: Gateway, window: seq<Event>, aggOk: bool): (r: seq<Count<string>>)
    ensures forall k :: k in Keys(r) <==> k in SeverityOrder
    ensures Distinct(Keys(r))
    ensures HasNativeHandle(g) && aggOk ==> Total(r) == |g.remote|
    ensures !(HasNativeHandle(g) && aggOk) ==> Keys(r) == SeverityOrder && Total(r) == |window|
  {
    SeverityKeysDistinct();
    if HasNativeHandle(g) && aggOk then RiskHistogramNative(g.remote)
    else RiskHistogramFallback(window)
  }

  // ---------------------------------------------------------------------
  // Attack vectors and geography
  // ---------------------------------------------------------------------

  /** `event.get('predicted_label', 'Unknown')`. */
  function VectorKey(e: Event): Option<string> {
    Some(e.predictedLabel.GetOr("Unknown"))
  }

  /** The `$predicted_label` group key: null when the field is missing. */
  function VectorGroup(e: Event): Option<string> {
    e.predictedLabel
  }

  /** `_compute_vector_histogram`, fallback: one entry per distinct label,
      a missing label counted as 'Unknown', counts summing to the window. */
  function VectorHistogramFallback(data: seq<Event>): (r: seq<Count<Option<string>>>)
    ensures Distinct(Keys(r))
    ensures forall k :: k in Keys(r) ==> k.Some?
    ensures forall k :: k in Keys(r) <==> exists e :: e in data && VectorKey(e) == k
    ensures forall i :: 0 <= i < |r| ==> r[i].n == Occurrences(Project(data, VectorKey), r[i].key) && r[i].n > 0
    ensures Total(r) == |data|
  {
    forall k
      ensures k in Project(data, VectorKey) <==> exists e :: e in data && VectorKey(e) == k
    {
      InProject(data, VectorKey, k);
    }
    Tally.Tally(Project(data, VectorKey))
  }

  /** `_compute_vector_histogram`, native: one group per distinct value of
      the field over the whole collection, the missing value (None)
      included as a group of its own. */
  function VectorHistogramNative(remote: seq<Event>): (r: seq<Count<Option<string>>>)
    ensures Distinct(Keys(r))
    ensures forall k :: k in Keys(r) <==> exists e :: e in remote && VectorGroup(e) == k
    ensures forall i :: 0 <= i < |r| ==> r[i].n == Occurrences(Project(remote, VectorGroup), r[i].key) && r[i].n > 0
    ensures Total(r) == |remote|
  {
    forall k
      ensures k in Project(remote, VectorGroup) <==> exists e :: e in remote && VectorGroup(e) == k
    {
      InProject(remote, VectorGroup, k);
    }
    Tally.Tally(Project(remote, VectorGroup))
  }

  /** How the two vector strategies relate on the same events: labels
      other than 'Unknown' get the same count, and the fallback's 'Unknown'
      merges the native 'Unknown' group with the native None group. */
  lemma VectorStrategiesRelate(data: seq<Event>)
    ensures forall x :: x != "Unknown" ==>
              CountOf(VectorHistogramFallback(data), Some(x)) == CountOf(VectorHistogramNative(data), Some(x))
    ensures CountOf(VectorHistogramFallback(data), Some("Unknown"))
            == CountOf(VectorHistogramNative(data), Some("Unknown")) + CountOf(VectorHistogramNative(data), None)
  {
    forall x | x != "Unknown"
      ensures CountOf(VectorHistogramFallback(data), Some(x)) == CountOf(VectorHistogramNative(data), Some(x))
    {
      VectorCounts(data, Some(x));
      VectorCountsRelate(data, x);
    }
    VectorCounts(data, Some("Unknown"));
    VectorCounts(data, None);
    VectorCountsRelate(data, "Unknown");
  }

  /** Both vector histograms count a key as often as its label occurs. */
  lemma VectorCounts(data: seq<Event>, k: Option<string>)
    ensures CountOf(VectorHistogramFallback(data), k) == Occurrences(Project(data, VectorKey), k)
    ensures CountOf(VectorHistogramNative(data), k) == Occurrences(Project(data, VectorGroup), k)
  {
    TallyCounts(Project(data, VectorKey), k);
    TallyCounts(Project(data, VectorGroup), k);
  }

  lemma {:induction false} VectorCountsRelate(data: seq<Event>, x: string)
    ensures x != "Unknown" ==>
              Occurrences(Project(data, VectorKey), Some(x)) == Occurrences(Project(data, VectorGroup), Some(x))
    ensures x == "Unknown" ==>
              Occurrences(Project(data, VectorKey), Some(x))
              == Occurrences(Project(data, VectorGroup), Some(x)) + Occurrences(Project(data, VectorGroup), None)
    decreases |data|
  {
    if |data| > 0 {
      var init := data[..|data| - 1];
      var last := data[|data| - 1];
      VectorCountsRelate(init, x);
      assert Project(data, VectorKey) == Project(init, VectorKey) + [VectorKey(last)];
      assert Project(data, VectorGroup) == Project(init, VectorGroup) + [VectorGroup(last)];
      Tally.OccurrencesAppend(Project(init, VectorKey), VectorKey(last), Some(x));
      Tally.OccurrencesAppend(Project(init, VectorGroup), VectorGroup(last), Some(x));
      Tally.OccurrencesAppend(Project(init, VectorGroup), VectorGroup(last), None);
    }
  }

  /** `event.get('source_country', 'UNK')`. */
  function CountryKey(e: Event): string {
    e.sourceCountry.GetOr("UNK")
  }

  /** `_compute_geo_distribution`, fallback: one entry per distinct country,
      a missing country counted as 'UNK', counts summing to the window. */
  function GeoHistogramFallback(data: seq<Event>): (r: seq<Count<string>>)
    ensures Distinct(Keys(r))
    ensures forall k :: k in Keys(r) <==> exists e :: e in data && CountryKey(e) == k
    ensures forall i :: 0 <= i < |r| ==> r[i].n == Occurrences(Project(data, CountryKey), r[i].key)
    ensures Total(r) == |data|
  {
    var keys := Project(data, CountryKey);
    var r := Tally.Tally(keys);
    forall k | k in keys
      ensures exists e :: e in data && CountryKey(e) == k
    {
      var i :| 0 <= i < |keys| && keys[i] == k;
      assert data[i] in data;
    }
    r
  }

  /** The `$source_country` group key: null when the field is missing. */
  function CountryGroup(e: Event): Option<string> {
    e.sourceCountry
  }

  /** The group key is truthy: present and non-empty. */
  predicate Truthy(k: Option<string>) {
    k.Some? && k.value != ""
  }

  /** `... for doc in cursor if doc["_id"]`: drops the groups whose key is
      None or the empty string, keeping the others in order. */
  function DropFalsy(t: seq<Count<Option<string>>>): (r: seq<Count<string>>)
    ensures forall i :: 0 <= i < |r| ==> r[i].key != ""
    ensures forall c :: c in r <==> Count(Some(c.key), c.n) in t && c.key != ""
  {
    if |t| == 0 then []
    else
      var rest := DropFalsy(t[1..]);
      assert forall c :: c in t <==> c == t[0] || c in t[1..];
      if Truthy(t[0].key) then [Count(t[0].key.value, t[0].n)] + rest else rest
  }

  /** `_compute_geo_distribution`, native: one entry per distinct present,
      non-empty country over the whole collection, with its count. */
  function GeoHistogramNative(remote: seq<Event>): (r: seq<Count<string>>)
    ensures Distinct(Keys(r))
    ensures forall i :: 0 <= i < |r| ==> r[i].key != "" && r[i].n > 0
    ensures forall c :: c in r ==> c.n == Occurrences(Project(remote, CountryGroup), Some(c.key))
    ensures forall x :: x in Keys(r) <==> x != "" && exists e :: e in remote && CountryGroup(e) == Some(x)
  {
    var groups := Project(remote, CountryGroup);
    var t := Tally.Tally(groups);
    var r := DropFalsy(t);
    DropFalsyDistinct(t);
    GeoNativeCounts(groups, t, r);
    forall x
      ensures x in Keys(r) <==> x != "" && exists e :: e in remote && CountryGroup(e) == Some(x)
    {
      InProject(remote, CountryGroup, Some(x));
      GeoNativeKey(groups, t, r, x);
    }
    r
  }

  /** Each kept group carries its true, positive count. */
  lemma GeoNativeCounts(groups: seq<Option<string>>, t: seq<Count<Option<string>>>, r: seq<Count<string>>)
    requires t == Tally.Tally(groups) && r == DropFalsy(t)
    ensures forall i :: 0 <= i < |r| ==> r[i].key != "" && r[i].n > 0
    ensures forall c :: c in r ==> c.n == Occurrences(groups, Some(c.key))
  {
    forall c | c in r
      ensures c.n == Occurrences(groups, Some(c.key)) && c.n > 0
    {
      var i :| 0 <= i < |t| && t[i] == Count(Some(c.key), c.n);
    }
    forall i | 0 <= i < |r|
      ensures r[i].n > 0
    {
      assert r[i] in r;
    }
  }

  /** A country is kept exactly when it is a non-empty group value. */
  lemma GeoNativeKey(groups: seq<Option<string>>, t: seq<Count<Option<string>>>, r: seq<Count<string>>, x: string)
    requires t == Tally.Tally(groups) && r == DropFalsy(t)
    ensures x in Keys(r) <==> x != "" && Some(x) in groups
  {
    if x != "" && Some(x) in groups {
      DropFalsyKeeps(t, x);
    }
    if x in Keys(r) {
      DropFalsyKeys(t);
    }
  }

  /** Every truthy group key survives as a key. */
  lemma DropFalsyKeeps(t: seq<Count<Option<string>>>, x: string)
    requires x != "" && Some(x) in Keys(t)
    ensures x in Keys(DropFalsy(t))
  {
    var r := DropFalsy(t);
    var i :| 0 <= i < |t| && Keys(t)[i] == Some(x);
    assert t[i] == Count(Some(x), t[i].n);
    assert t[i] in t;
    assert Count(x, t[i].n) in r;
    var j :| 0 <= j < |r| && r[j] == Count(x, t[i].n);
    assert Keys(r)[j] == x;
  }

  /** Every kept key is the value of a group key. */
  lemma DropFalsyKeys(t: seq<Count<Option<string>>>)
    ensures forall x :: x in Keys(DropFalsy(t)) ==> x != "" && Some(x) in Keys(t)
  {
    var r := DropFalsy(t);
    forall x | x in Keys(r)
      ensures x != "" && Some(x) in Keys(t)
    {
      var j :| 0 <= j < |r| && Keys(r)[j] == x;
      assert r[j] in r;
      var m :| 0 <= m < |t| && t[m] == Count(Some(x), r[j].n);
      assert Keys(t)[m] == Some(x);
    }
  }

  /** Dropping the falsy groups keeps the remaining keys distinct. */
  lemma {:induction false} DropFalsyDistinct(t: seq<Count<Option<string>>>)
    requires Distinct(Keys(t))
    ensures Distinct(Keys(DropFalsy(t)))
  {
    if |t| > 0 {
      var tail := t[1..];
      assert Keys(tail) == Keys(t)[1..];
      DropFalsyDistinct(tail);
      if Truthy(t[0].key) {
        var rest := DropFalsy(tail);
        DropFalsyKeys(tail);
        assert t[0].key !in Keys(tail);
        KeysPrepend(Count(t[0].key.value, t[0].n), rest);
        DistinctPrepend(t[0].key.value, Keys(rest));
      }
    }
  }

  /** Countries other than 'UNK' and "" get the same count from both geo
      strategies run over the same events. */
  lemma GeoStrategiesAgree(data: seq<Event>, c: Count<string>)
    requires c in GeoHistogramNative(data)
    requires c.key != "UNK"
    ensures CountOf(GeoHistogramFallback(data), c.key) == c.n
  {
    TallyCounts(Project(data, CountryKey), c.key);
    GeoCountsRelate(data, c.key);
  }

  lemma {:induction false} GeoCountsRelate(data: seq<Event>, x: string)
    requires x != "UNK"
    ensures Occurrences(Project(data, CountryKey), x)
            == Occurrences(Project(data, CountryGroup), Some(x))
    decreases |data|
  {
    if |data| > 0 {
      var init := data[..|data| - 1];
      var last := data[|data| - 1];
      GeoCountsRelate(init, x);
      assert Project(data, CountryKey) == Project(init, CountryKey) + [CountryKey(last)];
      assert Project(data, CountryGroup)
          == Project(init, CountryGroup) + [last.sourceCountry];
    }
  }

  // ---------------------------------------------------------------------
  // Priority signals
  // ---------------------------------------------------------------------

  /** Critical (`risk_score >= 80`) and not resolved (a missing status is
      not 'Resolved'). */
  predicate IsPriority(e: Event) {
    Score(e) >= 80.0 && e.status != Some(StatusResolved)
  }

  /** All priority events of the stream, in order. */
  function AllPriority(stream: seq<Event>): (r: seq<Event>)
    ensures forall e :: e in r <==> e in stream && IsPriority(e)
  {
    if |stream| == 0 then []
    else
      assert forall e :: e in stream <==> e == stream[0] || e in stream[1..];
      (if IsPriority(stream[0]) then [stream[0]] else []) + AllPriority(stream[1..])
  }

  /** `_filter_priority_signals(stream, cap)`: the loop appends each
      priority event and stops as soon as it holds `cap` of them — checked
      only after an append, so a `cap` of 0 or less still yields one. */
  function PrioritySignals(stream: seq<Event>, cap: int): (r: seq<Event>)
    ensures |r| <= if cap < 1 then 1 else cap
    ensures forall e :: e in r ==> e in stream && IsPriority(e)
  {
    if |stream| == 0 then []
    else if IsPriority(stream[0]) then
      if cap <= 1 then [stream[0]] else [stream[0]] + PrioritySignals(stream[1..], cap - 1)
    else PrioritySignals(stream[1..], cap)
  }

  /** The signals are the FIRST priority events of the stream: a prefix of
      all of them, as long as the cap (at least 1) allows. */
  lemma {:induction false} PrioritySignalsArePrefix(stream: seq<Event>, cap: int)
    ensures var all := AllPriority(stream);
            var n := if cap < 1 then 1 else cap;
            PrioritySignals(stream, cap) == all[..if n < |all| then n else |all|]
  {
    if |stream| > 0 {
      if IsPriority(stream[0]) && cap > 1 {
        PrioritySignalsArePrefix(stream[1..], cap - 1);
      } else if !IsPriority(stream[0]) {
        PrioritySignalsArePrefix(stream[1..], cap);
      }
    }
  }

  /** The dashboard's default cap. */
  const PriorityCap: int := 3

  /** The dashboard's alerts: the first `PriorityCap` priority events of the
      window, all of them when there are fewer. */
  function DashboardAlerts(window: seq<Event>): (r: seq<Event>)
    ensures |r| <= PriorityCap
    ensures forall e :: e in r ==> e in window && IsPriority(e)
    ensures var all := AllPriority(window);
            r == all[..if PriorityCap < |all| then PriorityCap else |all|]
  {
    PrioritySignalsArePrefix(window, PriorityCap);
    PrioritySignals(window, PriorityCap)
  }

  // ---------------------------------------------------------------------
  // The dashboard
  // ---------------------------------------------------------------------

  datatype Dashboard = Dashboard(
    threats: seq<Event>,
    riskSummary: seq<Count<string>>,
    attackTypes: seq<Count<Option<string>>>,
    geoStats: seq<Count<string>>,
    criticalAlerts: seq<Event>)

  /** `compile_dashboard_intelligence` (the static model artefacts are not
      modelled): the window is the newest `MaxHistoryLimit` events from the
      serving backend, returned unchanged as `threats`; the histograms use
      the native path when it is available and succeeds; at most three
      priority alerts, all taken from the window. */
  function CompileDashboard(g: Gateway, fetchOk: bool, riskOk: bool, vectorOk: bool, geoOk: bool): (r: Dashboard)
    ensures r.threats == QueryRecent(g, MaxHistoryLimit, fetchOk).events
    ensures |r.threats| <= MaxHistoryLimit
    ensures forall k :: k in Keys(r.riskSummary) <==> k in SeverityOrder
    ensures !HasNativeHandle(g) ==>
              && Total(r.riskSummary) == |r.threats|
              && Total(r.attackTypes) == |r.threats|
              && Total(r.geoStats) == |r.threats|
    ensures |r.criticalAlerts| <= PriorityCap
    ensures forall e :: e in r.criticalAlerts ==> e in r.threats && IsPriority(e)
    ensures r.criticalAlerts == DashboardAlerts(r.threats)
  {
    AssembleDashboard(g, QueryRecent(g, MaxHistoryLimit, fetchOk).events, riskOk, vectorOk, geoOk)
  }

  /** The dashboard over a given window. */
  function AssembleDashboard(g: Gateway, window: seq<Event>, riskOk: bool, vectorOk: bool, geoOk: bool): (r: Dashboard)
    ensures r.threats == window
    ensures forall k :: k in Keys(r.riskSummary) <==> k in SeverityOrder
    ensures !HasNativeHandle(g) ==>
              && Total(r.riskSummary) == |window|
              && Total(r.attackTypes) == |window|
              && Total(r.geoStats) == |window|
    ensures r.criticalAlerts == DashboardAlerts(window)
  {
    var native := HasNativeHandle(g);
    Dashboard(
      window,
      RiskHistogram(g, window, riskOk),
      if native && vectorOk then VectorHistogramNative(g.remote) else VectorHistogramFallback(window),
      if native && geoOk then GeoHistogramNative(g.remote) else GeoHistogramFallback(window),
      DashboardAlerts(window))
  }
}
