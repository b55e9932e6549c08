/** The daily report (`ReportingService.generate_report`): the events of one
    day, counted by severity, attack vector and source, with the first
    critical incidents listed. The clock (`datetime.now()`) is a parameter;
    the report file itself is not modelled, only whether it is written. */
module Reporting {
  import opened Wrappers
  import opened Text
  import opened Tally
  import opened Filtering
  import opened Events
  import opened Database
  import Analytics

  /** `_get_severity_label`. */
  function SeverityLabel(score: real): (r: string)
    ensures score >= 80.0 ==> r == "Critical"
    ensures score < 30.0 ==> r == "Low"
  {
    if score >= 80.0 then "Critical"
    else if score >= 60.0 then "High"
    else if score >= 30.0 then "Medium"
    else "Low"
  }

  /** The report's labels and the dashboard's buckets never disagree. */
  lemma SeverityLabelMatchesDashboard(score: real)
    ensures SeverityLabel(score) == Analytics.Bucket(score)
  {
  }

  /** The first second of the day and the last one, the window's bounds. */
  function DayStart(date: string): string { date + " 00:00:00" }
  function DayEnd(date: string): string { date + " 23:59:59" }

  /** `target_date or today`. */
  function EffectiveDate(target: Option<string>, today: string): (r: string)
    ensures target.Some? && target.value != "" ==> r == target.value
    ensures target.None? || target.value == "" ==> r == today
  {
    if target.Some? && target.value != "" then target.value else today
  }

  /** The events the report covers. */
  function DayEvents(g: Gateway, date: string, remoteOk: bool): seq<Event> {
    QueryRange(g, DayStart(date), DayEnd(date), remoteOk).events
  }

  /** The range query excludes its end, so an event stamped exactly at the
      last second of the day is missing from that day's report. */
  lemma LastSecondExcluded(g: Gateway, date: string, remoteOk: bool, e: Event)
    requires e.timestamp == Some(DayEnd(date))
    ensures e !in DayEvents(g, date, remoteOk)
  {
    LessIrreflexive(DayEnd(date));
  }

  /** One entry of `critical_threats`. */
  datatype Critical = Critical(id: Option<string>, timestamp: Option<string>,
                               srcIp: string, riskScore: real, vector: string)

  /** `event.get('predicted_label', 'Unknown')`. */
  function VectorOf(e: Event): string { e.predictedLabel.GetOr("Unknown") }
  /** `event.get('source_ip', 'Unknown')`. */
  function SourceOf(e: Event): string { e.sourceIp.GetOr("Unknown") }

  function Summarise(e: Event): (c: Critical)
    ensures c.id == e.id && c.timestamp == e.timestamp && c.riskScore == Score(e)
    ensures c.srcIp == SourceOf(e) && c.vector == VectorOf(e)
  {
    Critical(e.id, e.timestamp, SourceOf(e), Score(e), VectorOf(e))
  }

  /** `risk_score >= 80`. */
  predicate IsCritical(e: Event) {
    Score(e) >= 80.0
  }

  /** Every critical event, summarised, in event order. */
  function Criticals(events: seq<Event>): (r: seq<Critical>)
    ensures |r| <= |events|
    ensures forall c :: c in r <==> exists e :: e in events && Score(e) >= 80.0 && c == Summarise(e)
  {
    KeepMap(events, IsCritical, Summarise)
  }

  /** The critical list keeps event order: the criticals of a concatenation
      are those of the first part followed by those of the second. */
  lemma CriticalsConcat(a: seq<Event>, b: seq<Event>)
    ensures Criticals(a + b) == Criticals(a) + Criticals(b)
  {
    KeepMapConcat(a, b, IsCritical, Summarise);
  }

  /** A single event contributes its summary exactly when it is critical. */
  lemma CriticalsSingle(e: Event)
    ensures Criticals([e]) == if Score(e) >= 80.0 then [Summarise(e)] else []
  {
    assert [e][1..] == [];
  }

  /** The most entries each "top" table holds, and the most critical
      incidents listed. */
  const TopN: nat := 5
  const CriticalCap: nat := 10

  datatype Report =
    | NoData(date: string)
    | Full(reportId: string, targetDate: string, total: nat,
           severity: seq<Count<string>>, topVectors: seq<Count<string>>,
           topOffenders: seq<Count<string>>, criticals: seq<Critical>)

  /** `"RPT-" + date.replace('-', '')`. */
  function ReportId(date: string): (r: string)
    ensures |r| >= 4 && r[..4] == "RPT-" && '-' !in r[4..]
  {
    var r := "RPT-" + RemoveChar(date, '-');
    assert r[4..] == RemoveChar(date, '-');
    r
  }

  /** For an ISO date `YYYY-MM-DD` the id is "RPT-" followed by the date's
      digits with the dashes dropped ("2024-01-15" gives "RPT-20240115"). */
  lemma ReportIdOfIsoDate(y: string, m: string, d: string)
    requires '-' !in y && '-' !in m && '-' !in d
    ensures ReportId(y + "-" + m + "-" + d) == "RPT-" + y + m + d
  {
    var date := y + "-" + m + "-" + d;
    assert RemoveChar(date, '-') == y + m + d by {
      var rest := m + "-" + d;
      assert date == y + ['-'] + rest;
      assert rest == m + ['-'] + d;
      RemoveCharAbsent(d, '-');
      DropSeparator(m, d, '-');
      DropSeparator(y, rest, '-');
    }
    assert "RPT-" + (y + m + d) == "RPT-" + y + m + d;
  }

  /** Removing separator `c` after a run free of it keeps the run. */
  lemma DropSeparator(a: string, b: string, c: char)
    requires c !in a
    ensures RemoveChar(a + [c] + b, c) == a + RemoveChar(b, c)
  {
    RemoveCharConcat(a + [c], b, c);
    RemoveCharConcat(a, [c], c);
    RemoveCharAbsent(a, c);
    assert RemoveChar([c], c) == [];
  }

  /** The severity label of an event's score. */
  function ReportLabel(e: Event): string {
    SeverityLabel(Score(e))
  }

  /** `dict(severity_counts)`: one entry per label present, in order of
      first appearance, counting the events of that label. */
  function SeverityDistribution(events: seq<Event>): (r: seq<Count<string>>)
    ensures Distinct(Keys(r)) && Total(r) == |events|
    ensures forall k :: k in Keys(r) <==> exists e :: e in events && ReportLabel(e) == k
    ensures forall i :: 0 <= i < |r| ==>
              r[i].n == Occurrences(Project(events, ReportLabel), r[i].key) && r[i].n > 0
  {
    forall k
      ensures k in Project(events, ReportLabel)
              <==> exists e :: e in events && ReportLabel(e) == k
    {
      InProject(events, ReportLabel, k);
    }
    Tally.Tally(Project(events, ReportLabel))
  }

  /** `dict(counter.most_common(5))` over the values `key` gives the
      events: at most five entries, by decreasing count, each with its true
      count, none left out that outnumbers one kept. */
  function Top(events: seq<Event>, key: Event -> string): (r: seq<Count<string>>)
    ensures |r| <= TopN
    ensures |r| == if |Tally.Tally(Project(events, key))| < TopN then |Tally.Tally(Project(events, key))| else TopN
    ensures multiset(r) <= multiset(Tally.Tally(Project(events, key)))
    ensures forall i, j :: 0 <= i < j < |r| ==> r[j].n <= r[i].n
    ensures forall c :: c in r ==> c.n == Occurrences(Project(events, key), c.key)
    ensures forall c :: c in Tally.Tally(Project(events, key)) && c !in r ==>
              forall i :: 0 <= i < |r| ==> c.n <= r[i].n
  {
    var s := Project(events, key);
    var t := Tally.Tally(s);
    var r := MostCommon(t, TopN);
    TopEntriesCount(t, s, TopN);
    TopLeftOut(t, TopN, r);
    r
  }

  /** An entry of a tally missing from `most_common` is no larger than any
      entry kept. */
  lemma TopLeftOut<K(!new)>(t: seq<Count<K>>, n: nat, r: seq<Count<K>>)
    requires r == MostCommon(t, n)
    ensures forall c :: c in t && c !in r ==> forall i :: 0 <= i < |r| ==> c.n <= r[i].n
  {
    forall c | c in t && c !in r
      ensures forall i :: 0 <= i < |r| ==> c.n <= r[i].n
    {
      assert multiset(r)[c] == 0 < multiset(t)[c];
    }
  }

  /** `high_risk_events[:10]`: the first ten critical events. */
  function CriticalList(events: seq<Event>): (r: seq<Critical>)
    ensures |r| == if |Criticals(events)| < CriticalCap then |Criticals(events)| else CriticalCap
    ensures r == Criticals(events)[..|r|]
    ensures forall c :: c in r ==> c.riskScore >= 80.0
  {
    var all := Criticals(events);
    var r := Take(all, CriticalCap);
    forall c | c in r
      ensures c.riskScore >= 80.0
    {
      var i :| 0 <= i < |r| && r[i] == c;
      assert c in all;
    }
    r
  }

  /** The aggregation of a non-empty day. */
  function Aggregate(date: string, events: seq<Event>): (r: Report)
    ensures r.Full? && r.targetDate == date && r.reportId == ReportId(date)
    ensures r.total == |events| && Total(r.severity) == r.total
    ensures r.severity == SeverityDistribution(events)
    ensures r.topVectors == Top(events, VectorOf) && r.topOffenders == Top(events, SourceOf)
    ensures r.criticals == CriticalList(events)
  {
    Full(ReportId(date), date, |events|, SeverityDistribution(events),
         Top(events, VectorOf), Top(events, SourceOf), CriticalList(events))
  }

  /** The entries `most_common` keeps carry the counts of the tally they
      come from. */
  lemma TopEntriesCount<K(!new)>(t: seq<Count<K>>, s: seq<K>, n: nat)
    requires forall i :: 0 <= i < |t| ==> t[i].n == Occurrences(s, t[i].key)
    ensures forall c :: c in MostCommon(t, n) ==> c.n == Occurrences(s, c.key)
  {
    var m := MostCommon(t, n);
    forall c | c in m
      ensures c.n == Occurrences(s, c.key)
    {
      assert c in multiset(t);
      var i :| 0 <= i < |t| && t[i] == c;
    }
  }

  /** `generate_report(target_date)`, with `today` the clock's date: a day
      without events yields "No Data" (total 0) and writes nothing;
      otherwise the full report, which is then saved. */
  function GenerateReport(g: Gateway, target: Option<string>, today: string, remoteOk: bool): (r: (Report, bool))
    ensures var date := EffectiveDate(target, today);
            var events := DayEvents(g, date, remoteOk);
            && (events == [] <==> r.0 == NoData(date))
            && (r.1 <==> r.0.Full?)
            && (r.0.Full? ==> r.0 == Aggregate(date, events) && r.0.total == |events| > 0)
  {
    var date := EffectiveDate(target, today);
    var events := DayEvents(g, date, remoteOk);
    if events == [] then (NoData(date), false)
    else (Aggregate(date, events), true)
  }

  /** What the report counts: its total is the number of records of the
      answering backend with `start <= timestamp < end` for the day, every
      copy of a duplicated record counted, and no record outside the day. */
  lemma ReportCountsTheDay(g: Gateway, target: Option<string>, today: string, remoteOk: bool)
    requires GenerateReport(g, target, today, remoteOk).0.Full?
    ensures var date := EffectiveDate(target, today);
            var a := QueryRange(g, DayStart(date), DayEnd(date), remoteOk);
            && GenerateReport(g, target, today, remoteOk).0.total == |a.events|
            && (a.servedBy == RemoteMode ==>
                  forall e :: multiset(a.events)[e]
                    == if InRangeRemote(e, DayStart(date), DayEnd(date)) then multiset(g.remote)[e] else 0)
            && (a.servedBy == LocalMode ==>
                  forall e :: multiset(a.events)[e]
                    == if InRange(e, DayStart(date), DayEnd(date)) then multiset(ReadLocal(g.local))[e] else 0)
  {
  }
}
