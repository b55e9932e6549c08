# SentinAI NetGuard core, modelled in Dafny

This project models the core of the SentinAI NetGuard ("AegisCore") backend.
The centre of it is the **hybrid persistence gateway** (`DataAccessLayer`). The
gateway serves reads and writes from a remote document collection when that
collection is reachable. Otherwise it falls back to a local JSON cache. A sync
reconciles the two stores by event `id` once the remote side is back.

Around the gateway sit the services that read from it or write to it:

- the dashboard aggregations (`MetricPipeline`);
- the incident feed and triage (`IncidentLifecycleManager`);
- the daily report (`ReportingService`);
- the live detection sentinel with its repeat-offender escalation;
- the network topology overlay;
- the local user registry;
- the syslog classifier and the packet sniffer heuristics;
- the training-data loader that normalises CIC-IDS2017 and NSL-KDD tables.

Every remote call, disk write, archive upload and connection probe can fail.
Each of these outcomes is a `bool` parameter of the operation that performs it.
The clock, fresh identifiers (uuid4, bcrypt salts) and the ML model's verdicts
are also parameters. The remote collection is the list of its documents in
insertion order. An event is a record whose fields are all optional, because a
JSON object may lack any key. Python's `limit=None` is modelled as `0`; the
source treats both as "no limit".

Modules, following the program's structure:

| module | file | models |
|---|---|---|
| `Wrappers` | wrappers.dfy | `Option` |
| `Text` | text.dfy | string order (Python's `<` on `str`), substring search, `strip`, ASCII `lower`, decimal rendering |
| `Sorting` | sorting.dfy | a stable descending insertion sort, standing in for `sorted(..., reverse=True)` |
| `Tally` | tally.dfy | `Counter` / dict counting and `most_common` |
| `Filtering` | filtering.dfy | order-preserving filtering by a test, as in the services' filter loops |
| `Events` | events.dfy | the event record, newest-first order, id maps, upsert |
| `Database` | database.dfy | the gateway: local store, reads, writes, mode changes, sync |
| `SyncProps` | sync_props.dfy | the sync's guarantees |
| `Analytics` | analytics.dfy | dashboard histograms and priority alerts |
| `Threats` | threats.dfy | the incident feed and triage |
| `Reporting` | reporting.dfy | the daily report |
| `Sentinel` | sentinel.dfy | `run_live_detection.py` |
| `Topology` | topology.dfy | the static graph and the threat overlay |
| `Auth` | auth.dfy | the user registry |
| `LogCollector` | log_collector.dfy | the syslog classifier |
| `PacketSniffer` | packet_sniffer.dfy | the packet heuristics |
| `DataLoader` | data_loader.dfy | the training-table normaliser |

### Behaviours of the code the model keeps

- **The gateway applies no retention cap.**
  - `update_fallback_cache` writes the whole list, and `_save_local_event` appends without truncating.
  - The sync pull also writes old cache plus pulled records in full.
  - `MAX_HISTORY_LIMIT` only bounds the dashboard's window; the sentinel's own cache writer is the one place that truncates, to 200 entries.
- **Native and fallback aggregation can report different counts.**
  - The native pipelines run over the whole remote collection.
  - The fallback runs over the 2000-event window.
  - The vector and geo entries can come in a different order on the two paths.
  - The native vector histogram keeps a `null` label as its own group, where the fallback counts it as `'Unknown'`.
  - The native geo histogram drops `null`/empty countries, where the fallback counts missing ones as `'UNK'`.
  - With the same input, the four severity buckets do agree in keys and counts (`Analytics.RiskStrategiesAgree`).
- **An event without `id` cannot reach the remote collection.** `event_data["id"]` raises in remote mode, and the exception sends the write to the local cache.
- **The remote range filter needs a timestamp.** The remote filter never matches a document without a timestamp. The local filter compares `''` instead.
- **A failed local dump corrupts the cache file.** `open(path, 'w')` truncates before `json.dump` runs, and that dump has no `default=`. A value JSON cannot encode (for instance the `_id` that `insert_many` adds to the pushed records, which are the cache's own objects) stops it part-way. The file is then unparseable and a restarted process reads an empty cache (`Database.WriteThenRestart`).

## Model

| member | source | states |
|---|---|---|
| Events.ByRecency | backend/core/database.py:90 | newest-first sort: a permutation, ordered by timestamp (missing = ""), stable among equal timestamps |
| Events.Take | backend/core/database.py:91-93 | `[:limit]` only for a positive limit; the result is a prefix of the given length |
| Events.IdMap | backend/core/database.py:208 | the `{id: record}` map has exactly the ids present, each mapped to a record carrying it |
| Events.IdMapKeepsLast | backend/core/database.py:208 | in the dict comprehension the last record with a given id wins |
| Events.FirstIds | backend/core/database.py:221-229 | the distinct ids of a list, each once |
| Events.Dedup | backend/core/database.py:221-229 | one record per id, the one the id map keeps, and no id lost |
| Events.WithIdsIn | backend/core/database.py:233 | keeps exactly the records whose id is in the given set, in order |
| Events.FindId | backend/core/database.py:148 | the first position whose `id` equals the key, or none when no record carries it |
| Events.Upsert | backend/core/database.py:148-153 | replaces the first record with the same id in place, else appends |
| Events.UpsertTwice | backend/core/database.py:148-153 | upserting the same id twice equals upserting the second record once |
| Events.UpsertKeepsIdsUnique | backend/core/database.py:148-153 | an upsert never duplicates an id and adds exactly the new record's id |
| Database.WriteAll | backend/core/database.py:157-165 | the mirror is replaced first, so later reads see the new data whatever the disk does; a full write stores the data, a failing `open` leaves the old file, a dump failing part-way leaves a truncated, unparseable file |
| Database.WriteThenRestart | backend/core/database.py:54-67 | after a restart the cache reads as the data after a full write, as before after a failed `open`, and as empty after a failed dump |
| Database.NewestPrefix | backend/core/database.py:88-93 | the `limit` newest records, newest first; a sub-multiset, and every record left out is no newer than any kept |
| Database.QueryRecentLocal | backend/core/database.py:88-93 | the local read: newest-first prefix of the cache with the lengths the limit rule gives |
| Database.FilterRange | backend/core/database.py:104-122 | exactly the records with `start <= timestamp < end`, each with all its copies, in order; on the remote side a missing timestamp never matches |
| Database.QueryRangeLocal | backend/core/database.py:114-122 | exactly the cached records in the half-open range, each with all its copies, newest first |
| Database.QueryRecent | backend/core/database.py:71-86 | the remote side answers iff remote mode and the call succeeds, otherwise the cache; the answer has the limit rule's length, newest first, and every record left out is no newer than any kept |
| Database.QueryRange | backend/core/database.py:95-122 | the range read from whichever side answers: exactly that side's in-range records, each with all its copies, newest first |
| Database.SaveLocal | backend/core/database.py:145-155 | the cache becomes the upsert of the event into it |
| Database.SaveEvent | backend/core/database.py:124-143 | in remote mode a successful write with an id upserts remotely and leaves the cache; any failure or a missing id upserts locally; the mode never changes |
| Database.UpdateFallbackCache | backend/core/database.py:157-165 | writes the local cache whatever the mode, leaving mode and remote collection alone |
| Database.Connect | backend/core/database.py:34-49 | remote mode exactly when the startup probe succeeds |
| Database.CheckConnection | backend/core/database.py:178-196 | true at once in remote mode; in local mode the probe decides and a success switches to remote; stores untouched |
| Database.SetMode | backend/core/database.py:167-176 | "local" forces local mode, "cloud" is the connection check, anything else fails and changes nothing |
| Database.CloudWindow | backend/core/database.py:211-214 | the sync sees the min(1000, size) newest remote documents, newest first, every document left out no newer than any kept; all of them when the collection is no larger |
| Database.ComputeDelta | backend/core/database.py:207-235 | ids to push = local ids minus window ids; ids to pull = window ids minus local ids; one record per id, taken from its side |
| Database.SelectIds | backend/core/database.py:228-229 | the id-map records for the ids in the given set: exactly those ids, each once |
| Database.Synchronize | backend/core/database.py:198-248 | local mode: no-op; failed fetch: forced to local mode with stores untouched; otherwise remote mode is kept |
| SyncProps.SyncRemoteIs | backend/core/database.py:227-235 | after a sync the remote collection is the old one followed by the pushed documents (none when nothing is missing) |
| SyncProps.PushShape | backend/core/database.py:224-233 | the pushed documents carry exactly the accepted local ids the window lacks, one each, all local records |
| SyncProps.SyncPush | backend/core/database.py:227-235 | the remote collection keeps its documents in place and gains only accepted, previously unseen local records |
| SyncProps.PulledFromCloud | backend/core/database.py:225-241 | the pulled records carry exactly the window ids the cache lacks, one each, all taken from the window |
| SyncProps.MergeKeeps | backend/core/database.py:238-246 | merging never drops a cached record |
| SyncProps.MergeCount | backend/core/database.py:238-246 | the merged cache grows by exactly one record per missing id |
| SyncProps.MergeIds | backend/core/database.py:238-246 | after merging the cache carries the ids of both sides |
| SyncProps.MergeFromCloud | backend/core/database.py:238-246 | every record the merge adds comes from the cloud window |
| SyncProps.MergeOrder | backend/core/database.py:243-246 | when something was pulled the rewritten cache is newest first |
| SyncProps.SyncLocalIs | backend/core/database.py:237-246 | after a sync the cache is unchanged when nothing was pulled, else the old records plus the pulled ones, newest first |
| SyncProps.SyncPull | backend/core/database.py:237-246 | after a sync the cache keeps every record it had and gains exactly one record per window id it lacked |
| SyncProps.SyncNoOpWhenIdsAgree | backend/core/database.py:220-246 | when cache and window carry the same ids a sync changes nothing |
| SyncProps.SyncAligns | backend/core/database.py:220-246 | a fully accepted sync within the cap leaves cache and remote with the same id set |
| SyncProps.SyncIdempotent | backend/core/database.py:220-246 | under the same conditions a second sync changes nothing |
| SyncProps.WindowIdsBelowCap | backend/core/database.py:211-214 | below the cap the window carries every remote id |
| SyncProps.SyncKeepsRemoteIdsUnique | backend/core/database.py:211-233 | within the cap a sync never duplicates a remote id |
| SyncProps.SyncDuplicatesBeyondCap | backend/core/database.py:211-233 | beyond the cap a local record whose id is outside the window is pushed again, so the id occurs twice remotely |
| Analytics.Bucket | backend/services/analytics_service.py:88-94 | thresholds 80/60/30, inclusive; each bucket as an iff on the score |
| Analytics.BucketMonotone | backend/services/analytics_service.py:88-94 | a higher score never lands in a lower bucket |
| Analytics.MissingScoreIsLow | backend/services/analytics_service.py:90 | `risk_score` defaults to 0, so a record without one is Low |
| Analytics.ZeroBuckets | backend/services/analytics_service.py:88 | the four buckets, all zero |
| Tally.BumpAll | backend/services/analytics_service.py:88-94 | bumping each key of a list into a table that has them all adds each key's occurrences to its entry; the total grows by the list's length |
| Analytics.FillBuckets | backend/services/analytics_service.py:88-94 | each bucket holds the number of events in it; the counts total the events |
| Analytics.RiskHistogramFallback | backend/services/analytics_service.py:87-96 | exactly the four buckets in order, each count the number of window events in it |
| Analytics.ZeroFill | backend/services/analytics_service.py:79-81 | `setdefault` keeps existing entries in place and appends only the missing keys at zero |
| Analytics.RiskHistogramNative | backend/services/analytics_service.py:61-83 | the grouped `$switch` buckets, zero-filled: the four keys, each with its count over the collection |
| Analytics.RiskStrategiesAgree | backend/services/analytics_service.py:52-96 | on the same events both strategies give the same keys and the same count per key |
| Analytics.RiskHistogram | backend/services/analytics_service.py:52-96 | always exactly the four keys; counts total the collection natively, the window otherwise |
| Analytics.VectorHistogramFallback | backend/services/analytics_service.py:113-118 | one entry per observed label (missing = 'Unknown'), each once with its positive count, totalling the window; no label that never occurs |
| Analytics.VectorHistogramNative | backend/services/analytics_service.py:105-109 | one group per observed value of `predicted_label` (a missing one being its own group), each once with its positive count; no group for an absent value |
| Analytics.VectorStrategiesRelate | backend/services/analytics_service.py:99-118 | real labels agree; the fallback's 'Unknown' is the native 'Unknown' plus the native null group |
| Analytics.GeoHistogramFallback | backend/services/analytics_service.py:135-140 | one entry per country (missing = 'UNK') present, with its count |
| Analytics.DropFalsy | backend/services/analytics_service.py:131 | drops exactly the groups with a null or empty key |
| Analytics.GeoHistogramNative | backend/services/analytics_service.py:127-131 | exactly the present non-empty countries, each once with its positive count |
| Analytics.DropFalsyDistinct | backend/services/analytics_service.py:131 | dropping falsy groups keeps the group keys distinct |
| Analytics.GeoStrategiesAgree | backend/services/analytics_service.py:121-140 | a native country other than 'UNK' has the same count in the fallback |
| Analytics.AllPriority | backend/services/analytics_service.py:148-153 | the critical unresolved events of the stream |
| Analytics.PrioritySignals | backend/services/analytics_service.py:143-156 | at most `cap` signals (one when `cap <= 0`, since the check follows the append), all critical and unresolved |
| Analytics.PrioritySignalsArePrefix | backend/services/analytics_service.py:143-156 | the signals are the first priority events of the stream |
| Analytics.CompileDashboard | backend/services/analytics_service.py:20-49 | the threats are the 2000-event window; the risk summary has the four keys; the alerts are the first 3 priority events of the window (all when fewer) |
| Analytics.DashboardAlerts | backend/services/analytics_service.py:143-156 | the first `PriorityCap` priority events of the window, all of them when fewer |
| Filtering.Keep | backend/services/threat_service.py:43-56 | the elements passing a test, in order, each with no more copies than in the input |
| Filtering.KeepConcat | backend/services/threat_service.py:44-55 | filtering element by element distributes over concatenation |
| Filtering.KeepPartition | backend/services/threat_service.py:48-55 | a test and its negation split a list as a multiset |
| Filtering.KeepMap | backend/services/reporting_service.py:57-80 | the images of the elements passing a test, exactly those, never more than the input's length |
| Filtering.KeepMapConcat | backend/services/reporting_service.py:57-80 | mapping the kept elements distributes over concatenation, so input order is kept |
| Threats.KeepStatus | backend/services/threat_service.py:43-56 | exactly the events whose resolved-ness matches, in order (missing status = Active) |
| Threats.KeepStatusConcat | backend/services/threat_service.py:43-56 | the filter distributes over concatenation, so it keeps the feed's order |
| Threats.StatusPartition | backend/services/threat_service.py:43-56 | the resolved and unresolved feeds split the raw feed as a multiset |
| Threats.StatusPartitionLength | backend/services/threat_service.py:43-56 | the two feeds together are as long as the raw feed |
| Threats.MissingStatusIsActive | backend/services/threat_service.py:46 | a record without status is kept by the active filter |
| Threats.ParseFilter | backend/services/threat_service.py:35-41 | no or empty state, or "all" in any case, means all; "resolved" in any case means resolved; any other non-empty state means unresolved |
| Threats.ParseFilterCaseInsensitive | backend/services/threat_service.py:35 | two spellings equal after lowering select the same filter |
| Threats.RawFeed | backend/services/threat_service.py:29-32 | the range query when both bounds are non-empty, else the recent query |
| Threats.RetrieveFeed | backend/services/threat_service.py:24-56 | the raw feed for "all", otherwise exactly the resolved or unresolved events of the raw feed, in feed order with every copy |
| Threats.Resolve | backend/services/threat_service.py:73 | sets the status to Resolved and changes nothing else |
| Threats.Triage | backend/services/threat_service.py:59-83 | unknown id: nothing written; known id: the first matching record resolved and the whole dataset written to the local cache |
| Threats.ResolveFirstOnly | backend/services/threat_service.py:70-76 | only the first record carrying the id changes |
| Threats.TriageChangesOnlyTarget | backend/services/threat_service.py:59-83 | the cache written is the fetched dataset with exactly one record resolved |
| Threats.TriageTwice | backend/services/threat_service.py:59-83 | resolving twice is resolving once |
| Reporting.SeverityLabel | backend/services/reporting_service.py:22-26 | ≥80 Critical, <30 Low |
| Reporting.SeverityLabelMatchesDashboard | backend/services/reporting_service.py:22-26 | the report's labels equal the dashboard's buckets for every score |
| Reporting.EffectiveDate | backend/services/reporting_service.py:33-34 | the given date unless it is missing or empty, then today |
| Reporting.LastSecondExcluded | backend/services/reporting_service.py:37-41 | the window ends at 23:59:59 exclusive, so an event stamped at that second is not reported |
| Reporting.Summarise | backend/services/reporting_service.py:74-80 | a critical entry carries the event's id, timestamp and score, its source ip and vector with 'Unknown' for a missing one |
| Reporting.Criticals | backend/services/reporting_service.py:57-80 | exactly the events scoring at least 80, summarised, never more than the events |
| Reporting.CriticalsConcat | backend/services/reporting_service.py:57-80 | the criticals keep event order: those of a concatenation are those of each part, in turn |
| Reporting.CriticalsSingle | backend/services/reporting_service.py:72-80 | one event contributes its summary exactly when it scores at least 80 |
| Reporting.ReportId | backend/services/reporting_service.py:85 | "RPT-" followed by the date with its dashes removed |
| Reporting.ReportIdOfIsoDate | backend/services/reporting_service.py:85 | for a `YYYY-MM-DD` date the id is "RPT-" followed by year, month and day run together |
| Reporting.DropSeparator | backend/services/reporting_service.py:85 | removing a separator after a run free of it keeps the run and goes on with the rest |
| Reporting.SeverityDistribution | backend/services/reporting_service.py:58-62 | exactly the labels that occur, each once with its positive count, totalling the events |
| Reporting.Top | backend/services/reporting_service.py:64-70 | min(5, distinct values) entries drawn from the tally, by non-increasing count, each with its true count, nothing larger left out |
| Reporting.TopLeftOut | backend/services/reporting_service.py:92-93 | an entry `most_common` leaves out is no larger than any entry kept |
| Reporting.CriticalList | backend/services/reporting_service.py:95 | the first ten criticals in event order (order by `Reporting.CriticalsConcat`), all of them when fewer |
| Reporting.Aggregate | backend/services/reporting_service.py:50-96 | a full report of the day: id, total, distribution, tops and criticals of the events |
| Reporting.GenerateReport | backend/services/reporting_service.py:29-100 | "No Data" with zero total when the day is empty, otherwise the aggregation of the day's events |
| Reporting.ReportCountsTheDay | backend/services/reporting_service.py:37-51 | the total is the number of the answering side's records in the day's half-open window, every copy counted, none outside it |
| Sentinel.UpdateLocalCache | backend/run_live_detection.py:63-91 | the new events prepended to the old cache, cut to 200; a failed write leaves the file |
| Sentinel.CacheKeepsAllBelowCap | backend/run_live_detection.py:73-77 | below the cap nothing is lost |
| Sentinel.CacheFloodedByLargeBatch | backend/run_live_detection.py:73-77 | a batch of 200 or more replaces the whole cache with its first 200 |
| Sentinel.PersistBatch | backend/run_live_detection.py:56-61 | an empty batch writes nothing |
| Sentinel.Escalate | backend/run_live_detection.py:161 | `min(severity * 1.2, 100)`: the product below the cap, exactly 100 at or above it |
| Sentinel.Incident | backend/run_live_detection.py:168-181 | the incident is Active, carries the label, the escalation flag and the possibly escalated score |
| Sentinel.Inspect | backend/run_live_detection.py:153-182 | a detection bumps its source's count and is escalated iff the source was seen before; anything else changes nothing |
| Sentinel.Scan | backend/run_live_detection.py:126-185 | one outcome per record; history = old history plus the batch's detections per source; each detection escalated iff its source was seen earlier |
| Sentinel.Incidents | backend/run_live_detection.py:124-182 | the incidents of the batch, in order |
| Sentinel.ProcessBatch | backend/run_live_detection.py:115-207 | no model or empty batch: nothing changes; otherwise the counter stays below 10 |
| Sentinel.BufferGrowsOrArchives | backend/run_live_detection.py:187-207 | the buffer grows by the batch's incidents, and is emptied only by a successful archival on the tenth batch |
| Sentinel.BufferHoldsDetections | backend/run_live_detection.py:188-190 | every buffered incident is an Active non-Normal detection |
| Sentinel.HistoryCountsDetections | backend/run_live_detection.py:155-156 | after a batch each source's count grows by its detections |
| Sentinel.SecondDetectionEscalates | backend/run_live_detection.py:156-162 | a source's first detection is not escalated and its second is, within one batch |
| Topology.AssetNode | backend/services/topology_service.py:92-118 | device `j` of a subnet has ip `prefix.(10+j)`, is Healthy, and is a Server iff the subnet name contains "Secure" |
| Topology.ClusterNodes | backend/services/topology_service.py:79-118 | a cluster adds its switch followed by its five devices |
| Topology.ClusterLinks | backend/services/topology_service.py:89-119 | a cluster adds the core-to-switch link followed by one switch-to-device link per device |
| Topology.SlotIsProduct | backend/services/topology_service.py:71-119 | each cluster takes six positions, so cluster `i` starts at position `6 * i` |
| Topology.SlotSplit | backend/services/topology_service.py:71-119 | every position of the cluster part lies in exactly one cluster at an offset below six |
| Topology.BlocksAt | backend/services/topology_service.py:71-119 | in a loop that appends a fixed-size block per item, item `i`'s block sits at its slot |
| Topology.BuildNodesAt | backend/services/topology_service.py:80-118 | cluster `i`'s nodes sit at positions from its slot on |
| Topology.BuildLinksAt | backend/services/topology_service.py:89-119 | cluster `i`'s links sit at positions from its slot on, pointing at its switch |
| Topology.GraphOf | backend/services/topology_service.py:33-121 | for any subnet list: the core first, six nodes and six links per subnet |
| Topology.BuildGraph | backend/services/topology_service.py:33-121 | 25 nodes and 24 links, the core gateway first |
| Topology.GraphAt | backend/services/topology_service.py:71-119 | node and link `m` of cluster `i` are the cluster's own, the switch at its slot |
| Topology.SwitchesInGraph | backend/services/topology_service.py:80-89 | each subnet's switch is in the graph, linked from the core |
| Topology.EndpointsInGraph | backend/services/topology_service.py:93-119 | each subnet's devices follow its switch, each linked from it |
| Topology.GraphShape | backend/services/topology_service.py:33-121 | where each switch and device sits and what each link joins |
| Topology.LinksAreTree | backend/services/topology_service.py:89-119 | every link joins the core to a switch or a switch to one of its own devices |
| Topology.LinkShape | backend/services/topology_service.py:89-119 | link `r` of cluster `i` joins the core to the switch or the switch to a device of the cluster |
| Topology.ServersOnlyInSecureEnclave | backend/services/topology_service.py:62-67 | servers exactly in the Secure Enclave subnet |
| Topology.ImpactMap | backend/services/topology_service.py:141-147 | keys are exactly the destinations of Active threats with a non-empty destination |
| Topology.ImpactMapLastWins | backend/services/topology_service.py:143-147 | each key maps to the score of the last such threat |
| Topology.OverlayNode | backend/services/topology_service.py:149-162 | an impacted node is flagged and is Compromised above 80, Warning above 50, else keeps its status; others unchanged |
| Topology.OverlayNodeIdempotent | backend/services/topology_service.py:149-162 | overlaying twice is overlaying once |
| Topology.Overlay | backend/services/topology_service.py:149-164 | each node overlaid, links unchanged |
| Topology.TopologyStatusOf | backend/services/topology_service.py:124-164 | a failed fetch gives the plain graph, otherwise the overlay of the fetched threats |
| Topology.TopologyStatus | backend/services/topology_service.py:134-138 | the overlay of the 50 newest events of the gateway |
| Topology.OverlayMarksTargetedEndpoints | backend/services/topology_service.py:141-162 | a node is flagged iff its ip is an Active threat's destination; nodes without ip never are |
| Topology.OverlayStatusByRisk | backend/services/topology_service.py:155-162 | the node's status follows the last Active threat on it |
| Auth.Save | backend/services/auth_service.py:38-44 | a failed write is swallowed and leaves the file |
| Auth.FindUser | backend/services/auth_service.py:48 | the first user with that name, or none |
| Auth.CreateUser | backend/services/auth_service.py:67-84 | refused iff the name is taken; otherwise one user appended, and true even if the write fails |
| Auth.CreateKeepsNamesUnique | backend/services/auth_service.py:67-84 | registration never creates a second user with the same name |
| Auth.ChangePassword | backend/services/auth_service.py:86-101 | succeeds iff the user exists and the old password checks; a written change alters only that user's hash; a failed save leaves the file |
| Auth.Authenticate | backend/services/auth_service.py:46-65 | a token iff the password checks (role defaults to analyst); an unknown "admin"/"admin" login registers the admin |
| Auth.EnsureAdmin | backend/services/auth_service.py:103-108 | registers the default admin only when none exists; a failed save leaves the file |
| Auth.EnsureAdminIdempotent | backend/services/auth_service.py:103-108 | after a written bootstrap the admin exists and a second bootstrap changes nothing |
| Auth.CreateThenAuthenticate | backend/services/auth_service.py:46-84 | a registered user logs in with a matching password and gets their role |
| Auth.ChangeThenAuthenticate | backend/services/auth_service.py:46-101 | after a password change the new password logs in, the role kept |
| Text.Strip | backend/services/log_collector.py:43 | `strip()`: a slice of the line with only whitespace cut away, neither starting nor ending with whitespace |
| Text.StripEmptyIff | backend/services/log_collector.py:43-44 | a line strips to "" exactly when it is all whitespace |
| Text.StripIdempotent | backend/services/log_collector.py:43 | stripping twice is stripping once |
| LogCollector.Classify | backend/services/log_collector.py:41-74 | on the stripped line, first match wins: failed password 75, accepted password 50, sudo COMMAND 60, else nothing |
| LogCollector.AlertsCarryTheLine | backend/services/log_collector.py:41-74 | a blank line gives no alert; an alert carries the stripped line and a score among 75/50/60 |
| LogCollector.ClassifyIgnoresPadding | backend/services/log_collector.py:43 | surrounding whitespace never changes the verdict |
| LogCollector.FailedLoginWins | backend/services/log_collector.py:47-60 | a line starting with the failed-password marker and ending with the accepted-password marker is a brute-force alert |
| LogCollector.BuildTelemetry | backend/services/log_collector.py:76-92 | the pushed record: confidence 1.0, port 22, SYSLOG, destination "Local", origin HIDS |
| LogCollector.ProcessLine | backend/services/log_collector.py:41-92 | a record is pushed iff the line classifies, carrying its kind and stripped line |
| PacketSniffer.Protocol | backend/services/packet_sniffer.py:44 | TCP before UDP before ICMP before OTHER, each as an iff |
| PacketSniffer.DestPort | backend/services/packet_sniffer.py:50-52 | the TCP port, else the UDP port, else 0 |
| PacketSniffer.Label | backend/services/packet_sniffer.py:68-80 | each of the four labels as an iff over port, length, protocol and count |
| PacketSniffer.EverythingIsAThreatAfterHundred | backend/services/packet_sniffer.py:68-80 | past the hundredth packet every packet is a threat scoring at least 75 |
| PacketSniffer.ProcessPacket | backend/services/packet_sniffer.py:32-90 | no IP: ignored, not counted; otherwise counted before the loopback filter; saved iff non-loopback and a threat or every 50th |
| PacketSniffer.RunCounts | backend/services/packet_sniffer.py:32-90 | over a stream the counter grows by the IP packets, at most one record each, none from loopback |
| PacketSniffer.ToEvent | backend/services/packet_sniffer.py:55-64 | the saved record has no id and no `predicted_label` (its label sits under "label"), country "UNK" |
| PacketSniffer.SavePacket | backend/services/packet_sniffer.py:88-90 | a saved packet goes through `save_event`; otherwise nothing changes |
| PacketSniffer.SavedPacketsShareOneSlot | backend/services/packet_sniffer.py:55-90 | two id-less records share one cache slot, the second overwriting the first |
| DataLoader.Detect | backend/ml_pipeline/data_loader.py:61-69 | CIC iff a padded CIC header is present, else KDD iff `dst_bytes` is, else internal |
| DataLoader.ColumnsNamed | backend/ml_pipeline/data_loader.py:91-92 | the positions of a name, all of them, increasing |
| DataLoader.Select | backend/ml_pipeline/data_loader.py:91-92 | a well-formed frame with the same rows, only selected columns |
| DataLoader.PickPositions | backend/ml_pipeline/data_loader.py:91-92 | with distinct headers the selected columns are the wanted names present, in wanted order |
| DataLoader.ProcessCic | backend/ml_pipeline/data_loader.py:76-94 | headers stripped, only the relevant columns kept, all rows kept |
| DataLoader.CicColumns | backend/ml_pipeline/data_loader.py:76-94 | with distinct stripped headers the columns are the relevant names present, in order |
| DataLoader.CicHeadersNormalised | backend/ml_pipeline/data_loader.py:76-94 | a table with every relevant header yields exactly the five relevant columns |
| DataLoader.SelectKeepsCells | backend/ml_pipeline/data_loader.py:91-92 | each selected cell is the cell of some input column with the same header |
| DataLoader.CicKeepsRelevantCells | backend/ml_pipeline/data_loader.py:76-94 | every kept column comes from an input column whose stripped header matches |
| DataLoader.RenameKdd | backend/ml_pipeline/data_loader.py:101-107 | the headers renamed one by one, rows kept; the port column is there iff it was |
| DataLoader.SetColumn | backend/ml_pipeline/data_loader.py:109-110 | `df[name] = v`: overwrites the column if present, else appends it; every other column kept |
| DataLoader.ProcessKdd | backend/ml_pipeline/data_loader.py:97-112 | renamed headers; the port column overwritten with 80 if present, else appended with 80; other cells kept |
| DataLoader.LoadAndNormalize | backend/ml_pipeline/data_loader.py:50-73 | an unreadable file gives the empty frame; otherwise the detected schema's processing |

## Left out

- The pymongo `$set` merge of `update_one`: an upsert is modelled as replacing the whole record, because every writer sends complete records.
- Partial failures of `insert_many` are modelled by the `accepted` id set. Timeouts, retries and connection pooling are not modelled: only success or failure is observable here.
- File and JSON I/O, `os.makedirs` and the users-file creation: each gateway write is a `DiskWrite` outcome (written, `open` failed, dump failed part-way), and each other write a success flag. An unreadable or corrupt file reads as empty, as in the code.
- Python set iteration order of `missing_in_cloud` / `missing_in_local` (database.py:221-240) is unspecified. The model fixes it to order of first appearance in the local list and the window (`Events.FirstIds`). The exact sequence `SyncProps.SyncRemoteIs` gives for the pushed records, and the relative order of pulled records with equal timestamps, rest on that choice. The id sets, counts and newest-first order of the sync properties do not.
- Concurrency, the async socket manager, HTTP routes, SSH, scapy capture and the HTTP notification of the sniffer: these are drivers around the core.
- The ML model, feature vectorisation, `compute_severity_index`, bcrypt and JWT: these are parameters (`predict`, `verify`, hashes, token claims). Token expiry depends on the clock and is not modelled.
- Topology node ids (md5 of names) and coordinates are not modelled: links refer to node positions instead, and coordinates are display data.
- The static artefacts of the dashboard (`features`, `metrics`) and the report's `generated_at` are not modelled: they are file reads and clock values.
- `ReportingService.save_report` / `get_report`: file I/O.
- `invoke_mitigation_protocol`: a stub that always returns true.
- The uniqueness of uuid4 ids is not modelled: incident ids come from the `mint` parameter.
- JSON `null` and a missing key are both `None`. The code's `.get(key, default)` gives the default only for a missing key, so a stored `null` would differ.
- String lowering is ASCII only. Python's `str.lower` also folds non-ASCII letters.
- The order of Mongo `$group` results is unspecified. The model fixes it to order of first appearance, and only key and count properties are stated.
- Mongo returns documents with equal timestamps from `find().sort('timestamp', DESCENDING)` in an unspecified order, and `update_one` matches an unspecified one of several documents with the same id. The model fixes both to insertion order: `Events.ByRecency` is a stable sort of the collection, and `Events.Upsert` replaces the first match. Which tied records a limited `Database.QueryRecent` or `Database.CloudWindow` keeps, and which duplicate a remote upsert replaces, rest on that choice. The newest-first order, lengths and "nothing newer left out" properties do not.
- pandas renames duplicate raw headers (`x.1`). The model keeps the raw names.
- The `Telemetry` of the sentinel carries only the fields copied into an incident. Port, protocol and packet size are copied verbatim and are not modelled.
- Sentinel.ProcessBatch: the incident timestamp default `datetime.now()` is the `now` parameter, shared by the whole batch.
- Analytics.RiskStrategiesAgree: states agreement only for the same event list. In the code the native side reads the whole collection and the fallback the 2000-event window.
- Analytics.GeoStrategiesAgree: holds only for countries other than 'UNK', because the fallback merges missing countries into 'UNK'.
- Reporting.SeverityLabel: its own ensures state only the two end buckets; the lemma `SeverityLabelMatchesDashboard` gives all four.
