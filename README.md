# Stateless replica-alert core of the metrics scraper

A Dafny model of the decision core of `metrics-scraper-2/metrics_scraper.py`.
The scraper lists Deployments, ReplicaSets, DaemonSets, StatefulSets and
CronJobs in a cluster. It keeps those on its watch list, turns each into a
metric (a desired and an available replica count), and then, for every
metric, sends a PagerDuty trigger, a resolve, or nothing. It keeps no state
between runs. Each run decides from the current reading alone. The
deduplication key `k8s-zero-replicas-<namespace>/<normalised name>` is what
lets a resolve in a later run close the incident an earlier trigger opened.

Modules, following the parts of the source file:

- `Wrappers`: `Option`, with `GetOr` for Python's `x or 0`.
- `Text`: the character class `[a-zA-Z0-9]` and ASCII lower-casing.
- `Naming`: `remove_replicaset_hash`, written as "cut at the last `-` when
  the rest is a non-empty run of ASCII letters and digits". Lemmas tie it to
  the substitution of the pattern `-[a-zA-Z0-9]+$`.
- `Watch`: watch items and the lookup sets built from them, as
  specification functions over the item list.
- `Workloads`: the listed Kubernetes records and the per-kind mapping to a
  metric. It also holds the CronJob health rule, with the loops that count
  failed Jobs and failed Pods as methods.
- `Notify`: the per-metric decision, the resource and deduplication keys,
  and `evaluate_and_notify` as a method over an array of metrics. The method
  rewrites each evaluated metric's name in place, as the source does, and
  counts the sends the sink accepted.
- `Scraper`: the class `MetricsScraper`. Its constructor fills the
  kind-to-pairs map in a loop. It provides `IsWatched` and a collection loop
  shared by the five `get_*_metrics` methods, dispatching on the record's
  kind. `Run` collects in the source's order, then evaluates. The source
  defines `evaluate_and_notify` on the class. Its decision reads no state of
  the object, so here it lives in `Notify`. The only object state the sends
  read is the PagerDuty routing key, which is left out with the payload.

The alert sink is a parameter `delivered: nat -> bool`. `delivered(i)` is
whether the send made for the `i`-th metric succeeded. A listing call that
failed is an absent listing (`None`), which yields no workloads.

Two consequences of the code, proved as lemmas:

- The ReplicaSet filter `_is_watched("replicaset", ...) or namespace in
  watched_namespaces` is a namespace-only filter. Every watched pair's
  namespace is itself a watched namespace, so the pair test adds nothing
  (`ReplicaSetKeptByNamespace`). The comment beside that filter speaks of
  keeping only ReplicaSets whose Deployment is watched.
- The name normaliser is applied to every kind, not only to ReplicaSets.
  So `payments-api` and `payments-web` in one namespace share a
  deduplication key (`LastSegmentIgnored`). When `payments-api` has
  no replica available and `payments-web` has some, one run sends a trigger
  and then a resolve under that one key, so the incident it opens is closed
  by the same run (`SameRunOpensAndCloses`).

## Model

| member | source | states |
|---|---|---|
| `Naming.RemoveHash` | metrics-scraper-2/metrics_scraper.py:69-76 | the normalised name is always a prefix of the input |
| `Naming.RemoveHashMatchesPattern` | metrics-scraper-2/metrics_scraper.py:74-76 | where `-[a-zA-Z0-9]+$` matches at position i the result is the text before i; with no match the input is returned unchanged |
| `Naming.RemoveHashStripsOneSegment` | metrics-scraper-2/metrics_scraper.py:74-75 | appending `-h` for a non-empty alphanumeric h and normalising gives back exactly the stem, whatever the stem ends with |
| `Naming.RemoveHashKeeps` | metrics-scraper-2/metrics_scraper.py:74-76 | a name with no `-`, or ending in `-`, is kept unchanged |
| `Naming.RemoveHashNotIdempotent` | metrics-scraper-2/metrics_scraper.py:74-75 | some name loses a second segment when normalised twice: one segment per call |
| `Watch.PairsByKind` | metrics-scraper-2/metrics_scraper.py:49-54 | the lookup built by adding each item's (namespace, name) to the set of its kind; no kind's set is empty (PairsByKindDomain and PairsByKindContents give its exact contents) |
| `Watch.NamespacesOf` | metrics-scraper-2/metrics_scraper.py:57 | every item's namespace is a watched namespace, and an empty watch list watches none (FiledNamespaceIsWatched relates it to the lookup) |
| `Watch.KindKey` | metrics-scraper-2/metrics_scraper.py:51 | an item with a missing or empty kind is filed under "deployment"; otherwise under its kind lower-cased |
| `Watch.PairsByKindDomain` | metrics-scraper-2/metrics_scraper.py:49-54 | the lookup has an entry for a kind iff some item is filed under it, and that entry is never empty |
| `Watch.PairsByKindContents` | metrics-scraper-2/metrics_scraper.py:49-54 | the entry of a kind holds exactly the (namespace, name) pairs of the items filed under that kind |
| `Watch.FiledNamespaceIsWatched` | metrics-scraper-2/metrics_scraper.py:50-57 | every filed pair's namespace is in the set of watched namespaces |
| `Scraper.MetricsScraper.constructor` | metrics-scraper-2/metrics_scraper.py:48-57 | the loop leaves the kind-to-pairs map and the namespace set equal to the lookup specified by the watch list |
| `Scraper.MetricsScraper.IsWatched` | metrics-scraper-2/metrics_scraper.py:60-66 | a kind with no entry falls back to namespace membership; whatever is watched lies in a watched namespace (IsWatchedMatchesWatchList states the full rule on the watch list) |
| `Scraper.MetricsScraper.FiledNamespacesWatched` | metrics-scraper-2/metrics_scraper.py:49-57 | once built, every pair in the lookup has its namespace in the watched-namespace set |
| `Scraper.MetricsScraper.IsWatchedMatchesWatchList` | metrics-scraper-2/metrics_scraper.py:60-66 | when some item has the lower-cased kind, a workload is watched iff an item of that kind lists its (namespace, name); otherwise iff some item names its namespace |
| `Scraper.MetricsScraper.IsWatchedIgnoresCase` | metrics-scraper-2/metrics_scraper.py:62 | the decision is the same for a kind and its lower-cased form |
| `Scraper.MetricsScraper.Admits` | metrics-scraper-2/metrics_scraper.py:87-130 | the skip tests of the listing loops: an admitted workload lies in a watched namespace, and an admitted ReplicaSet wants at least one replica (the same tests stand at lines 154-155, 193-194 and 234-235; AdmitsMatchesWatchList states the full rule on the watch list) |
| `Scraper.MetricsScraper.AdmitsMatchesWatchList` | metrics-scraper-2/metrics_scraper.py:87-130 | a ReplicaSet is admitted iff some watch item names its namespace and it wants at least one replica; a workload of any other kind iff the watch list admits it under its own kind name (the same test stands at lines 154, 193 and 234) |
| `Scraper.MetricsScraper.ReplicaSetKeptByNamespace` | metrics-scraper-2/metrics_scraper.py:119-130 | a ReplicaSet yields a metric iff its namespace appears in the watch list and it wants at least one replica (a missing count reads as 0) |
| `Scraper.MetricsScraper.MetricsOf` | metrics-scraper-2/metrics_scraper.py:79-304 | the collected metrics, in listing order: never more than the workloads, each in a watched namespace (MetricsOfSpec gives membership exactly) |
| `Scraper.MetricsScraper.MetricsOfSpec` | metrics-scraper-2/metrics_scraper.py:79-304 | a metric is collected iff it is the snapshot of an admitted listed workload; there are never more metrics than workloads |
| `Scraper.MetricsScraper.CollectMetrics` | metrics-scraper-2/metrics_scraper.py:79-304 | the loop over a listing returns the snapshots of the admitted workloads in listing order; a failed listing yields none |
| `Scraper.MetricsScraper.SentOnlyForAdmitted` | metrics-scraper-2/metrics_scraper.py:406-416 | every send made for a listing is the decision for an admitted workload of that listing that wants replicas |
| `Scraper.MetricsScraper.Run` | metrics-scraper-2/metrics_scraper.py:402-418 | given one listing per kind, each holding only that kind, one run sends the decisions for the Deployment, ReplicaSet, DaemonSet, StatefulSet and CronJob metrics in that order; accepted triggers plus resolves never exceed the sends |
| `Workloads.Snapshot` | metrics-scraper-2/metrics_scraper.py:90-292 | the metric keeps the workload's name, namespace and kind; Deployments and ReplicaSets report spec replicas as desired and available replicas as available; StatefulSets report spec replicas and ready replicas; DaemonSets report desired-number-scheduled and number-ready from the status (an absent status reads as all absent); every missing count reads as 0; a CronJob's metric is its health rule (CronJobMetric), with available ≤ desired ≤ 1 |
| `Workloads.CronJobMetric` | metrics-scraper-2/metrics_scraper.py:239-292 | desired is 0 iff suspended; available is 1 iff not suspended, a last success exists and no failed Job or Pod was counted; available ≤ desired ≤ 1 |
| `Workloads.CronJobHealth` | metrics-scraper-2/metrics_scraper.py:237-284 | on the listed Jobs and Pods: available is 1 iff not suspended, succeeded once, no Job it owns failed and no Pod of such a Job is failed or unknown (a failed listing counts nothing) |
| `Workloads.CountFailedJobs` | metrics-scraper-2/metrics_scraper.py:252-265 | the nested loop counts one failure per matching owner reference of a failed Job, and collects the owned Jobs' names |
| `Workloads.CountFailedPods` | metrics-scraper-2/metrics_scraper.py:267-281 | the loop counts the Pods labelled with a collected Job name whose lower-cased phase is failed or unknown |
| `Workloads.FailedJobsZero` | metrics-scraper-2/metrics_scraper.py:256-263 | the failed-Job counter is 0 iff no Job owned by the CronJob has a positive failed count |
| `Workloads.OwnedJobNamesSpec` | metrics-scraper-2/metrics_scraper.py:257-260 | a name is collected iff it is the name of a Job with an owner reference to the CronJob |
| `Workloads.FailedPodsZero` | metrics-scraper-2/metrics_scraper.py:272-279 | the failed-Pod counter is 0 iff no Pod of the named Jobs is in a failed or unknown phase |
| `Notify.Decide` | metrics-scraper-2/metrics_scraper.py:316-345 | no action iff desired is 0; otherwise a trigger iff available is 0 and a resolve iff available > 0, for resource `<namespace>/<normalised name>` |
| `Notify.EvaluateAndNotify` | metrics-scraper-2/metrics_scraper.py:307-347 | the sends are the decisions in metric order; each evaluated metric's name is normalised in place and no other metric changes; each counter counts the accepted sends of its kind |
| `Notify.OneActionPerWantedMetric` | metrics-scraper-2/metrics_scraper.py:316-345 | exactly one send per metric that wants replicas |
| `Notify.ActionsAreDecisions` | metrics-scraper-2/metrics_scraper.py:316-345 | an action is sent iff it is the decision for some metric |
| `Notify.CountersBounded` | metrics-scraper-2/metrics_scraper.py:314-347 | triggers + resolves ≤ the number of metrics with desired ≠ 0 |
| `Notify.CountersAllDelivered` | metrics-scraper-2/metrics_scraper.py:338-345 | when every send succeeds, triggers + resolves equals the number of metrics with desired ≠ 0 |
| `Notify.CountersNoneDelivered` | metrics-scraper-2/metrics_scraper.py:338-345 | when every send fails, both counters stay 0 |
| `Notify.ResourceKey` | metrics-scraper-2/metrics_scraper.py:323-324 | the resource key starts with `<namespace>/` and continues with a prefix of the workload's name |
| `Notify.DedupKey` | metrics-scraper-2/metrics_scraper.py:350-388 | the deduplication key is `k8s-zero-replicas-` followed by exactly the resource key, for triggers (line 353) and resolves (line 383) alike |
| `Notify.TriggerAndResolveShareKey` | metrics-scraper-2/metrics_scraper.py:323-383 | a trigger and a resolve for one workload carry the same deduplication key `k8s-zero-replicas-<namespace>/<normalised name>` |
| `Notify.ResourceKeyInjective` | metrics-scraper-2/metrics_scraper.py:324 | for namespaces without `/`, two resource keys are equal iff namespaces and normalised names are equal |
| `Notify.LastSegmentIgnored` | metrics-scraper-2/metrics_scraper.py:323-324 | two workloads of one namespace that differ only in their last `-<alnum>` segment get the same resource key |
| `Notify.SameRunOpensAndCloses` | metrics-scraper-2/metrics_scraper.py:316-383 | two wanted workloads of one namespace whose names differ only in their last segment, the first with none available and the second with some, yield a trigger then a resolve under one deduplication key in a single run |
| `Notify.SuspendedCronJobSendsNothing` | metrics-scraper-2/metrics_scraper.py:241-242 | a suspended CronJob never causes a send |

## Left out

- Kubernetes client access (configuration loading, the five list calls, listing namespaced Jobs and Pods). This is foreign I/O. Its results are inputs: each listing is `Option<seq<Workload>>`, with `None` when the call raised.
- An exception raised part-way through a listing loop (a malformed object). The source would then keep the metrics gathered so far. The model assumes well-formed records.
- PagerDuty delivery: HTTP, timeouts, `raise_for_status`, the routing key and the payload body (summary, severity, custom details). Only the action, its resource, its kind and its deduplication key are modelled. The outcome of each send is the `delivered` parameter.
- Environment variables, parsing of the watch JSON, and the credential check. Watch items come in already parsed. An item without a namespace or a name would raise in the source; here both fields are required.
- Logging, the version banner, `datetime.now()` timestamps and the outer exception handler: no decision depends on them.
- Diagnostic metric fields: DaemonSet current, updated and misscheduled counts; StatefulSet current and updated counts; the CronJob detail fields and the timestamp. They only travel in the alert payload.
- `Text.Lower`: maps ASCII letters only; Python's `str.lower` also maps non-ASCII letters. Kinds and pod phases are ASCII.
- `Naming.RemoveHash`: does not model Python's `$` matching before a trailing newline; Kubernetes names contain no newline.
- `Workloads.Job`: a Job without metadata is treated as a Job with no owner references. A Job without a status is treated as one with no failed count. The source skips both in the same way.
- `Workloads.CronJob`: a present last-success time counts as present; the source tests its truth value, and datetime values are always true.
- Replica counts are `nat`, so negative counts are not modelled. The cluster API rejects them, but the source would act on one: a negative desired count passes the `desired == 0` test at line 320, and a negative available count leads to a resolve at line 325.
- No state is kept between runs: no tracking record, no grace period, no per-episode key and no exit-code scheme. The code has none of these.
