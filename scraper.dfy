/**
 * The scraper object: the watch lookup built once from the watch list, the
 * collection of metrics from the listed workloads, and one run that
 * collects and then evaluates.
 */
module Scraper {
  import opened Wrappers
  import opened Text
  import opened Watch
  import opened Workloads
  import opened Notify

  /** The workloads of a listing; a listing call that failed yields none. */
  function Listed(listing: Option<seq<Workload>>): seq<Workload> {
    listing.GetOr([])
  }

  class MetricsScraper {
    var watchPairsByKind: map<string, set<Pair>>
    var watchedNamespaces: set<string>
    /** The watch list the lookup was built from. */
    ghost var watchItems: seq<WatchItem>

    ghost predicate Valid()
      reads this
    {
      watchPairsByKind == PairsByKind(watchItems) && watchedNamespaces == NamespacesOf(watchItems)
    }

    /** Files each watch item under its kind and collects every mentioned namespace. */
    constructor (items: seq<WatchItem>)
      ensures Valid() && watchItems == items
    {
      watchItems := items;
      watchPairsByKind := map[];
      watchedNamespaces := {};
      new;
      for i := 0 to |items|
        invariant watchItems == items
        invariant watchPairsByKind == PairsByKind(items[..i])
      {
        assert items[..i + 1][..i] == items[..i];
        var item := items[i];
        var kind := KindKey(item);
        var pairs := if kind in watchPairsByKind then watchPairsByKind[kind] else {};
        watchPairsByKind := watchPairsByKind[kind := pairs + {(item.namespace, item.name)}];
      }
      assert items[..|items|] == items;
      watchedNamespaces := set i | 0 <= i < |items| :: items[i].namespace;
    }

    /** The namespace of every filed pair is a watched namespace. */
    lemma FiledNamespacesWatched()
      ensures Valid() ==>
        forall k, p :: k in watchPairsByKind && p in watchPairsByKind[k] ==> p.0 in watchedNamespaces
    {
      if Valid() {
        forall k, p | k in watchPairsByKind && p in watchPairsByKind[k] ensures p.0 in watchedNamespaces {
          FiledNamespaceIsWatched(watchItems, k, p);
        }
      }
    }

    /**
     * Whether `(namespace, name)` is monitored for `kind`: by the pair when
     * the lower-cased kind has pairs, otherwise by the namespace alone.
     */
    predicate IsWatched(kind: string, namespace: string, name: string)
      reads this
      ensures Lower(kind) !in watchPairsByKind ==> (IsWatched(kind, namespace, name) <==> namespace in watchedNamespaces)
      ensures Valid() && IsWatched(kind, namespace, name) ==> namespace in watchedNamespaces
    {
      FiledNamespacesWatched();
      var k := Lower(kind);
      if k in watchPairsByKind && watchPairsByKind[k] != {} then (namespace, name) in watchPairsByKind[k]
      else namespace in watchedNamespaces
    }

    /** The lookup decides as the watch list says. */
    lemma IsWatchedMatchesWatchList(kind: string, namespace: string, name: string)
      requires Valid()
      ensures IsWatched(kind, namespace, name) <==> WatchListAdmits(watchItems, kind, namespace, name)
    {
      var k := Lower(kind);
      PairsByKindDomain(watchItems, k);
      PairsByKindContents(watchItems, k, (namespace, name));
      if !MentionsKind(watchItems, k) && namespace in watchedNamespaces {
        var i :| 0 <= i < |watchItems| && watchItems[i].namespace == namespace;
      }
    }

    /** The kind is compared without regard to ASCII case. */
    lemma IsWatchedIgnoresCase(kind: string, namespace: string, name: string)
      ensures IsWatched(kind, namespace, name) == IsWatched(Lower(kind), namespace, name)
    {
      LowerIdempotent(kind);
    }

    /**
     * Whether a listed workload yields a metric: it must be watched for its
     * kind; a ReplicaSet is also kept when its namespace is watched, and is
     * dropped when it wants no replica.
     */
    predicate Admits(w: Workload)
      reads this
      ensures Valid() && Admits(w) ==> w.meta.namespace in watchedNamespaces
      ensures Admits(w) && w.ReplicaSet? ==> Count(w.replicas) != 0
    {
      match w
      case ReplicaSet(meta, replicas, _, _) =>
        (IsWatched("replicaset", meta.namespace, meta.name) || meta.namespace in watchedNamespaces)
        && Count(replicas) != 0
      case _ => IsWatched(KindName(w), w.meta.namespace, w.meta.name)
    }

    /**
     * Admission stated on the watch list: a ReplicaSet by its namespace and
     * its replica count, every other kind under its own kind name.
     */
    lemma AdmitsMatchesWatchList(w: Workload)
      requires Valid()
      ensures w.ReplicaSet? ==>
        (Admits(w) <==> (exists i :: 0 <= i < |watchItems| && watchItems[i].namespace == w.meta.namespace) && Count(w.replicas) != 0)
      ensures !w.ReplicaSet? ==>
        (Admits(w) <==> WatchListAdmits(watchItems, KindName(w), w.meta.namespace, w.meta.name))
    {
      IsWatchedMatchesWatchList(KindName(w), w.meta.namespace, w.meta.name);
    }

    /**
     * The ReplicaSet filter is by namespace only: since every filed pair's
     * namespace is a watched namespace, a ReplicaSet is kept iff its
     * namespace appears in the watch list and it wants at least one replica.
     */
    lemma ReplicaSetKeptByNamespace(w: Workload)
      requires Valid() && w.ReplicaSet?
      ensures Admits(w) <==> w.meta.namespace in NamespacesOf(watchItems) && Count(w.replicas) != 0
    {
    }

    /** The metrics collected from a listing, in listing order. */
    function MetricsOf(ws: seq<Workload>): (ms: seq<Metric>)
      reads this
      ensures |ms| <= |ws|
      ensures Valid() ==> forall m :: m in ms ==> m.namespace in watchedNamespaces
      decreases |ws|
    {
      if ws == [] then []
      else
        var w := ws[|ws| - 1];
        MetricsOf(ws[..|ws| - 1]) + (if Admits(w) then [Snapshot(w)] else [])
    }

    /** A metric is collected iff it is the snapshot of an admitted workload; none is invented. */
    lemma {:induction false} MetricsOfSpec(ws: seq<Workload>, m: Metric)
      ensures |MetricsOf(ws)| <= |ws|
      ensures m in MetricsOf(ws) <==> exists w :: w in ws && Admits(w) && Snapshot(w) == m
      decreases |ws|
    {
      if ws != [] {
        var front := ws[..|ws| - 1];
        MetricsOfSpec(front, m);
        if exists w :: w in ws && Admits(w) && Snapshot(w) == m {
          var w :| w in ws && Admits(w) && Snapshot(w) == m;
          if w != ws[|ws| - 1] {
            assert w in front;
          }
        }
        if exists w :: w in front && Admits(w) && Snapshot(w) == m {
          var w :| w in front && Admits(w) && Snapshot(w) == m;
          assert w in ws;
        }
      }
    }

    /** Every send of a listing's evaluation is the decision for an admitted workload of that listing. */
    lemma SentOnlyForAdmitted(ws: seq<Workload>, a: Action)
      requires a in Actions(MetricsOf(ws))
      ensures exists w :: w in ws && Admits(w) && Snapshot(w).desired != 0 && Decide(Snapshot(w)) == Some(a)
    {
      var ms := MetricsOf(ws);
      ActionsAreDecisions(ms, a);
      var i :| 0 <= i < |ms| && Decide(ms[i]) == Some(a);
      MetricsOfSpec(ws, ms[i]);
    }

    /**
     * Walks one listing, skipping workloads that are not admitted, and
     * appends the metric of each admitted one; for a CronJob it counts the
     * failed Jobs it owns and the failed Pods of those Jobs.
     */
    method CollectMetrics(listing: Option<seq<Workload>>) returns (metrics: seq<Metric>)
      ensures metrics == MetricsOf(Listed(listing))
    {
      var ws := Listed(listing);
      metrics := [];
      for i := 0 to |ws|
        invariant metrics == MetricsOf(ws[..i])
      {
        assert ws[..i + 1][..i] == ws[..i];
        var w := ws[i];
        if !Admits(w) {
          continue;
        }
        match w {
          case CronJob(meta, suspend, lastSuccessfulTime, namespaceJobs, namespacePods) =>
            var failedJobs, jobNames := 0, [];
            if namespaceJobs.Some? {
              failedJobs, jobNames := CountFailedJobs(namespaceJobs.value, meta.name);
            }
            var failedPods := 0;
            if jobNames != [] && namespacePods.Some? {
              failedPods := CountFailedPods(namespacePods.value, jobNames);
            }
            metrics := metrics + [CronJobMetric(meta, suspend, lastSuccessfulTime, failedJobs, failedPods)];
          case _ =>
            metrics := metrics + [Snapshot(w)];
        }
      }
      assert ws[..|ws|] == ws;
    }

    /** The metrics of one run: Deployments, ReplicaSets, DaemonSets, StatefulSets, then CronJobs. */
    function RunMetrics(deployments: Option<seq<Workload>>, replicaSets: Option<seq<Workload>>,
                        daemonSets: Option<seq<Workload>>, statefulSets: Option<seq<Workload>>,
                        cronJobs: Option<seq<Workload>>): seq<Metric>
      reads this
    {
      MetricsOf(Listed(deployments)) + MetricsOf(Listed(replicaSets)) + MetricsOf(Listed(daemonSets))
      + MetricsOf(Listed(statefulSets)) + MetricsOf(Listed(cronJobs))
    }

    /**
     * One run: collect the metrics of every listing in order, then evaluate
     * them. Returns the sends made and the accepted-send counters.
     */
    method Run(deployments: Option<seq<Workload>>, replicaSets: Option<seq<Workload>>,
               daemonSets: Option<seq<Workload>>, statefulSets: Option<seq<Workload>>,
               cronJobs: Option<seq<Workload>>, delivered: nat -> bool)
      returns (sent: seq<Action>, triggers: nat, resolves: nat)
      requires forall w :: w in Listed(deployments) ==> w.Deployment?
      requires forall w :: w in Listed(replicaSets) ==> w.ReplicaSet?
      requires forall w :: w in Listed(daemonSets) ==> w.DaemonSet?
      requires forall w :: w in Listed(statefulSets) ==> w.StatefulSet?
      requires forall w :: w in Listed(cronJobs) ==> w.CronJob?
      ensures var all := RunMetrics(deployments, replicaSets, daemonSets, statefulSets, cronJobs);
        sent == Actions(all) && triggers == Triggers(all, delivered) && resolves == Resolves(all, delivered)
      ensures triggers + resolves <= |sent|
    {
      var fromDeployments := CollectMetrics(deployments);
      var fromReplicaSets := CollectMetrics(replicaSets);
      var fromDaemonSets := CollectMetrics(daemonSets);
      var fromStatefulSets := CollectMetrics(statefulSets);
      var fromCronJobs := CollectMetrics(cronJobs);
      var allMetrics := fromDeployments + fromReplicaSets + fromDaemonSets + fromStatefulSets + fromCronJobs;
      var buffer := new Metric[|allMetrics|](i requires 0 <= i < |allMetrics| => allMetrics[i]);
      assert buffer[..] == allMetrics;
      sent, triggers, resolves := EvaluateAndNotify(buffer, delivered);
      CountersBounded(allMetrics, delivered);
      OneActionPerWantedMetric(allMetrics);
    }
  }
}
