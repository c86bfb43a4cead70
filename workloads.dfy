/**
 * Workload records as the cluster lists them, and the rules that turn one
 * into a metric: a desired and an available replica count.
 */
module Workloads {
  import opened Wrappers
  import opened Text

  datatype Meta = Meta(name: string, namespace: string)

  /** The status of a DaemonSet; absent counts read as 0. */
  datatype DaemonSetStatus = DaemonSetStatus(desiredNumberScheduled: Option<nat>, numberReady: Option<nat>)

  datatype OwnerRef = OwnerRef(kind: string, name: string)

  /** A Job of the CronJob's namespace; `failed` is absent when the Job has no status or no failed count. */
  datatype Job = Job(name: string, ownerRefs: seq<OwnerRef>, failed: Option<nat>)

  /** A Pod of the CronJob's namespace, with its labels and its phase. */
  datatype Pod = Pod(labels: map<string, string>, phase: Option<string>)

  /**
   * One listed workload. For a CronJob, `namespaceJobs` and `namespacePods`
   * are the results of listing the Jobs and the Pods of its namespace, absent
   * when the listing call failed.
   */
  datatype Workload =
    | Deployment(meta: Meta, replicas: Option<nat>, availableReplicas: Option<nat>, readyReplicas: Option<nat>)
    | ReplicaSet(meta: Meta, replicas: Option<nat>, availableReplicas: Option<nat>, readyReplicas: Option<nat>)
    | DaemonSet(meta: Meta, status: Option<DaemonSetStatus>)
    | StatefulSet(meta: Meta, replicas: Option<nat>, readyReplicas: Option<nat>)
    | CronJob(meta: Meta, suspend: Option<bool>, lastSuccessfulTime: Option<string>,
              namespaceJobs: Option<seq<Job>>, namespacePods: Option<seq<Pod>>)

  /** What is reported per workload and later evaluated. */
  datatype Metric = Metric(name: string, namespace: string, kind: string, desired: nat, available: nat, ready: nat)

  /** The kind string of a workload, as used for watch lookups and as the metric's type. */
  function KindName(w: Workload): string {
    match w
    case Deployment(_, _, _, _) => "deployment"
    case ReplicaSet(_, _, _, _) => "replicaset"
    case DaemonSet(_, _) => "daemonset"
    case StatefulSet(_, _, _) => "statefulset"
    case CronJob(_, _, _, _, _) => "cronjob"
  }

  /** A replica count that may be missing; missing reads as 0. */
  function Count(c: Option<nat>): nat {
    c.GetOr(0)
  }

  // ---------- CronJob: Jobs and Pods ----------

  predicate IsOwnerRef(r: OwnerRef, cronJob: string) {
    r.kind == "CronJob" && r.name == cronJob
  }

  /** How many of `refs` name the CronJob as owner. */
  function MatchingRefs(refs: seq<OwnerRef>, cronJob: string): nat
    decreases |refs|
  {
    if refs == [] then 0
    else MatchingRefs(refs[..|refs| - 1], cronJob) + (if IsOwnerRef(refs[|refs| - 1], cronJob) then 1 else 0)
  }

  predicate JobFailed(job: Job) {
    Count(job.failed) > 0
  }

  /** Some owner reference of the Job names the CronJob. */
  ghost predicate OwnedBy(job: Job, cronJob: string) {
    exists r :: r in job.ownerRefs && IsOwnerRef(r, cronJob)
  }

  /** The failed-Job counter: each matching owner reference of a failed Job adds one. */
  function FailedJobs(jobs: seq<Job>, cronJob: string): nat
    decreases |jobs|
  {
    if jobs == [] then 0
    else
      var job := jobs[|jobs| - 1];
      FailedJobs(jobs[..|jobs| - 1], cronJob) + (if JobFailed(job) then MatchingRefs(job.ownerRefs, cronJob) else 0)
  }

  /** The names collected for the CronJob: a Job's name once per matching owner reference. */
  function OwnedJobNames(jobs: seq<Job>, cronJob: string): seq<string>
    decreases |jobs|
  {
    if jobs == [] then []
    else
      var job := jobs[|jobs| - 1];
      OwnedJobNames(jobs[..|jobs| - 1], cronJob) + seq(MatchingRefs(job.ownerRefs, cronJob), _ => job.name)
  }

  /** The phases that count a Job's Pod as failed, compared after lower-casing. */
  predicate FailedPhase(phase: Option<string>) {
    var p := Lower(phase.GetOr(""));
    p == "failed" || p == "unknown"
  }

  /** The Pod carries a `job-name` label naming one of `jobNames`, and its phase is failed or unknown. */
  predicate PodFailed(pod: Pod, jobNames: set<string>) {
    "job-name" in pod.labels && pod.labels["job-name"] in jobNames && FailedPhase(pod.phase)
  }

  function FailedPods(pods: seq<Pod>, jobNames: set<string>): nat
    decreases |pods|
  {
    if pods == [] then 0
    else FailedPods(pods[..|pods| - 1], jobNames) + (if PodFailed(pods[|pods| - 1], jobNames) then 1 else 0)
  }

  lemma {:induction false} MatchingRefsPositive(refs: seq<OwnerRef>, cronJob: string)
    ensures MatchingRefs(refs, cronJob) > 0 <==> exists r :: r in refs && IsOwnerRef(r, cronJob)
    decreases |refs|
  {
    if refs != [] {
      var front := refs[..|refs| - 1];
      MatchingRefsPositive(front, cronJob);
      if exists r :: r in refs && IsOwnerRef(r, cronJob) {
        var r :| r in refs && IsOwnerRef(r, cronJob);
        if r != refs[|refs| - 1] {
          assert r in front;
        }
      }
    }
  }

  /** No failed Job is counted iff no Job owned by the CronJob has failed. */
  lemma {:induction false} FailedJobsZero(jobs: seq<Job>, cronJob: string)
    ensures FailedJobs(jobs, cronJob) == 0 <==> forall job :: job in jobs && OwnedBy(job, cronJob) ==> !JobFailed(job)
    decreases |jobs|
  {
    if jobs != [] {
      var front := jobs[..|jobs| - 1];
      var last := jobs[|jobs| - 1];
      FailedJobsZero(front, cronJob);
      MatchingRefsPositive(last.ownerRefs, cronJob);
      if forall job :: job in jobs && OwnedBy(job, cronJob) ==> !JobFailed(job) {
        forall job | job in front ensures job in jobs { }
      } else {
        var job :| job in jobs && OwnedBy(job, cronJob) && JobFailed(job);
        if job != last {
          assert job in front;
        }
      }
    }
  }

  /** A name is collected iff it is the name of a Job owned by the CronJob. */
  lemma {:induction false} OwnedJobNamesSpec(jobs: seq<Job>, cronJob: string, n: string)
    ensures n in OwnedJobNames(jobs, cronJob) <==> exists job :: job in jobs && OwnedBy(job, cronJob) && job.name == n
    decreases |jobs|
  {
    if jobs != [] {
      var front := jobs[..|jobs| - 1];
      var last := jobs[|jobs| - 1];
      OwnedJobNamesSpec(front, cronJob, n);
      MatchingRefsPositive(last.ownerRefs, cronJob);
      var tail := seq(MatchingRefs(last.ownerRefs, cronJob), _ => last.name);
      assert OwnedJobNames(jobs, cronJob) == OwnedJobNames(front, cronJob) + tail;
      if tail != [] {
        assert tail[0] == last.name;
      }
      if exists job :: job in jobs && OwnedBy(job, cronJob) && job.name == n {
        var job :| job in jobs && OwnedBy(job, cronJob) && job.name == n;
        if job != last {
          assert job in front;
        }
      }
    }
  }

  /** No failed Pod is counted iff no Pod of the named Jobs is in a failed or unknown phase. */
  lemma {:induction false} FailedPodsZero(pods: seq<Pod>, jobNames: set<string>)
    ensures FailedPods(pods, jobNames) == 0 <==> forall pod :: pod in pods ==> !PodFailed(pod, jobNames)
    decreases |pods|
  {
    if pods != [] {
      var front := pods[..|pods| - 1];
      FailedPodsZero(front, jobNames);
      if forall pod :: pod in pods ==> !PodFailed(pod, jobNames) {
        forall pod | pod in front ensures pod in pods { }
      } else {
        var pod :| pod in pods && PodFailed(pod, jobNames);
        if pod != pods[|pods| - 1] {
          assert pod in front;
        }
      }
    }
  }

  /** Walks the Jobs and their owner references, counting failed Jobs and collecting Job names. */
  method CountFailedJobs(jobs: seq<Job>, cronJob: string) returns (failedJobs: nat, jobNames: seq<string>)
    ensures failedJobs == FailedJobs(jobs, cronJob)
    ensures jobNames == OwnedJobNames(jobs, cronJob)
  {
    failedJobs, jobNames := 0, [];
    for i := 0 to |jobs|
      invariant failedJobs == FailedJobs(jobs[..i], cronJob)
      invariant jobNames == OwnedJobNames(jobs[..i], cronJob)
    {
      var job := jobs[i];
      var refs := job.ownerRefs;
      assert jobs[..i + 1][..i] == jobs[..i];
      for j := 0 to |refs|
        invariant failedJobs == FailedJobs(jobs[..i], cronJob) + (if JobFailed(job) then MatchingRefs(refs[..j], cronJob) else 0)
        invariant jobNames == OwnedJobNames(jobs[..i], cronJob) + seq(MatchingRefs(refs[..j], cronJob), _ => job.name)
      {
        assert refs[..j + 1][..j] == refs[..j];
        if refs[j].kind == "CronJob" && refs[j].name == cronJob {
          jobNames := jobNames + [job.name];
          if Count(job.failed) > 0 {
            failedJobs := failedJobs + 1;
          }
        }
      }
      assert refs[..|refs|] == refs;
    }
    assert jobs[..|jobs|] == jobs;
  }

  /** Walks the Pods, counting those of the named Jobs whose phase is failed or unknown. */
  method CountFailedPods(pods: seq<Pod>, jobNames: seq<string>) returns (failedPods: nat)
    ensures failedPods == FailedPods(pods, set n | n in jobNames)
  {
    var jobNameSet := set n | n in jobNames;
    failedPods := 0;
    for i := 0 to |pods|
      invariant failedPods == FailedPods(pods[..i], jobNameSet)
    {
      assert pods[..i + 1][..i] == pods[..i];
      var labels := pods[i].labels;
      if "job-name" in labels && labels["job-name"] in jobNameSet {
        var phase := Lower(pods[i].phase.GetOr(""));
        if phase == "failed" || phase == "unknown" {
          failedPods := failedPods + 1;
        }
      }
    }
    assert pods[..|pods|] == pods;
  }

  // ---------- Snapshots ----------

  /**
   * The CronJob metric from its counters: desired is 1 unless suspended, and
   * available is 1 only when it is not suspended, has a last success, and no
   * failed Job or Pod was counted.
   */
  function CronJobMetric(meta: Meta, suspend: Option<bool>, lastSuccessfulTime: Option<string>,
                         failedJobs: nat, failedPods: nat): (m: Metric)
    ensures m.available <= m.desired <= 1
    ensures m.desired == 0 <==> suspend == Some(true)
    ensures m.available == 1 <==> suspend != Some(true) && lastSuccessfulTime.Some? && failedJobs == 0 && failedPods == 0
  {
    var suspended := suspend.GetOr(false);
    var desired := if suspended then 0 else 1;
    var healthy := !suspended && lastSuccessfulTime.Some? && failedJobs == 0 && failedPods == 0;
    var available := if healthy then 1 else 0;
    Metric(meta.name, meta.namespace, "cronjob", desired, available, available)
  }

  /** The failed-Job counter of a CronJob; 0 when its Jobs could not be listed. */
  function CronJobFailedJobs(w: Workload): nat
    requires w.CronJob?
  {
    if w.namespaceJobs.Some? then FailedJobs(w.namespaceJobs.value, w.meta.name) else 0
  }

  /** The Job names collected for a CronJob; none when its Jobs could not be listed. */
  function CronJobJobNames(w: Workload): seq<string>
    requires w.CronJob?
  {
    if w.namespaceJobs.Some? then OwnedJobNames(w.namespaceJobs.value, w.meta.name) else []
  }

  /** The failed-Pod counter: Pods are looked at only when some Job name was collected and the Pods were listed. */
  function CronJobFailedPods(w: Workload): nat
    requires w.CronJob?
  {
    var names := CronJobJobNames(w);
    if names != [] && w.namespacePods.Some? then FailedPods(w.namespacePods.value, set n | n in names) else 0
  }

  /** The metric of one workload, before any watch filtering. */
  function Snapshot(w: Workload): (m: Metric)
    ensures m.name == w.meta.name && m.namespace == w.meta.namespace && m.kind == KindName(w)
    ensures w.Deployment? || w.ReplicaSet? ==>
      m.desired == Count(w.replicas) && m.available == Count(w.availableReplicas) && m.ready == Count(w.readyReplicas)
    ensures w.StatefulSet? ==>
      m.desired == Count(w.replicas) && m.available == Count(w.readyReplicas) && m.ready == m.available
    ensures w.DaemonSet? ==>
      var st := w.status.GetOr(DaemonSetStatus(None, None));
      m.desired == Count(st.desiredNumberScheduled) && m.available == Count(st.numberReady) && m.ready == m.available
    ensures w.CronJob? ==> m == CronJobMetric(w.meta, w.suspend, w.lastSuccessfulTime, CronJobFailedJobs(w), CronJobFailedPods(w))
    ensures w.CronJob? ==> m.available <= m.desired <= 1 && m.ready == m.available
  {
    match w
    case Deployment(meta, replicas, available, ready) =>
      Metric(meta.name, meta.namespace, "deployment", Count(replicas), Count(available), Count(ready))
    case ReplicaSet(meta, replicas, available, ready) =>
      Metric(meta.name, meta.namespace, "replicaset", Count(replicas), Count(available), Count(ready))
    case DaemonSet(meta, status) =>
      var st := status.GetOr(DaemonSetStatus(None, None));
      var ready := Count(st.numberReady);
      Metric(meta.name, meta.namespace, "daemonset", Count(st.desiredNumberScheduled), ready, ready)
    case StatefulSet(meta, replicas, ready) =>
      Metric(meta.name, meta.namespace, "statefulset", Count(replicas), Count(ready), Count(ready))
    case CronJob(meta, suspend, lastSuccessfulTime, _, _) =>
      CronJobMetric(meta, suspend, lastSuccessfulTime, CronJobFailedJobs(w), CronJobFailedPods(w))
  }

  /** No Job the CronJob owns has failed, or the Jobs could not be listed. */
  ghost predicate NoFailedOwnedJob(w: Workload)
    requires w.CronJob?
  {
    w.namespaceJobs.Some? ==>
      forall job :: job in w.namespaceJobs.value && OwnedBy(job, w.meta.name) ==> !JobFailed(job)
  }

  /** No Pod labelled with the name of a Job the CronJob owns is failed or unknown, or a listing failed. */
  ghost predicate NoFailedOwnedPod(w: Workload)
    requires w.CronJob?
  {
    w.namespaceJobs.Some? && w.namespacePods.Some? ==>
      forall pod :: pod in w.namespacePods.value ==>
        !(PodFailed(pod, set job | job in w.namespaceJobs.value && OwnedBy(job, w.meta.name) :: job.name))
  }

  /**
   * The CronJob health rule stated on the listed Jobs and Pods: it is wanted
   * unless suspended, and it is available iff it is not suspended, has
   * succeeded at least once, no Job it owns has failed, and no Pod of such a
   * Job is failed or unknown.
   */
  lemma CronJobHealth(w: Workload)
    requires w.CronJob?
    ensures Snapshot(w).desired == (if w.suspend == Some(true) then 0 else 1)
    ensures Snapshot(w).available == 1 <==>
      w.suspend != Some(true) && w.lastSuccessfulTime.Some? && NoFailedOwnedJob(w) && NoFailedOwnedPod(w)
    ensures Snapshot(w).available <= Snapshot(w).desired
  {
    if w.namespaceJobs.Some? {
      var jobs := w.namespaceJobs.value;
      var cj := w.meta.name;
      FailedJobsZero(jobs, cj);
      var names := OwnedJobNames(jobs, cj);
      var owned := set job | job in jobs && OwnedBy(job, cj) :: job.name;
      forall n ensures n in names <==> n in owned {
        OwnedJobNamesSpec(jobs, cj, n);
      }
      assert (set n | n in names) == owned;
      if w.namespacePods.Some? {
        FailedPodsZero(w.namespacePods.value, owned);
        if names == [] {
          forall pod | pod in w.namespacePods.value ensures !PodFailed(pod, owned) {
            assert owned == {};
          }
        }
      }
    }
  }
}
