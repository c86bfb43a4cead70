/**
 * The stateless evaluation: per metric, nothing, a trigger or a resolve,
 * each keyed by the workload's namespace and normalised name; counters of
 * the sends the alert sink accepted.
 */
module Notify {
  import opened Wrappers
  import opened Text
  import opened Naming
  import opened Workloads

  /** A request to the alert sink: open or close the incident of `resource`. */
  datatype Action = Trigger(resource: string, kind: string) | Resolve(resource: string, kind: string)

  const DedupPrefix: string := "k8s-zero-replicas-"

  /** `<namespace>/<normalised name>`. */
  function ResourceKey(namespace: string, name: string): (r: string)
    ensures namespace + "/" <= r
    ensures r[|namespace| + 1..] <= name
  {
    namespace + "/" + RemoveHash(name)
  }

  /** The deduplication key under which the sink files the action; the same for both action kinds. */
  function DedupKey(a: Action): (k: string)
    ensures DedupPrefix <= k && k[|DedupPrefix|..] == a.resource
  {
    DedupPrefix + a.resource
  }

  /**
   * The rule for one metric: nothing when no replica is wanted; otherwise a
   * trigger when none is available and a resolve when some is.
   */
  function Decide(m: Metric): (r: Option<Action>)
    ensures r.None? <==> m.desired == 0
    ensures r.Some? ==> r.value.resource == ResourceKey(m.namespace, m.name) && r.value.kind == m.kind
    ensures r.Some? ==> (r.value.Trigger? <==> m.available == 0)
    ensures r.Some? ==> (r.value.Resolve? <==> m.available > 0)
  {
    if m.desired == 0 then None
    else
      var resource := ResourceKey(m.namespace, m.name);
      if m.available == 0 then Some(Trigger(resource, m.kind)) else Some(Resolve(resource, m.kind))
  }

  /** The metrics after evaluation: the name of every metric with replicas wanted is normalised. */
  function Normalized(ms: seq<Metric>): seq<Metric> {
    seq(|ms|, i requires 0 <= i < |ms| =>
      if ms[i].desired == 0 then ms[i] else ms[i].(name := RemoveHash(ms[i].name)))
  }

  /** The actions sent, in metric order. */
  function Actions(ms: seq<Metric>): seq<Action>
    decreases |ms|
  {
    if ms == [] then []
    else
      var last := Decide(ms[|ms| - 1]);
      Actions(ms[..|ms| - 1]) + (if last.Some? then [last.value] else [])
  }

  /** How many metrics want replicas. */
  function Wanted(ms: seq<Metric>): nat
    decreases |ms|
  {
    if ms == [] then 0
    else Wanted(ms[..|ms| - 1]) + (if ms[|ms| - 1].desired != 0 then 1 else 0)
  }

  /** Triggers the sink accepted; `delivered(i)` is the outcome of the send for metric `i`. */
  function Triggers(ms: seq<Metric>, delivered: nat -> bool): nat
    decreases |ms|
  {
    if ms == [] then 0
    else
      var i := |ms| - 1;
      var last := Decide(ms[i]);
      Triggers(ms[..i], delivered) + (if last.Some? && last.value.Trigger? && delivered(i) then 1 else 0)
  }

  /** Resolves the sink accepted. */
  function Resolves(ms: seq<Metric>, delivered: nat -> bool): nat
    decreases |ms|
  {
    if ms == [] then 0
    else
      var i := |ms| - 1;
      var last := Decide(ms[i]);
      Resolves(ms[..i], delivered) + (if last.Some? && last.value.Resolve? && delivered(i) then 1 else 0)
  }

  /**
   * Evaluates every metric in order: a metric with no replica wanted is
   * skipped; otherwise its name is normalised in place and a trigger (none
   * available) or a resolve (some available) is sent; a counter goes up only
   * when the sink reports success.
   */
  method EvaluateAndNotify(metrics: array<Metric>, delivered: nat -> bool)
    returns (sent: seq<Action>, triggers: nat, resolves: nat)
    modifies metrics
    ensures metrics[..] == Normalized(old(metrics[..]))
    ensures sent == Actions(old(metrics[..]))
    ensures triggers == Triggers(old(metrics[..]), delivered)
    ensures resolves == Resolves(old(metrics[..]), delivered)
  {
    ghost var ms := metrics[..];
    sent, triggers, resolves := [], 0, 0;
    for i := 0 to metrics.Length
      invariant forall k :: 0 <= k < i ==> metrics[k] == Normalized(ms)[k]
      invariant forall k :: i <= k < metrics.Length ==> metrics[k] == ms[k]
      invariant sent == Actions(ms[..i])
      invariant triggers == Triggers(ms[..i], delivered)
      invariant resolves == Resolves(ms[..i], delivered)
    {
      assert ms[..i + 1][..i] == ms[..i];
      var desired := metrics[i].desired;
      var available := metrics[i].available;
      if desired == 0 {
        continue;
      }
      metrics[i] := metrics[i].(name := RemoveHash(metrics[i].name));
      var resource := metrics[i].namespace + "/" + metrics[i].name;
      if available == 0 {
        sent := sent + [Trigger(resource, metrics[i].kind)];
        if delivered(i) {
          triggers := triggers + 1;
        }
      } else {
        sent := sent + [Resolve(resource, metrics[i].kind)];
        if delivered(i) {
          resolves := resolves + 1;
        }
      }
    }
    assert ms[..metrics.Length] == ms;
  }

  /** Exactly one action per metric that wants replicas. */
  lemma {:induction false} OneActionPerWantedMetric(ms: seq<Metric>)
    ensures |Actions(ms)| == Wanted(ms)
    decreases |ms|
  {
    if ms != [] {
      OneActionPerWantedMetric(ms[..|ms| - 1]);
    }
  }

  /** Every action sent is the decision for one of the metrics, and every decision is sent. */
  lemma {:induction false} ActionsAreDecisions(ms: seq<Metric>, a: Action)
    ensures a in Actions(ms) <==> exists i :: 0 <= i < |ms| && Decide(ms[i]) == Some(a)
    decreases |ms|
  {
    if ms != [] {
      var front := ms[..|ms| - 1];
      var d := Decide(ms[|ms| - 1]);
      var tail := if d.Some? then [d.value] else [];
      assert Actions(ms) == Actions(front) + tail;
      ActionsAreDecisions(front, a);
      if a in Actions(front) {
        var i :| 0 <= i < |front| && Decide(front[i]) == Some(a);
        assert ms[i] == front[i];
      } else if a in tail {
        assert Decide(ms[|ms| - 1]) == Some(a);
      } else {
        forall i | 0 <= i < |ms| ensures Decide(ms[i]) != Some(a) {
          if i < |front| {
            assert ms[i] == front[i];
          }
        }
      }
    }
  }

  /** The counters never exceed the number of metrics that want replicas. */
  lemma {:induction false} CountersBounded(ms: seq<Metric>, delivered: nat -> bool)
    ensures Triggers(ms, delivered) + Resolves(ms, delivered) <= Wanted(ms)
    decreases |ms|
  {
    if ms != [] {
      CountersBounded(ms[..|ms| - 1], delivered);
    }
  }

  /** When the sink accepts every send, each wanted metric is counted exactly once. */
  lemma {:induction false} CountersAllDelivered(ms: seq<Metric>, delivered: nat -> bool)
    requires forall i: nat :: i < |ms| ==> delivered(i)
    ensures Triggers(ms, delivered) + Resolves(ms, delivered) == Wanted(ms)
    decreases |ms|
  {
    if ms != [] {
      CountersAllDelivered(ms[..|ms| - 1], delivered);
    }
  }

  /** When the sink rejects every send, nothing is counted. */
  lemma {:induction false} CountersNoneDelivered(ms: seq<Metric>, delivered: nat -> bool)
    requires forall i: nat :: i < |ms| ==> !delivered(i)
    ensures Triggers(ms, delivered) == 0 && Resolves(ms, delivered) == 0
    decreases |ms|
  {
    if ms != [] {
      CountersNoneDelivered(ms[..|ms| - 1], delivered);
    }
  }

  /** A suspended CronJob wants no run, so it never causes a send, whatever its Jobs and Pods. */
  lemma SuspendedCronJobSendsNothing(w: Workload)
    requires w.CronJob? && w.suspend == Some(true)
    ensures Decide(Snapshot(w)) == None
  {
  }

  /**
   * A trigger for a workload and a later resolve for it (same namespace and
   * name, replicas wanted, first none then some available) carry the same
   * deduplication key, so the resolve closes the incident the trigger opened.
   */
  lemma TriggerAndResolveShareKey(down: Metric, up: Metric)
    requires down.namespace == up.namespace && down.name == up.name
    requires down.desired != 0 && up.desired != 0
    requires down.available == 0 && up.available != 0
    ensures Decide(down).Some? && Decide(down).value.Trigger?
    ensures Decide(up).Some? && Decide(up).value.Resolve?
    ensures DedupKey(Decide(down).value) == DedupKey(Decide(up).value)
            == DedupPrefix + down.namespace + "/" + RemoveHash(down.name)
  {
  }

  /** Position of the first `/` in `s`, or `|s|` when there is none. */
  function SlashIndex(s: string): nat
    decreases |s|
  {
    if s == [] then 0 else if s[0] == '/' then 0 else 1 + SlashIndex(s[1..])
  }

  lemma {:induction false} SlashIndexAfter(namespace: string, rest: string)
    requires '/' !in namespace
    ensures SlashIndex(namespace + "/" + rest) == |namespace|
    decreases |namespace|
  {
    if namespace != [] {
      assert (namespace + "/" + rest)[1..] == namespace[1..] + "/" + rest;
      SlashIndexAfter(namespace[1..], rest);
    }
  }

  /**
   * For namespaces without `/` (as Kubernetes namespaces are), two resource
   * keys are equal iff the namespaces are equal and the normalised names are.
   */
  lemma ResourceKeyInjective(ns1: string, name1: string, ns2: string, name2: string)
    requires '/' !in ns1 && '/' !in ns2
    ensures ResourceKey(ns1, name1) == ResourceKey(ns2, name2) <==>
            ns1 == ns2 && RemoveHash(name1) == RemoveHash(name2)
  {
    var k1, k2 := ResourceKey(ns1, name1), ResourceKey(ns2, name2);
    if k1 == k2 {
      SlashIndexAfter(ns1, RemoveHash(name1));
      SlashIndexAfter(ns2, RemoveHash(name2));
      assert ns1 == k1[..|ns1|];
      assert ns2 == k2[..|ns2|];
      assert RemoveHash(name1) == k1[|ns1| + 1..];
      assert RemoveHash(name2) == k2[|ns2| + 1..];
    }
  }

  /** Two workloads of one namespace that differ only in their last `-<alnum>` segment share one key. */
  lemma LastSegmentIgnored(namespace: string, stem: string, h1: string, h2: string)
    requires h1 != [] && AllAlnum(h1) && h2 != [] && AllAlnum(h2)
    ensures ResourceKey(namespace, stem + "-" + h1) == ResourceKey(namespace, stem + "-" + h2)
  {
    RemoveHashStripsOneSegment(stem, h1);
    RemoveHashStripsOneSegment(stem, h2);
  }

  /**
   * Within one run, a wanted workload with no replica available and a
   * sibling whose name differs only in its last segment with some available
   * send a trigger and then a resolve under one deduplication key, so the
   * incident is opened and closed by the same run.
   */
  lemma SameRunOpensAndCloses(m1: Metric, m2: Metric, stem: string, h1: string, h2: string)
    requires h1 != [] && AllAlnum(h1) && h2 != [] && AllAlnum(h2)
    requires m1.name == stem + "-" + h1 && m2.name == stem + "-" + h2 && m1.namespace == m2.namespace
    requires m1.desired != 0 && m1.available == 0 && m2.desired != 0 && m2.available != 0
    ensures |Actions([m1, m2])| == 2
    ensures Actions([m1, m2])[0].Trigger? && Actions([m1, m2])[1].Resolve?
    ensures DedupKey(Actions([m1, m2])[0]) == DedupKey(Actions([m1, m2])[1])
  {
    assert [m1, m2][..1] == [m1];
    assert [m1][..0] == [];
    assert Actions([m1]) == [Decide(m1).value];
    assert Actions([m1, m2]) == [Decide(m1).value, Decide(m2).value];
    LastSegmentIgnored(m1.namespace, stem, h1, h2);
  }
}
