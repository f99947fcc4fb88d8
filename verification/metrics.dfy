/** The Prometheus counters, and the latency histogram loop. */
module Metrics {
  const BUCKETS_MS: seq<real> := [1.0, 5.0, 10.0, 25.0, 50.0, 100.0, 250.0, 500.0, 1000.0, 2500.0]

  /** An upstream and a method. */
  type Key = (string, string)

  /** An upstream, a method and a status. */
  type StatusKey = (string, string, string)

  function Get<K>(m: map<K, nat>, k: K): nat { if k in m then m[k] else 0 }

  function Add<K>(m: map<K, nat>, k: K, n: nat): map<K, nat> { m[k := Get(m, k) + n] }

  /** A float cast to an unsigned integer truncates and saturates at zero. */
  function Millis(latency: real): nat {
    if latency < 0.0 then 0 else latency.Floor
  }

  /** The ten bounded buckets and the unbounded one. */
  type Histogram = b: seq<nat> | |b| == 11 witness [0, 0, 0, 0, 0, 0, 0, 0, 0, 0, 0]

  const ZEROS: Histogram := [0, 0, 0, 0, 0, 0, 0, 0, 0, 0, 0]

  function BucketsOf(m: map<Key, Histogram>, k: Key): Histogram { if k in m then m[k] else ZEROS }

  predicate Falls(latency: real, i: nat)
    requires i <= 10
  {
    i == 10 || latency <= BUCKETS_MS[i]
  }

  function Observed(b: Histogram, latency: real): Histogram {
    seq(11, i requires 0 <= i < 11 => b[i] + (if Falls(latency, i) then 1 else 0))
  }

  // ---------- what these come to ----------

  /** One entry grows, one that was not there having stood at zero; no other changes. */
  lemma AddIs<K>(m: map<K, nat>, k: K, n: nat, j: K)
    ensures k in Add(m, k, n) && Add(m, k, n)[k] == (if k in m then m[k] else 0) + n
    ensures j != k ==> (j in Add(m, k, n) <==> j in m) && (j in m ==> Add(m, k, n)[j] == m[j])
  {}

  /** Whole milliseconds, rounded down. */
  lemma MillisIs(latency: real)
    ensures latency >= 0.0 ==> Millis(latency) as real <= latency < Millis(latency) as real + 1.0
    ensures latency < 0.0 ==> Millis(latency) == 0
  {}

  /** The buckets a latency goes into: every one whose bound it does not exceed. */
  lemma ObservedIs(b: Histogram, latency: real)
    ensures
      var bounds := [1.0, 5.0, 10.0, 25.0, 50.0, 100.0, 250.0, 500.0, 1000.0, 2500.0];
      && (forall i :: 0 <= i < 10 ==> Observed(b, latency)[i] == b[i] + (if latency <= bounds[i] then 1 else 0))
      && Observed(b, latency)[10] == b[10] + 1
  {}

  class Metrics {
    var requests: map<StatusKey, nat>
    var durationBuckets: map<Key, Histogram>
    var durationSum: map<Key, nat>
    var durationCount: map<Key, nat>
    var blockhashRejections: nat
    var routingDecisions: map<Key, nat>

    constructor ()
      ensures requests == map[] && durationBuckets == map[] && durationSum == map[]
      ensures durationCount == map[] && blockhashRejections == 0 && routingDecisions == map[]
    {
      requests, durationBuckets, durationSum, durationCount := map[], map[], map[], map[];
      blockhashRejections, routingDecisions := 0, map[];
    }

    method RecordRoutingDecision(upstream: string, m: string)
      modifies this`routingDecisions
      ensures routingDecisions == Add(old(routingDecisions), (upstream, m), 1)
    {
      routingDecisions := Add(routingDecisions, (upstream, m), 1);
    }

    method RecordRequest(upstream: string, m: string, status: string, latency: real)
      modifies this`requests, this`durationBuckets, this`durationSum, this`durationCount
      ensures requests == Add(old(requests), (upstream, m, status), 1)
      ensures durationBuckets ==
              old(durationBuckets)[(upstream, m) := Observed(BucketsOf(old(durationBuckets), (upstream, m)), latency)]
      ensures durationSum == Add(old(durationSum), (upstream, m), Millis(latency))
      ensures durationCount == Add(old(durationCount), (upstream, m), 1)
    {
      requests := Add(requests, (upstream, m, status), 1);
      var k2 := (upstream, m);
      var before := BucketsOf(durationBuckets, k2);
      var entry: seq<nat> := before;
      for i := 0 to |BUCKETS_MS|
        invariant |entry| == 11
        invariant forall j :: 0 <= j < i ==> entry[j] == before[j] + (if Falls(latency, j) then 1 else 0)
        invariant forall j :: i <= j < 11 ==> entry[j] == before[j]
      {
        if latency <= BUCKETS_MS[i] {
          entry := entry[i := entry[i] + 1];
        }
      }
      entry := entry[10 := entry[10] + 1];
      assert entry == Observed(before, latency);
      durationBuckets := durationBuckets[k2 := entry];
      durationSum := Add(durationSum, k2, Millis(latency));
      durationCount := Add(durationCount, k2, 1);
    }

    method RecordBlockhashRejection()
      modifies this`blockhashRejections
      ensures blockhashRejections == old(blockhashRejections) + 1
    {
      blockhashRejections := blockhashRejections + 1;
    }
  }
}
