/** The counters as a concurrent step system: any number of attempts, each decided,
    awaited, and recorded counter by counter, or cancelled by the deadline. */
module Accounting {
  import opened Metrics

  datatype Pc =
    | Idle
    | InFlight(key: Key)                     // decision counted, awaiting the response
    | Requested(key: Key, latency: real)     // request counted
    | Bucketed(key: Key, latency: real)      // histogram updated
    | Summed(key: Key, latency: real)        // latency added to the sum

  datatype State = State(
    decisions: map<Key, nat>,
    requests: map<StatusKey, nat>,
    buckets: map<Key, Histogram>,
    sums: map<Key, nat>,
    counts: map<Key, nat>,
    tasks: seq<Pc>,
    cancelled: map<Key, nat>,                // attempts dropped while in flight
    observed: map<Key, seq<real>>)           // latencies in the histogram, in order

  datatype Step =
    | Decide(i: nat, key: Key)
    | Complete(i: nat, success: bool, latency: real)
    | Bucket(i: nat)
    | Sum(i: nat)
    | CountUp(i: nat)
    | Cancel(i: nat)

  function Init(n: nat): State {
    State(map[], map[], map[], map[], map[], seq(n, _ => Idle), map[], map[])
  }

  function Status(success: bool): string { if success then "ok" else "error" }

  function Latencies(m: map<Key, seq<real>>, k: Key): seq<real> { if k in m then m[k] else [] }

  predicate Enabled(s: State, st: Step) {
    st.i < |s.tasks| &&
    var pc := s.tasks[st.i];
    match st
    case Decide(_, _) => pc.Idle?
    case Complete(_, _, _) => pc.InFlight?
    case Bucket(_) => pc.Requested?
    case Sum(_) => pc.Bucketed?
    case CountUp(_) => pc.Summed?
    case Cancel(_) => pc.InFlight?
  }

  function Apply(s: State, st: Step): State
    requires Enabled(s, st)
  {
    var pc := s.tasks[st.i];
    match st
    case Decide(i, k) => s.(decisions := Add(s.decisions, k, 1), tasks := s.tasks[i := InFlight(k)])
    case Complete(i, ok, latency) =>
      s.(requests := Add(s.requests, (pc.key.0, pc.key.1, Status(ok)), 1),
         tasks := s.tasks[i := Requested(pc.key, latency)])
    case Bucket(i) =>
      s.(buckets := s.buckets[pc.key := Observed(BucketsOf(s.buckets, pc.key), pc.latency)],
         observed := s.observed[pc.key := Latencies(s.observed, pc.key) + [pc.latency]],
         tasks := s.tasks[i := Bucketed(pc.key, pc.latency)])
    case Sum(i) =>
      s.(sums := Add(s.sums, pc.key, Millis(pc.latency)), tasks := s.tasks[i := Summed(pc.key, pc.latency)])
    case CountUp(i) => s.(counts := Add(s.counts, pc.key, 1), tasks := s.tasks[i := Idle])
    case Cancel(i) => s.(cancelled := Add(s.cancelled, pc.key, 1), tasks := s.tasks[i := Idle])
  }

  predicate Legal(s: State, steps: seq<Step>)
    decreases |steps|
  {
    steps == [] || (Enabled(s, steps[0]) && Legal(Apply(s, steps[0]), steps[1..]))
  }

  function Exec(s: State, steps: seq<Step>): State
    requires Legal(s, steps)
    decreases |steps|
  {
    if steps == [] then s else Exec(Apply(s, steps[0]), steps[1..])
  }

  // ---------- weighing the tasks ----------

  datatype Phase = Flying | AfterRequest | AfterBucket | AfterSum | Unsummed

  function Weight(pc: Pc, k: Key, p: Phase): nat {
    if pc.Idle? || pc.key != k then 0
    else
      match p
      case Flying => if pc.InFlight? then 1 else 0
      case AfterRequest => if pc.Requested? then 1 else 0
      case AfterBucket => if pc.Bucketed? then 1 else 0
      case AfterSum => if pc.Summed? then 1 else 0
      case Unsummed => if pc.Bucketed? then Millis(pc.latency) else 0
  }

  function Total(tasks: seq<Pc>, k: Key, p: Phase): nat {
    if tasks == [] then 0 else Weight(tasks[0], k, p) + Total(tasks[1..], k, p)
  }

  lemma {:induction false} TotalUpdate(tasks: seq<Pc>, k: Key, p: Phase, i: nat, pc: Pc)
    requires i < |tasks|
    ensures Total(tasks[i := pc], k, p) + Weight(tasks[i], k, p) == Total(tasks, k, p) + Weight(pc, k, p)
  {
    if i == 0 {
      assert tasks[0 := pc][1..] == tasks[1..];
    } else {
      TotalUpdate(tasks[1..], k, p, i - 1, pc);
      assert tasks[i := pc][1..] == tasks[1..][i - 1 := pc];
    }
  }

  lemma {:induction false} TotalIdle(n: nat, k: Key, p: Phase)
    ensures Total(seq(n, _ => Idle), k, p) == 0
  {
    if n > 0 {
      TotalIdle(n - 1, k, p);
      assert seq(n, _ => Idle)[1..] == seq(n - 1, _ => Idle);
    }
  }

  // ---------- the books ----------

  function AtOrBelow(ls: seq<real>, i: nat): nat
    requires i <= 10
  {
    if ls == [] then 0 else AtOrBelow(ls[..|ls| - 1], i) + (if Falls(ls[|ls| - 1], i) then 1 else 0)
  }

  function SumMillis(ls: seq<real>): nat {
    if ls == [] then 0 else SumMillis(ls[..|ls| - 1]) + Millis(ls[|ls| - 1])
  }

  function Recorded(s: State, k: Key): nat {
    Get(s.requests, (k.0, k.1, "ok")) + Get(s.requests, (k.0, k.1, "error"))
  }

  /** Each bucket counts the latencies at or below its bound. */
  ghost predicate Tallies(b: Histogram, ls: seq<real>) {
    forall i :: 0 <= i <= 10 ==> b[i] == AtOrBelow(ls, i)
  }

  ghost predicate Tallied(s: State, k: Key) { Tallies(BucketsOf(s.buckets, k), Latencies(s.observed, k)) }

  ghost predicate DecisionsMatch(s: State, k: Key) {
    Get(s.decisions, k) == Recorded(s, k) + Total(s.tasks, k, Flying) + Get(s.cancelled, k)
  }

  ghost predicate RequestsMatch(s: State, k: Key) {
    Recorded(s, k) == |Latencies(s.observed, k)| + Total(s.tasks, k, AfterRequest)
  }

  ghost predicate CountsMatch(s: State, k: Key) {
    |Latencies(s.observed, k)| == Get(s.counts, k) + Total(s.tasks, k, AfterBucket) + Total(s.tasks, k, AfterSum)
  }

  ghost predicate SumsMatch(s: State, k: Key) {
    SumMillis(Latencies(s.observed, k)) == Get(s.sums, k) + Total(s.tasks, k, Unsummed)
  }

  ghost predicate Books(s: State, k: Key) {
    DecisionsMatch(s, k) && RequestsMatch(s, k) && CountsMatch(s, k) && SumsMatch(s, k)
  }

  lemma TotalStep(s: State, st: Step, k: Key, p: Phase)
    requires Enabled(s, st)
    ensures Total(Apply(s, st).tasks, k, p) ==
            Total(s.tasks, k, p) - Weight(s.tasks[st.i], k, p) + Weight(Apply(s, st).tasks[st.i], k, p)
  {
    var pc := Apply(s, st).tasks[st.i];
    TotalUpdate(s.tasks, k, p, st.i, pc);
    assert Apply(s, st).tasks == s.tasks[st.i := pc];
  }

  lemma RecordedStep(s: State, st: Step, k: Key)
    requires Enabled(s, st)
    ensures Recorded(Apply(s, st), k) ==
            Recorded(s, k) + (if st.Complete? && s.tasks[st.i].key == k then 1 else 0)
  {
    if st.Complete? {
      var key := s.tasks[st.i].key;
      assert key == k <==> (key.0 == k.0 && key.1 == k.1);
      assert "ok" != "error";
    }
  }

  lemma ObserveOne(b: Histogram, ls: seq<real>, latency: real)
    requires Tallies(b, ls)
    ensures Tallies(Observed(b, latency), ls + [latency])
  {
    assert (ls + [latency])[..|ls|] == ls;
  }

  lemma StepTallied(s: State, st: Step, k: Key)
    requires Enabled(s, st) && Tallied(s, k)
    ensures Tallied(Apply(s, st), k)
  {
    if st.Bucket? && s.tasks[st.i].key == k {
      ObserveOne(BucketsOf(s.buckets, k), Latencies(s.observed, k), s.tasks[st.i].latency);
    } else {
      assert Latencies(Apply(s, st).observed, k) == Latencies(s.observed, k);
      assert BucketsOf(Apply(s, st).buckets, k) == BucketsOf(s.buckets, k);
    }
  }

  lemma SumOne(ls: seq<real>, latency: real)
    ensures SumMillis(ls + [latency]) == SumMillis(ls) + Millis(latency)
  {
    assert (ls + [latency])[..|ls|] == ls;
  }

  /** The latency a step adds to the histogram of `k`, if it does. */
  function Added(s: State, st: Step, k: Key): (ls: seq<real>)
    requires Enabled(s, st)
    ensures |ls| <= 1
  {
    if st.Bucket? && s.tasks[st.i].key == k then [s.tasks[st.i].latency] else []
  }

  lemma ObservedStep(s: State, st: Step, k: Key)
    requires Enabled(s, st)
    ensures Latencies(Apply(s, st).observed, k) == Latencies(s.observed, k) + Added(s, st, k)
  {}

  lemma SumMore(ls: seq<real>, more: seq<real>)
    requires |more| <= 1
    ensures SumMillis(ls + more) == SumMillis(ls) + SumMillis(more)
  {
    if more == [] {
      assert ls + more == ls;
    } else {
      assert more == [more[0]] && [more[0]][..0] == [];
      SumOne(ls, more[0]);
    }
  }

  lemma StepDecisions(s: State, st: Step, k: Key)
    requires Enabled(s, st) && DecisionsMatch(s, k)
    ensures DecisionsMatch(Apply(s, st), k)
  {
    RecordedStep(s, st, k);
    TotalStep(s, st, k, Flying);
  }

  lemma StepRequests(s: State, st: Step, k: Key)
    requires Enabled(s, st) && RequestsMatch(s, k)
    ensures RequestsMatch(Apply(s, st), k)
  {
    RecordedStep(s, st, k);
    TotalStep(s, st, k, AfterRequest);
  }

  lemma StepCounts(s: State, st: Step, k: Key)
    requires Enabled(s, st) && CountsMatch(s, k)
    ensures CountsMatch(Apply(s, st), k)
  {
    TotalStep(s, st, k, AfterBucket);
    TotalStep(s, st, k, AfterSum);
  }

  lemma AddedWeight(s: State, st: Step, k: Key)
    requires Enabled(s, st)
    ensures SumMillis(Added(s, st, k)) + Get(s.sums, k) + Weight(s.tasks[st.i], k, Unsummed) ==
            Get(Apply(s, st).sums, k) + Weight(Apply(s, st).tasks[st.i], k, Unsummed)
  {
    if st.Bucket? && s.tasks[st.i].key == k {
      assert Added(s, st, k)[..0] == [];
    }
  }

  lemma StepSums(s: State, st: Step, k: Key)
    requires Enabled(s, st) && SumsMatch(s, k)
    ensures SumsMatch(Apply(s, st), k)
  {
    TotalStep(s, st, k, Unsummed);
    ObservedStep(s, st, k);
    SumMore(Latencies(s.observed, k), Added(s, st, k));
    AddedWeight(s, st, k);
  }

  lemma StepBooks(s: State, st: Step, k: Key)
    requires Enabled(s, st) && Books(s, k)
    ensures Books(Apply(s, st), k)
  {
    StepDecisions(s, st, k);
    StepRequests(s, st, k);
    StepCounts(s, st, k);
    StepSums(s, st, k);
  }

  lemma Prepend(s: State, st: Step, rest: seq<Step>)
    requires Enabled(s, st) && Legal(Apply(s, st), rest)
    ensures Legal(s, [st] + rest) && Exec(s, [st] + rest) == Exec(Apply(s, st), rest)
  {
    assert ([st] + rest)[1..] == rest;
  }

  /** The four steps that record a response. */
  function Recording(i: nat, success: bool, latency: real): seq<Step> {
    [Complete(i, success, latency)] + ([Bucket(i)] + ([Sum(i)] + [CountUp(i)]))
  }

  lemma RecordingRuns(s: State, i: nat, success: bool, latency: real)
    requires i < |s.tasks| && s.tasks[i].InFlight?
    ensures Legal(s, Recording(i, success, latency))
    ensures Exec(s, Recording(i, success, latency)) ==
            Apply(Apply(Apply(Apply(s, Complete(i, success, latency)), Bucket(i)), Sum(i)), CountUp(i))
  {
    var s1 := Apply(s, Complete(i, success, latency));
    var s2 := Apply(s1, Bucket(i));
    var s3 := Apply(s2, Sum(i));
    Prepend(s3, CountUp(i), []);
    assert [CountUp(i)] + [] == [CountUp(i)];
    Prepend(s2, Sum(i), [CountUp(i)]);
    Prepend(s1, Bucket(i), [Sum(i)] + [CountUp(i)]);
    Prepend(s, Complete(i, success, latency), [Bucket(i)] + ([Sum(i)] + [CountUp(i)]));
  }

  /** Recording a response with nothing in between changes the counters as one call does. */
  lemma RecordSteps(s: State, i: nat, success: bool, latency: real)
    requires i < |s.tasks| && s.tasks[i].InFlight?
    ensures Legal(s, Recording(i, success, latency))
    ensures
      var k, t := s.tasks[i].key, Exec(s, Recording(i, success, latency));
      && t.requests == Add(s.requests, (k.0, k.1, if success then "ok" else "error"), 1)
      && t.buckets == s.buckets[k := Observed(BucketsOf(s.buckets, k), latency)]
      && t.sums == Add(s.sums, k, Millis(latency)) && t.counts == Add(s.counts, k, 1)
      && t.decisions == s.decisions && t.cancelled == s.cancelled && t.tasks == s.tasks[i := Idle]
  {
    RecordingRuns(s, i, success, latency);
  }

  lemma {:induction false} RunBooks(s: State, steps: seq<Step>, k: Key)
    requires Legal(s, steps) && Books(s, k) && Tallied(s, k)
    ensures Books(Exec(s, steps), k) && Tallied(Exec(s, steps), k)
    decreases |steps|
  {
    if steps != [] {
      StepBooks(s, steps[0], k);
      StepTallied(s, steps[0], k);
      RunBooks(Apply(s, steps[0]), steps[1..], k);
    }
  }

  lemma InitBooks(n: nat, k: Key)
    ensures Books(Init(n), k) && Tallied(Init(n), k)
  {
    TotalIdle(n, k, Flying);
    TotalIdle(n, k, AfterRequest);
    TotalIdle(n, k, AfterBucket);
    TotalIdle(n, k, AfterSum);
    TotalIdle(n, k, Unsummed);
  }

  /** No attempt is halfway through its recording. */
  ghost predicate BetweenRecordings(s: State, k: Key) {
    Total(s.tasks, k, AfterRequest) == 0 && Total(s.tasks, k, AfterBucket) == 0 &&
    Total(s.tasks, k, AfterSum) == 0 && Total(s.tasks, k, Unsummed) == 0
  }

  /** The books balance. For every upstream and method, over every interleaving: routing
      decisions are recorded requests plus attempts in flight plus attempts the deadline
      cancelled; each bucket counts the recorded latencies at or below its bound; and
      between recordings the unbounded bucket, the count and the recorded requests are
      one number and the sum is the sum of the truncated latencies. */
  lemma BooksBalance(n: nat, steps: seq<Step>, k: Key)
    requires Legal(Init(n), steps)
    ensures
      var s := Exec(Init(n), steps);
      var ls, b := Latencies(s.observed, k), BucketsOf(s.buckets, k);
      && Get(s.decisions, k) == Recorded(s, k) + Total(s.tasks, k, Flying) + Get(s.cancelled, k)
      && b[10] == |ls| && (forall i :: 0 <= i < 10 ==> b[i] == AtOrBelow(ls, i))
      && (BetweenRecordings(s, k) ==>
            b[10] == Get(s.counts, k) == Recorded(s, k) && Get(s.sums, k) == SumMillis(ls))
  {
    InitBooks(n, k);
    RunBooks(Init(n), steps, k);
    AllFallUnbounded(Latencies(Exec(Init(n), steps).observed, k));
  }

  lemma {:induction false} AllFallUnbounded(ls: seq<real>)
    ensures AtOrBelow(ls, 10) == |ls|
  {
    if ls != [] {
      AllFallUnbounded(ls[..|ls| - 1]);
    }
  }
}
