/** What can happen to the half-open probe slot: how it is lost, and how far the
    number of probes can go. */
module ProbeSlot {
  import opened Circuit
  import opened Admission

  /** The circuit shows a probe in flight and no request owns one. */
  ghost predicate Leaked(s: State) {
    s.circuit == HalfOpen(true) && Count(s.tasks, Owner) == 0
  }

  // ---------- leaks ----------

  /** The step that leaks the slot, exactly: a deadline drops the only live probe while
      the circuit shows one. Dropping a stale probe, or one of several, leaks nothing. */
  lemma LeakIff(p: Params, s: State, st: Step)
    requires Enabled(s, st) && !Leaked(s)
    ensures Leaked(Apply(p, s, st)) <==>
            st.Cancel? && s.tasks[st.i] == Holding(true) && s.circuit == HalfOpen(true) && Count(s.tasks, Owner) == 1
  {
    OwnersStep(p, s, st);
  }

  /** In a reachable state the slot leaks only through a deadline: the request last
      granted the probe was cancelled while holding it. */
  lemma LeakNeedsCancel(p: Params, s: State)
    requires Inv(p, s) && Leaked(s)
    ensures s.latestCancelled
  {
    if !s.latestCancelled {
      CountAt(s.tasks, Owner, s.latest);
    }
  }

  lemma {:induction false} NoCancelNoLeak(p: Params, s: State, steps: seq<Step>)
    requires Legal(p, s, steps) && !Leaked(s) && NoneOf(steps, IsCancel)
    ensures !Leaked(Exec(p, s, steps))
    decreases |steps|
  {
    if steps != [] {
      LeakIff(p, s, steps[0]);
      TailNoneOf(steps, IsCancel);
      NoCancelNoLeak(p, Apply(p, s, steps[0]), steps[1..]);
    }
  }

  /** In a run without cancellations a probe in flight always has a live owner. */
  lemma SlotNotLeaked(p: Params, tasks: nat, now: nat, steps: seq<Step>)
    requires Legal(p, Init(p, tasks, now), steps) && NoneOf(steps, IsCancel)
    ensures
      var s := Exec(p, Init(p, tasks, now), steps);
      s.circuit == HalfOpen(true) ==> Count(s.tasks, Owner) >= 1
  {
    NoCancelNoLeak(p, Init(p, tasks, now), steps);
  }

  lemma LeakStep(p: Params, s: State, st: Step)
    requires Leaked(s) && Enabled(s, st) && !st.Write?
    ensures Leaked(Apply(p, s, st)) && (st.TryGate? ==> Apply(p, s, st) == s)
  {
    OwnersStep(p, s, st);
  }

  lemma {:induction false} LeakRun(p: Params, s: State, steps: seq<Step>)
    requires Leaked(s) && Legal(p, s, steps) && NoneOf(steps, IsWrite)
    ensures Leaked(Exec(p, s, steps))
    decreases |steps|
  {
    if steps != [] {
      TailNoneOf(steps, IsWrite);
      LeakStep(p, s, steps[0]);
      LeakRun(p, Apply(p, s, steps[0]), steps[1..]);
    }
  }

  // ---------- recovery: every other state serves somebody again ----------

  /** The run ends with a request let through the circuit and given a permit. */
  predicate Serves(p: Params, s: State, steps: seq<Step>)
    requires Legal(p, s, steps)
  {
    var n := |steps|;
    n >= 2 && steps[n - 2].TryGate? &&
    var i := steps[n - 2].i;
    steps[n - 1] == Acquire(i) && i < |Exec(p, s, steps).tasks| && Exec(p, s, steps).tasks[i].Holding?
  }

  /** A request that asks while the slot is leaked stays where it was. */
  lemma LeakTurnsAway(p: Params, s: State, st: Step, last: Step)
    requires Leaked(s) && st.TryGate? && last == Acquire(st.i) && Enabled(s, st)
    ensures !Legal(p, s, [st, last])
  {
    assert [st, last][1..] == [last];
    LeakStep(p, s, st);
  }

  /** No request gets past a leaked slot, let alone as far as a permit. */
  lemma LeakServesNobody(p: Params, s: State, steps: seq<Step>)
    requires Leaked(s) && Legal(p, s, steps) && NoneOf(steps, IsWrite)
    ensures !Serves(p, s, steps)
  {
    var n := |steps|;
    if Serves(p, s, steps) {
      var a, st, last := steps[..n - 2], steps[n - 2], steps[n - 1];
      assert steps == a + [st, last];
      ExecSplit(p, s, a, [st, last]);
      PrefixNoneOf(a, [st, last], IsWrite);
      LeakRun(p, s, a);
      LeakTurnsAway(p, Exec(p, s, a), st, last);
    }
  }

  /** Steps left until a task is idle again. */
  function Distance(pc: Pc): nat {
    match pc
    case Idle => 0
    case Passed(_) => 4
    case RefusedProbe => 1
    case Holding(_) => 3
    case Settled => 1
  }

  function NextOf(i: nat, pc: Pc): Step
    requires pc != Idle
  {
    match pc
    case Passed(_) => Acquire(i)
    case RefusedProbe => WriteBack(i)
    case Holding(isProbe) => if isProbe then Settle(i, true) else Release(i)
    case Settled => Release(i)
  }

  /** Let task `i` finish. An owner that finishes normally takes the circuit out of
      HalfOpen(true), nothing here puts it back, and a permit held is returned. */
  lemma {:induction false} FinishTask(p: Params, s: State, i: nat) returns (steps: seq<Step>)
    requires i < |s.tasks| && (s.circuit == HalfOpen(true) ==> Owner(s.tasks[i]) == 1)
    ensures Legal(p, s, steps) && NoneOf(steps, IsWrite)
    ensures
      var t := Exec(p, s, steps);
      && t.tasks == s.tasks[i := Idle] && t.circuit != HalfOpen(true)
      && t.available >= s.available + Holder(s.tasks[i])
    decreases Distance(s.tasks[i])
  {
    if s.tasks[i] == Idle {
      steps := [];
      assert s.tasks[i := Idle] == s.tasks;
    } else {
      var st := NextOf(i, s.tasks[i]);
      var s' := Apply(p, s, st);
      var rest := FinishTask(p, s', i);
      assert s'.tasks[i := Idle] == s.tasks[i := Idle];
      Prepend(p, s, st, rest);
      steps := [st] + rest;
    }
  }

  /** With an idle task, a permit and no probe in flight, waiting is enough. */
  lemma ServeIdle(p: Params, s: State, i: nat) returns (steps: seq<Step>)
    requires TaskStep(s, i, Idle) && s.available > 0 && s.circuit != HalfOpen(true)
    ensures Legal(p, s, steps) && NoneOf(steps, IsWrite) && Serves(p, s, steps)
  {
    var d := if Dropped(s.circuit, s.now) then s.circuit.until - s.now else 0;
    var s1, s2;
    steps, s1 := Extend(p, s, [], s, Tick(d));
    steps, s2 := Extend(p, s, steps, s1, TryGate(i));
    steps, s2 := Extend(p, s, steps, s2, Acquire(i));
  }

  /** First the owner of a probe in flight finishes, then, if permits are out, somebody
      who holds one; then whoever that was is served. */
  lemma ServeAgain(p: Params, s: State) returns (steps: seq<Step>)
    requires Inv(p, s) && !Leaked(s) && s.tasks != [] && p.cap > 0
    ensures Legal(p, s, steps) && NoneOf(steps, IsWrite) && Serves(p, s, steps)
  {
    var first: seq<Step> := [];
    if s.circuit == HalfOpen(true) {
      var owner := CountFind(s.tasks, Owner);
      first := FinishTask(p, s, owner);
    }
    var t := Exec(p, s, first);
    RunInv(p, s, first);
    var i: nat := 0;
    if t.available == 0 {
      i := CountFind(t.tasks, Holder);
    }
    var second := FinishTask(p, t, i);
    var third := ServeIdle(p, Exec(p, t, second), i);
    steps := Then(p, t, second, third);
    steps := Then(p, s, first, steps);
  }

  /** A run and then one that serves somebody. */
  lemma Then(p: Params, s: State, a: seq<Step>, b: seq<Step>) returns (steps: seq<Step>)
    requires Legal(p, s, a) && NoneOf(a, IsWrite) && Legal(p, Exec(p, s, a), b) && NoneOf(b, IsWrite)
    requires Serves(p, Exec(p, s, a), b)
    ensures Legal(p, s, steps) && NoneOf(steps, IsWrite) && Serves(p, s, steps)
  {
    steps := a + b;
    ExecConcat(p, s, a, b);
  }

  /** An upstream with some task to serve is out of rotation until the next trip exactly
      when its probe slot has leaked: otherwise some run, with no trip at all, ends with
      a request let through and holding a permit. */
  lemma OutOfRotationIffLeaked(p: Params, s: State)
    requires Inv(p, s) && s.tasks != [] && p.cap > 0
    ensures Leaked(s) <==>
            forall steps :: Legal(p, s, steps) && NoneOf(steps, IsWrite) ==> !Serves(p, s, steps)
  {
    if Leaked(s) {
      forall steps | Legal(p, s, steps) && NoneOf(steps, IsWrite) ensures !Serves(p, s, steps) {
        LeakServesNobody(p, s, steps);
      }
    } else {
      var steps := ServeAgain(p, s);
      assert Legal(p, s, steps) && NoneOf(steps, IsWrite) && Serves(p, s, steps);
    }
  }

  // ---------- runs that show the conditions are needed ----------

  /** A probe just granted, or on its way with a permit. */
  function Probe(sent: bool): Pc { if sent then Holding(true) else Passed(true) }

  /** A trip, its cooldown, and task `i` granted the probe, which it sends if so asked. */
  lemma TripThenProbe(p: Params, s0: State, run: seq<Step>, s: State, i: nat, sent: bool) returns (longer: seq<Step>)
    requires Legal(p, s0, run) && Exec(p, s0, run) == s
    requires s.monitor.Watching? && !Dropped(s.circuit, s.now) && TaskStep(s, i, Idle) && (sent ==> s.available > 0)
    ensures Legal(p, s0, longer)
    ensures Exec(p, s0, longer) ==
            s.(circuit := HalfOpen(true), now := s.now + p.cooldown, tasks := s.tasks[i := Probe(sent)],
               available := s.available - (if sent then 1 else 0), latest := i, latestCancelled := false,
               tripsOnProbe := s.tripsOnProbe + (if s.circuit == HalfOpen(true) then 1 else 0))
  {
    var t;
    longer, t := Extend(p, s0, run, s, Check);
    longer, t := Extend(p, s0, longer, t, Stamp);
    longer, t := Extend(p, s0, longer, t, Write);
    longer, t := Extend(p, s0, longer, t, Tick(p.cooldown));
    longer, t := Extend(p, s0, longer, t, TryGate(i));
    if sent {
      longer, t := Extend(p, s0, longer, t, Acquire(i));
      assert s.tasks[i := Passed(true)][i := Holding(true)] == s.tasks[i := Holding(true)];
    }
  }

  /** A single deadline is enough to leak the slot, with everything else as intended. */
  lemma OneCancelLeaks(p: Params, tasks: nat, now: nat) returns (steps: seq<Step>)
    requires tasks > 0 && p.cap > 0
    ensures Legal(p, Init(p, tasks, now), steps) && Leaked(Exec(p, Init(p, tasks, now), steps))
  {
    var s0 := Init(p, tasks, now);
    steps := TripThenProbe(p, s0, [], s0, 0, true);
    var s1 := Exec(p, s0, steps);
    CountIdle(tasks, Owner);
    assert s1.tasks[0 := Idle] == s0.tasks;
    steps, s1 := Extend(p, s0, steps, s1, Cancel(0));
  }

  function Probing(j: nat, n: nat, sent: bool): (tasks: seq<Pc>)
    requires j <= n
    ensures |tasks| == n
    ensures forall i :: 0 <= i < n ==> tasks[i] == if i < j then Probe(sent) else Idle
  {
    seq(n, i requires 0 <= i < n => if i < j then Probe(sent) else Idle)
  }

  lemma {:induction false} CountProbing(j: nat, n: nat, sent: bool)
    requires j <= n
    ensures Count(Probing(j, n, sent), Owner) == j
  {
    if j == 0 {
      assert Probing(0, n, sent) == seq(n, _ => Idle);
      CountIdle(n, Owner);
    } else {
      CountProbing(j - 1, n, sent);
      CountUpdate(Probing(j - 1, n, sent), Owner, j - 1, Probe(sent));
      assert Probing(j - 1, n, sent)[j - 1 := Probe(sent)] == Probing(j, n, sent);
    }
  }

  lemma {:induction false} ProbesPileUp(p: Params, n: nat, now: nat, j: nat, sent: bool) returns (steps: seq<Step>)
    requires 1 <= j <= n && (sent ==> j <= p.cap)
    ensures Legal(p, Init(p, n, now), steps)
    ensures
      var s := Exec(p, Init(p, n, now), steps);
      && s.circuit == HalfOpen(true) && s.monitor.Watching? && s.tasks == Probing(j, n, sent)
      && s.tripsOnProbe == j - 1 && s.available == p.cap - (if sent then j else 0)
  {
    var s0 := Init(p, n, now);
    if j == 1 {
      steps := TripThenProbe(p, s0, [], s0, 0, sent);
      assert s0.tasks[0 := Probe(sent)] == Probing(1, n, sent);
    } else {
      var before := ProbesPileUp(p, n, now, j - 1, sent);
      var s := Exec(p, s0, before);
      steps := TripThenProbe(p, s0, before, s, j - 1, sent);
      assert s.tasks[j - 1 := Probe(sent)] == Probing(j, n, sent);
    }
  }

  /** The bound on outstanding probes is reached: for every `k` some run has `k` trips
      land on a probe and leaves `k + 1` probes outstanding at once, all of them on
      their way to the upstream if there are permits for them. */
  lemma ProbeBoundIsTight(p: Params, k: nat, now: nat) returns (steps: seq<Step>)
    ensures Legal(p, Init(p, k + 1, now), steps)
    ensures
      var s := Exec(p, Init(p, k + 1, now), steps);
      && s.tripsOnProbe == k && Count(s.tasks, Owner) == k + 1
      && (p.cap > k ==> forall i :: 0 <= i < |s.tasks| ==> s.tasks[i] == Holding(true))
  {
    steps := ProbesPileUp(p, k + 1, now, k + 1, p.cap > k);
    CountProbing(k + 1, k + 1, p.cap > k);
  }

  /** After a trip on a probe, the stale probe's outcome decides for the fresh one: its
      success closes the circuit while the probe that should decide is still out. */
  lemma StaleProbeDecides(p: Params, now: nat) returns (steps: seq<Step>)
    requires p.cap > 0
    ensures Legal(p, Init(p, 2, now), steps)
    ensures
      var s := Exec(p, Init(p, 2, now), steps);
      s.circuit == Closed && s.tasks == [Settled, Probe(p.cap > 1)]
  {
    var s0, sent := Init(p, 2, now), p.cap > 1;
    steps := ProbesPileUp(p, 2, now, 2, sent);
    var s := Exec(p, s0, steps);
    if !sent {
      steps, s := Extend(p, s0, steps, s, Acquire(0));
    }
    steps, s := Extend(p, s0, steps, s, Settle(0, true));
  }
}
