/** Time limits and the cooldown together. A request is dropped at its deadline, each of
    its attempts ends at its own timeout, and a trip waits no longer than `lag` between
    reading the clock and writing the circuit: the clock does not move past any of them. */
module Deadline {
  import opened Circuit
  import opened Admission

  datatype Limits = Limits(deadline: nat, timeout: nat, lag: nat)

  /** How long an attempt can last. */
  function Life(l: Limits): nat { if l.deadline < l.timeout then l.deadline else l.timeout }

  /** `since` is when each task last went to the circuit; its request is at least as old. */
  datatype Timed = Timed(s: State, since: seq<nat>)

  function Start(p: Params, tasks: nat, now: nat): Timed { Timed(Init(p, tasks, now), seq(tasks, _ => now)) }

  ghost predicate InTime(t: Timed, l: Limits, now: nat) {
    && |t.since| == |t.s.tasks|
    && (forall i :: 0 <= i < |t.since| && t.s.tasks[i] != Idle ==>
          now <= t.since[i] + l.deadline && now <= t.since[i] + l.timeout)
    && (t.s.monitor.Stamped? ==> now <= t.s.monitor.at + l.lag)
  }

  ghost predicate CanStep(t: Timed, l: Limits, st: Step) {
    Enabled(t.s, st) && |t.since| == |t.s.tasks| && (st.Tick? ==> InTime(t, l, t.s.now + st.d))
  }

  ghost function After(p: Params, t: Timed, st: Step): Timed
    requires Enabled(t.s, st) && |t.since| == |t.s.tasks|
  {
    Timed(Apply(p, t.s, st), if st.TryGate? then t.since[st.i := t.s.now] else t.since)
  }

  ghost predicate LegalTimed(p: Params, l: Limits, t: Timed, steps: seq<Step>)
    decreases |steps|
  {
    steps == [] || (CanStep(t, l, steps[0]) && LegalTimed(p, l, After(p, t, steps[0]), steps[1..]))
  }

  ghost function ExecTimed(p: Params, l: Limits, t: Timed, steps: seq<Step>): Timed
    requires LegalTimed(p, l, t, steps)
    decreases |steps|
  {
    if steps == [] then t else ExecTimed(p, l, After(p, t, steps[0]), steps[1..])
  }

  /** Timed runs are runs of the protocol. */
  lemma {:induction false} Untimed(p: Params, l: Limits, t: Timed, steps: seq<Step>)
    requires LegalTimed(p, l, t, steps)
    ensures Legal(p, t.s, steps) && ExecTimed(p, l, t, steps).s == Exec(p, t.s, steps)
    decreases |steps|
  {
    if steps != [] {
      Untimed(p, l, After(p, t, steps[0]), steps[1..]);
    }
  }

  // ---------- short lives ----------

  /** At most one probe, and no circuit that could grant another before it is gone. */
  ghost predicate Covered(t: Timed, l: Limits) {
    && InTime(t, l, t.s.now) && Count(t.s.tasks, Owner) <= 1
    && (t.s.monitor.Stamped? ==> t.s.monitor.at <= t.s.now)
    && forall i :: 0 <= i < |t.since| ==> Guarded(t, l, i)
  }

  ghost predicate Guarded(t: Timed, l: Limits, i: nat)
    requires i < |t.since| == |t.s.tasks|
  {
    && (t.s.tasks[i] != Idle ==> t.since[i] <= t.s.now)
    && (Owner(t.s.tasks[i]) == 1 ==>
          && t.s.circuit != HalfOpen(false)
          && (t.s.circuit.Open? ==> t.since[i] + Life(l) < t.s.circuit.until))
  }

  lemma CountNone(tasks: seq<Pc>)
    requires forall i :: 0 <= i < |tasks| ==> Owner(tasks[i]) == 0
    ensures Count(tasks, Owner) == 0
  {
    if Count(tasks, Owner) > 0 {
      var i := CountFind(tasks, Owner);
      assert false;
    }
  }

  /** A circuit that grants a probe finds none outstanding. */
  lemma GrantFindsNone(t: Timed, l: Limits)
    requires Covered(t, l) && GateOf(t.s.circuit, t.s.now) == Pass(true)
    ensures Count(t.s.tasks, Owner) == 0
  {
    forall i | 0 <= i < |t.s.tasks| ensures Owner(t.s.tasks[i]) == 0 {
      assert Guarded(t, l, i);
    }
    CountNone(t.s.tasks);
  }

  lemma NoOwners(tasks: seq<Pc>)
    requires Count(tasks, Owner) == 0
    ensures forall i :: 0 <= i < |tasks| ==> Owner(tasks[i]) == 0
  {
    forall i | 0 <= i < |tasks| ensures Owner(tasks[i]) == 0 {
      CountAt(tasks, Owner, i);
    }
  }

  lemma GateCovered(p: Params, l: Limits, t: Timed, i: nat)
    requires Covered(t, l) && CanStep(t, l, TryGate(i))
    ensures Covered(After(p, t, TryGate(i)), l)
  {
    var t' := After(p, t, TryGate(i));
    OwnersStep(p, t.s, TryGate(i));
    if GateOf(t.s.circuit, t.s.now) == Pass(true) {
      GrantFindsNone(t, l);
      NoOwners(t.s.tasks);
    }
    forall j | 0 <= j < |t.since| ensures Guarded(t', l, j) {
      assert Guarded(t, l, j);
    }
  }

  /** A step that only continues or ends a task. */
  lemma TaskGuarded(p: Params, l: Limits, t: Timed, st: Step, j: nat)
    requires j < |t.since| == |t.s.tasks| && Guarded(t, l, j) && Enabled(t.s, st)
    requires st.Acquire? || st.WriteBack? || st.Settle? || st.Release? || st.Cancel?
    requires st.WriteBack? || st.Settle? ==> Owner(After(p, t, st).s.tasks[j]) == 0
    ensures Guarded(After(p, t, st), l, j)
  {}

  lemma TaskInTime(p: Params, l: Limits, t: Timed, st: Step)
    requires InTime(t, l, t.s.now) && CanStep(t, l, st)
    requires st.Acquire? || st.WriteBack? || st.Settle? || st.Release? || st.Cancel?
    ensures InTime(After(p, t, st), l, t.s.now) && After(p, t, st).s.now == t.s.now
  {}

  lemma TaskOwners(p: Params, t: Timed, st: Step)
    requires Enabled(t.s, st) && |t.since| == |t.s.tasks| && Count(t.s.tasks, Owner) <= 1
    requires st.Acquire? || st.WriteBack? || st.Settle? || st.Release? || st.Cancel?
    ensures
      var tasks := After(p, t, st).s.tasks;
      && Count(tasks, Owner) <= 1
      && (st.WriteBack? || st.Settle? ==> forall j :: 0 <= j < |tasks| ==> Owner(tasks[j]) == 0)
  {
    OwnersStep(p, t.s, st);
    if st.WriteBack? || st.Settle? {
      NoOwners(After(p, t, st).s.tasks);
    }
  }

  lemma TaskCovered(p: Params, l: Limits, t: Timed, st: Step)
    requires Covered(t, l) && CanStep(t, l, st)
    requires st.Acquire? || st.WriteBack? || st.Settle? || st.Release? || st.Cancel?
    ensures Covered(After(p, t, st), l)
  {
    TaskInTime(p, l, t, st);
    TaskOwners(p, t, st);
    forall j | 0 <= j < |t.since| ensures Guarded(After(p, t, st), l, j) {
      TaskGuarded(p, l, t, st, j);
    }
  }

  lemma OtherCovered(p: Params, l: Limits, t: Timed, st: Step)
    requires Life(l) + l.lag < p.cooldown && Covered(t, l) && CanStep(t, l, st)
    requires st.Tick? || st.Check? || st.Stamp? || st.Write?
    ensures Covered(After(p, t, st), l)
  {
    var t' := After(p, t, st);
    forall j | 0 <= j < |t.since| ensures Guarded(t', l, j) {
      assert Guarded(t, l, j);
    }
  }

  lemma {:induction false} CoveredRun(p: Params, l: Limits, t: Timed, steps: seq<Step>)
    requires Life(l) + l.lag < p.cooldown && Covered(t, l) && LegalTimed(p, l, t, steps)
    ensures Covered(ExecTimed(p, l, t, steps), l)
    decreases |steps|
  {
    if steps != [] {
      var st := steps[0];
      if st.TryGate? {
        GateCovered(p, l, t, st.i);
      } else if st.Tick? || st.Check? || st.Stamp? || st.Write? {
        OtherCovered(p, l, t, st);
      } else {
        TaskCovered(p, l, t, st);
      }
      CoveredRun(p, l, After(p, t, st), steps[1..]);
    }
  }

  // ---------- long lives ----------

  /** One more step at the end of a timed run. */
  lemma ExtendTimed(p: Params, l: Limits, t0: Timed, run: seq<Step>, t: Timed, st: Step)
    returns (longer: seq<Step>, t': Timed)
    requires LegalTimed(p, l, t0, run) && ExecTimed(p, l, t0, run) == t && CanStep(t, l, st)
    ensures longer == run + [st] && t' == After(p, t, st)
    ensures LegalTimed(p, l, t0, longer) && ExecTimed(p, l, t0, longer) == t'
  {
    longer, t' := run + [st], After(p, t, st);
    ConcatTimed(p, l, t0, run, st);
  }

  lemma {:induction false} ConcatTimed(p: Params, l: Limits, t: Timed, run: seq<Step>, st: Step)
    requires LegalTimed(p, l, t, run) && CanStep(ExecTimed(p, l, t, run), l, st)
    ensures LegalTimed(p, l, t, run + [st])
    ensures ExecTimed(p, l, t, run + [st]) == After(p, ExecTimed(p, l, t, run), st)
    decreases |run|
  {
    if run == [] {
      assert run + [st] == [st] && [st][1..] == [];
      assert LegalTimed(p, l, After(p, t, st), []);
    } else {
      assert (run + [st])[0] == run[0] && (run + [st])[1..] == run[1..] + [st];
      ConcatTimed(p, l, After(p, t, run[0]), run[1..], st);
    }
  }

  /** A trip with nobody about, and its cooldown. */
  lemma TripAndWait(p: Params, l: Limits, t0: Timed) returns (run: seq<Step>, t: Timed)
    requires |t0.since| == |t0.s.tasks| && t0.s.monitor.Watching? && t0.s.circuit == Closed
    requires forall i :: 0 <= i < |t0.since| ==> t0.s.tasks[i] == Idle
    ensures LegalTimed(p, l, t0, run) && ExecTimed(p, l, t0, run) == t
    ensures t.since == t0.since && t.s.tasks == t0.s.tasks && t.s.available == t0.s.available
    ensures t.s.now == t0.s.now + p.cooldown && t.s.circuit == Open(t.s.now) && t.s.monitor.Watching?
  {
    run, t := ExtendTimed(p, l, t0, [], t0, Check);
    run, t := ExtendTimed(p, l, t0, run, t, Stamp);
    run, t := ExtendTimed(p, l, t0, run, t, Write);
    run, t := ExtendTimed(p, l, t0, run, t, Tick(p.cooldown));
  }

  /** A trip that has read the clock and waits for the lock. */
  lemma TripWaits(p: Params, l: Limits, t0: Timed, before: seq<Step>, s: Timed) returns (run: seq<Step>, t: Timed)
    requires LegalTimed(p, l, t0, before) && ExecTimed(p, l, t0, before) == s
    requires |s.since| == |s.s.tasks| && s.s.monitor.Watching? && !Dropped(s.s.circuit, s.s.now)
    requires forall i :: 0 <= i < |s.since| ==> s.s.tasks[i] == Idle
    ensures LegalTimed(p, l, t0, run) && ExecTimed(p, l, t0, run) == t
    ensures t == Timed(s.s.(now := s.s.now + l.lag, monitor := Stamped(s.s.now)), s.since)
  {
    run, t := ExtendTimed(p, l, t0, before, s, Check);
    run, t := ExtendTimed(p, l, t0, run, t, Stamp);
    run, t := ExtendTimed(p, l, t0, run, t, Tick(l.lag));
  }

  /** Meanwhile task 0 is granted a probe and sends it. */
  lemma TripOnProbe(p: Params, l: Limits, t0: Timed, before: seq<Step>, s: Timed) returns (run: seq<Step>, t: Timed)
    requires LegalTimed(p, l, t0, before) && ExecTimed(p, l, t0, before) == s
    requires |s.since| == |s.s.tasks| > 0 && s.s.monitor.Stamped? && s.s.available > 0
    requires GateOf(s.s.circuit, s.s.now) == Pass(true) && s.s.tasks[0] == Idle
    ensures LegalTimed(p, l, t0, run) && ExecTimed(p, l, t0, run) == t
    ensures t.since == s.since[0 := s.s.now] && t.s.tasks == s.s.tasks[0 := Holding(true)]
    ensures t.s.available == s.s.available - 1 && t.s.now == s.s.now
    ensures t.s.circuit == Open(s.s.monitor.at + p.cooldown) && t.s.monitor.Watching?
  {
    run, t := ExtendTimed(p, l, t0, before, s, TryGate(0));
    run, t := ExtendTimed(p, l, t0, run, t, Acquire(0));
    run, t := ExtendTimed(p, l, t0, run, t, Write);
    assert s.s.tasks[0 := Passed(true)][0 := Holding(true)] == s.s.tasks[0 := Holding(true)];
  }

  /** Task 1 waits out the trip and is granted a probe beside task 0's. */
  lemma GrantSecond(p: Params, l: Limits, t0: Timed, before: seq<Step>, s: Timed) returns (run: seq<Step>, t: Timed)
    requires LegalTimed(p, l, t0, before) && ExecTimed(p, l, t0, before) == s
    requires |s.since| == |s.s.tasks| >= 2 && s.s.monitor.Watching? && s.since[0] == s.s.now
    requires s.s.circuit.Open? && s.s.circuit.until <= s.s.now + Life(l)
    requires s.s.tasks[0] == Holding(true) && forall i :: 1 <= i < |s.since| ==> s.s.tasks[i] == Idle
    ensures LegalTimed(p, l, t0, run) && ExecTimed(p, l, t0, run) == t
    ensures t.s.tasks == s.s.tasks[1 := if s.s.available > 0 then Holding(true) else Passed(true)]
  {
    var d := if Dropped(s.s.circuit, s.s.now) then s.s.circuit.until - s.s.now else 0;
    run, t := ExtendTimed(p, l, t0, before, s, Tick(d));
    run, t := ExtendTimed(p, l, t0, run, t, TryGate(1));
    if s.s.available > 0 {
      run, t := ExtendTimed(p, l, t0, run, t, Acquire(1));
      assert s.s.tasks[1 := Passed(true)][1 := Holding(true)] == s.s.tasks[1 := Holding(true)];
    }
  }

  /** A trip stamped just before a probe is granted runs out before that probe's time is up. */
  lemma SecondProbe(p: Params, l: Limits, tasks: nat, now: nat) returns (run: seq<Step>)
    requires p.cooldown <= Life(l) + l.lag && tasks >= 2 && p.cap > 0
    ensures LegalTimed(p, l, Start(p, tasks, now), run)
    ensures
      var s := ExecTimed(p, l, Start(p, tasks, now), run).s;
      && |s.tasks| == tasks && Count(s.tasks, Owner) == 2
      && s.tasks[0] == Holding(true) && s.tasks[1] == if p.cap > 1 then Holding(true) else Passed(true)
  {
    var t0 := Start(p, tasks, now);
    var t;
    run, t := TripAndWait(p, l, t0);
    run, t := TripWaits(p, l, t0, run, t);
    run, t := TripOnProbe(p, l, t0, run, t);
    run, t := GrantSecond(p, l, t0, run, t);
    TwoOwners(tasks, t.s.tasks);
  }

  lemma TwoOwners(n: nat, tasks: seq<Pc>)
    requires n >= 2 && |tasks| == n && Owner(tasks[0]) == 1 && Owner(tasks[1]) == 1
    requires forall i :: 2 <= i < n ==> tasks[i] == Idle
    ensures Count(tasks, Owner) == 2
  {
    CountIdle(n, Owner);
    var idle: seq<Pc> := seq(n, _ => Idle);
    CountUpdate(idle, Owner, 0, tasks[0]);
    CountUpdate(idle[0 := tasks[0]], Owner, 1, tasks[1]);
    assert idle[0 := tasks[0]][1 := tasks[1]] == tasks;
  }

  /** The rule of thumb, exactly: whatever the trips, cancellations and outcomes, an
      upstream has at most one live probe at every point of every run if and only if
      the shorter of the request deadline and the attempt timeout, plus what a trip may
      wait for the lock, is shorter than the cooldown. */
  lemma OneProbeUnderDeadlineIff(p: Params, l: Limits, tasks: nat, now: nat)
    requires tasks >= 2 && p.cap > 0
    ensures Life(l) + l.lag < p.cooldown <==>
            forall run :: LegalTimed(p, l, Start(p, tasks, now), run) ==>
              Count(ExecTimed(p, l, Start(p, tasks, now), run).s.tasks, Owner) <= 1
  {
    var t0 := Start(p, tasks, now);
    if Life(l) + l.lag < p.cooldown {
      CountIdle(tasks, Owner);
      assert Covered(t0, l);
      forall run | LegalTimed(p, l, t0, run) ensures Count(ExecTimed(p, l, t0, run).s.tasks, Owner) <= 1 {
        CoveredRun(p, l, t0, run);
      }
    } else {
      var run := SecondProbe(p, l, tasks, now);
      assert LegalTimed(p, l, t0, run) && Count(ExecTimed(p, l, t0, run).s.tasks, Owner) > 1;
    }
  }
}
