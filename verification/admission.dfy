/** The admission protocol of one upstream as a concurrent step system: any number of
    request tasks, the health monitor and a clock, interleaved at every lock. */
module Admission {
  import opened Circuit
  import opened Wrappers

  /** Where a request task stands with this upstream. */
  datatype Pc =
    | Idle
    | Passed(isProbe: bool)    // through the circuit, semaphore not tried yet
    | RefusedProbe             // no permit; about to hand the probe slot back
    | Holding(isProbe: bool)   // permit held, awaiting the upstream's response
    | Settled                  // probe settled, permit still held

  /** The health monitor: `trip` reads the clock before it takes the lock. */
  datatype Monitor = Watching | Decided | Stamped(at: nat)

  datatype State = State(
    circuit: Circuit,
    available: nat,
    now: nat,
    tasks: seq<Pc>,
    monitor: Monitor,
    tripsOnProbe: nat,         // trips that landed on HalfOpen(true)
    latest: nat,               // the task last granted a probe
    latestCancelled: bool)     // ... and whether it was cancelled holding it

  /** What never changes. */
  datatype Params = Params(cap: nat, cooldown: nat)

  datatype Step =
    | Tick(d: nat)
    | TryGate(i: nat)
    | Acquire(i: nat)
    | WriteBack(i: nat)
    | Settle(i: nat, success: bool)
    | Release(i: nat)
    | Cancel(i: nat)           // the deadline drops the future during its await
    | Check                    // error rate too high and not dropped
    | Stamp
    | Write

  function Init(p: Params, tasks: nat, now: nat): State {
    State(Closed, p.cap, now, seq(tasks, _ => Idle), Watching, 0, 0, false)
  }

  predicate TaskStep(s: State, i: nat, pc: Pc) { i < |s.tasks| && s.tasks[i] == pc }

  predicate Enabled(s: State, st: Step) {
    match st
    case Tick(_) => true
    case TryGate(i) => TaskStep(s, i, Idle)
    case Acquire(i) => i < |s.tasks| && s.tasks[i].Passed?
    case WriteBack(i) => TaskStep(s, i, RefusedProbe)
    case Settle(i, _) => TaskStep(s, i, Holding(true))
    case Release(i) => TaskStep(s, i, Holding(false)) || TaskStep(s, i, Settled)
    case Cancel(i) => i < |s.tasks| && s.tasks[i].Holding?
    case Check => s.monitor.Watching? && !Dropped(s.circuit, s.now)
    case Stamp => s.monitor.Decided?
    case Write => s.monitor.Stamped?
  }

  function Apply(p: Params, s: State, st: Step): State
    requires Enabled(s, st)
  {
    match st
    case Tick(d) => s.(now := s.now + d)
    case TryGate(i) => AfterTryGate(s, i)
    case Acquire(i) => AfterAcquire(s, i)
    case WriteBack(i) => s.(circuit := HalfOpen(false), tasks := s.tasks[i := Idle])
    case Settle(i, ok) => s.(circuit := AfterSettle(s.circuit, ok, s.now, p.cooldown), tasks := s.tasks[i := Settled])
    case Release(i) => s.(available := s.available + 1, tasks := s.tasks[i := Idle])
    case Cancel(i) => s.(available := s.available + 1, tasks := s.tasks[i := Idle],
                         latestCancelled := s.latestCancelled || (i == s.latest && s.tasks[i].isProbe))
    case Check => s.(monitor := Decided)
    case Stamp => s.(monitor := Stamped(s.now))
    case Write => s.(circuit := Open(s.monitor.at + p.cooldown), monitor := Watching,
                     tripsOnProbe := s.tripsOnProbe + (if s.circuit == HalfOpen(true) then 1 else 0))
  }

  function AfterTryGate(s: State, i: nat): State
    requires i < |s.tasks|
  {
    match GateOf(s.circuit, s.now)
    case Refuse => s
    case Pass(false) => s.(tasks := s.tasks[i := Passed(false)])
    case Pass(true) => s.(circuit := HalfOpen(true), tasks := s.tasks[i := Passed(true)],
                          latest := i, latestCancelled := false)
  }

  function AfterAcquire(s: State, i: nat): State
    requires i < |s.tasks| && s.tasks[i].Passed?
  {
    if s.available > 0 then s.(available := s.available - 1, tasks := s.tasks[i := Holding(s.tasks[i].isProbe)])
    else s.(tasks := s.tasks[i := if s.tasks[i].isProbe then RefusedProbe else Idle])
  }

  // ---------- runs ----------

  predicate Legal(p: Params, s: State, steps: seq<Step>)
    decreases |steps|
  {
    steps == [] || (Enabled(s, steps[0]) && Legal(p, Apply(p, s, steps[0]), steps[1..]))
  }

  function Exec(p: Params, s: State, steps: seq<Step>): State
    requires Legal(p, s, steps)
    decreases |steps|
  {
    if steps == [] then s else Exec(p, Apply(p, s, steps[0]), steps[1..])
  }

  lemma {:induction false} ExecConcat(p: Params, s: State, a: seq<Step>, b: seq<Step>)
    requires Legal(p, s, a) && Legal(p, Exec(p, s, a), b)
    ensures Legal(p, s, a + b) && Exec(p, s, a + b) == Exec(p, Exec(p, s, a), b)
    decreases |a|
  {
    if a == [] {
      assert a + b == b;
    } else {
      assert (a + b)[1..] == a[1..] + b;
      ExecConcat(p, Apply(p, s, a[0]), a[1..], b);
    }
  }

  /** A prefix of a run is a run, and the rest goes on from where it ends. */
  lemma {:induction false} ExecSplit(p: Params, s: State, a: seq<Step>, b: seq<Step>)
    requires Legal(p, s, a + b)
    ensures Legal(p, s, a) && Legal(p, Exec(p, s, a), b) && Exec(p, s, a + b) == Exec(p, Exec(p, s, a), b)
    decreases |a|
  {
    if a == [] {
      assert a + b == b;
    } else {
      assert (a + b)[0] == a[0] && (a + b)[1..] == a[1..] + b;
      ExecSplit(p, Apply(p, s, a[0]), a[1..], b);
    }
  }

  /** One more step at the end of a run. */
  lemma Extend(p: Params, s0: State, run: seq<Step>, s: State, st: Step) returns (longer: seq<Step>, s': State)
    requires Legal(p, s0, run) && Exec(p, s0, run) == s && Enabled(s, st)
    ensures longer == run + [st] && s' == Apply(p, s, st)
    ensures Legal(p, s0, longer) && Exec(p, s0, longer) == s'
  {
    longer, s' := run + [st], Apply(p, s, st);
    Prepend(p, s, st, []);
    assert [st] + [] == [st];
    ExecConcat(p, s0, run, [st]);
  }

  /** One more step at the start of a run. */
  lemma Prepend(p: Params, s: State, st: Step, rest: seq<Step>)
    requires Enabled(s, st) && Legal(p, Apply(p, s, st), rest)
    ensures Legal(p, s, [st] + rest) && Exec(p, s, [st] + rest) == Exec(p, Apply(p, s, st), rest)
  {
    assert ([st] + rest)[1..] == rest;
  }

  predicate IsWrite(st: Step) { st.Write? }

  predicate IsCancel(st: Step) { st.Cancel? }

  predicate NoneOf(steps: seq<Step>, f: Step -> bool) {
    forall i :: 0 <= i < |steps| ==> !f(steps[i])
  }

  lemma PrefixNoneOf(a: seq<Step>, b: seq<Step>, f: Step -> bool)
    requires NoneOf(a + b, f)
    ensures NoneOf(a, f)
  {
    assert forall i :: 0 <= i < |a| ==> a[i] == (a + b)[i];
  }

  lemma TailNoneOf(steps: seq<Step>, f: Step -> bool)
    requires steps != [] && NoneOf(steps, f)
    ensures !f(steps[0]) && NoneOf(steps[1..], f)
  {
    assert forall i :: 0 <= i < |steps[1..]| ==> steps[1..][i] == steps[i + 1];
  }

  /** An admission with nothing in between is two or three steps of its task. */
  lemma AdmitSteps(p: Params, s: State, i: nat) returns (run: seq<Step>)
    requires TaskStep(s, i, Idle)
    ensures Legal(p, s, run)
    ensures
      var t, r := Exec(p, s, run), Admitted(s.circuit, s.available, s.now);
      && t.circuit == AfterAdmit(s.circuit, s.available, s.now)
      && t.available == (if r.Some? then s.available - 1 else s.available)
      && t.tasks == (if r.Some? then s.tasks[i := Holding(r.value)] else s.tasks)
      && t.now == s.now && t.monitor == s.monitor && t.tripsOnProbe == s.tripsOnProbe
  {
    var t;
    run, t := Extend(p, s, [], s, TryGate(i));
    if t.tasks[i].Passed? {
      run, t := Extend(p, s, run, t, Acquire(i));
      if t.tasks[i] == RefusedProbe {
        run, t := Extend(p, s, run, t, WriteBack(i));
      }
    }
    var r := Admitted(s.circuit, s.available, s.now);
    assert t.tasks == if r.Some? then s.tasks[i := Holding(r.value)] else s.tasks;
  }

  // ---------- counting tasks ----------

  function Owner(pc: Pc): nat {
    if pc == Passed(true) || pc == RefusedProbe || pc == Holding(true) then 1 else 0
  }

  function Holder(pc: Pc): nat { if pc.Holding? || pc.Settled? then 1 else 0 }

  function Passer(pc: Pc): nat { if pc.Passed? then 1 else 0 }

  function PassedProbe(pc: Pc): nat { if pc == Passed(true) then 1 else 0 }

  function Refusal(pc: Pc): nat { if pc == RefusedProbe then 1 else 0 }

  function Count(tasks: seq<Pc>, f: Pc -> nat): nat {
    if tasks == [] then 0 else f(tasks[0]) + Count(tasks[1..], f)
  }

  lemma {:induction false} CountUpdate(tasks: seq<Pc>, f: Pc -> nat, i: nat, pc: Pc)
    requires i < |tasks|
    ensures Count(tasks[i := pc], f) + f(tasks[i]) == Count(tasks, f) + f(pc)
  {
    if i == 0 {
      assert tasks[0 := pc][1..] == tasks[1..];
    } else {
      CountUpdate(tasks[1..], f, i - 1, pc);
      assert tasks[i := pc][1..] == tasks[1..][i - 1 := pc];
    }
  }

  lemma {:induction false} CountAt(tasks: seq<Pc>, f: Pc -> nat, i: nat)
    requires i < |tasks|
    ensures Count(tasks, f) >= f(tasks[i])
  {
    if i > 0 {
      CountAt(tasks[1..], f, i - 1);
    }
  }

  lemma {:induction false} CountFind(tasks: seq<Pc>, f: Pc -> nat) returns (i: nat)
    requires Count(tasks, f) > 0
    ensures i < |tasks| && f(tasks[i]) > 0
  {
    if f(tasks[0]) > 0 {
      i := 0;
    } else {
      i := CountFind(tasks[1..], f);
      i := i + 1;
    }
  }

  lemma {:induction false} CountIdle(n: nat, f: Pc -> nat)
    requires f(Idle) == 0
    ensures Count(seq(n, _ => Idle), f) == 0
  {
    if n > 0 {
      CountIdle(n - 1, f);
      assert seq(n, _ => Idle)[1..] == seq(n - 1, _ => Idle);
    }
  }

  /** How many probes a step adds to those outstanding. */
  function Gain(s: State, st: Step): int
    requires Enabled(s, st)
  {
    match st
    case TryGate(_) => if GateOf(s.circuit, s.now) == Pass(true) then 1 else 0
    case WriteBack(_) => -1
    case Settle(_, _) => -1
    case Cancel(i) => if Owner(s.tasks[i]) == 1 then -1 else 0
    case _ => 0
  }

  lemma OwnersStep(p: Params, s: State, st: Step)
    requires Enabled(s, st)
    ensures Count(Apply(p, s, st).tasks, Owner) == Count(s.tasks, Owner) + Gain(s, st)
  {
    if st.TryGate? || st.Acquire? || st.WriteBack? || st.Settle? || st.Release? || st.Cancel? {
      var pc := Apply(p, s, st).tasks[st.i];
      CountUpdate(s.tasks, Owner, st.i, pc);
      assert Apply(p, s, st).tasks == s.tasks[st.i := pc];
    }
  }

  // ---------- what every step keeps ----------

  ghost predicate ProbesBounded(s: State) {
    Count(s.tasks, Owner) <= (if s.circuit == HalfOpen(true) then 1 else 0) + s.tripsOnProbe
  }

  /** A probe in flight is the latest grant's, still live unless cancelled. */
  ghost predicate SlotOwned(s: State) {
    s.circuit == HalfOpen(true) ==>
      s.latest < |s.tasks| && (s.latestCancelled || Owner(s.tasks[s.latest]) == 1)
  }

  ghost predicate Inv(p: Params, s: State) {
    && s.available + Count(s.tasks, Holder) == p.cap
    && ProbesBounded(s)
    && SlotOwned(s)
    && (s.monitor.Stamped? ==> s.monitor.at <= s.now)
  }

  lemma InitInv(p: Params, tasks: nat, now: nat)
    ensures Inv(p, Init(p, tasks, now))
  {
    CountIdle(tasks, Holder);
    CountIdle(tasks, Owner);
  }

  /** The two counts after a step that moves task `i` to `pc`. */
  lemma MoveTask(s: State, i: nat, pc: Pc)
    requires i < |s.tasks|
    ensures Count(s.tasks[i := pc], Holder) == Count(s.tasks, Holder) - Holder(s.tasks[i]) + Holder(pc)
    ensures Count(s.tasks[i := pc], Owner) == Count(s.tasks, Owner) - Owner(s.tasks[i]) + Owner(pc)
  {
    CountUpdate(s.tasks, Holder, i, pc);
    CountUpdate(s.tasks, Owner, i, pc);
  }

  lemma GateInv(p: Params, s: State, i: nat)
    requires Inv(p, s) && Enabled(s, TryGate(i))
    ensures Inv(p, AfterTryGate(s, i))
  {
    var g := GateOf(s.circuit, s.now);
    if g.Pass? {
      MoveTask(s, i, Passed(g.isProbe));
    }
  }

  lemma AcquireInv(p: Params, s: State, i: nat)
    requires Inv(p, s) && Enabled(s, Acquire(i))
    ensures Inv(p, AfterAcquire(s, i))
  {
    MoveTask(s, i, AfterAcquire(s, i).tasks[i]);
  }

  lemma FinishInv(p: Params, s: State, st: Step)
    requires Inv(p, s) && Enabled(s, st) && (st.WriteBack? || st.Settle? || st.Release? || st.Cancel?)
    ensures Inv(p, Apply(p, s, st))
  {
    MoveTask(s, st.i, if st.Settle? then Settled else Idle);
  }

  lemma StepInv(p: Params, s: State, st: Step)
    requires Inv(p, s) && Enabled(s, st)
    ensures Inv(p, Apply(p, s, st))
  {
    if st.TryGate? {
      GateInv(p, s, st.i);
    } else if st.Acquire? {
      AcquireInv(p, s, st.i);
    } else if st.WriteBack? || st.Settle? || st.Release? || st.Cancel? {
      FinishInv(p, s, st);
    }
  }

  lemma {:induction false} RunInv(p: Params, s: State, steps: seq<Step>)
    requires Inv(p, s) && Legal(p, s, steps)
    ensures Inv(p, Exec(p, s, steps))
    decreases |steps|
  {
    if steps != [] {
      StepInv(p, s, steps[0]);
      RunInv(p, Apply(p, s, steps[0]), steps[1..]);
    }
  }

  /** In every interleaving, available permits and permits held add up to the cap, so
      no more than `cap` requests are ever in flight; and the probes outstanding never
      exceed one, if the circuit shows a probe, plus the trips that landed on one. */
  lemma PermitsAndProbes(p: Params, tasks: nat, now: nat, steps: seq<Step>)
    requires Legal(p, Init(p, tasks, now), steps)
    ensures
      var s := Exec(p, Init(p, tasks, now), steps);
      && s.available + Count(s.tasks, Holder) == p.cap
      && Count(s.tasks, Owner) <= (if s.circuit == HalfOpen(true) then 1 else 0) + s.tripsOnProbe
      && (s.tripsOnProbe == 0 ==> Count(s.tasks, Owner) <= 1)
  {
    InitInv(p, tasks, now);
    RunInv(p, Init(p, tasks, now), steps);
  }

  /** While no trip has landed on a probe, the one probe decides: its own outcome, and
      nothing else, closes the circuit or re-opens it for a full cooldown. */
  lemma ProbeDecides(p: Params, s: State, i: nat, ok: bool)
    requires Inv(p, s) && s.tripsOnProbe == 0 && Enabled(s, Settle(i, ok))
    ensures Apply(p, s, Settle(i, ok)).circuit == if ok then Closed else Open(s.now + p.cooldown)
  {
    CountAt(s.tasks, Owner, i);
  }
}
