/** When there is one probe at a time. Every prefix of a run is a run, so a statement
    about the end of every run is one about every point of every run. */
module OneProbe {
  import opened Circuit
  import opened Admission

  /** No probe is out, or one is and the circuit grants no other. */
  ghost predicate Safe(s: State) {
    var probes := Count(s.tasks, Owner);
    probes == 0 || (probes == 1 && (s.circuit == HalfOpen(true) || s.circuit == Closed))
  }

  lemma SafeStep(p: Params, s: State, st: Step)
    requires Safe(s) && Enabled(s, st)
    requires st.Write? ==> Count(s.tasks, Owner) == 0
    ensures Safe(Apply(p, s, st))
  {
    OwnersStep(p, s, st);
  }

  /** Every trip of the run lands while no probe is out. */
  ghost predicate TripsFindNone(p: Params, s: State, steps: seq<Step>)
    requires Legal(p, s, steps)
    decreases |steps|
  {
    steps == [] ||
    ((steps[0].Write? ==> Count(s.tasks, Owner) == 0) && TripsFindNone(p, Apply(p, s, steps[0]), steps[1..]))
  }

  lemma {:induction false} SafeRun(p: Params, s: State, steps: seq<Step>)
    requires Safe(s) && Legal(p, s, steps) && TripsFindNone(p, s, steps)
    ensures Safe(Exec(p, s, steps))
    decreases |steps|
  {
    if steps != [] {
      SafeStep(p, s, steps[0]);
      SafeRun(p, Apply(p, s, steps[0]), steps[1..]);
    }
  }

  lemma {:induction false} NoTripsFindNone(p: Params, s: State, steps: seq<Step>)
    requires Legal(p, s, steps) && NoneOf(steps, IsWrite)
    ensures TripsFindNone(p, s, steps)
    decreases |steps|
  {
    if steps != [] {
      TailNoneOf(steps, IsWrite);
      NoTripsFindNone(p, Apply(p, s, steps[0]), steps[1..]);
    }
  }

  /** From the start, however many trips: as long as each lands while no probe is out,
      there is at most one probe. */
  lemma OneProbeWhileTripsFindNone(p: Params, tasks: nat, now: nat, steps: seq<Step>)
    requires Legal(p, Init(p, tasks, now), steps) && TripsFindNone(p, Init(p, tasks, now), steps)
    ensures Count(Exec(p, Init(p, tasks, now), steps).tasks, Owner) <= 1
  {
    CountIdle(tasks, Owner);
    SafeRun(p, Init(p, tasks, now), steps);
  }

  // ---------- a second probe from every unsafe state ----------

  /** The circuit grants the next request a probe, at once or after its cooldown. */
  predicate WillGrant(c: Circuit) { c.Open? || c == HalfOpen(false) }

  lemma Bystander(s: State) returns (j: nat)
    requires |s.tasks| >= 2 && Count(s.tasks, Owner) == 1
    ensures j < |s.tasks| && Owner(s.tasks[j]) == 0
  {
    j := if Owner(s.tasks[0]) == 0 then 0 else 1;
    assert s.tasks[1..][0] == s.tasks[1];
  }

  lemma GrantedIdle(p: Params, s: State, j: nat) returns (steps: seq<Step>)
    requires TaskStep(s, j, Idle) && WillGrant(s.circuit)
    ensures Legal(p, s, steps) && NoneOf(steps, IsWrite)
    ensures Count(Exec(p, s, steps).tasks, Owner) == Count(s.tasks, Owner) + 1
  {
    var d := if Dropped(s.circuit, s.now) then s.circuit.until - s.now else 0;
    var t;
    steps, t := Extend(p, s, [], s, Tick(d));
    OwnersStep(p, t, TryGate(j));
    steps, t := Extend(p, s, steps, t, TryGate(j));
  }

  /** A task that owns no probe finishes, waits, and is granted one. */
  lemma {:induction false} Granted(p: Params, s: State, j: nat) returns (steps: seq<Step>)
    requires j < |s.tasks| && Owner(s.tasks[j]) == 0 && WillGrant(s.circuit)
    ensures Legal(p, s, steps) && NoneOf(steps, IsWrite)
    ensures Count(Exec(p, s, steps).tasks, Owner) == Count(s.tasks, Owner) + 1
    decreases if s.tasks[j] == Idle then 0 else if s.tasks[j].Passed? then 2 else 1
  {
    if s.tasks[j] == Idle {
      steps := GrantedIdle(p, s, j);
    } else {
      var st := if s.tasks[j].Passed? then Acquire(j) else Release(j);
      OwnersStep(p, s, st);
      var rest := Granted(p, Apply(p, s, st), j);
      Prepend(p, s, st, rest);
      steps := [st] + rest;
    }
  }

  /** One probe at a time, exactly. Until the next trip there is at most one probe at
      every point of every run if and only if no probe is out now, or a single one is
      and the circuit is closed or shows it. */
  lemma OneProbeIff(p: Params, s: State)
    requires |s.tasks| >= 2
    ensures Safe(s) <==>
            forall steps :: Legal(p, s, steps) && NoneOf(steps, IsWrite) ==>
              Count(Exec(p, s, steps).tasks, Owner) <= 1
  {
    if Safe(s) {
      forall steps | Legal(p, s, steps) && NoneOf(steps, IsWrite)
        ensures Count(Exec(p, s, steps).tasks, Owner) <= 1
      {
        NoTripsFindNone(p, s, steps);
        SafeRun(p, s, steps);
      }
    } else {
      var steps: seq<Step> := [];
      if Count(s.tasks, Owner) == 1 {
        var j := Bystander(s);
        steps := Granted(p, s, j);
      }
      assert Legal(p, s, steps) && NoneOf(steps, IsWrite) && Count(Exec(p, s, steps).tasks, Owner) > 1;
    }
  }

  /** What a trip does to that: every continuation up to the next trip keeps at most one
      probe if and only if the trip lands while none is out, in flight or about to be. */
  lemma TripKeepsOneProbeIff(p: Params, s: State)
    requires |s.tasks| >= 2 && Enabled(s, Write)
    ensures Count(s.tasks, Owner) == 0 <==>
            forall steps :: Legal(p, Apply(p, s, Write), steps) && NoneOf(steps, IsWrite) ==>
              Count(Exec(p, Apply(p, s, Write), steps).tasks, Owner) <= 1
  {
    OneProbeIff(p, Apply(p, s, Write));
  }
}
