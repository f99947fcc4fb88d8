/** When a trip keeps its promise: nobody is let through before the cooldown is over. */
module Cooldown {
  import opened Circuit
  import opened Admission

  /** A request gets past the circuit in this step. */
  predicate Passes(s: State, st: Step) {
    st.TryGate? && Enabled(s, st) && GateOf(s.circuit, s.now).Pass?
  }

  /** No request gets past the circuit before `until`. */
  predicate Quiet(p: Params, s: State, steps: seq<Step>, until: nat)
    requires Legal(p, s, steps)
    decreases |steps|
  {
    steps == [] ||
    (!(s.now < until && Passes(s, steps[0])) && Quiet(p, Apply(p, s, steps[0]), steps[1..], until))
  }

  /** No task is about to hand a probe slot back, and none that was granted one can be
      refused a permit: there are permits for everybody past the circuit. */
  ghost predicate NoRefusalAhead(s: State) {
    && Count(s.tasks, Refusal) == 0
    && (Count(s.tasks, PassedProbe) == 0 || Count(s.tasks, Passer) <= s.available)
  }

  ghost predicate Shut(s: State, until: nat) {
    s.now < until ==>
      && s.circuit.Open? && s.circuit.until >= until
      && NoRefusalAhead(s)
      && s.monitor.Watching?
  }

  lemma MoveTask(s: State, i: nat, pc: Pc)
    requires i < |s.tasks|
    ensures Count(s.tasks[i := pc], Refusal) == Count(s.tasks, Refusal) - Refusal(s.tasks[i]) + Refusal(pc)
    ensures Count(s.tasks[i := pc], PassedProbe) ==
            Count(s.tasks, PassedProbe) - PassedProbe(s.tasks[i]) + PassedProbe(pc)
    ensures Count(s.tasks[i := pc], Passer) == Count(s.tasks, Passer) - Passer(s.tasks[i]) + Passer(pc)
  {
    CountUpdate(s.tasks, Refusal, i, pc);
    CountUpdate(s.tasks, PassedProbe, i, pc);
    CountUpdate(s.tasks, Passer, i, pc);
  }

  lemma ShutAcquire(p: Params, s: State, i: nat, until: nat)
    requires Shut(s, until) && Enabled(s, Acquire(i))
    ensures Shut(Apply(p, s, Acquire(i)), until)
  {
    CountAt(s.tasks, Passer, i);
    CountAt(s.tasks, PassedProbe, i);
    MoveTask(s, i, Apply(p, s, Acquire(i)).tasks[i]);
  }

  lemma ShutStep(p: Params, s: State, st: Step, until: nat)
    requires Shut(s, until) && Enabled(s, st)
    ensures Shut(Apply(p, s, st), until) && !(s.now < until && Passes(s, st))
  {
    match st {
      case Acquire(i) => ShutAcquire(p, s, i, until);
      case WriteBack(i) => CountAt(s.tasks, Refusal, i);
      case Settle(i, _) => MoveTask(s, i, Settled);
      case Release(i) => MoveTask(s, i, Idle);
      case Cancel(i) => MoveTask(s, i, Idle);
      case _ =>
    }
  }

  lemma {:induction false} ShutRun(p: Params, s: State, steps: seq<Step>, until: nat)
    requires Shut(s, until) && Legal(p, s, steps)
    ensures Quiet(p, s, steps, until)
    decreases |steps|
  {
    if steps != [] {
      ShutStep(p, s, steps[0], until);
      ShutRun(p, Apply(p, s, steps[0]), steps[1..], until);
    }
  }

  lemma NotQuietLater(p: Params, s: State, st: Step, rest: seq<Step>, until: nat)
    requires Enabled(s, st) && Legal(p, Apply(p, s, st), rest) && !Quiet(p, Apply(p, s, st), rest, until)
    ensures Legal(p, s, [st] + rest) && !Quiet(p, s, [st] + rest, until)
  {
    assert ([st] + rest)[1..] == rest;
  }

  /** A refused probe holder hands back a slot the trip had taken away, and the very
      next request goes through. */
  lemma BreachByWriteBack(p: Params, s: State, i: nat, until: nat) returns (steps: seq<Step>)
    requires TaskStep(s, i, RefusedProbe) && s.now < until
    ensures Legal(p, s, steps) && !Quiet(p, s, steps, until)
  {
    var s1 := Apply(p, s, WriteBack(i));
    assert Passes(s1, TryGate(i));
    assert [TryGate(i)][1..] == [];
    NotQuietLater(p, s, WriteBack(i), [TryGate(i)], until);
    steps := [WriteBack(i)] + [TryGate(i)];
  }

  lemma AnotherPasser(s: State, j: nat) returns (i: nat)
    requires TaskStep(s, j, Passed(true)) && Count(s.tasks, Passer) >= 2
    ensures i != j && i < |s.tasks| && s.tasks[i].Passed?
  {
    CountUpdate(s.tasks, Passer, j, Idle);
    i := CountFind(s.tasks[j := Idle], Passer);
  }

  /** If the permits can run out on a probe holder, some continuation makes them. */
  lemma {:induction false} Breach(p: Params, s: State, until: nat) returns (steps: seq<Step>)
    requires s.now < until && !NoRefusalAhead(s)
    ensures Legal(p, s, steps) && !Quiet(p, s, steps, until)
    decreases s.available
  {
    if Count(s.tasks, Refusal) > 0 {
      var i := CountFind(s.tasks, Refusal);
      steps := BreachByWriteBack(p, s, i, until);
    } else {
      var j := CountFind(s.tasks, PassedProbe);
      if s.available == 0 {
        var s1 := Apply(p, s, Acquire(j));
        var rest := BreachByWriteBack(p, s1, j, until);
        NotQuietLater(p, s, Acquire(j), rest, until);
        steps := [Acquire(j)] + rest;
      } else {
        var i := AnotherPasser(s, j);
        var s1 := Apply(p, s, Acquire(i));
        MoveTask(s, i, s1.tasks[i]);
        CountAt(s1.tasks, PassedProbe, j);
        var rest := Breach(p, s1, until);
        NotQuietLater(p, s, Acquire(i), rest, until);
        steps := [Acquire(i)] + rest;
      }
    }
  }

  /** The cooldown, exactly. When a trip stamped at `at` is written before its deadline,
      every run from there keeps requests out until `at + cooldown`, whatever stale
      probes settle meanwhile, if and only if at that moment no request sits between a
      probe grant and a refusal by the semaphore. */
  lemma TripHoldsIff(p: Params, s: State)
    requires Enabled(s, Write) && s.now < s.monitor.at + p.cooldown
    ensures
      var tripped, until := Apply(p, s, Write), s.monitor.at + p.cooldown;
      NoRefusalAhead(s) <==>
      forall steps :: Legal(p, tripped, steps) ==> Quiet(p, tripped, steps, until)
  {
    var tripped, until := Apply(p, s, Write), s.monitor.at + p.cooldown;
    if NoRefusalAhead(s) {
      forall steps | Legal(p, tripped, steps) ensures Quiet(p, tripped, steps, until) {
        ShutRun(p, tripped, steps, until);
      }
    } else {
      var steps := Breach(p, tripped, until);
      assert Legal(p, tripped, steps) && !Quiet(p, tripped, steps, until);
    }
  }
}
