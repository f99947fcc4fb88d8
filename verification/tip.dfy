/** The global tip slot, raised by a compare-exchange loop from any number of monitors.
    Loads may be stale: one sees some value the cell has held, and a monitor never sees
    a value older than one it has already seen. */
module Tip {
  datatype Pc =
    | Idle
    | Stored(slot: nat)                 // slot reported, tip not loaded yet
    | Looping(slot: nat, seen: nat)     // at the loop test, holding the tip last seen

  datatype State = State(tip: nat, monitors: seq<Pc>, reported: seq<nat>)

  datatype Step =
    | Report(i: nat, slot: nat)
    | Load(i: nat, seen: nat)
    | Exit(i: nat)                      // the loop test fails
    | Swap(i: nat)                      // compare_exchange succeeds
    | Fail(i: nat, seen: nat)           // compare_exchange fails and returns `seen`

  function Init(n: nat): State { State(0, seq(n, _ => Idle), []) }

  predicate Enabled(s: State, st: Step) {
    st.i < |s.monitors| &&
    var pc := s.monitors[st.i];
    match st
    case Report(_, _) => pc.Idle?
    case Load(_, seen) => pc.Stored? && seen <= s.tip
    case Exit(_) => pc.Looping? && pc.slot <= pc.seen
    case Swap(_) => pc.Looping? && pc.slot > pc.seen && s.tip == pc.seen
    case Fail(_, seen) => pc.Looping? && pc.slot > pc.seen && s.tip != pc.seen && pc.seen < seen <= s.tip
  }

  function Apply(s: State, st: Step): State
    requires Enabled(s, st)
  {
    var pc := s.monitors[st.i];
    match st
    case Report(i, slot) => s.(monitors := s.monitors[i := Stored(slot)], reported := s.reported + [slot])
    case Load(i, seen) => s.(monitors := s.monitors[i := Looping(pc.slot, seen)])
    case Exit(i) => s.(monitors := s.monitors[i := Idle])
    case Swap(i) => s.(tip := pc.slot, monitors := s.monitors[i := Idle])
    case Fail(i, seen) => s.(monitors := s.monitors[i := Looping(pc.slot, seen)])
  }

  predicate Legal(s: State, steps: seq<Step>)
    decreases |steps|
  {
    steps == [] || (Enabled(s, steps[0]) && Legal(Apply(s, steps[0]), steps[1..]))
  }

  function Exec(s: State, steps: seq<Step>): State
    requires Legal(s, steps)
    decreases |steps|
  {
    if steps == [] then s else Exec(Apply(s, steps[0]), steps[1..])
  }

  /** A monitor still owes the tip its slot. */
  ghost predicate Pending(s: State, slot: nat) {
    exists i :: 0 <= i < |s.monitors| && !s.monitors[i].Idle? && s.monitors[i].slot == slot
  }

  ghost predicate Inv(s: State) {
    && (s.tip == 0 || s.tip in s.reported)
    && (forall i :: 0 <= i < |s.monitors| && !s.monitors[i].Idle? ==> s.monitors[i].slot in s.reported)
    && (forall i :: 0 <= i < |s.monitors| && s.monitors[i].Looping? ==> s.monitors[i].seen <= s.tip)
    && (forall r :: r in s.reported ==> r <= s.tip || Pending(s, r))
  }

  lemma StillOwed(s: State, st: Step, r: nat)
    requires Enabled(s, st) && Pending(s, r)
    requires forall i :: 0 <= i < |s.monitors| && s.monitors[i].Looping? ==> s.monitors[i].seen <= s.tip
    ensures r <= Apply(s, st).tip || Pending(Apply(s, st), r)
  {
    var s' := Apply(s, st);
    var i :| 0 <= i < |s.monitors| && !s.monitors[i].Idle? && s.monitors[i].slot == r;
    if i != st.i {
      assert s'.monitors[i] == s.monitors[i];
    } else if st.Load? || st.Fail? {
      assert s'.monitors[i] == Looping(r, st.seen);
    }
  }

  lemma StepInv(s: State, st: Step)
    requires Inv(s) && Enabled(s, st)
    ensures Inv(Apply(s, st)) && Apply(s, st).tip >= s.tip
  {
    var s' := Apply(s, st);
    assert forall i :: 0 <= i < |s.monitors| && i != st.i ==> s'.monitors[i] == s.monitors[i];
    forall r | r in s'.reported ensures r <= s'.tip || Pending(s', r) {
      if r in s.reported && r > s.tip {
        StillOwed(s, st, r);
      } else if st.Report? && r == st.slot {
        assert s'.monitors[st.i] == Stored(r);
      }
    }
  }

  lemma {:induction false} RunInv(s: State, steps: seq<Step>)
    requires Inv(s) && Legal(s, steps)
    ensures Inv(Exec(s, steps)) && Exec(s, steps).tip >= s.tip
    decreases |steps|
  {
    if steps != [] {
      StepInv(s, steps[0]);
      RunInv(Apply(s, steps[0]), steps[1..]);
    }
  }

  function Maximum(xs: seq<nat>): (m: nat)
    ensures forall x :: x in xs ==> x <= m
    ensures m == 0 || m in xs
  {
    if xs == [] then 0
    else
      var m := Maximum(xs[..|xs| - 1]);
      assert xs == xs[..|xs| - 1] + [xs[|xs| - 1]];
      if m < xs[|xs| - 1] then xs[|xs| - 1] else m
  }

  /** Over every interleaving the tip never falls and is 0 or a slot that was reported;
      it falls short of a reported slot only while the monitor that reported it is still
      in its loop; a monitor that leaves, either way, leaves it at least at its slot; and
      with every monitor out of its loop it is the maximum of all slots ever reported. */
  lemma TipIsMaximum(n: nat, steps: seq<Step>, more: seq<Step>)
    requires Legal(Init(n), steps) && Legal(Exec(Init(n), steps), more)
    ensures
      var s := Exec(Init(n), steps);
      && Exec(s, more).tip >= s.tip
      && (s.tip == 0 || s.tip in s.reported)
      && (forall r :: r in s.reported ==> r <= s.tip || Pending(s, r))
      && (forall st :: Enabled(s, st) && (st.Exit? || st.Swap?) ==> Apply(s, st).tip >= s.monitors[st.i].slot)
      && ((forall i :: 0 <= i < |s.monitors| ==> s.monitors[i].Idle?) ==> s.tip == Maximum(s.reported))
  {
    var s := Exec(Init(n), steps);
    assert Inv(Init(n));
    RunInv(Init(n), steps);
    RunInv(s, more);
    if forall i :: 0 <= i < |s.monitors| ==> s.monitors[i].Idle? {
      assert forall r :: r in s.reported ==> r <= s.tip;
    }
  }

  // ---------- termination ----------

  /** Turns of its loop a monitor can still take. */
  function Gap(pc: Pc): nat {
    if pc.Looping? && pc.slot > pc.seen then pc.slot - pc.seen else 0
  }

  function FailuresOf(steps: seq<Step>, i: nat): nat {
    if steps == [] then 0 else (if steps[0].Fail? && steps[0].i == i then 1 else 0) + FailuresOf(steps[1..], i)
  }

  /** Each failed exchange strictly shrinks the gap, so in any run in which a monitor
      stays in one loop, it fails at most as often as its gap was wide. */
  lemma {:induction false} LoopTerminates(s: State, steps: seq<Step>, i: nat)
    requires Legal(s, steps) && i < |s.monitors| && s.monitors[i].Looping?
    requires forall k :: 0 <= k < |steps| && steps[k].i == i ==> steps[k].Fail?
    ensures |Exec(s, steps).monitors| == |s.monitors|
    ensures FailuresOf(steps, i) + Gap(Exec(s, steps).monitors[i]) <= Gap(s.monitors[i])
    decreases |steps|
  {
    if steps != [] {
      assert forall k :: 0 <= k < |steps[1..]| ==> steps[1..][k] == steps[k + 1];
      LoopTerminates(Apply(s, steps[0]), steps[1..], i);
    }
  }

  // ---------- the loop itself ----------

  class TipCell {
    var slot: nat

    constructor ()
      ensures slot == 0
    {
      slot := 0;
    }

    /** Other monitors, at any point between two atomic operations of this one. */
    method Interfere(raiseTo: nat)
      modifies this
      ensures slot == if raiseTo > old(slot) then raiseTo else old(slot)
    {
      if raiseTo > slot {
        slot := raiseTo;
      }
    }

    method CompareExchange(expected: nat, new_: nat) returns (ok: bool, current: nat)
      modifies this
      ensures current == old(slot) && (ok <==> old(slot) == expected)
      ensures slot == if ok then new_ else old(slot)
    {
      current := slot;
      ok := current == expected;
      if ok {
        slot := new_;
      }
    }

    /** `others` says how far the rest of the program has pushed the tip by each turn. */
    method Advance(s: nat, others: nat -> nat)
      modifies this
      ensures slot >= s && slot >= old(slot)
      ensures slot == old(slot) || slot == s || exists k :: slot == others(k)
      ensures (forall k :: others(k) <= old(slot)) ==> slot == if s > old(slot) then s else old(slot)
    {
      var tip := slot;
      var turn := 0;
      while s > tip
        invariant old(slot) <= tip <= slot
        invariant slot == old(slot) || exists k :: slot == others(k)
        invariant (forall k :: others(k) <= old(slot)) ==> tip == slot == old(slot)
        decreases s - tip
      {
        Interfere(others(turn));
        var ok, current := CompareExchange(tip, s);
        if ok {
          break;
        }
        tip := current;
        turn := turn + 1;
      }
    }
  }
}
