/** One upstream: its circuit breaker and its concurrency permits.
    Instants are natural numbers of a monotone clock. */
module Circuit {
  import opened Wrappers

  datatype Circuit = Closed | Open(until: nat) | HalfOpen(probeInFlight: bool)

  /** What the circuit step of an admission says. */
  datatype Gate = Refuse | Pass(isProbe: bool)

  predicate Dropped(c: Circuit, now: nat) { c.Open? && now < c.until }

  function GateOf(c: Circuit, now: nat): Gate {
    match c
    case Closed => Pass(false)
    case Open(until) => if now < until then Refuse else Pass(true)
    case HalfOpen(inFlight) => if inFlight then Refuse else Pass(true)
  }

  function AfterGate(c: Circuit, now: nat): Circuit {
    if GateOf(c, now) == Pass(true) then HalfOpen(true) else c
  }

  /** Settling acts only on a probe in flight, whoever's it is. */
  function AfterSettle(c: Circuit, success: bool, now: nat, cooldown: nat): Circuit {
    if c != HalfOpen(true) then c else if success then Closed else Open(now + cooldown)
  }

  // ---------- an admission nobody interrupts ----------

  function Admitted(c: Circuit, available: nat, now: nat): Option<bool> {
    match GateOf(c, now)
    case Refuse => None
    case Pass(isProbe) => if available > 0 then Some(isProbe) else None
  }

  /** A refusal for want of a permit hands the probe slot back. */
  function AfterAdmit(c: Circuit, available: nat, now: nat): Circuit {
    if GateOf(c, now) == Pass(true) && available == 0 then HalfOpen(false) else AfterGate(c, now)
  }

  /** An admission is refused exactly by an unexpired Open, a probe in flight or a lack
      of permits; a refusal changes nothing except that an expired Open without permits
      becomes HalfOpen with the probe slot free. */
  lemma RefusalIff(c: Circuit, available: nat, now: nat)
    ensures Admitted(c, available, now) == None <==>
            Dropped(c, now) || c == HalfOpen(true) || available == 0
    ensures Admitted(c, available, now) == None ==>
            AfterAdmit(c, available, now) ==
            if c.Open? && !Dropped(c, now) then HalfOpen(false) else c
  {}

  lemma RefusalRepeats(c: Circuit, available: nat, now: nat)
    requires Admitted(c, available, now) == None
    ensures Admitted(AfterAdmit(c, available, now), available, now) == None
  {}

  datatype ProbeEvent = Granted | SettledWith(success: bool)

  class Upstream {
    const name: string
    const cap: nat
    var lastSlot: nat
    var circuit: Circuit
    var available: nat
    /** Probes granted and settled through this interface, in order. */
    ghost var probeLog: seq<ProbeEvent>
    /** Permits taken and not yet dropped through this interface. */
    ghost var held: nat

    constructor (name: string, maxConcurrent: nat)
      ensures this.name == name && cap == maxConcurrent && lastSlot == 0
      ensures circuit == Closed && available == maxConcurrent && probeLog == [] && held == 0
    {
      this.name, cap, lastSlot := name, maxConcurrent, 0;
      circuit, available, probeLog, held := Closed, maxConcurrent, [], 0;
    }

    /** Hidden from selection: the circuit is open and its cooldown not over. */
    function IsDropped(now: nat): (dropped: bool)
      reads this`circuit
      ensures dropped <==> Dropped(circuit, now)
    {
      match circuit
      case Open(until) => now < until
      case _ => false
    }

    /** The clock is read before the lock is taken: `stamp` may be in the past. */
    method Trip(stamp: nat, cooldown: nat)
      modifies this`circuit
      ensures circuit == Open(stamp + cooldown)
    {
      circuit := Open(stamp + cooldown);
    }

    /** First step of an admission, under the circuit's lock. */
    method PassCircuit(now: nat) returns (g: Gate)
      modifies this`circuit
      ensures g == GateOf(old(circuit), now) && circuit == AfterGate(old(circuit), now)
    {
      match circuit {
        case Closed =>
          g := Pass(false);
        case Open(until) =>
          if now < until {
            return Refuse;
          }
          circuit := HalfOpen(true);
          g := Pass(true);
        case HalfOpen(inFlight) =>
          if inFlight {
            return Refuse;
          }
          circuit := HalfOpen(true);
          g := Pass(true);
      }
    }

    method TryAcquire() returns (ok: bool)
      modifies this`available
      ensures ok <==> old(available) > 0
      ensures available == if ok then old(available) - 1 else old(available)
    {
      ok := available > 0;
      if ok {
        available := available - 1;
      }
    }

    /** The three steps of an admission with nothing in between. */
    method TryAdmit(now: nat) returns (r: Option<bool>)
      modifies this`circuit, this`available, this`probeLog, this`held
      ensures r == Admitted(old(circuit), old(available), now)
      ensures circuit == AfterAdmit(old(circuit), old(available), now)
      ensures available == if r.Some? then old(available) - 1 else old(available)
      ensures probeLog == if r == Some(true) then old(probeLog) + [Granted] else old(probeLog)
      ensures held == if r.Some? then old(held) + 1 else old(held)
    {
      var g := PassCircuit(now);
      if g == Refuse {
        return None;
      }
      var ok := TryAcquire();
      if ok {
        held := held + 1;
        if g.isProbe {
          probeLog := probeLog + [Granted];
        }
        return Some(g.isProbe);
      }
      if g.isProbe {
        circuit := HalfOpen(false);
      }
      return None;
    }

    method SettleProbe(success: bool, now: nat, cooldown: nat)
      modifies this`circuit, this`probeLog
      ensures circuit == AfterSettle(old(circuit), success, now, cooldown)
      ensures probeLog == old(probeLog) + [SettledWith(success)]
    {
      if circuit == HalfOpen(true) {
        circuit := if success then Closed else Open(now + cooldown);
      }
      probeLog := probeLog + [SettledWith(success)];
    }

    /** Dropping a permit. */
    method Release()
      requires held > 0
      modifies this`available, this`held
      ensures available == old(available) + 1 && held == old(held) - 1
    {
      available, held := available + 1, held - 1;
    }
  }
}
