/** The accept/reject gate for `sendTransaction`, over runs of the cache and the tip. */
module Freshness {
  import opened ShortVec
  import opened Wrappers
  import opened BlockhashCache

  /** What the gate reads. Cache operations and tip updates come from any task. */
  datatype State = State(cache: Lru, tip: nat)

  datatype Event = Cache(op: Op) | TipSeen(slot: nat)

  function Next(st: State, cap: nat, e: Event): State {
    match e
    case Cache(op) => st.(cache := Step(st.cache, cap, op))
    case TipSeen(s) => st.(tip := Max(st.tip, s))
  }

  function After(st: State, cap: nat, events: seq<Event>): State
    decreases |events|
  {
    if events == [] then st else After(Next(st, cap, events[0]), cap, events[1..])
  }

  function SaturatingSub(a: nat, b: nat): nat { if a < b then 0 else a - b }

  /** A blockhash first seen at `seen` is too old at `tip`. */
  predicate TooOld(tip: nat, seen: nat, maxAge: nat) {
    SaturatingSub(tip, seen) > maxAge
  }

  /** The whole decision, as one uninterrupted step: whether the call is rejected and
      the cache left behind. `answer` is what the upstreams say of an unknown hash. */
  function Gate(st: State, cap: nat, maxAge: nat, k: Bytes, answer: Option<bool>): (bool, Lru) {
    match Peek(st.cache, k)
    case Some(seen) => (TooOld(st.tip, seen, maxAge), Touch(st.cache, k))
    case None =>
      if answer == Some(true) then (false, Step(st.cache, cap, Insert(k, st.tip)))
      else (true, st.cache)
  }

  /** The verdict a hit on `k` gets in `st`. */
  ghost predicate Rejects(st: State, k: Bytes, maxAge: nat)
    requires Has(st.cache, k)
  {
    TooOld(st.tip, Peek(st.cache, k).value, maxAge)
  }

  ghost predicate ValidState(st: State, cap: nat) {
    cap >= 1 && ValidLru(st.cache, cap)
  }

  /** `k` is resident before and after every event. */
  ghost predicate StaysResident(st: State, cap: nat, events: seq<Event>, k: Bytes)
    decreases |events|
  {
    Has(st.cache, k) && (events == [] || StaysResident(Next(st, cap, events[0]), cap, events[1..], k))
  }

  ghost predicate NeverInserted(events: seq<Event>, k: Bytes) {
    forall i :: 0 <= i < |events| ==> !(events[i].Cache? && events[i].op.Insert? && events[i].op.key == k)
  }

  lemma NextValid(st: State, cap: nat, e: Event)
    requires ValidState(st, cap)
    ensures ValidState(Next(st, cap, e), cap)
  {
    if e.Cache? {
      StepValid(st.cache, cap, e.op);
    }
  }

  /** One event can turn a rejection into an acceptance in one way only: an insert of
      that very hash with a slot recent enough. */
  lemma FlipsBackIff(st: State, cap: nat, e: Event, k: Bytes, maxAge: nat)
    requires ValidState(st, cap) && Has(st.cache, k) && Has(Next(st, cap, e).cache, k)
    requires Rejects(st, k, maxAge)
    ensures !Rejects(Next(st, cap, e), k, maxAge) <==>
            e.Cache? && e.op.Insert? && e.op.key == k && st.tip <= e.op.slot + maxAge
  {
    if e.Cache? {
      StepMap(st.cache, cap, e.op);
    }
  }

  /** While a hash stays resident and nobody inserts it again its slot is frozen, so
      one threshold decides every verdict of the run. */
  lemma {:induction false} FrozenSlot(st: State, cap: nat, events: seq<Event>, k: Bytes)
    requires ValidState(st, cap) && StaysResident(st, cap, events, k) && NeverInserted(events, k)
    ensures Peek(After(st, cap, events).cache, k) == Peek(st.cache, k)
    decreases |events|
  {
    if events != [] {
      var e := events[0];
      NextValid(st, cap, e);
      if e.Cache? {
        StepMap(st.cache, cap, e.op);
      }
      assert NeverInserted(events[1..], k) by {
        forall i | 0 <= i < |events[1..]|
          ensures !(events[1..][i].Cache? && events[1..][i].op.Insert? && events[1..][i].op.key == k)
        {
          assert events[1..][i] == events[i + 1];
        }
      }
      FrozenSlot(Next(st, cap, e), cap, events[1..], k);
    }
  }

  lemma {:induction false} AfterSplit(st: State, cap: nat, events: seq<Event>, i: nat)
    requires i <= |events|
    ensures After(st, cap, events) == After(After(st, cap, events[..i]), cap, events[i..])
    decreases i
  {
    if i == 0 {
      assert events[0..] == events;
    } else {
      AfterSplit(Next(st, cap, events[0]), cap, events[1..], i - 1);
      assert events[..i][1..] == events[1..][..i - 1];
      assert events[1..][i - 1..] == events[i..];
    }
  }

  lemma AfterConcat(st: State, cap: nat, a: seq<Event>, b: seq<Event>)
    ensures After(st, cap, a + b) == After(After(st, cap, a), cap, b)
  {
    AfterSplit(st, cap, a + b, |a|);
    assert (a + b)[..|a|] == a && (a + b)[|a|..] == b;
  }

  lemma {:induction false} StaysResidentPrefix(st: State, cap: nat, events: seq<Event>, k: Bytes, i: nat)
    requires StaysResident(st, cap, events, k) && i <= |events|
    ensures StaysResident(st, cap, events[..i], k)
    ensures StaysResident(After(st, cap, events[..i]), cap, events[i..], k)
    decreases i
  {
    if i == 0 {
      assert events[0..] == events && events[..0] == [];
    } else {
      var next, front := Next(st, cap, events[0]), events[..i];
      assert front[1..] == events[1..][..i - 1] && front[0] == events[0];
      assert events[1..][i - 1..] == events[i..];
      StaysResidentPrefix(next, cap, events[1..], k, i - 1);
      assert After(st, cap, front) == After(next, cap, front[1..]);
    }
  }

  ghost predicate RejectsAt(st: State, cap: nat, events: seq<Event>, k: Bytes, maxAge: nat, i: nat)
    requires i <= |events|
  {
    var s := After(st, cap, events[..i]);
    Has(s.cache, k) && Rejects(s, k, maxAge)
  }

  /** One threshold, the slot at the start, decides the verdict at every point. */
  lemma VerdictAt(st: State, cap: nat, events: seq<Event>, k: Bytes, maxAge: nat, j: nat)
    requires ValidState(st, cap) && StaysResident(st, cap, events, k) && NeverInserted(events, k)
    requires j <= |events|
    ensures RejectsAt(st, cap, events, k, maxAge, j) <==>
            TooOld(After(st, cap, events[..j]).tip, Peek(st.cache, k).value, maxAge)
  {
    StaysResidentPrefix(st, cap, events, k, j);
    FrozenSlot(st, cap, events[..j], k);
  }

  lemma {:induction false} TipNeverFalls(st: State, cap: nat, events: seq<Event>)
    ensures After(st, cap, events).tip >= st.tip
    decreases |events|
  {
    if events != [] {
      TipNeverFalls(Next(st, cap, events[0]), cap, events[1..]);
    }
  }

  /** The gate turns once and never back: while a hash stays resident and is not
      inserted again, a rejection at one point of a run is a rejection at every later one. */
  lemma OneWay(st: State, cap: nat, events: seq<Event>, k: Bytes, maxAge: nat, i: nat, j: nat)
    requires ValidState(st, cap) && StaysResident(st, cap, events, k) && NeverInserted(events, k)
    requires i <= j <= |events| && RejectsAt(st, cap, events, k, maxAge, i)
    ensures RejectsAt(st, cap, events, k, maxAge, j)
  {
    VerdictAt(st, cap, events, k, maxAge, i);
    VerdictAt(st, cap, events, k, maxAge, j);
    assert events[..j][..i] == events[..i];
    AfterSplit(st, cap, events[..j], i);
    TipNeverFalls(After(st, cap, events[..i]), cap, events[..j][i..]);
  }

  lemma {:induction false} SlotNeverFalls(st: State, cap: nat, events: seq<Event>, k: Bytes)
    requires ValidState(st, cap) && StaysResident(st, cap, events, k)
    ensures Has(After(st, cap, events).cache, k)
    ensures Peek(After(st, cap, events).cache, k).value >= Peek(st.cache, k).value
    decreases |events|
  {
    if events != [] {
      NextValid(st, cap, events[0]);
      if events[0].Cache? {
        StepMap(st.cache, cap, events[0].op);
      }
      SlotNeverFalls(Next(st, cap, events[0]), cap, events[1..], k);
    }
  }

  lemma {:induction false} AfterValid(st: State, cap: nat, events: seq<Event>)
    requires ValidState(st, cap)
    ensures ValidState(After(st, cap, events), cap)
    decreases |events|
  {
    if events != [] {
      NextValid(st, cap, events[0]);
      AfterValid(Next(st, cap, events[0]), cap, events[1..]);
    }
  }

  /** What a confirmed miss leaves: the tip was read in `st`, then `meanwhile` happened
      while the upstreams were asked, and the hash enters at the tip as it was read. */
  function Confirmed(st: State, cap: nat, k: Bytes, meanwhile: seq<Event>): State {
    var asked := After(st, cap, meanwhile);
    asked.(cache := Step(asked.cache, cap, Insert(k, st.tip)))
  }

  lemma ConfirmedSlot(st: State, cap: nat, k: Bytes, meanwhile: seq<Event>)
    requires ValidState(st, cap)
    ensures ValidState(Confirmed(st, cap, k, meanwhile), cap)
    ensures Peek(Confirmed(st, cap, k, meanwhile).cache, k) ==
            Some(Max(SlotOr0(After(st, cap, meanwhile).cache, k), st.tip))
  {
    AfterValid(st, cap, meanwhile);
    StepMap(After(st, cap, meanwhile).cache, cap, Insert(k, st.tip));
  }

  /** A miss that the upstreams confirm, the tip having been `T` when it was read, is
      accepted on every later hit for as long as the hash is resident and the tip is at
      most `T + maxAge`: whatever other tasks did to the tip and the cache while the
      upstreams were asked, and whoever inserts it since, with whatever slot. */
  lemma ConfirmedStaysAccepted(
    st: State, cap: nat, k: Bytes, maxAge: nat, meanwhile: seq<Event>, events: seq<Event>, answer: Option<bool>)
    requires ValidState(st, cap) && StaysResident(Confirmed(st, cap, k, meanwhile), cap, events, k)
    requires After(Confirmed(st, cap, k, meanwhile), cap, events).tip <= st.tip + maxAge
    ensures !Gate(After(Confirmed(st, cap, k, meanwhile), cap, events), cap, maxAge, k, answer).0
  {
    ConfirmedSlot(st, cap, k, meanwhile);
    SlotNeverFalls(Confirmed(st, cap, k, meanwhile), cap, events, k);
  }

  /** And exactly so long if nobody inserts it again: the larger of `T` and the slot some
      other task may have given it meanwhile decides every later verdict. */
  lemma ConfirmedRejectedIff(
    st: State, cap: nat, k: Bytes, maxAge: nat, meanwhile: seq<Event>, events: seq<Event>, answer: Option<bool>)
    requires ValidState(st, cap) && StaysResident(Confirmed(st, cap, k, meanwhile), cap, events, k)
    requires NeverInserted(events, k)
    ensures
      var later := After(Confirmed(st, cap, k, meanwhile), cap, events);
      Gate(later, cap, maxAge, k, answer).0 <==>
      later.tip > Max(SlotOr0(After(st, cap, meanwhile).cache, k), st.tip) + maxAge
  {
    ConfirmedSlot(st, cap, k, meanwhile);
    FrozenSlot(Confirmed(st, cap, k, meanwhile), cap, events, k);
  }
}
