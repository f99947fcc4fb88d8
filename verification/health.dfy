/** One round of an upstream's health monitor. */
module Health {
  import opened BlockhashCache
  import opened Circuit
  import opened Pool
  import opened ShortVec
  import opened Stats
  import opened Window
  import opened Wrappers

  /** What `getLatestBlockhash` answered: the hash and, if present, its context slot. */
  datatype HashReply = HashReply(hash: Bytes, slot: Option<nat>)

  /** Record the poll; the statistics stay those of a valid pool. */
  method RecordPoll(pool: UpstreamPool, name: string, m: string, latency: real, ok: bool, now: nat)
    requires pool.Valid() && latency >= 0.0
    modifies pool.stats
    ensures pool.Valid()
    ensures pool.stats.history == old(pool.stats.history) + [Rec(name, m, latency, ok, now)]
  {
    pool.stats.Record(name, m, latency, ok, now);
  }

  /** The breaker trips on the failure rate of what this upstream's deque retains; if its
      own outcomes are in order, that is the rate of its last window. */
  method CheckBreaker(pool: UpstreamPool, u: Upstream, checkedAt: nat, stampedAt: nat) returns (tripped: bool)
    requires pool.Valid()
    modifies u`circuit
    ensures u.circuit == if tripped then Open(stampedAt + pool.config.cooldown) else old(u.circuit)
    ensures tripped <==> Trips(pool, u.name, old(u.circuit), checkedAt)
    ensures InOrder(Outcomes(pool.stats.history, u.name)) ==>
              (tripped <==>
               && RecentRate(pool.stats.window, pool.stats.history, u.name) > pool.config.errorThreshold
               && !Dropped(old(u.circuit), checkedAt))
  {
    ghost var h := pool.stats.history;
    if InOrder(Outcomes(h, u.name)) {
      ErrorRateIsRecentFraction(pool.stats.window, h, u.name);
    }
    pool.stats.ErrorRateIs(u.name);
    var errRate := pool.stats.ErrorRate(u.name);
    tripped := errRate > pool.config.errorThreshold && !u.IsDropped(checkedAt);
    if tripped {
      u.Trip(stampedAt, pool.config.cooldown);
    }
  }

  /** Of the records of the upstream that its deque retains, too many failed, and its
      circuit is not open with its cooldown still to run. */
  ghost predicate Trips(pool: UpstreamPool, name: string, c: Circuit, now: nat)
    reads pool.stats
  {
    var rs := RetainedRecords(pool.stats.window, pool.stats.history, name);
    && rs != [] && Failed(rs) as real / |rs| as real > pool.config.errorThreshold
    && !(c.Open? && now < c.until)
  }

  /** Poll results in, tip and breaker updated, cache seeded. `others` is how far the
      other monitors push the tip meanwhile. */
  method MonitorRound(
    pool: UpstreamPool, u: Upstream, cache: BlockhashCache,
    slot: Option<nat>, latency: real, recordedAt: nat, checkedAt: nat, stampedAt: nat,
    others: nat -> nat, reply: Option<HashReply>)
    returns (tripped: bool)
    requires pool.Valid() && u in pool.upstreams && cache.Valid() && latency >= 0.0
    modifies pool.stats, pool.tip, u`lastSlot, u`circuit, cache`entries
    ensures pool.Valid() && cache.Valid()
    ensures pool.stats.history == old(pool.stats.history) + [Rec(u.name, "getSlot", latency, slot.Some?, recordedAt)]
    ensures u.lastSlot == if slot.Some? then slot.value else old(u.lastSlot)
    ensures pool.tip.slot >= old(pool.tip.slot)
    ensures slot == None ==> pool.tip.slot == old(pool.tip.slot)
    ensures slot.Some? ==>
              && pool.tip.slot >= slot.value
              && (pool.tip.slot == old(pool.tip.slot) || pool.tip.slot == slot.value
                  || exists k :: pool.tip.slot == others(k))
              && ((forall k :: others(k) <= old(pool.tip.slot)) ==>
                    pool.tip.slot == if slot.value > old(pool.tip.slot) then slot.value else old(pool.tip.slot))
    ensures u.circuit == if tripped then Open(stampedAt + pool.config.cooldown) else old(u.circuit)
    ensures tripped <==> Trips(pool, u.name, old(u.circuit), checkedAt)
    ensures cache.entries == if reply == None then old(cache.entries)
                             else Step(old(cache.entries), cache.cap, Insert(reply.value.hash,
                               if reply.value.slot.Some? then reply.value.slot.value else u.lastSlot))
  {
    if slot.Some? {
      u.lastSlot := slot.value;
    }
    RecordPoll(pool, u.name, "getSlot", latency, slot.Some?, recordedAt);
    if slot.Some? {
      pool.tip.Advance(slot.value, others);
    }
    tripped := CheckBreaker(pool, u, checkedAt, stampedAt);
    if reply.Some? {
      var ctxSlot := if reply.value.slot.Some? then reply.value.slot.value else u.lastSlot;
      cache.InsertSlot(reply.value.hash, ctxSlot);
    }
  }
}
