/** Request handling: the retry loop around selection, the bookkeeping of one attempt,
    and the freshness check. Responses, clock readings and what other tasks do
    while this one is suspended are parameters. */
module Rpc {
  import opened BlockhashCache
  import opened Circuit
  import opened Freshness
  import opened Metrics
  import opened Pool
  import opened Selection
  import opened ShortVec
  import opened Stats
  import opened Transaction
  import opened Wrappers

  type Duration = d: real | d >= 0.0 witness 0.0

  const GET_LATEST_BLOCKHASH := "getLatestBlockhash"

  datatype ErrorCode =
    | UpstreamTimeout | UpstreamUnreachable | Internal | ResponseTooLarge | UpstreamBadResponse | AllUpstreamsExhausted

  /** A JSON-RPC error: one of this proxy's own, or the body an upstream sent. */
  datatype ErrorValue = Own(code: ErrorCode) | Upstreams(body: Bytes)

  /** A blockhash found in a response, and its context slot if it carried one. */
  datatype Harvest = Harvest(hash: Bytes, slot: Option<nat>)

  datatype Reply =
    | SendFailed(code: ErrorCode)
    | TooLarge
    | ReadFailed
    | Body(body: Bytes, statusOk: bool, hasErrorField: bool, isJson: bool, harvest: Option<Harvest>)

  datatype Exchange = Exchange(reply: Reply, latency: Duration, doneAt: nat)

  datatype AttemptOutcome = Succeeded(body: Bytes) | Failed(error: ErrorValue)

  datatype ForwardResult =
    | Forwarded(body: Bytes, upstream: string)
    | Rejected(error: ErrorValue, lastUpstream: Option<string>)

  /** One attempt of a request, as it went. */
  datatype Attempt = Attempt(upstream: string, isProbe: bool, outcome: AttemptOutcome, latency: Duration)

  function OutcomeOf(r: Reply): AttemptOutcome {
    match r
    case SendFailed(code) => Failed(Own(code))
    case TooLarge => Failed(Own(ResponseTooLarge))
    case ReadFailed => Failed(Own(UpstreamBadResponse))
    case Body(body, statusOk, hasErrorField, isJson, _) =>
      if statusOk && !hasErrorField then Succeeded(body)
      else if isJson then Failed(Upstreams(body)) else Failed(Own(UpstreamBadResponse))
  }

  /** What an attempt comes to. It succeeds exactly on a response with a good status and
      no JSON-RPC error, and hands its body on; a failure carries the reason, and what an
      upstream said in JSON is handed on as its own words. */
  ghost predicate Fits(o: AttemptOutcome, r: Reply) {
    && (o.Succeeded? <==> r.Body? && r.statusOk && !r.hasErrorField)
    && (o.Succeeded? ==> o.body == r.body)
    && (r.SendFailed? ==> o == Failed(Own(r.code)))
    && (r.TooLarge? ==> o == Failed(Own(ResponseTooLarge)))
    && (r.ReadFailed? ==> o == Failed(Own(UpstreamBadResponse)))
    && (r.Body? && o.Failed? ==> o.error == if r.isJson then Upstreams(r.body) else Own(UpstreamBadResponse))
  }

  /** And nothing else does. */
  lemma OutcomeIs(r: Reply, o: AttemptOutcome)
    ensures Fits(o, r) <==> o == OutcomeOf(r)
  {}

  // ---------- other tasks ----------

  /** What another task or a monitor can do to one upstream. */
  datatype Act =
    | TryAdmit(now: nat)
    | SettleAs(success: bool, now: nat)
    | GiveBack
    | TripAt(stamp: nat)
    | ReportSlot(slot: nat)

  /** One action of some other task or of a monitor. */
  datatype OtherStep =
    | OnUpstream(i: nat, act: Act)
    | OnStats(name: string, m: string, latency: Duration, ok: bool, now: nat)
    | OnTip(slot: nat)
    | OnLeader(m: string, name: string)
    | OnCache(op: Op)

  /** The semaphore never lends more than its cap, this task's permits included. */
  ghost predicate WithinCap(pool: UpstreamPool)
    reads pool.upstreams
  {
    forall u :: u in pool.upstreams ==> u.available + u.held <= u.cap
  }

  /** Nothing that belongs to this task has changed. */
  twostate predicate MineUntouched(pool: UpstreamPool)
    reads pool.upstreams
  {
    forall u :: u in pool.upstreams ==> u.held == old(u.held) && u.probeLog == old(u.probeLog)
  }

  /** Another task can give back only a permit of its own: one that is out and is not
      this task's, of which `u` has lent `mine`. */
  method ActOn(u: Upstream, act: Act, mine: nat, cooldown: nat)
    requires u.available + u.held <= u.cap && mine == u.held
    modifies u`circuit, u`available, u`lastSlot
    ensures u.available + u.held <= u.cap
  {
    match act {
      case TryAdmit(now) =>
        var g := u.PassCircuit(now);
        if g.Pass? {
          var ok := u.TryAcquire();
          if !ok && g.isProbe {
            u.circuit := HalfOpen(false);
          }
        }
      case SettleAs(success, now) =>
        u.circuit := AfterSettle(u.circuit, success, now, cooldown);
      case GiveBack =>
        if u.available + mine < u.cap {
          u.available := u.available + 1;
        }
      case TripAt(stamp) =>
        u.Trip(stamp, cooldown);
      case ReportSlot(slot) =>
        u.lastSlot := slot;
    }
  }

  /** `holds` is the one upstream this task holds a permit of. */
  method OneOther(pool: UpstreamPool, cache: BlockhashCache, holds: Upstream, st: OtherStep)
    requires pool.Valid() && cache.Valid() && WithinCap(pool)
    requires forall u :: u in pool.upstreams ==> u.held == if u == holds then 1 else 0
    modifies pool`currentLeader, pool.upstreams, pool.stats, pool.tip, cache`entries
    ensures pool.Valid() && cache.Valid() && WithinCap(pool) && MineUntouched(pool)
  {
    match st {
      case OnUpstream(i, act) =>
        if i < |pool.upstreams| {
          var u := pool.upstreams[i];
          ActOn(u, act, if u == holds then 1 else 0, pool.config.cooldown);
        }
      case OnStats(name, m, latency, ok, now) =>
        pool.stats.Record(name, m, latency, ok, now);
      case OnTip(slot) =>
        pool.tip.Interfere(slot);
      case OnLeader(m, name) =>
        pool.currentLeader := pool.currentLeader[m := name];
      case OnCache(op) =>
        StepValid(cache.entries, cache.cap, op);
        cache.entries := Step(cache.entries, cache.cap, op);
    }
  }

  /** Suspended: any number of other tasks' actions happen. */
  method Await(pool: UpstreamPool, cache: BlockhashCache, holds: Upstream, meanwhile: seq<OtherStep>)
    requires pool.Valid() && cache.Valid() && WithinCap(pool)
    requires forall u :: u in pool.upstreams ==> u.held == if u == holds then 1 else 0
    modifies pool`currentLeader, pool.upstreams, pool.stats, pool.tip, cache`entries
    ensures pool.Valid() && cache.Valid() && WithinCap(pool) && MineUntouched(pool)
  {
    for k := 0 to |meanwhile|
      invariant pool.Valid() && cache.Valid() && WithinCap(pool) && MineUntouched(pool)
    {
      OneOther(pool, cache, holds, meanwhile[k]);
    }
  }

  // ---------- what an attempt log means ----------

  /** The probe traffic of a log on one upstream: each probe granted is settled, once,
      with the outcome of its own attempt. */
  function ProbeTraffic(log: seq<Attempt>, name: string): seq<ProbeEvent> {
    if log == [] then []
    else
      var before, a := ProbeTraffic(log[..|log| - 1], name), log[|log| - 1];
      if a.upstream == name then before + EventsOf(a) else before
  }

  function EventsOf(a: Attempt): seq<ProbeEvent> {
    if a.isProbe then [Granted, SettledWith(a.outcome.Succeeded?)] else []
  }

  function Decisions(counts: map<Key, nat>, log: seq<Attempt>, m: string): map<Key, nat> {
    if log == [] then counts
    else Add(Decisions(counts, log[..|log| - 1], m), (log[|log| - 1].upstream, m), 1)
  }

  function StatusOf(o: AttemptOutcome): string { if o.Succeeded? then "ok" else "error" }

  function Requests(counts: map<StatusKey, nat>, log: seq<Attempt>, m: string): map<StatusKey, nat> {
    if log == [] then counts
    else
      var a := log[|log| - 1];
      Add(Requests(counts, log[..|log| - 1], m), (a.upstream, m, StatusOf(a.outcome)), 1)
  }

  ghost predicate AllFailed(log: seq<Attempt>) {
    forall i :: 0 <= i < |log| ==> log[i].outcome.Failed?
  }

  ghost predicate DistinctUpstreams(log: seq<Attempt>) {
    forall i, j :: 0 <= i < j < |log| ==> log[i].upstream != log[j].upstream
  }

  ghost predicate Named(a: Attempt, us: seq<Upstream>) {
    exists u :: u in us && u.name == a.upstream
  }

  ghost predicate FromNames(log: seq<Attempt>, us: seq<Upstream>) {
    forall i :: 0 <= i < |log| ==> Named(log[i], us)
  }

  function UpstreamsOf(log: seq<Attempt>): (names: seq<string>)
    ensures |names| == |log|
  {
    seq(|log|, i requires 0 <= i < |log| => log[i].upstream)
  }

  // ---------- pigeonhole ----------

  lemma {:induction false} NameSetSize(us: seq<Upstream>)
    ensures |NameSet(us)| <= |us|
  {
    if us != [] {
      var n := |us| - 1;
      NameSetSize(us[..n]);
      assert NameSet(us) <= NameSet(us[..n]) + {us[n].name} by {
        forall x | x in NameSet(us) ensures x in NameSet(us[..n]) + {us[n].name} {
          var i :| 0 <= i < |us| && us[i].name == x;
          assert i < n ==> us[..n][i] == us[i];
        }
      }
      SubsetSize(NameSet(us), NameSet(us[..n]) + {us[n].name});
    }
  }

  lemma {:induction false} SubsetSize<T>(a: set<T>, b: set<T>)
    requires a <= b
    ensures |a| <= |b|
  {
    if a != {} {
      var x :| x in a;
      SubsetSize(a - {x}, b - {x});
    }
  }

  lemma {:induction false} DistinctFit(log: seq<Attempt>, names: set<string>)
    requires DistinctUpstreams(log) && forall i :: 0 <= i < |log| ==> log[i].upstream in names
    ensures |log| <= |names|
  {
    if log != [] {
      var n := |log| - 1;
      DistinctFit(log[..n], names - {log[n].upstream});
    }
  }

  lemma AttemptsFitPool(log: seq<Attempt>, us: seq<Upstream>)
    requires DistinctUpstreams(log) && FromNames(log, us)
    ensures |log| <= |us|
  {
    forall i | 0 <= i < |log| ensures log[i].upstream in NameSet(us) {
      assert Named(log[i], us);
      var u :| u in us && u.name == log[i].upstream;
      var j :| 0 <= j < |us| && us[j] == u;
    }
    DistinctFit(log, NameSet(us));
    NameSetSize(us);
  }

  class Proxy {
    const pool: UpstreamPool
    const cache: BlockhashCache
    const metrics: Metrics

    ghost predicate Valid()
      reads pool.stats, pool.upstreams, cache
    {
      pool.Valid() && cache.Valid() && WithinCap(pool)
    }

    constructor (pool: UpstreamPool, cache: BlockhashCache, metrics: Metrics)
      ensures this.pool == pool && this.cache == cache && this.metrics == metrics
    {
      this.pool, this.cache, this.metrics := pool, cache, metrics;
    }

    /** The bookkeeping of one attempt once its response is in. */
    method Settle(u: Upstream, m: string, x: Exchange) returns (outcome: AttemptOutcome)
      requires pool.Valid() && cache.Valid()
      modifies pool.stats, cache`entries
      modifies metrics`requests, metrics`durationBuckets, metrics`durationSum, metrics`durationCount
      ensures pool.Valid() && cache.Valid()
      ensures outcome == OutcomeOf(x.reply)
      ensures outcome.Succeeded? <==> x.reply.Body? && x.reply.statusOk && !x.reply.hasErrorField
      ensures Fits(outcome, x.reply)
      ensures pool.stats.history == old(pool.stats.history) + [Rec(u.name, m, x.latency, outcome.Succeeded?, x.doneAt)]
      ensures metrics.requests ==
              Add(old(metrics.requests), (u.name, m, if outcome.Succeeded? then "ok" else "error"), 1)
      ensures metrics.durationBuckets ==
              old(metrics.durationBuckets)[(u.name, m) :=
                Observed(BucketsOf(old(metrics.durationBuckets), (u.name, m)), x.latency)]
      ensures metrics.durationSum == Add(old(metrics.durationSum), (u.name, m), Millis(x.latency))
      ensures metrics.durationCount == Add(old(metrics.durationCount), (u.name, m), 1)
      ensures cache.entries ==
              if outcome.Succeeded? && m == "getLatestBlockhash" && x.reply.harvest.Some?
              then Step(old(cache.entries), cache.cap, Insert(x.reply.harvest.value.hash,
                     if x.reply.harvest.value.slot.Some? then x.reply.harvest.value.slot.value else pool.tip.slot))
              else old(cache.entries)
    {
      outcome := OutcomeOf(x.reply);
      OutcomeIs(x.reply, outcome);
      pool.stats.Record(u.name, m, x.latency, outcome.Succeeded?, x.doneAt);
      metrics.RecordRequest(u.name, m, StatusOf(outcome), x.latency);
      if outcome.Succeeded? && m == GET_LATEST_BLOCKHASH && x.reply.harvest.Some? {
        Remember(x.reply.harvest.value);
      }
    }

    /** A blockhash an upstream has just issued; without a slot of its own it is as new
        as the tip. */
    method Remember(h: Harvest)
      requires cache.Valid()
      modifies cache`entries
      ensures cache.Valid()
      ensures cache.entries == Step(old(cache.entries), cache.cap,
                                    Insert(h.hash, if h.slot.Some? then h.slot.value else pool.tip.slot))
    {
      var slot := if h.slot.Some? then h.slot.value else pool.tip.slot;
      cache.InsertSlot(h.hash, slot);
    }

    /** What other tasks do to the cache and the tip while upstreams are being asked. */
    method AwaitAnswer(meanwhile: seq<Event>)
      requires cache.Valid()
      modifies cache`entries, pool.tip
      ensures cache.Valid()
      ensures State(cache.entries, pool.tip.slot) ==
              After(old(State(cache.entries, pool.tip.slot)), cache.cap, meanwhile)
    {
      ghost var st := State(cache.entries, pool.tip.slot);
      assert meanwhile[..0] == [];
      for k := 0 to |meanwhile|
        invariant cache.Valid()
        invariant State(cache.entries, pool.tip.slot) == After(st, cache.cap, meanwhile[..k])
      {
        AfterSplit(st, cache.cap, meanwhile[..k + 1], k);
        assert meanwhile[..k + 1][..k] == meanwhile[..k] && meanwhile[..k + 1][k..] == [meanwhile[k]];
        assert [meanwhile[k]][1..] == [];
        match meanwhile[k] {
          case Cache(op) =>
            StepValid(cache.entries, cache.cap, op);
            cache.entries := Step(cache.entries, cache.cap, op);
          case TipSeen(slot) =>
            pool.tip.Interfere(slot);
        }
      }
      assert meanwhile[..|meanwhile|] == meanwhile;
    }

    /** The freshness check before a `sendTransaction`. What cannot be decoded, and
        everything before the cache has warmed up, is let through. `between` is what other
        tasks do after the tip is read and before the cache is, `meanwhile` what they do
        while the upstreams are asked, and `answer` what those say of an unknown hash. */
    method CheckBlockhashFreshness(
      txBytes: Option<Bytes>, now: nat, answer: Option<bool>, between: seq<Event>, meanwhile: seq<Event>)
      returns (reject: bool)
      requires cache.Valid() && cache.createdAt <= now
      modifies cache`entries, pool.tip, metrics`blockhashRejections
      ensures cache.Valid()
      ensures metrics.blockhashRejections == old(metrics.blockhashRejections) + (if reject then 1 else 0)
      ensures
        var before := old(State(cache.entries, pool.tip.slot));
        var hash := if txBytes == None || now < cache.createdAt + 1000 * cache.warmupSecs then None
                    else Extracted(txBytes.value);
        match hash
        case None => !reject && State(cache.entries, pool.tip.slot) == before
        case Some(k) =>
          Checked(before, cache.cap, pool.config.maxBlockhashAge, k, answer, between, meanwhile,
                  reject, State(cache.entries, pool.tip.slot))
    {
      var warm := cache.IsWarmedUp(now);
      if !warm || txBytes == None {
        return false;
      }
      var bh := ExtractBlockhash(txBytes.value);
      if bh == None {
        return false;
      }
      var tip := pool.tip.slot;
      AwaitAnswer(between);
      var seen := cache.GetSlot(bh.value);
      if seen.Some? {
        reject := TooOld(tip, seen.value, pool.config.maxBlockhashAge);
      } else {
        AwaitAnswer(meanwhile);
        AfterConcat(old(State(cache.entries, pool.tip.slot)), cache.cap, between, meanwhile);
        reject := answer != Some(true);
        if !reject {
          cache.InsertSlot(bh.value, tip);
        }
      }
      if reject {
        metrics.RecordBlockhashRejection();
      }
    }

    /** This task holds a permit of `holds` only, or of nobody. */
    ghost predicate Holds(holds: Option<Upstream>)
      reads pool.upstreams
    {
      forall u :: u in pool.upstreams ==> u.held == if holds == Some(u) then 1 else 0
    }

    /** The end of an attempt: settle the probe, if it was one, and drop the permit. */
    method Finish(u: Upstream, isProbe: bool, success: bool, now: nat)
      requires u in pool.upstreams && Holds(Some(u)) && WithinCap(pool)
      modifies u`circuit, u`available, u`held, u`probeLog
      ensures Holds(None) && WithinCap(pool)
      ensures u.probeLog == old(u.probeLog) + (if isProbe then [SettledWith(success)] else [])
      ensures u.circuit ==
              if isProbe then AfterSettle(old(u.circuit), success, now, pool.config.cooldown) else old(u.circuit)
    {
      if isProbe {
        u.SettleProbe(success, now, pool.config.cooldown);
      }
      u.Release();
    }

    /** Await the response while others go on, then keep the books. */
    method Respond(u: Upstream, m: string, x: Exchange, meanwhile: seq<OtherStep>) returns (outcome: AttemptOutcome)
      requires Valid() && Holds(Some(u))
      modifies pool`currentLeader, pool.upstreams, pool.stats, pool.tip, cache`entries
      modifies metrics`requests, metrics`durationBuckets, metrics`durationSum, metrics`durationCount
      ensures Valid() && MineUntouched(pool) && outcome == OutcomeOf(x.reply)
      // The attempt is the latest record, and a hash it brought is the most recent entry.
      ensures pool.stats.history != [] && pool.stats.history[|pool.stats.history| - 1] ==
              Rec(u.name, m, x.latency, outcome.Succeeded?, x.doneAt)
      ensures outcome.Succeeded? && m == "getLatestBlockhash" && x.reply.harvest.Some? ==>
                cache.entries != [] && cache.entries[0].key == x.reply.harvest.value.hash
      ensures metrics.requests == Add(old(metrics.requests), (u.name, m, StatusOf(outcome)), 1)
    {
      Await(pool, cache, u, meanwhile);
      outcome := Settle(u, m, x);
    }

    /** One turn of the retry loop after admission: count the decision, await the
        response while others go on, keep the books, settle the probe, drop the permit. */
    method AttemptOnce(u: Upstream, isProbe: bool, m: string, x: Exchange, meanwhile: seq<OtherStep>)
      returns (outcome: AttemptOutcome)
      requires Valid() && u in pool.upstreams && Holds(Some(u))
      modifies pool`currentLeader, pool.upstreams, pool.stats, pool.tip, cache`entries, metrics
      ensures Valid() && Holds(None)
      ensures outcome == OutcomeOf(x.reply)
      ensures u.probeLog == old(u.probeLog) + (if isProbe then [SettledWith(outcome.Succeeded?)] else [])
      ensures forall w :: w in pool.upstreams && w != u ==> w.probeLog == old(w.probeLog)
      ensures metrics.routingDecisions == Add(old(metrics.routingDecisions), (u.name, m), 1)
      ensures metrics.requests == Add(old(metrics.requests), (u.name, m, StatusOf(outcome)), 1)
      ensures metrics.blockhashRejections == old(metrics.blockhashRejections)
    {
      metrics.RecordRoutingDecision(u.name, m);
      outcome := Respond(u, m, x, meanwhile);
      Finish(u, isProbe, outcome.Succeeded?, x.doneAt);
    }

    /** Admission for this task: one permit and perhaps a probe, or nobody left. */
    method Admit(m: string, excluded: seq<string>, now: nat) returns (r: Option<(Upstream, bool)>)
      requires Valid() && Holds(None)
      modifies pool`currentLeader, pool.upstreams
      ensures Valid()
      ensures r == None ==> Holds(None) && NobodyLeft(pool, m, excluded, now) && MineUntouched(pool)
      ensures r.Some? ==> r.value.0 in pool.upstreams && r.value.0.name !in excluded && Holds(Some(r.value.0))
      ensures r.Some? ==> old(Chosen(pool, m, excluded, now, r.value.0.name))
      ensures r.Some? ==> r.value.0.probeLog == old(r.value.0.probeLog) + (if r.value.1 then [Granted] else [])
      ensures forall w :: w in pool.upstreams && (r == None || w != r.value.0) ==> w.probeLog == old(w.probeLog)
    {
      r := SelectAndAdmit(pool, m, excluded, now);
    }

    /** One turn of the retry loop: nobody left, or one attempt at `at`. */
    method Turn(m: string, excluded: seq<string>, now: nat, x: Exchange, meanwhile: seq<OtherStep>)
      returns (a: Option<Attempt>, ghost at: Option<Upstream>)
      requires Valid() && Holds(None)
      modifies pool`currentLeader, pool.upstreams, pool.stats, pool.tip, cache`entries, metrics
      ensures Valid() && Holds(None)
      ensures a.Some? <==> at.Some?
      ensures a == None ==> NobodyLeft(pool, m, excluded, now) && MineUntouched(pool) && unchanged(metrics)
      ensures a.Some? ==>
                && at.value in pool.upstreams && a.value.upstream == at.value.name && a.value.upstream !in excluded
                && a.value.outcome == OutcomeOf(x.reply) && a.value.latency == x.latency
                && old(Chosen(pool, m, excluded, now, a.value.upstream))
                && at.value.probeLog == old(at.value.probeLog) + EventsOf(a.value)
                && metrics.routingDecisions == Add(old(metrics.routingDecisions), (a.value.upstream, m), 1)
                && metrics.requests == Add(old(metrics.requests), (a.value.upstream, m, StatusOf(a.value.outcome)), 1)
      ensures forall w :: w in pool.upstreams && at != Some(w) ==> w.probeLog == old(w.probeLog)
    {
      var admission := Admit(m, excluded, now);
      if admission == None {
        return None, None;
      }
      var (u, isProbe) := admission.value;
      var outcome := AttemptOnce(u, isProbe, m, x, meanwhile);
      a, at := Some(Attempt(u.name, isProbe, outcome, x.latency)), Some(u);
    }

    /** Where the probe logs of this call started. */
    ghost function ProbeLogs(): map<Upstream, seq<ProbeEvent>>
      reads pool.upstreams
    {
      map u | u in pool.upstreams :: u.probeLog
    }

    /** This call's footprint so far, from the given starting point: its probe traffic on
        every upstream, and its decisions and requests in the counters. */
    ghost predicate Traced(start: map<Upstream, seq<ProbeEvent>>, decisions: map<Key, nat>,
                           requests: map<StatusKey, nat>, m: string, log: seq<Attempt>)
      requires forall u :: u in pool.upstreams ==> u in start
      reads pool.upstreams, metrics
    {
      && (forall u :: u in pool.upstreams ==> u.probeLog == start[u] + ProbeTraffic(log, u.name))
      && metrics.routingDecisions == Decisions(decisions, log, m)
      && metrics.requests == Requests(requests, log, m)
    }

    method LoggedTurn(
      m: string, log: seq<Attempt>, excluded: seq<string>, now: nat, x: Exchange, meanwhile: seq<OtherStep>,
      ghost start: map<Upstream, seq<ProbeEvent>>, ghost decisions: map<Key, nat>, ghost requests: map<StatusKey, nat>)
      returns (a: Option<Attempt>)
      requires Valid() && Holds(None)
      requires (forall u :: u in pool.upstreams ==> u in start) && Traced(start, decisions, requests, m, log)
      modifies pool`currentLeader, pool.upstreams, pool.stats, pool.tip, cache`entries, metrics
      ensures Valid() && Holds(None)
      ensures Traced(start, decisions, requests, m, if a == None then log else log + [a.value])
      ensures a == None ==> NobodyLeft(pool, m, excluded, now)
      ensures a.Some? ==>
                && a.value.upstream !in excluded && Named(a.value, pool.upstreams)
                && old(Chosen(pool, m, excluded, now, a.value.upstream))
                && a.value.outcome == OutcomeOf(x.reply) && a.value.latency == x.latency
    {
      ghost var mid, at := ProbeLogs(), None;
      a, at := Turn(m, excluded, now, x, meanwhile);
      if a.Some? {
        TraceOne(start, mid, log, a.value, at.value);
        LogSnoc(log, a.value, m, decisions, requests);
      }
    }

    /** One more attempt adds its events to the log of its upstream and to no other. */
    lemma TraceOne(start: map<Upstream, seq<ProbeEvent>>, mid: map<Upstream, seq<ProbeEvent>>,
                   log: seq<Attempt>, a: Attempt, at: Upstream)
      requires UniqueNames(pool.upstreams) && at in pool.upstreams && a.upstream == at.name
      requires forall w :: w in pool.upstreams ==>
                 && w in start && w in mid && mid[w] == start[w] + ProbeTraffic(log, w.name)
                 && w.probeLog == if w == at then mid[w] + EventsOf(a) else mid[w]
      ensures forall w :: w in pool.upstreams ==> w.probeLog == start[w] + ProbeTraffic(log + [a], w.name)
    {
      assert (log + [a])[..|log|] == log;
      forall w | w in pool.upstreams ensures w.probeLog == start[w] + ProbeTraffic(log + [a], w.name) {
        if w == at {
          Concat(start[w], ProbeTraffic(log, w.name), EventsOf(a));
        } else if w.name == at.name {
          SameName(pool.upstreams, w, at);
        }
      }
    }

    /** The retry loop of one request that no deadline cuts short. `clock` and `net` give
        the time of each admission and the exchange that follows; `meanwhile` gives what
        other tasks do during it. */
    method ForwardCore(
      m: string, serializable: bool, clock: nat -> nat, net: nat -> Exchange, meanwhile: nat -> seq<OtherStep>)
      returns (r: ForwardResult, log: seq<Attempt>)
      requires Valid() && Holds(None)
      modifies pool`currentLeader, pool.upstreams, pool.stats, pool.tip, cache`entries, metrics
      // Every permit is back.
      ensures Valid() && Holds(None)
      // How many attempts, at whom, and how they went: under retries on different
      // upstreams these are pairwise distinct and no more than the pool has.
      ensures |log| <= pool.config.maxAttempts
      ensures GoodLog(log, pool.upstreams, net, pool.config.retryOnDifferentUpstream)
      // Every attempt but the last failed, and the answer is the last one's.
      ensures serializable ==> Answers(log, r)
      ensures !serializable ==> log == [] && r == Rejected(Own(Internal), None)
      // A request gives up early only when everybody it could still turn to refuses it.
      ensures serializable && r.Rejected? && |log| < pool.config.maxAttempts ==>
                NobodyLeft(pool, m, if pool.config.retryOnDifferentUpstream then UpstreamsOf(log) else [], clock(|log|))
      // Each probe granted is settled exactly once, with its own outcome; each attempt
      // is counted once as a decision and once as a request.
      ensures Traced(old(ProbeLogs()), old(metrics.routingDecisions), old(metrics.requests), m, log)
    {
      log := [];
      if !serializable {
        return Rejected(Own(Internal), None), log;
      }
      var excluded: seq<string> := [];
      var lastError: Option<ErrorValue> := None;
      var lastUpstream: Option<string> := None;
      ghost var start, decisions, requests := ProbeLogs(), metrics.routingDecisions, metrics.requests;
      for attempt := 0 to pool.config.maxAttempts
        invariant Valid() && Holds(None)
        invariant |log| == attempt && Carried(log, net, excluded, lastError, lastUpstream)
        invariant Traced(start, decisions, requests, m, log)
      {
        var a := LoggedTurn(
          m, log, excluded, clock(attempt), net(attempt), meanwhile(attempt), start, decisions, requests);
        if a == None {
          break;
        }
        CarriedSnoc(log, a.value, net, excluded, lastError, lastUpstream);
        if a.value.outcome.Succeeded? {
          log := log + [a.value];
          return Forwarded(a.value.outcome.body, a.value.upstream), log;
        }
        lastUpstream := Some(a.value.upstream);
        lastError := Some(a.value.outcome.error);
        if pool.config.retryOnDifferentUpstream {
          excluded := excluded + [a.value.upstream];
        }
        log := log + [a.value];
      }
      Exhausted(log);
      r := Rejected(if lastError.Some? then lastError.value else Own(AllUpstreamsExhausted), lastUpstream);
    }

    /** What the loop carries from one failed attempt to the next. */
    ghost predicate Carried(log: seq<Attempt>, net: nat -> Exchange, excluded: seq<string>,
                            lastError: Option<ErrorValue>, lastUpstream: Option<string>) {
      && AllFailed(log) && GoodLog(log, pool.upstreams, net, pool.config.retryOnDifferentUpstream)
      && excluded == Excluded(log) && lastError == LastError(log) && lastUpstream == LastUpstream(log)
    }

    lemma CarriedSnoc(log: seq<Attempt>, a: Attempt, net: nat -> Exchange, excluded: seq<string>,
                      lastError: Option<ErrorValue>, lastUpstream: Option<string>)
      requires Carried(log, net, excluded, lastError, lastUpstream)
      requires Named(a, pool.upstreams) && a.upstream !in excluded
      requires a.outcome == OutcomeOf(net(|log|).reply) && a.latency == net(|log|).latency
      ensures GoodLog(log + [a], pool.upstreams, net, pool.config.retryOnDifferentUpstream)
      ensures a.outcome.Succeeded? ==> Answers(log + [a], Forwarded(a.outcome.body, a.upstream))
      ensures a.outcome.Failed? ==>
                Carried(log + [a], net,
                        if pool.config.retryOnDifferentUpstream then excluded + [a.upstream] else excluded,
                        Some(a.outcome.error), Some(a.upstream))
    {
      GoodLogSnoc(log, a, pool.upstreams, net, pool.config.retryOnDifferentUpstream);
      if a.outcome.Succeeded? {
        Success(log, a);
      } else {
        AllFailedSnoc(log, a);
      }
    }

    /** Who is left out of the next selection after these attempts. */
    ghost function Excluded(log: seq<Attempt>): seq<string> {
      if pool.config.retryOnDifferentUpstream then UpstreamsOf(log) else []
    }
  }

  /** What the freshness check of `k` answers and leaves. A hit is judged by the tip read
      at the start and promoted; a miss is accepted exactly when confirmed, and enters. */
  ghost predicate Checked(before: State, cap: nat, maxAge: nat, k: Bytes, answer: Option<bool>,
                          between: seq<Event>, meanwhile: seq<Event>, reject: bool, after: State) {
    var looked := After(before, cap, between);
    if Has(looked.cache, k) then
      && reject == Freshness.Gate(looked.(tip := before.tip), cap, maxAge, k, answer).0
      && after == Next(looked, cap, Cache(Get(k)))
    else
      && (reject <==> answer != Some(true))
      && after == if reject then After(before, cap, between + meanwhile)
                  else Confirmed(before, cap, k, between + meanwhile)
  }

  /** After a confirmed miss, whatever happened during the check, every later hit is
      accepted while the hash is resident and the tip within the maximum age of the one
      the check read. */
  lemma CheckedStaysAccepted(
    before: State, cap: nat, maxAge: nat, k: Bytes, between: seq<Event>, meanwhile: seq<Event>, after: State,
    events: seq<Event>, answer: Option<bool>)
    requires ValidState(before, cap) && !Has(After(before, cap, between).cache, k)
    requires Checked(before, cap, maxAge, k, Some(true), between, meanwhile, false, after)
    requires StaysResident(after, cap, events, k) && After(after, cap, events).tip <= before.tip + maxAge
    ensures !Freshness.Gate(After(after, cap, events), cap, maxAge, k, answer).0
  {
    ConfirmedStaysAccepted(before, cap, k, maxAge, between + meanwhile, events, answer);
  }

  /** Attempt `k` went as the network says. */
  ghost predicate WentAs(log: seq<Attempt>, net: nat -> Exchange) {
    forall k :: 0 <= k < |log| ==> Fits(log[k].outcome, net(k).reply) && log[k].latency == net(k).latency
  }

  /** Every attempt but the last failed; the answer is a success exactly when the last
      attempt was one, and otherwise carries the last attempt's error. */
  ghost predicate Answers(log: seq<Attempt>, r: ForwardResult) {
    if log == [] then r == Rejected(Own(AllUpstreamsExhausted), None)
    else
      var last := log[|log| - 1];
      && AllFailed(log[..|log| - 1])
      && r == match last.outcome
              case Succeeded(body) => Forwarded(body, last.upstream)
              case Failed(error) => Rejected(error, Some(last.upstream))
  }

  ghost predicate GoodLog(log: seq<Attempt>, us: seq<Upstream>, net: nat -> Exchange, distinct: bool) {
    && FromNames(log, us) && WentAs(log, net)
    && (distinct ==> DistinctUpstreams(log) && |log| <= |us|)
  }

  lemma GoodLogSnoc(log: seq<Attempt>, a: Attempt, us: seq<Upstream>, net: nat -> Exchange, distinct: bool)
    requires GoodLog(log, us, net, distinct) && Named(a, us)
    requires distinct ==> a.upstream !in UpstreamsOf(log)
    requires a.outcome == OutcomeOf(net(|log|).reply) && a.latency == net(|log|).latency
    ensures GoodLog(log + [a], us, net, distinct)
  {
    OutcomeIs(net(|log|).reply, a.outcome);
    if distinct {
      assert forall i :: 0 <= i < |log| ==> UpstreamsOf(log)[i] == log[i].upstream;
      AttemptsFitPool(log + [a], us);
    }
  }

  function LastError(log: seq<Attempt>): Option<ErrorValue> {
    if log == [] then None
    else match log[|log| - 1].outcome case Failed(e) => Some(e) case Succeeded(_) => None
  }

  function LastUpstream(log: seq<Attempt>): Option<string> {
    if log == [] then None else Some(log[|log| - 1].upstream)
  }

  lemma AllFailedSnoc(log: seq<Attempt>, a: Attempt)
    requires AllFailed(log) && a.outcome.Failed?
    ensures AllFailed(log + [a]) && UpstreamsOf(log + [a]) == UpstreamsOf(log) + [a.upstream]
    ensures LastError(log + [a]) == Some(a.outcome.error) && LastUpstream(log + [a]) == Some(a.upstream)
  {}

  lemma Success(log: seq<Attempt>, a: Attempt)
    requires AllFailed(log) && a.outcome.Succeeded?
    ensures Answers(log + [a], Forwarded(a.outcome.body, a.upstream))
  {
    assert (log + [a])[..|log|] == log;
  }

  lemma Exhausted(log: seq<Attempt>)
    requires AllFailed(log)
    ensures
      var error := if log == [] then Own(AllUpstreamsExhausted) else LastError(log).value;
      Answers(log, Rejected(error, LastUpstream(log)))
  {}

  lemma Concat(a: seq<ProbeEvent>, b: seq<ProbeEvent>, c: seq<ProbeEvent>)
    ensures (a + b) + c == a + (b + c)
  {}

  lemma LogSnoc(
    log: seq<Attempt>, a: Attempt, m: string, decisions: map<Key, nat>, requests: map<StatusKey, nat>)
    ensures forall name :: ProbeTraffic(log + [a], name) ==
              if a.upstream == name then ProbeTraffic(log, name) + EventsOf(a) else ProbeTraffic(log, name)
    ensures Decisions(decisions, log + [a], m) == Add(Decisions(decisions, log, m), (a.upstream, m), 1)
    ensures Requests(requests, log + [a], m) ==
            Add(Requests(requests, log, m), (a.upstream, m, StatusOf(a.outcome)), 1)
  {
    assert (log + [a])[..|log|] == log;
  }
}
