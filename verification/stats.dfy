/** The statistics store, kept equal to functions of everything ever recorded. */
module Stats {
  import opened Ewma
  import opened Window
  import opened Median
  import opened Wrappers

  const SEND_TRANSACTION := "sendTransaction"

  datatype Rec = Rec(upstream: string, method_: string, latency: real, ok: bool, now: nat)

  /** An upstream and a method. */
  type Key = (string, string)

  // ---------- what each structure has been told ----------

  function Samples(h: seq<Rec>, u: string, m: string): seq<Sample> {
    if h == [] then []
    else
      var r := h[|h| - 1];
      Samples(h[..|h| - 1], u, m) + (if r.upstream == u && r.method_ == m then [Sample(r.latency, r.ok)] else [])
  }

  function Outcomes(h: seq<Rec>, u: string): Log<bool> {
    if h == [] then []
    else
      var r := h[|h| - 1];
      Outcomes(h[..|h| - 1], u) + (if r.upstream == u then [(r.now, !r.ok)] else [])
  }

  function Sends(h: seq<Rec>, u: string): Log<real> {
    if h == [] then []
    else
      var r := h[|h| - 1];
      Sends(h[..|h| - 1], u) +
      (if r.upstream == u && r.method_ == SEND_TRANSACTION && r.ok then [(r.now, r.latency)] else [])
  }

  // ---------- ... in terms of the records themselves ----------

  /** The records `f` picks, in order. */
  function Matching(h: seq<Rec>, f: Rec -> bool): seq<Rec> {
    if h == [] then [] else Matching(h[..|h| - 1], f) + (if f(h[|h| - 1]) then [h[|h| - 1]] else [])
  }

  /** All of them, as often as they occur, and no others. */
  lemma {:induction false} MatchingExact(h: seq<Rec>, f: Rec -> bool)
    ensures forall r :: multiset(Matching(h, f))[r] == if f(r) then multiset(h)[r] else 0
  {
    if h != [] {
      var n := |h| - 1;
      MatchingExact(h[..n], f);
      assert h == h[..n] + [h[n]];
    }
  }

  function By(u: string): Rec -> bool { (r: Rec) => r.upstream == u }

  function ByMethod(u: string, m: string): Rec -> bool { (r: Rec) => r.upstream == u && r.method_ == m }

  function SentBy(u: string): Rec -> bool {
    (r: Rec) => r.upstream == u && r.method_ == "sendTransaction" && r.ok
  }

  /** Each record of the upstream gives one outcome, raised exactly when it failed. */
  lemma {:induction false} OutcomesAre(h: seq<Rec>, u: string)
    ensures |Outcomes(h, u)| == |Matching(h, By(u))|
    ensures forall i :: 0 <= i < |Outcomes(h, u)| ==>
              var r := Matching(h, By(u))[i];
              r.upstream == u && Outcomes(h, u)[i] == (r.now, !r.ok)
  {
    if h != [] {
      OutcomesAre(h[..|h| - 1], u);
    }
  }

  /** Each record of the upstream and method gives one sample. */
  lemma {:induction false} SamplesAre(h: seq<Rec>, u: string, m: string)
    ensures |Samples(h, u, m)| == |Matching(h, ByMethod(u, m))|
    ensures forall i :: 0 <= i < |Samples(h, u, m)| ==>
              var r := Matching(h, ByMethod(u, m))[i];
              r.upstream == u && r.method_ == m && Samples(h, u, m)[i] == Sample(r.latency, r.ok)
  {
    if h != [] {
      SamplesAre(h[..|h| - 1], u, m);
    }
  }

  /** Each successful `sendTransaction` of the upstream gives one latency. */
  lemma {:induction false} SendsAre(h: seq<Rec>, u: string)
    ensures |Sends(h, u)| == |Matching(h, SentBy(u))|
    ensures forall i :: 0 <= i < |Sends(h, u)| ==>
              var r := Matching(h, SentBy(u))[i];
              r.upstream == u && r.method_ == "sendTransaction" && r.ok && Sends(h, u)[i] == (r.now, r.latency)
  {
    if h != [] {
      SendsAre(h[..|h| - 1], u);
    }
  }

  function Values(q: Log<real>): (v: seq<real>)
    ensures |v| == |q|
  {
    seq(|q|, i requires 0 <= i < |q| => q[i].1)
  }

  // ---------- the answers, as functions of the history ----------

  function AverageOf(alpha: real, s: seq<Sample>): Option<MethodStats> {
    if s == [] then None else Some(Fold(alpha, s))
  }

  function GetOf(alpha: real, h: seq<Rec>, u: string, m: string): Option<MethodStats> {
    AverageOf(alpha, Samples(h, u, m))
  }

  function ErrorRateOf(window: nat, h: seq<Rec>, u: string): real {
    FailureRate(Retained(Outcomes(h, u), window))
  }

  function SendP50Of(window: nat, h: seq<Rec>, u: string): Option<real> {
    var q := Retained(Sends(h, u), window);
    if q == [] then None else Some(P50(Values(q)))
  }

  // ---------- the three structures, record by record ----------

  function Lookup<K, V>(m: map<K, V>, k: K): Option<V> { if k in m then Some(m[k]) else None }

  /** An upstream without a deque is one whose deque is empty. */
  function LogOf<T>(m: map<string, Log<T>>, u: string): Log<T> { if u in m then m[u] else [] }

  function AveragesAfter(methods: map<Key, MethodStats>, alpha: real, r: Rec): map<Key, MethodStats> {
    var key := (r.upstream, r.method_);
    var entry := if key in methods then methods[key] else DEFAULT_STATS;
    methods[key := Update(alpha, entry, Sample(r.latency, r.ok))]
  }

  function ErrorsAfter(errors: map<string, Log<bool>>, window: nat, r: Rec): map<string, Log<bool>> {
    errors[r.upstream := Prune(LogOf(errors, r.upstream) + [(r.now, !r.ok)], window, r.now)]
  }

  predicate IsSend(r: Rec) { r.method_ == SEND_TRANSACTION && r.ok }

  function SendsAfter(sends: map<string, Log<real>>, window: nat, r: Rec): map<string, Log<real>> {
    if IsSend(r) then sends[r.upstream := Prune(LogOf(sends, r.upstream) + [(r.now, r.latency)], window, r.now)]
    else sends
  }

  // ---------- each entry is a function of its own part of the history ----------

  lemma FoldSnoc(alpha: real, s: seq<Sample>, x: Sample)
    ensures Fold(alpha, s + [x]) == Update(alpha, Fold(alpha, s), x)
  {
    assert (s + [x])[..|s|] == s;
  }

  lemma SamplesSnoc(h: seq<Rec>, r: Rec, u: string, m: string)
    ensures Samples(h + [r], u, m) ==
            Samples(h, u, m) + (if r.upstream == u && r.method_ == m then [Sample(r.latency, r.ok)] else [])
  {
    assert (h + [r])[..|h|] == h;
  }

  ghost predicate AveragesAgree(methods: map<Key, MethodStats>, alpha: real, h: seq<Rec>) {
    forall u, m {:trigger Samples(h, u, m)} :: Lookup(methods, (u, m)) == AverageOf(alpha, Samples(h, u, m))
  }

  ghost predicate ErrorsAgree(errors: map<string, Log<bool>>, window: nat, h: seq<Rec>) {
    forall u {:trigger Outcomes(h, u)} :: LogOf(errors, u) == Retained(Outcomes(h, u), window)
  }

  ghost predicate SendsAgree(sends: map<string, Log<real>>, window: nat, h: seq<Rec>) {
    forall u {:trigger Sends(h, u)} :: LogOf(sends, u) == Retained(Sends(h, u), window)
  }

  lemma AveragesStep(methods: map<Key, MethodStats>, alpha: real, h: seq<Rec>, r: Rec)
    requires AveragesAgree(methods, alpha, h)
    ensures AveragesAgree(AveragesAfter(methods, alpha, r), alpha, h + [r])
  {
    forall u, m ensures Lookup(AveragesAfter(methods, alpha, r), (u, m)) == AverageOf(alpha, Samples(h + [r], u, m)) {
      assert (h + [r])[..|h|] == h;
      if r.upstream == u && r.method_ == m {
        FoldSnoc(alpha, Samples(h, u, m), Sample(r.latency, r.ok));
        assert Samples(h + [r], u, m) == Samples(h, u, m) + [Sample(r.latency, r.ok)];
      } else {
        assert Samples(h + [r], u, m) == Samples(h, u, m);
      }
    }
  }

  lemma ErrorsStep(errors: map<string, Log<bool>>, window: nat, h: seq<Rec>, r: Rec)
    requires ErrorsAgree(errors, window, h)
    ensures ErrorsAgree(ErrorsAfter(errors, window, r), window, h + [r])
  {
    forall u ensures LogOf(ErrorsAfter(errors, window, r), u) == Retained(Outcomes(h + [r], u), window) {
      assert (h + [r])[..|h|] == h;
      if r.upstream == u {
        RetainedSnoc(Outcomes(h, u), (r.now, !r.ok), window);
        assert Outcomes(h + [r], u) == Outcomes(h, u) + [(r.now, !r.ok)];
      } else {
        assert Outcomes(h + [r], u) == Outcomes(h, u);
      }
    }
  }

  lemma SendsStep(sends: map<string, Log<real>>, window: nat, h: seq<Rec>, r: Rec)
    requires SendsAgree(sends, window, h)
    ensures SendsAgree(SendsAfter(sends, window, r), window, h + [r])
  {
    forall u ensures LogOf(SendsAfter(sends, window, r), u) == Retained(Sends(h + [r], u), window) {
      assert (h + [r])[..|h|] == h;
      if r.upstream == u && IsSend(r) {
        RetainedSnoc(Sends(h, u), (r.now, r.latency), window);
        assert Sends(h + [r], u) == Sends(h, u) + [(r.now, r.latency)];
      } else {
        assert Sends(h + [r], u) == Sends(h, u);
      }
    }
  }

  class StatsStore {
    var methods: map<Key, MethodStats>
    var errors: map<string, Log<bool>>
    var sendTxLatency: map<string, Log<real>>
    const alpha: real
    const window: nat
    /** Every record so far, in order. */
    ghost var history: seq<Rec>

    ghost predicate Valid()
      reads this
    {
      && 0.0 < alpha < 1.0
      && AveragesAgree(methods, alpha, history)
      && ErrorsAgree(errors, window, history)
      && SendsAgree(sendTxLatency, window, history)
    }

    constructor (alpha: real, rollingWindow: nat)
      requires 0.0 < alpha < 1.0
      ensures Valid() && history == [] && this.alpha == alpha && window == rollingWindow
    {
      this.alpha, window := alpha, rollingWindow;
      methods, errors, sendTxLatency := map[], map[], map[];
      history := [];
    }

    method Record(u: string, m: string, latency: real, ok: bool, now: nat)
      requires Valid()
      modifies this
      ensures Valid() && history == old(history) + [Rec(u, m, latency, ok, now)]
    {
      ghost var r := Rec(u, m, latency, ok, now);
      AveragesStep(methods, alpha, history, r);
      ErrorsStep(errors, window, history, r);
      SendsStep(sendTxLatency, window, history, r);
      RecordAverages(u, m, latency, ok, r);
      RecordOutcome(u, ok, now, r);
      if m == SEND_TRANSACTION && ok {
        RecordSend(u, latency, now, r);
      }
      history := history + [r];
    }

    /** The locked update of one (upstream, method) entry. */
    method RecordAverages(u: string, m: string, latency: real, ok: bool, ghost r: Rec)
      requires r.upstream == u && r.method_ == m && r.latency == latency && r.ok == ok
      modifies this`methods
      ensures methods == AveragesAfter(old(methods), alpha, r)
    {
      var entry := if (u, m) in methods then methods[(u, m)] else DEFAULT_STATS;
      if entry.samples == 0 {
        entry := MethodStats(latency, Hit(ok), 0);
      } else {
        entry := MethodStats(
          Mix(alpha, latency, entry.ewmaLatency), Mix(alpha, Hit(ok), entry.ewmaSuccess), entry.samples);
      }
      entry := entry.(samples := entry.samples + 1);
      methods := methods[(u, m) := entry];
    }

    method RecordOutcome(u: string, ok: bool, now: nat, ghost r: Rec)
      requires r.upstream == u && r.ok == ok && r.now == now
      modifies this`errors
      ensures errors == ErrorsAfter(old(errors), window, r)
    {
      var log := if u in errors then errors[u] else [];
      var q := PopExpired(log + [(now, !ok)], window, now);
      errors := errors[u := q];
    }

    method RecordSend(u: string, latency: real, now: nat, ghost r: Rec)
      requires r.upstream == u && r.latency == latency && r.now == now && IsSend(r)
      modifies this`sendTxLatency
      ensures sendTxLatency == SendsAfter(old(sendTxLatency), window, r)
    {
      var log := if u in sendTxLatency then sendTxLatency[u] else [];
      var q := PopExpired(log + [(now, latency)], window, now);
      sendTxLatency := sendTxLatency[u := q];
    }

    function Get(u: string, m: string): Option<MethodStats>
      reads this
    {
      if (u, m) in methods then Some(methods[(u, m)]) else None
    }

    /** The averages a read returns are the fold of exactly that upstream's samples of
        that method, whatever was recorded in between. */
    lemma GetIs(u: string, m: string)
      requires Valid()
      ensures Get(u, m) == GetOf(alpha, history, u, m)
    {
      assert Lookup(methods, (u, m)) == AverageOf(alpha, Samples(history, u, m));
    }

    function ErrorRate(u: string): (r: real)
      reads this
      ensures 0.0 <= r <= 1.0
      ensures r == if u !in errors || errors[u] == [] then 0.0
                   else multiset(Flags(errors[u]))[true] as real / |errors[u]| as real
    {
      if u !in errors || errors[u] == [] then 0.0
      else
        FailuresCount(errors[u]);
        Fraction(Failures(errors[u]) as real, |errors[u]| as real);
        Failures(errors[u]) as real / |errors[u]| as real
    }

    /** Of the records the deque retains, those that failed over all of them. */
    lemma ErrorRateIs(u: string)
      requires Valid()
      ensures ErrorRate(u) == ErrorRateOf(window, history, u)
      ensures
        var rs := RetainedRecords(window, history, u);
        ErrorRate(u) == if rs == [] then 0.0 else Failed(rs) as real / |rs| as real
    {
      assert LogOf(errors, u) == Retained(Outcomes(history, u), window);
      RetainedRecordsAre(window, history, u);
      FailedAre(Retained(Outcomes(history, u), window), RetainedRecords(window, history, u));
    }

    function SendTxP50(u: string): Option<real>
      reads this
    {
      if u !in sendTxLatency || sendTxLatency[u] == [] then None
      else
        var v := Sort(Values(sendTxLatency[u]));
        Some(v[|v| / 2])
    }

    lemma SendTxP50Is(u: string)
      requires Valid()
      ensures SendTxP50(u) == SendP50Of(window, history, u)
    {
      assert LogOf(sendTxLatency, u) == Retained(Sends(history, u), window);
    }
  }

  // ---------- what the answers mean ----------

  /** The records of an upstream whose outcomes its deque still holds: its latest ones. */
  ghost function RetainedRecords(window: nat, h: seq<Rec>, u: string): seq<Rec> {
    var all, kept := Matching(h, By(u)), |Retained(Outcomes(h, u), window)|;
    if kept <= |all| then all[|all| - kept..] else []
  }

  lemma RetainedRecordsAre(window: nat, h: seq<Rec>, u: string)
    ensures
      var q, rs := Retained(Outcomes(h, u), window), RetainedRecords(window, h, u);
      |q| == |rs| && forall i :: 0 <= i < |q| ==> q[i] == (rs[i].now, !rs[i].ok) && rs[i].upstream == u
  {
    OutcomesAre(h, u);
    var p := RetainedIsSuffix(Outcomes(h, u), window);
  }

  function Oks(rs: seq<Rec>): (oks: seq<bool>)
    ensures |oks| == |rs|
  {
    seq(|rs|, i requires 0 <= i < |rs| => rs[i].ok)
  }

  /** How many of the records failed. */
  function Failed(rs: seq<Rec>): nat { multiset(Oks(rs))[false] }

  lemma {:induction false} FailedAre(q: Log<bool>, rs: seq<Rec>)
    requires |q| == |rs| && forall i :: 0 <= i < |q| ==> q[i].1 == !rs[i].ok
    ensures Failures(q) == Failed(rs)
  {
    if q != [] {
      FailedAre(q[1..], rs[1..]);
      assert Oks(rs) == [rs[0].ok] + Oks(rs[1..]);
    }
  }

  function Within(u: string, window: nat, now: nat): Rec -> bool {
    (r: Rec) => r.upstream == u && now <= r.now + window
  }

  function FailedWithin(u: string, window: nat, now: nat): Rec -> bool {
    (r: Rec) => r.upstream == u && now <= r.now + window && !r.ok
  }

  lemma {:induction false} RecentAre(h: seq<Rec>, u: string, window: nat, now: nat)
    ensures |Recent(Outcomes(h, u), window, now)| == |Matching(h, Within(u, window, now))|
    ensures Failures(Recent(Outcomes(h, u), window, now)) == |Matching(h, FailedWithin(u, window, now))|
  {
    if h != [] {
      var before, r := h[..|h| - 1], h[|h| - 1];
      RecentAre(before, u, window, now);
      if r.upstream == u {
        var e := (r.now, !r.ok);
        RecentConcat(Outcomes(before, u), [e], window, now);
        RecentOne(e, window, now);
        FailuresConcat(Recent(Outcomes(before, u), window, now), Recent([e], window, now));
        FailuresOne(e);
      } else {
        assert Outcomes(h, u) == Outcomes(before, u);
      }
    }
  }

  lemma FailuresOne(e: (nat, bool))
    ensures Failures([e]) == (if e.1 then 1 else 0) && Failures([]) == 0
  {
    assert [e][1..] == [];
  }

  /** An upstream's records of the last window as of its latest: the failed over all. */
  ghost function RecentRate(window: nat, h: seq<Rec>, u: string): real {
    var all := Matching(h, By(u));
    if all == [] then 0.0
    else
      var now := all[|all| - 1].now;
      var n := |Matching(h, Within(u, window, now))|;
      if n == 0 then 0.0 else |Matching(h, FailedWithin(u, window, now))| as real / n as real
  }

  /** If the upstream's own outcomes are in order, whatever the order of all the others,
      its error rate is the failure fraction of exactly its records of the last window. */
  lemma ErrorRateIsRecentFraction(window: nat, h: seq<Rec>, u: string)
    requires InOrder(Outcomes(h, u))
    ensures ErrorRateOf(window, h, u) == RecentRate(window, h, u)
  {
    OutcomesAre(h, u);
    if Outcomes(h, u) != [] {
      RetainedIsRecent(Outcomes(h, u), window);
      RecentAre(h, u, window, Outcomes(h, u)[|Outcomes(h, u)| - 1].0);
    }
  }

  lemma {:induction false} SamplesNonNegative(h: seq<Rec>, u: string, m: string)
    requires forall i :: 0 <= i < |h| ==> h[i].latency >= 0.0
    ensures forall i :: 0 <= i < |Samples(h, u, m)| ==> Samples(h, u, m)[i].latency >= 0.0
  {
    if h != [] {
      SamplesNonNegative(h[..|h| - 1], u, m);
    }
  }

  /** However long the history, a nonnegative latency never averages below zero and a
      success average stays a rate. */
  lemma GetBounds(alpha: real, h: seq<Rec>, u: string, m: string)
    requires 0.0 < alpha < 1.0
    requires forall i :: 0 <= i < |h| ==> h[i].latency >= 0.0
    ensures GetOf(alpha, h, u, m).Some? ==>
              var s := GetOf(alpha, h, u, m).value;
              s.samples > 0 && s.ewmaLatency >= 0.0 && 0.0 <= s.ewmaSuccess <= 1.0
  {
    var s := Samples(h, u, m);
    if s != [] {
      SamplesNonNegative(h, u, m);
      var hi := MaxLatency(s);
      FoldBounds(alpha, s, 0.0, hi);
    }
  }

  lemma {:induction false} MaxLatency(s: seq<Sample>) returns (hi: real)
    ensures forall i :: 0 <= i < |s| ==> s[i].latency <= hi
  {
    hi := 0.0;
    if s != [] {
      hi := MaxLatency(s[..|s| - 1]);
      if s[|s| - 1].latency > hi {
        hi := s[|s| - 1].latency;
      }
    }
  }

  lemma {:induction false} SendsNonNegative(h: seq<Rec>, u: string)
    requires forall i :: 0 <= i < |h| ==> h[i].latency >= 0.0
    ensures forall i :: 0 <= i < |Sends(h, u)| ==> Sends(h, u)[i].1 >= 0.0
  {
    if h != [] {
      SendsNonNegative(h[..|h| - 1], u);
    }
  }

  /** The reported median is a retained latency that splits the retained window. */
  lemma SendP50IsMedian(window: nat, h: seq<Rec>, u: string)
    requires SendP50Of(window, h, u).Some?
    ensures
      var v, p := Values(Retained(Sends(h, u), window)), SendP50Of(window, h, u).value;
      p in v && Splits(v, p)
    ensures (forall i :: 0 <= i < |h| ==> h[i].latency >= 0.0) ==> SendP50Of(window, h, u).value >= 0.0
  {
    var q := Retained(Sends(h, u), window);
    MedianExact(Values(q), P50(Values(q)));
    if forall i :: 0 <= i < |h| ==> h[i].latency >= 0.0 {
      SendsNonNegative(h, u);
      var p := RetainedIsSuffix(Sends(h, u), window);
      assert forall i :: 0 <= i < |q| ==> q[i] == Sends(h, u)[p + i];
    }
  }
}
