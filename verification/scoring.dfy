/** From what is known of each upstream to scored candidates. */
module Scoring {
  import opened Config
  import opened Ewma
  import opened Hysteresis
  import opened Reals
  import opened Stats
  import opened Wrappers

  /** What selection reads of one upstream. */
  datatype View = View(name: string, dropped: bool, lastSlot: nat, stats: Option<MethodStats>, p50: Option<real>)

  const WARMUP: real := 0.5
  const P50_FLOOR: real := 0.001

  predicate SaneStats(s: Option<MethodStats>) {
    s.Some? ==> s.value.ewmaLatency >= 0.0 && 0.0 <= s.value.ewmaSuccess <= 1.0
  }

  function Speed(latency: real): real
    requires latency >= 0.0
  {
    1.0 / (1.0 + latency / 100.0)
  }

  function LatencyScore(s: Option<MethodStats>): real
    requires SaneStats(s)
  {
    if s.Some? && s.value.samples > 0 then Speed(s.value.ewmaLatency) else WARMUP
  }

  function SuccessScore(s: Option<MethodStats>): real {
    if s.Some? && s.value.samples > 0 then s.value.ewmaSuccess else WARMUP
  }

  function LagPenalty(tip: nat, slot: nat, maxLag: nat): real {
    if tip > slot && tip - slot > maxLag then 0.1 else 1.0
  }

  /** Latencies are durations; averages of them are not negative. */
  predicate Sane(v: View) {
    SaneStats(v.stats) && (v.p50.Some? ==> v.p50.value >= 0.0)
  }

  predicate AllSane(vs: seq<View>) { forall i :: 0 <= i < |vs| ==> Sane(vs[i]) }

  function Combined(lw: real, ls: real, sw: real, ss: real, penalty: real): real {
    (lw * ls + sw * ss) * penalty
  }

  function ScoreOf(cfg: Config, tip: nat, slot: nat, s: Option<MethodStats>): real
    requires SaneStats(s)
  {
    Combined(cfg.latencyWeight, LatencyScore(s), cfg.successWeight, SuccessScore(s),
             LagPenalty(tip, slot, cfg.maxSlotLag))
  }

  function GenericScore(cfg: Config, tip: nat, v: View): real
    requires Sane(v)
  {
    ScoreOf(cfg, tip, v.lastSlot, v.stats)
  }

  predicate Skipped(v: View, exclude: seq<string>) { v.name in exclude || v.dropped }

  /** The `sendTransaction` candidates: every eligible upstream with a median. */
  function Measured(vs: seq<View>, exclude: seq<string>): seq<Candidate> {
    if vs == [] then []
    else
      var v := vs[|vs| - 1];
      Measured(vs[..|vs| - 1], exclude) +
      (if !Skipped(v, exclude) && v.p50.Some? then [Candidate(v.name, v.p50.value)] else [])
  }

  function Generic(cfg: Config, tip: nat, vs: seq<View>, exclude: seq<string>): seq<Candidate>
    requires AllSane(vs)
  {
    if vs == [] then []
    else
      var v := vs[|vs| - 1];
      Generic(cfg, tip, vs[..|vs| - 1], exclude) +
      (if !Skipped(v, exclude) && GenericScore(cfg, tip, v) > 0.0
       then [Candidate(v.name, GenericScore(cfg, tip, v))] else [])
  }

  lemma MeasuredSnoc(vs: seq<View>, v: View, exclude: seq<string>)
    ensures Measured(vs + [v], exclude) ==
            if !Skipped(v, exclude) && v.p50.Some? then Measured(vs, exclude) + [Candidate(v.name, v.p50.value)]
            else Measured(vs, exclude)
  {
    assert (vs + [v])[..|vs|] == vs;
  }

  lemma GenericSnoc(cfg: Config, tip: nat, vs: seq<View>, v: View, exclude: seq<string>)
    requires AllSane(vs) && Sane(v)
    ensures AllSane(vs + [v])
    ensures Generic(cfg, tip, vs + [v], exclude) ==
            if !Skipped(v, exclude) && GenericScore(cfg, tip, v) > 0.0
            then Generic(cfg, tip, vs, exclude) + [Candidate(v.name, GenericScore(cfg, tip, v))]
            else Generic(cfg, tip, vs, exclude)
  {
    assert (vs + [v])[..|vs|] == vs;
  }

  function MinScore(cs: seq<Candidate>): real
    requires cs != []
  {
    if |cs| == 1 then cs[0].score
    else
      var m, x := MinScore(cs[..|cs| - 1]), cs[|cs| - 1].score;
      if x < m then x else m
  }

  function Floored(p50: real): (r: real)
    ensures r > 0.0
  {
    if p50 < P50_FLOOR then P50_FLOOR else p50
  }

  /** Flip medians into up-is-better scores. */
  function Flipped(measured: seq<Candidate>): (cs: seq<Candidate>)
    requires measured != []
    ensures |cs| == |measured|
  {
    var best := MinScore(measured);
    seq(|measured|, i requires 0 <= i < |measured| =>
      Candidate(measured[i].name, best / Floored(measured[i].score)))
  }

  /** The scores of the measured path; none if nobody is measured. */
  function MeasuredScores(vs: seq<View>, exclude: seq<string>): (cs: seq<Candidate>)
    ensures cs == [] <==> Measured(vs, exclude) == []
  {
    if Measured(vs, exclude) == [] then [] else Flipped(Measured(vs, exclude))
  }

  function Scored(cfg: Config, tip: nat, vs: seq<View>, method_: string, exclude: seq<string>): seq<Candidate>
    requires AllSane(vs)
  {
    if method_ == SEND_TRANSACTION && MeasuredScores(vs, exclude) != [] then MeasuredScores(vs, exclude)
    else Generic(cfg, tip, vs, exclude)
  }

  /** Ever a candidate for this method, as far as its statistics go. */
  predicate Eligible(cfg: Config, tip: nat, v: View, method_: string)
    requires Sane(v)
  {
    GenericScore(cfg, tip, v) > 0.0 || (method_ == SEND_TRANSACTION && v.p50.Some?)
  }

  // ---------- who is a candidate ----------

  lemma {:induction false} MeasuredMembers(vs: seq<View>, exclude: seq<string>, k: nat) returns (i: nat)
    requires k < |Measured(vs, exclude)|
    ensures i < |vs| && !Skipped(vs[i], exclude) && vs[i].p50 == Some(Measured(vs, exclude)[k].score)
    ensures vs[i].name == Measured(vs, exclude)[k].name
  {
    var n := |vs| - 1;
    if k < |Measured(vs[..n], exclude)| {
      i := MeasuredMembers(vs[..n], exclude, k);
    } else {
      i := n;
    }
  }

  lemma {:induction false} MeasuredComplete(vs: seq<View>, exclude: seq<string>, i: nat) returns (k: nat)
    requires i < |vs| && !Skipped(vs[i], exclude) && vs[i].p50.Some?
    ensures k < |Measured(vs, exclude)| && Measured(vs, exclude)[k] == Candidate(vs[i].name, vs[i].p50.value)
  {
    var n := |vs| - 1;
    if i == n {
      k := |Measured(vs[..n], exclude)|;
    } else {
      k := MeasuredComplete(vs[..n], exclude, i);
    }
  }

  lemma {:induction false} GenericMembers(cfg: Config, tip: nat, vs: seq<View>, exclude: seq<string>, k: nat)
    returns (i: nat)
    requires AllSane(vs) && k < |Generic(cfg, tip, vs, exclude)|
    ensures i < |vs| && !Skipped(vs[i], exclude) && GenericScore(cfg, tip, vs[i]) > 0.0
    ensures Generic(cfg, tip, vs, exclude)[k] == Candidate(vs[i].name, GenericScore(cfg, tip, vs[i]))
  {
    var n := |vs| - 1;
    if k < |Generic(cfg, tip, vs[..n], exclude)| {
      i := GenericMembers(cfg, tip, vs[..n], exclude, k);
    } else {
      i := n;
    }
  }

  lemma {:induction false} GenericComplete(cfg: Config, tip: nat, vs: seq<View>, exclude: seq<string>, i: nat)
    returns (k: nat)
    requires AllSane(vs) && i < |vs| && !Skipped(vs[i], exclude) && GenericScore(cfg, tip, vs[i]) > 0.0
    ensures k < |Generic(cfg, tip, vs, exclude)|
    ensures Generic(cfg, tip, vs, exclude)[k] == Candidate(vs[i].name, GenericScore(cfg, tip, vs[i]))
  {
    var n := |vs| - 1;
    if i == n {
      k := |Generic(cfg, tip, vs[..n], exclude)|;
    } else {
      k := GenericComplete(cfg, tip, vs[..n], exclude, i);
    }
  }

  /** Somebody has a median of recent `sendTransaction` latencies. */
  predicate SomeMeasured(vs: seq<View>, exclude: seq<string>) {
    exists i :: 0 <= i < |vs| && vs[i].name !in exclude && !vs[i].dropped && vs[i].p50.Some?
  }

  lemma SomeMeasuredIff(vs: seq<View>, exclude: seq<string>)
    ensures SomeMeasured(vs, exclude) <==> Measured(vs, exclude) != []
  {
    if i :| 0 <= i < |vs| && vs[i].name !in exclude && !vs[i].dropped && vs[i].p50.Some? {
      var k := MeasuredComplete(vs, exclude, i);
    } else if Measured(vs, exclude) != [] {
      var i := MeasuredMembers(vs, exclude, 0);
    }
  }

  /** A candidate is an upstream that is neither excluded nor dropped and is eligible. Its
      score is the generic one, or, for a `sendTransaction` with somebody measured, the
      best median over its own. */
  lemma ScoredMembers(cfg: Config, tip: nat, vs: seq<View>, method_: string, exclude: seq<string>, k: nat)
    returns (i: nat)
    requires AllSane(vs) && k < |Scored(cfg, tip, vs, method_, exclude)|
    ensures i < |vs| && vs[i].name !in exclude && !vs[i].dropped && Eligible(cfg, tip, vs[i], method_)
    ensures vs[i].name == Scored(cfg, tip, vs, method_, exclude)[k].name
    ensures
      var score := Scored(cfg, tip, vs, method_, exclude)[k].score;
      if method_ == "sendTransaction" && SomeMeasured(vs, exclude) then
        && Measured(vs, exclude) != [] && vs[i].p50.Some?
        && score == MinScore(Measured(vs, exclude)) / Floored(vs[i].p50.value)
      else score == GenericScore(cfg, tip, vs[i])
  {
    SomeMeasuredIff(vs, exclude);
    if method_ == SEND_TRANSACTION && Measured(vs, exclude) != [] {
      i := MeasuredMembers(vs, exclude, k);
    } else {
      i := GenericMembers(cfg, tip, vs, exclude, k);
    }
  }

  /** There is a candidate exactly when some eligible upstream is neither excluded nor dropped. */
  lemma ScoredEmptyIff(cfg: Config, tip: nat, vs: seq<View>, method_: string, exclude: seq<string>)
    requires AllSane(vs)
    ensures Scored(cfg, tip, vs, method_, exclude) == [] <==>
            forall i :: 0 <= i < |vs| ==> Skipped(vs[i], exclude) || !Eligible(cfg, tip, vs[i], method_)
  {
    if Scored(cfg, tip, vs, method_, exclude) == [] {
      forall i | 0 <= i < |vs| ensures Skipped(vs[i], exclude) || !Eligible(cfg, tip, vs[i], method_) {
        if !Skipped(vs[i], exclude) && Eligible(cfg, tip, vs[i], method_) {
          if GenericScore(cfg, tip, vs[i]) > 0.0 {
            var k := GenericComplete(cfg, tip, vs, exclude, i);
          } else {
            var k := MeasuredComplete(vs, exclude, i);
          }
        }
      }
    } else {
      var i := ScoredMembers(cfg, tip, vs, method_, exclude, 0);
    }
  }

  // ---------- the scores ----------

  lemma LatencyScoreBounds(s: Option<MethodStats>)
    requires SaneStats(s)
    ensures 0.0 < LatencyScore(s) <= 1.0
  {
    if s.Some? && s.value.samples > 0 {
      var d := 1.0 + s.value.ewmaLatency / 100.0;
      assert d >= 1.0;
      assert (1.0 / d) * d == 1.0;
      if 1.0 / d <= 0.0 {
        Product(0.0 - 1.0 / d, d, d);
      }
      Product(1.0 / d, 1.0, d);
    }
  }

  lemma AtMostOne(a: real, b: real)
    requires 0.0 <= a && 0.0 <= b <= 1.0
    ensures 0.0 <= a * b <= a
    ensures a > 0.0 && b > 0.0 ==> a * b > 0.0
  {
    Product(a, b, 1.0);
  }

  /** Every generic score lies between 0 and the sum of the weights, and with a positive
      latency weight it is never 0: only exclusion or the breaker can rule an upstream out. */
  lemma GenericScoreBounds(cfg: Config, tip: nat, v: View)
    requires cfg.Valid() && Sane(v)
    ensures 0.0 <= GenericScore(cfg, tip, v) <= cfg.latencyWeight + cfg.successWeight
    ensures cfg.latencyWeight > 0.0 ==> GenericScore(cfg, tip, v) > 0.0
  {
    LatencyScoreBounds(v.stats);
    WeightedBounds(cfg.latencyWeight, LatencyScore(v.stats), cfg.successWeight, SuccessScore(v.stats),
                   LagPenalty(tip, v.lastSlot, cfg.maxSlotLag));
  }

  lemma WeightedBounds(lw: real, ls: real, sw: real, ss: real, penalty: real)
    requires 0.0 <= lw && 0.0 < ls <= 1.0 && 0.0 <= sw && 0.0 <= ss <= 1.0 && (penalty == 1.0 || penalty == 0.1)
    ensures 0.0 <= (lw * ls + sw * ss) * penalty <= lw + sw
    ensures lw > 0.0 ==> (lw * ls + sw * ss) * penalty > 0.0
  {
    AtMostOne(lw, ls);
    AtMostOne(sw, ss);
    Penalised(lw * ls, lw, sw * ss, sw, penalty);
  }

  lemma Penalised(l: real, lw: real, r: real, sw: real, penalty: real)
    requires 0.0 <= l <= lw && 0.0 <= r <= sw && (penalty == 1.0 || penalty == 0.1)
    ensures 0.0 <= (l + r) * penalty <= lw + sw
    ensures l > 0.0 ==> (l + r) * penalty > 0.0
  {
    if penalty == 0.1 {
      assert (l + r) * penalty == (l + r) * 0.1;
    }
  }

  /** Some record has gone into the averages. */
  predicate Sampled(v: View) { v.stats.Some? && v.stats.value.samples > 0 }

  lemma Reciprocal(l: real, latency: real)
    requires latency >= 0.0 && l * (100.0 + latency) == 100.0
    ensures l == Speed(latency)
  {
    var d := 1.0 + latency / 100.0;
    assert l * (100.0 * d) == 100.0 * (l * d);
    assert l * d == 1.0 && (1.0 / d) * d == 1.0;
    Scale(l, 1.0 / d, d);
    Scale(1.0 / d, l, d);
  }

  /** The score in closed form: 100 over 100 plus the average latency, and the success
      average, or one half each without a sample, weighted and cut to a tenth by a lag
      above the maximum. */
  lemma ScoreIs(cfg: Config, tip: nat, v: View, l: real, s: real, penalty: real)
    requires cfg.Valid() && Sane(v)
    requires Sampled(v) ==> l * (100.0 + v.stats.value.ewmaLatency) == 100.0 && s == v.stats.value.ewmaSuccess
    requires !Sampled(v) ==> l == 0.5 && s == 0.5
    requires penalty == if tip > v.lastSlot + cfg.maxSlotLag then 0.1 else 1.0
    ensures GenericScore(cfg, tip, v) == (cfg.latencyWeight * l + cfg.successWeight * s) * penalty
  {
    if Sampled(v) {
      Reciprocal(l, v.stats.value.ewmaLatency);
    }
    assert LatencyScore(v.stats) == l && SuccessScore(v.stats) == s;
    assert LagPenalty(tip, v.lastSlot, cfg.maxSlotLag) == penalty;
  }

  lemma CombinedLess(lw: real, ls: real, sw: real, x: real, y: real, penalty: real)
    requires x < y && (penalty == 1.0 || penalty == 0.1)
    ensures sw > 0.0 ==> Combined(lw, ls, sw, x, penalty) < Combined(lw, ls, sw, y, penalty)
    ensures sw > 0.0 ==> Combined(sw, x, lw, ls, penalty) < Combined(sw, y, lw, ls, penalty)
  {
    if sw > 0.0 {
      Scale(x, y, sw);
      Scale(lw * ls + sw * x, lw * ls + sw * y, penalty);
    }
  }

  /** At equal latency and lag, succeeding more often scores strictly higher. */
  lemma SuccessRaises(cfg: Config, tip: nat, a: View, b: View)
    requires cfg.Valid() && Sane(a) && Sane(b) && Sampled(a) && Sampled(b) && a.lastSlot == b.lastSlot
    requires a.stats.value.ewmaLatency == b.stats.value.ewmaLatency
    requires cfg.successWeight > 0.0 && a.stats.value.ewmaSuccess < b.stats.value.ewmaSuccess
    ensures GenericScore(cfg, tip, a) < GenericScore(cfg, tip, b)
  {
    assert LatencyScore(a.stats) == LatencyScore(b.stats);
    CombinedLess(cfg.latencyWeight, LatencyScore(a.stats), cfg.successWeight, SuccessScore(a.stats),
                 SuccessScore(b.stats), LagPenalty(tip, a.lastSlot, cfg.maxSlotLag));
  }

  lemma FasterScore(la: real, lb: real)
    requires 0.0 <= la < lb
    ensures Speed(lb) < Speed(la)
  {
    var x, y := 1.0 + la / 100.0, 1.0 + lb / 100.0;
    Quotients(1.0, y, x);
    Scale(1.0 / y, 1.0 / x, x * y);
  }

  /** At equal success and lag, a lower latency scores strictly higher. */
  lemma LatencyLowers(cfg: Config, tip: nat, a: View, b: View)
    requires cfg.Valid() && Sane(a) && Sane(b) && Sampled(a) && Sampled(b) && a.lastSlot == b.lastSlot
    requires a.stats.value.ewmaSuccess == b.stats.value.ewmaSuccess
    requires cfg.latencyWeight > 0.0 && a.stats.value.ewmaLatency < b.stats.value.ewmaLatency
    ensures GenericScore(cfg, tip, b) < GenericScore(cfg, tip, a)
  {
    FasterScore(a.stats.value.ewmaLatency, b.stats.value.ewmaLatency);
    CombinedLess(cfg.successWeight, SuccessScore(a.stats), cfg.latencyWeight, LatencyScore(b.stats),
                 LatencyScore(a.stats), LagPenalty(tip, a.lastSlot, cfg.maxSlotLag));
  }

  /** A lag above the maximum leaves a tenth of the score, any other leaves all of it. */
  lemma LagLeavesTenth(cfg: Config, tip: nat, v: View)
    requires cfg.Valid() && Sane(v)
    ensures GenericScore(cfg, tip, v) ==
            GenericScore(cfg, tip, v.(lastSlot := tip)) * (if tip > v.lastSlot + cfg.maxSlotLag then 0.1 else 1.0)
  {
    assert LagPenalty(tip, tip, cfg.maxSlotLag) == 1.0;
  }

  /** Which upstreams score at all: without a latency weight, one that only ever failed
      scores zero, and generic selection never considers it again. */
  lemma ScorePositiveIff(cfg: Config, tip: nat, v: View)
    requires cfg.Valid() && Sane(v)
    ensures GenericScore(cfg, tip, v) > 0.0 <==>
            || cfg.latencyWeight > 0.0
            || (cfg.successWeight > 0.0 && (Sampled(v) ==> v.stats.value.ewmaSuccess > 0.0))
  {
    GenericScoreBounds(cfg, tip, v);
    var penalty := LagPenalty(tip, v.lastSlot, cfg.maxSlotLag);
    var r := cfg.successWeight * SuccessScore(v.stats);
    if cfg.latencyWeight == 0.0 {
      AtMostOne(cfg.successWeight, SuccessScore(v.stats));
      assert GenericScore(cfg, tip, v) == r * penalty;
      AtMostOne(r, penalty);
    }
  }

  lemma {:induction false} MinScoreIsMinimum(cs: seq<Candidate>) returns (best: nat)
    requires cs != []
    ensures best < |cs| && cs[best].score == MinScore(cs)
    ensures forall k :: 0 <= k < |cs| ==> MinScore(cs) <= cs[k].score
  {
    var n := |cs| - 1;
    if n == 0 {
      best := 0;
    } else {
      best := MinScoreIsMinimum(cs[..n]);
      assert forall k :: 0 <= k < n ==> cs[k] == cs[..n][k];
      if cs[n].score < MinScore(cs[..n]) {
        best := n;
      }
    }
  }

  // ---------- the measured path, in milliseconds ----------

  /** Two quotients of `best`, multiplied out. */
  lemma Quotients(best: real, fb: real, p: real)
    requires fb > 0.0 && p > 0.0
    ensures p * fb > 0.0
    ensures (best / p) * (p * fb) == best * fb && (best / fb) * (p * fb) == best * p
  {
    Product(p, fb, fb);
    assert (best / p) * p == best && (best / fb) * fb == best;
    assert (best / p) * (p * fb) == ((best / p) * p) * fb;
    assert (best / fb) * (p * fb) == ((best / fb) * fb) * p;
  }

  lemma QuotientFalls(best: real, fb: real, p: real)
    requires best >= 0.0 && 0.0 < fb <= p
    ensures best / p <= best / fb
  {
    Quotients(best, fb, p);
    Product(best, fb, p);
    Scale(best / fb, best / p, p * fb);
  }

  lemma TieArithmetic(best: real, fb: real, p: real)
    requires fb > 0.0 && p > 0.0
    ensures best / p > best / fb - TIE <==> (best - TIE * fb) * p < best * fb
  {
    var w := p * fb;
    Quotients(best, fb, p);
    Scale(best / fb - TIE, best / p, w);
    assert (best / fb - TIE) * w == (best / fb) * w - TIE * w;
    assert (best - TIE * fb) * p == best * p - TIE * w;
  }

  lemma MarginArithmetic(best: real, fb: real, p: real, margin: real)
    requires best >= 0.0 && fb > 0.0 && p > 0.0
    ensures best / p >= Cut(best / fb, margin) <==> best == 0.0 || Cut(p, margin) <= fb
  {
    var w, b := p * fb, 1.0 - margin;
    Quotients(best, fb, p);
    Scale(best / p, (best / fb) * b, w);
    assert ((best / fb) * b) * w == ((best / fb) * w) * b;
    assert (best * p) * b == (p * b) * best;
    if best > 0.0 {
      Scale(fb, p * b, best);
    }
  }

  /** A median in milliseconds, but no less than one microsecond. */
  function AtLeastMicro(p50: real): real { if p50 < 0.001 then 0.001 else p50 }

  predicate Medians(measured: seq<Candidate>) {
    measured != [] && forall k :: 0 <= k < |measured| ==> measured[k].score >= 0.0
  }

  lemma FlippedTop(measured: seq<Candidate>)
    requires Medians(measured)
    ensures Top(Flipped(measured)) == MinScore(measured) / Floored(MinScore(measured))
  {
    var best := MinScoreIsMinimum(measured);
    var top := TopIsMaximum(Flipped(measured));
    QuotientFalls(MinScore(measured), Floored(MinScore(measured)), Floored(measured[top].score));
    assert Flipped(measured)[best].score <= Top(Flipped(measured));
  }

  lemma ElectableRatio(measured: seq<Candidate>, k: nat, best: real, fb: real, p: real)
    requires Medians(measured) && k < |measured|
    requires best == MinScore(measured) && fb == Floored(best) && p == Floored(measured[k].score)
    ensures Electable(Flipped(measured), k) <==> best / p > best / fb - TIE
  {
    var top := TopIsMaximum(Flipped(measured));
    FlippedTop(measured);
    assert Flipped(measured)[k].score <= Top(Flipped(measured));
  }

  /** Who can be crowned on the measured path, in milliseconds: those whose floored
      median exceeds the best one by no more than the tie tolerance allows. */
  lemma SendElectableIff(measured: seq<Candidate>, k: nat, best: real, fb: real, p: real)
    requires Medians(measured) && k < |measured|
    requires best == MinScore(measured) && fb == AtLeastMicro(best) && p == AtLeastMicro(measured[k].score)
    ensures Electable(Flipped(measured), k) <==> (best - TIE * fb) * p < best * fb
  {
    ElectableRatio(measured, k, best, fb, p);
    TieArithmetic(best, fb, p);
  }

  lemma HeldRatio(l: string, measured: seq<Candidate>, margin: real, k: nat, best: real, fb: real, p: real)
    requires Medians(measured) && Sits(Some(l), Flipped(measured)) && k == IndexOf(Flipped(measured), l)
    requires best == MinScore(measured) && fb == Floored(best) && p == Floored(measured[k].score)
    ensures best >= 0.0
    ensures Held(Some(l), Flipped(measured), margin) <==> best / p >= Cut(best / fb, margin)
  {
    var at := MinScoreIsMinimum(measured);
    FlippedTop(measured);
    var score, top := Flipped(measured)[k].score, Top(Flipped(measured));
    assert score == best / p && top == best / fb;
    assert Held(Some(l), Flipped(measured), margin) <==> score >= Cut(top, margin);
  }

  /** Who keeps the seat on the measured path: a leader whose floored median, cut by the
      margin, does not exceed the best one; and anybody once some median is zero. */
  lemma SendHeldIff(l: string, measured: seq<Candidate>, margin: real, k: nat, best: real, fb: real, p: real)
    requires Medians(measured) && Sits(Some(l), Flipped(measured)) && k == IndexOf(Flipped(measured), l)
    requires best == MinScore(measured) && fb == AtLeastMicro(best) && p == AtLeastMicro(measured[k].score)
    ensures Held(Some(l), Flipped(measured), margin) <==> best == 0.0 || Cut(p, margin) <= fb
  {
    HeldRatio(l, measured, margin, k, best, fb, p);
    MarginArithmetic(best, fb, p, margin);
  }

  /** So whoever is chosen has a median near the best one, unless the best is so small,
      against the tie tolerance, that no score tells anybody apart. */
  lemma SendChoiceNearBest(leader: Option<string>, measured: seq<Candidate>, margin: real, k: nat,
                           best: real, fb: real, p: real)
    requires Medians(measured) && k < |measured| && Choice(leader, Flipped(measured), margin, Some(k))
    requires best == MinScore(measured) && fb == AtLeastMicro(best) && p == AtLeastMicro(measured[k].score)
    ensures best == 0.0 || Cut(p, margin) <= fb || (best - TIE * fb) * p < best * fb
  {
    if Held(leader, Flipped(measured), margin) {
      SendHeldIff(leader.value, measured, margin, k, best, fb, p);
    } else {
      SendElectableIff(measured, k, best, fb, p);
    }
  }

  /** Below that nothing tells them apart: with a best median of zero every score is zero,
      so everybody can be crowned and everybody who sits keeps the seat, however slow. */
  lemma ZeroMedianTiesAll(measured: seq<Candidate>, margin: real, k: nat)
    requires Medians(measured) && MinScore(measured) == 0.0 && k < |measured|
    ensures Electable(Flipped(measured), k)
    ensures forall l :: Sits(Some(l), Flipped(measured)) ==> Held(Some(l), Flipped(measured), margin)
  {
    ZeroMedianElects(measured, k);
    forall l | Sits(Some(l), Flipped(measured)) ensures Held(Some(l), Flipped(measured), margin) {
      ZeroMedianHolds(measured, l, margin);
    }
  }

  lemma ZeroTie(fb: real, p: real)
    requires fb > 0.0 && p > 0.0
    ensures (0.0 - TIE * fb) * p < 0.0 * fb
  {
    Product(fb, p, p);
    assert (0.0 - TIE * fb) * p == 0.0 - TIE * (fb * p);
  }

  lemma ZeroMedianElects(measured: seq<Candidate>, k: nat)
    requires Medians(measured) && MinScore(measured) == 0.0 && k < |measured|
    ensures Electable(Flipped(measured), k)
  {
    var fb, p := Floored(0.0), Floored(measured[k].score);
    SendElectableIff(measured, k, 0.0, fb, p);
    ZeroTie(fb, p);
  }

  lemma ZeroMedianHolds(measured: seq<Candidate>, l: string, margin: real)
    requires Medians(measured) && MinScore(measured) == 0.0 && Sits(Some(l), Flipped(measured))
    ensures Held(Some(l), Flipped(measured), margin)
  {
    var at := IndexOf(Flipped(measured), l);
    SendHeldIff(l, measured, margin, at, 0.0, Floored(0.0), Floored(measured[at].score));
  }

  // ---------- scores below the tie tolerance ----------

  /** One record each: 300, 100 and 220 ms. */
  function TinyHistory(m: string): seq<Rec> {
    [Rec("a", m, 300.0, true, 0), Rec("b", m, 100.0, true, 0), Rec("c", m, 220.0, true, 0)]
  }

  function TinyConfig(): Config {
    Config(0.000000000004, 0.0, 0.5, 0.1, 50, 150, 0.5, 30000, 60000, 3, true, 64)
  }

  function TinyView(name: string, m: string): View {
    View(name, false, 0, GetOf(TinyConfig().ewmaAlpha, TinyHistory(m), name, m), None)
  }

  lemma TinySamples(name: string, m: string)
    ensures Samples(TinyHistory(m), name, m) ==
            (if name == "a" then [Sample(300.0, true)] else []) +
            (if name == "b" then [Sample(100.0, true)] else []) +
            (if name == "c" then [Sample(220.0, true)] else [])
  {
    var h := TinyHistory(m);
    var a, b, c := h[0], h[1], h[2];
    assert [] + [a] == [a] && [a] + [b] == [a, b] && [a, b] + [c] == h;
    SamplesSnoc([], a, name, m);
    SamplesSnoc([a], b, name, m);
    SamplesSnoc([a, b], c, name, m);
  }

  lemma FoldOne(alpha: real, x: Sample)
    ensures AverageOf(alpha, [x]) == Some(MethodStats(x.latency, Hit(x.ok), 1))
  {
    assert [x][..0] == [];
  }

  lemma TinyStats(m: string)
    ensures TinyView("a", m).stats == Some(MethodStats(300.0, 1.0, 1))
    ensures TinyView("b", m).stats == Some(MethodStats(100.0, 1.0, 1))
    ensures TinyView("c", m).stats == Some(MethodStats(220.0, 1.0, 1))
  {
    TinySamples("a", m);
    TinySamples("b", m);
    TinySamples("c", m);
    FoldOne(0.5, Sample(300.0, true));
    FoldOne(0.5, Sample(100.0, true));
    FoldOne(0.5, Sample(220.0, true));
  }

  lemma TinyScore(name: string, m: string, latency: real, score: real)
    requires TinyView(name, m).stats == Some(MethodStats(latency, 1.0, 1)) && latency >= 0.0
    requires score * (1.0 + latency / 100.0) == TinyConfig().latencyWeight
    ensures Sane(TinyView(name, m)) && GenericScore(TinyConfig(), 0, TinyView(name, m)) == score
  {
    var d := 1.0 + latency / 100.0;
    assert LatencyScore(TinyView(name, m).stats) == 1.0 / d;
    assert score * d * (1.0 / d) == score;
  }

  lemma TinyNext(vs: seq<View>, name: string, m: string, latency: real, score: real)
    requires TinyView(name, m).stats == Some(MethodStats(latency, 1.0, 1)) && latency >= 0.0
    requires score * (1.0 + latency / 100.0) == TinyConfig().latencyWeight && score > 0.0 && AllSane(vs)
    ensures AllSane(vs + [TinyView(name, m)])
    ensures Generic(TinyConfig(), 0, vs + [TinyView(name, m)], []) ==
            Generic(TinyConfig(), 0, vs, []) + [Candidate(name, score)]
  {
    TinyScore(name, m, latency, score);
    GenericSnoc(TinyConfig(), 0, vs, TinyView(name, m), []);
  }

  /** Valid settings and one record per upstream from which selection gets exactly the
      scores whose leader can alternate for ever. */
  lemma TinyIsScored(m: string)
    requires m != SEND_TRANSACTION
    ensures TinyConfig().Valid() && TinyConfig().hysteresisMargin == 0.1
    ensures
      var vs := [] + [TinyView("a", m)] + [TinyView("b", m)] + [TinyView("c", m)];
      AllSane(vs) && Scored(TinyConfig(), 0, vs, m, []) == Tiny()
  {
    TinyStats(m);
    TinyNext([], "a", m, 300.0, Tiny()[0].score);
    TinyNext([] + [TinyView("a", m)], "b", m, 100.0, Tiny()[1].score);
    TinyNext([] + [TinyView("a", m)] + [TinyView("b", m)], "c", m, 220.0, Tiny()[2].score);
  }
}
