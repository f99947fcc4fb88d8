/** The upstream pool: selection over live objects, and the selection/admission loop. */
module Pool {
  import opened Circuit
  import opened Config
  import opened Hysteresis
  import opened Scoring
  import opened Stats
  import opened Tip
  import opened Wrappers

  type Scores = seq<(Upstream, real)>

  function Names(cs: Scores): (r: seq<Candidate>)
    ensures |r| == |cs|
  {
    seq(|cs|, i requires 0 <= i < |cs| => Candidate(cs[i].0.name, cs[i].1))
  }

  predicate FromPool(cs: Scores, us: seq<Upstream>) {
    forall k :: 0 <= k < |cs| ==> cs[k].0 in us
  }

  lemma NamesSnoc(cs: Scores, c: (Upstream, real))
    ensures Names(cs + [c]) == Names(cs) + [Candidate(c.0.name, c.1)]
  {}

  lemma PoolSnoc(cs: Scores, us: seq<Upstream>, i: nat, x: real)
    requires FromPool(cs, us) && i < |us|
    ensures FromPool(cs + [(us[i], x)], us)
  {}

  ghost predicate SaneHistory(h: seq<Rec>) {
    forall i :: 0 <= i < |h| ==> h[i].latency >= 0.0
  }

  function LeaderOf(leaders: map<string, string>, m: string): Option<string> {
    if m in leaders then Some(leaders[m]) else None
  }

  function NameSet(us: seq<Upstream>): set<string> { set i | 0 <= i < |us| :: us[i].name }

  /** No name occurs twice, as the configuration check makes sure. */
  ghost predicate UniqueNames(us: seq<Upstream>) {
    us == [] || (us[|us| - 1].name !in NameSet(us[..|us| - 1]) && UniqueNames(us[..|us| - 1]))
  }

  lemma {:induction false} NamesDiffer(us: seq<Upstream>, i: nat, j: nat)
    requires UniqueNames(us) && i < j < |us|
    ensures us[i].name != us[j].name
  {
    var n := |us| - 1;
    if j == n {
      assert us[..n][i].name in NameSet(us[..n]);
    } else {
      NamesDiffer(us[..n], i, j);
    }
  }

  /** A name identifies an upstream. */
  lemma SameName(us: seq<Upstream>, u: Upstream, w: Upstream)
    requires UniqueNames(us) && u in us && w in us && u.name == w.name
    ensures u == w
  {
    var i :| 0 <= i < |us| && us[i] == u;
    var j :| 0 <= j < |us| && us[j] == w;
    if i < j {
      NamesDiffer(us, i, j);
    } else if j < i {
      NamesDiffer(us, j, i);
    }
  }

  class UpstreamPool {
    const upstreams: seq<Upstream>
    const stats: StatsStore
    const tip: TipCell
    const config: Config
    /** Sticky leader per method. */
    var currentLeader: map<string, string>

    ghost predicate Valid()
      reads stats
    {
      && config.Valid() && stats.Valid() && SaneHistory(stats.history)
      && stats.alpha == config.ewmaAlpha && stats.window == config.rollingWindow
      && UniqueNames(upstreams)
    }

    constructor (names: seq<string>, config: Config)
      requires config.Valid() && forall i, j :: 0 <= i < j < |names| ==> names[i] != names[j]
      ensures Valid() && this.config == config && currentLeader == map[]
      ensures |upstreams| == |names| && fresh(stats) && fresh(tip)
      ensures forall i :: 0 <= i < |names| ==>
                upstreams[i].name == names[i] && upstreams[i].cap == config.maxConcurrent &&
                upstreams[i].available == config.maxConcurrent && upstreams[i].circuit == Closed
      ensures tip.slot == 0 && stats.history == []
    {
      var us: seq<Upstream> := [];
      for i := 0 to |names|
        invariant |us| == i && UniqueNames(us)
        invariant forall k :: 0 <= k < i ==>
                    us[k].name == names[k] && us[k].cap == config.maxConcurrent &&
                    us[k].available == config.maxConcurrent && us[k].circuit == Closed
      {
        var u := new Upstream(names[i], config.maxConcurrent);
        assert (us + [u])[..i] == us;
        us := us + [u];
      }
      var store := new StatsStore(config.ewmaAlpha, config.rollingWindow);
      var cell := new TipCell();
      upstreams, stats, tip, this.config, currentLeader := us, store, cell, config, map[];
    }

    ghost function ViewAt(i: nat, m: string, now: nat): View
      requires i < |upstreams|
      reads stats, upstreams
    {
      var u := upstreams[i];
      View(u.name, Dropped(u.circuit, now), u.lastSlot,
           stats.Get(u.name, m), stats.SendTxP50(u.name))
    }

    ghost function FirstViews(n: nat, m: string, now: nat): (vs: seq<View>)
      requires n <= |upstreams|
      reads stats, upstreams
      ensures |vs| == n
    {
      if n == 0 then [] else FirstViews(n - 1, m, now) + [ViewAt(n - 1, m, now)]
    }

    /** What selection sees of the pool at `now`. */
    ghost function Views(m: string, now: nat): (vs: seq<View>)
      reads stats, upstreams
      ensures |vs| == |upstreams|
    {
      FirstViews(|upstreams|, m, now)
    }

    lemma {:induction false} FirstViewsAt(n: nat, m: string, now: nat, i: nat)
      requires i < n <= |upstreams|
      ensures FirstViews(n, m, now)[i] == ViewAt(i, m, now)
    {
      if i < n - 1 {
        FirstViewsAt(n - 1, m, now, i);
      }
    }

    lemma {:induction false} FirstViewsSane(n: nat, m: string, now: nat)
      requires Valid() && n <= |upstreams|
      ensures AllSane(FirstViews(n, m, now))
    {
      if n > 0 {
        FirstViewsSane(n - 1, m, now);
        ViewSane(n - 1, m, now);
      }
    }

    lemma ViewSane(i: nat, m: string, now: nat)
      requires Valid() && i < |upstreams|
      ensures Sane(ViewAt(i, m, now))
    {
      var u := upstreams[i].name;
      stats.GetIs(u, m);
      stats.SendTxP50Is(u);
      GetBounds(stats.alpha, stats.history, u, m);
      if SendP50Of(stats.window, stats.history, u).Some? {
        SendP50IsMedian(stats.window, stats.history, u);
      }
    }

    lemma ViewsSane(m: string, now: nat)
      requires Valid()
      ensures AllSane(Views(m, now))
    {
      FirstViewsSane(|upstreams|, m, now);
    }

    /** The candidates selection would consider. */
    ghost function Candidates(m: string, exclude: seq<string>, now: nat): seq<Candidate>
      requires Valid()
      reads stats, upstreams, tip
    {
      ViewsSane(m, now);
      Scored(config, tip.slot, Views(m, now), m, exclude)
    }

    /** Sticky-leader hysteresis over scored candidates; the tiebreak is random. */
    method ApplyHysteresis(m: string, candidates: Scores, margin: real)
      returns (r: Option<Upstream>, ghost pick: Option<nat>)
      modifies this`currentLeader
      ensures pick.Some? ==> pick.value < |candidates|
      ensures Choice(LeaderOf(old(currentLeader), m), Names(candidates), margin, pick)
      ensures r == if pick.Some? then Some(candidates[pick.value].0) else None
      ensures LeaderOf(currentLeader, m) == Named(Names(candidates), pick, LeaderOf(old(currentLeader), m))
      ensures forall k :: k != m ==> LeaderOf(currentLeader, k) == LeaderOf(old(currentLeader), k)
    {
      if candidates == [] {
        return None, None;
      }
      var names := Names(candidates);
      var topScore := Top(names);
      if m in currentLeader {
        var i := IndexOf(names, currentLeader[m]);
        if i < |candidates| && candidates[i].1 >= Cut(topScore, margin) {
          return Some(candidates[i].0), Some(i);
        }
      }
      ghost var best := TopIsMaximum(names);
      assert Electable(names, best);
      var k: nat :| k < |candidates| && Electable(names, k);
      currentLeader := currentLeader[m := candidates[k].0.name];
      return Some(candidates[k].0), Some(k);
    }

    /** The median of an upstream that is neither excluded nor dropped. */
    function Median(i: nat, ghost m: string, exclude: seq<string>, now: nat): (p50: Option<real>)
      requires i < |upstreams|
      reads stats, upstreams
      ensures p50 == if Skipped(ViewAt(i, m, now), exclude) then None else ViewAt(i, m, now).p50
    {
      var u := upstreams[i];
      if u.name in exclude || u.IsDropped(now) then None else stats.SendTxP50(u.name)
    }

    lemma MeasuredNext(i: nat, m: string, exclude: seq<string>, now: nat)
      requires i < |upstreams|
      ensures
        var p50 := Median(i, m, exclude, now);
        Measured(FirstViews(i + 1, m, now), exclude) ==
        Measured(FirstViews(i, m, now), exclude) +
        (if p50.Some? then [Candidate(upstreams[i].name, p50.value)] else [])
    {
      MeasuredSnoc(FirstViews(i, m, now), ViewAt(i, m, now), exclude);
    }

    /** Every measured upstream, in pool order. */
    method CollectMeasured(m: string, exclude: seq<string>, now: nat) returns (measured: Scores)
      requires stats.Valid()
      ensures Names(measured) == Measured(Views(m, now), exclude)
      ensures FromPool(measured, upstreams)
    {
      measured := [];
      for i := 0 to |upstreams|
        invariant FromPool(measured, upstreams)
        invariant Names(measured) == Measured(FirstViews(i, m, now), exclude)
      {
        MeasuredNext(i, m, exclude, now);
        var p50 := Median(i, m, exclude, now);
        if p50.Some? {
          NamesSnoc(measured, (upstreams[i], p50.value));
          PoolSnoc(measured, upstreams, i, p50.value);
          measured := measured + [(upstreams[i], p50.value)];
        }
      }
    }

    /** The positive generic score of an upstream that is neither excluded nor dropped. */
    function Worth(i: nat, m: string, exclude: seq<string>, now: nat): (score: Option<real>)
      requires i < |upstreams| && stats.Valid() && Sane(ViewAt(i, m, now))
      reads stats, upstreams, tip
      ensures
        var v := ViewAt(i, m, now);
        score == if !Skipped(v, exclude) && GenericScore(config, tip.slot, v) > 0.0
                 then Some(GenericScore(config, tip.slot, v)) else None
    {
      var u := upstreams[i];
      if u.name in exclude || u.IsDropped(now) then None
      else
        var x := ScoreOf(config, tip.slot, u.lastSlot, stats.Get(u.name, m));
        if x > 0.0 then Some(x) else None
    }

    /** Every upstream with a positive generic score, in pool order. */
    method CollectGeneric(m: string, exclude: seq<string>, now: nat) returns (candidates: Scores)
      requires Valid() && AllSane(Views(m, now))
      ensures Names(candidates) == Generic(config, tip.slot, Views(m, now), exclude)
      ensures FromPool(candidates, upstreams)
    {
      candidates := [];
      ViewsSane(m, now);
      for i := 0 to |upstreams|
        invariant FromPool(candidates, upstreams) && AllSane(FirstViews(i, m, now))
        invariant Names(candidates) == Generic(config, tip.slot, FirstViews(i, m, now), exclude)
      {
        ViewSane(i, m, now);
        FirstViewsSane(i + 1, m, now);
        GenericSnoc(config, tip.slot, FirstViews(i, m, now), ViewAt(i, m, now), exclude);
        var score := Worth(i, m, exclude, now);
        if score.Some? {
          NamesSnoc(candidates, (upstreams[i], score.value));
          PoolSnoc(candidates, upstreams, i, score.value);
          candidates := candidates + [(upstreams[i], score.value)];
        }
      }
    }

    method SelectMeasured(m: string, exclude: seq<string>, now: nat) returns (scored: Scores)
      requires stats.Valid()
      ensures FromPool(scored, upstreams)
      ensures Names(scored) == MeasuredScores(Views(m, now), exclude)
    {
      scored := CollectMeasured(m, exclude, now);
      if scored != [] {
        scored := FlipAll(scored);
      }
    }

    /** Lower medians are better; turn them into scores of which higher ones are. */
    method FlipAll(measured: Scores) returns (scored: Scores)
      requires measured != [] && FromPool(measured, upstreams)
      ensures Names(scored) == Flipped(Names(measured)) && FromPool(scored, upstreams)
    {
      var bestP50 := MinScore(Names(measured));
      scored := seq(|measured|, i requires 0 <= i < |measured| =>
        (measured[i].0, bestP50 / Floored(measured[i].1)));
      assert forall k :: 0 <= k < |scored| ==> scored[k].0 == measured[k].0;
    }

    /** The scored candidates: the measured ones for `sendTransaction` if there are any,
        otherwise everybody with a positive generic score. */
    method ScoreAll(m: string, exclude: seq<string>, now: nat) returns (scored: Scores)
      requires Valid()
      ensures Names(scored) == Candidates(m, exclude, now) && FromPool(scored, upstreams)
    {
      ViewsSane(m, now);
      if m == SEND_TRANSACTION {
        scored := SelectMeasured(m, exclude, now);
        if scored != [] {
          return;
        }
      }
      scored := CollectGeneric(m, exclude, now);
    }

    /** Pick an upstream for a method: a sticky leader among the scored candidates. */
    method SelectForMethod(m: string, exclude: seq<string>, now: nat)
      returns (r: Option<Upstream>, ghost pick: Option<nat>)
      requires Valid()
      modifies this`currentLeader
      ensures
        var cands := old(Candidates(m, exclude, now));
        && Choice(LeaderOf(old(currentLeader), m), cands, config.hysteresisMargin, pick)
        && (pick.Some? ==> pick.value < |cands|)
        && LeaderOf(currentLeader, m) == Named(cands, pick, LeaderOf(old(currentLeader), m))
        && (r.Some? <==> pick.Some?)
        && (r.Some? ==> r.value in upstreams && r.value.name == cands[pick.value].name)
      ensures forall k :: k != m ==> LeaderOf(currentLeader, k) == LeaderOf(old(currentLeader), k)
    {
      var scored := ScoreAll(m, exclude, now);
      r, pick := ApplyHysteresis(m, scored, config.hysteresisMargin);
    }
  }
}
