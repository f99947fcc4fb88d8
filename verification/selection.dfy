/** Find the best upstream that also admits the request, skipping those that refuse. */
module Selection {
  import opened Circuit
  import opened Config
  import opened Hysteresis
  import opened Pool
  import opened Scoring
  import opened Stats
  import opened Wrappers

  /** What an admission attempt that was refused leaves behind. */
  twostate predicate Refused(u: Upstream, now: nat)
    reads u
  {
    && Admitted(old(u.circuit), old(u.available), now) == None
    && Admitted(u.circuit, u.available, now) == None
    && u.circuit == AfterAdmit(old(u.circuit), old(u.available), now)
    && u.available == old(u.available) && u.lastSlot == old(u.lastSlot)
    && u.probeLog == old(u.probeLog) && u.held == old(u.held)
  }

  /** `TryAdmit` was called on `u` and let the request through. */
  twostate predicate Taken(u: Upstream, isProbe: bool, now: nat)
    reads u
  {
    && Admitted(old(u.circuit), old(u.available), now) == Some(isProbe)
    && u.circuit == AfterAdmit(old(u.circuit), old(u.available), now)
    && u.available == old(u.available) - 1 && u.held == old(u.held) + 1 && u.lastSlot == old(u.lastSlot)
    && u.probeLog == if isProbe then old(u.probeLog) + [Granted] else old(u.probeLog)
  }

  ghost predicate EligibleAt(pool: UpstreamPool, i: nat, m: string, now: nat)
    requires pool.Valid() && i < |pool.upstreams|
    reads pool.stats, pool.upstreams, pool.tip
  {
    pool.ViewsSane(m, now);
    Eligible(pool.config, pool.tip.slot, pool.Views(m, now)[i].(dropped := false), m)
  }

  /** With a positive latency weight every upstream is eligible, so selection returns
      nothing exactly when every upstream not excluded refuses admission. */
  lemma WeightMakesEligible(pool: UpstreamPool, i: nat, m: string, now: nat)
    requires pool.Valid() && i < |pool.upstreams| && pool.config.latencyWeight > 0.0
    ensures EligibleAt(pool, i, m, now)
  {
    pool.ViewsSane(m, now);
    assert Sane(pool.Views(m, now)[i]);
    GenericScoreBounds(pool.config, pool.tip.slot, pool.Views(m, now)[i].(dropped := false));
  }

  lemma NoCandidates(pool: UpstreamPool, m: string, filter: seq<string>, now: nat)
    requires pool.Valid() && pool.Candidates(m, filter, now) == []
    ensures forall i :: 0 <= i < |pool.upstreams| ==>
              pool.upstreams[i].name in filter || Dropped(pool.upstreams[i].circuit, now)
              || !EligibleAt(pool, i, m, now)
  {
    pool.ViewsSane(m, now);
    ScoredEmptyIff(pool.config, pool.tip.slot, pool.Views(m, now), m, filter);
    forall i | 0 <= i < |pool.upstreams|
      ensures pool.upstreams[i].name in filter || Dropped(pool.upstreams[i].circuit, now)
              || !EligibleAt(pool, i, m, now)
    {
      pool.FirstViewsAt(|pool.upstreams|, m, now, i);
      assert pool.Views(m, now)[i] == pool.ViewAt(i, m, now);
    }
  }

  /** What a candidate is, in terms of the pool itself. */
  lemma CandidateIs(pool: UpstreamPool, m: string, filter: seq<string>, now: nat, k: nat) returns (i: nat)
    requires pool.Valid() && k < |pool.Candidates(m, filter, now)|
    ensures i < |pool.upstreams| && pool.upstreams[i].name == pool.Candidates(m, filter, now)[k].name
    ensures pool.upstreams[i].name !in filter && !Dropped(pool.upstreams[i].circuit, now)
    ensures EligibleAt(pool, i, m, now)
  {
    pool.ViewsSane(m, now);
    i := ScoredMembers(pool.config, pool.tip.slot, pool.Views(m, now), m, filter, k);
    pool.FirstViewsAt(|pool.upstreams|, m, now, i);
  }

  /** And its score: for any method but `sendTransaction`, that of its recorded averages
      and its own lag behind the tip. */
  lemma CandidateScore(pool: UpstreamPool, m: string, filter: seq<string>, now: nat, k: nat) returns (i: nat)
    requires pool.Valid() && k < |pool.Candidates(m, filter, now)| && m != "sendTransaction"
    ensures i < |pool.upstreams| && pool.upstreams[i].name == pool.Candidates(m, filter, now)[k].name
    ensures
      var u := pool.upstreams[i];
      var v := View(u.name, false, u.lastSlot, GetOf(pool.stats.alpha, pool.stats.history, u.name, m), None);
      Sane(v) && pool.Candidates(m, filter, now)[k].score == GenericScore(pool.config, pool.tip.slot, v)
  {
    pool.ViewsSane(m, now);
    i := ScoredMembers(pool.config, pool.tip.slot, pool.Views(m, now), m, filter, k);
    pool.FirstViewsAt(|pool.upstreams|, m, now, i);
    pool.stats.GetIs(pool.upstreams[i].name, m);
  }

  /** Candidate `k`, of that name, is one the sticky-leader rule allows, given what is seen
      of each upstream and who leads. */
  ghost predicate Allowed(cfg: Config, tip: nat, vs: seq<View>, m: string, filter: seq<string>,
                          leader: Option<string>, k: nat, name: string)
    requires AllSane(vs)
  {
    var cands := Scored(cfg, tip, vs, m, filter);
    k < |cands| && cands[k].name == name && Choice(leader, cands, cfg.hysteresisMargin, Some(k))
  }

  /** One turn of the loop: select, then try to be admitted. */
  method SelectAndTry(pool: UpstreamPool, m: string, filter: seq<string>, now: nat)
    returns (u: Option<Upstream>, admitted: Option<bool>, ghost at: nat, ghost k: nat)
    requires pool.Valid()
    modifies pool`currentLeader, pool.upstreams
    // The choice is one the sticky-leader rule allows, and leads from now on.
    ensures u.Some? ==>
              && AllSane(old(pool.Views(m, now)))
              && Allowed(pool.config, pool.tip.slot, old(pool.Views(m, now)), m, filter,
                         LeaderOf(old(pool.currentLeader), m), k, u.value.name)
              && LeaderOf(pool.currentLeader, m) == Some(u.value.name)
    ensures u == None ==> LeaderOf(pool.currentLeader, m) == LeaderOf(old(pool.currentLeader), m)
    ensures pool.currentLeader - {m} == old(pool.currentLeader) - {m}
    ensures pool.Views(m, now) == old(pool.Views(m, now))
    ensures u == None ==> forall w :: w in pool.upstreams ==> unchanged(w)
    ensures u == None ==>
              forall i :: 0 <= i < |pool.upstreams| ==>
                pool.upstreams[i].name in filter || Dropped(pool.upstreams[i].circuit, now)
                || !EligibleAt(pool, i, m, now)
    ensures u.Some? ==>
              && at < |pool.upstreams| && u.value == pool.upstreams[at] && u.value.name !in filter
              && old(EligibleAt(pool, at, m, now))
              && (forall w :: w in pool.upstreams && w != u.value ==> unchanged(w))
              && if admitted.Some? then Taken(u.value, admitted.value, now) else Refused(u.value, now)
  {
    ghost var cands := pool.Candidates(m, filter, now);
    pool.ViewsSane(m, now);
    if cands == [] {
      NoCandidates(pool, m, filter, now);
    }
    u, k := Select(pool, m, filter, now);
    if cands == [] {
      NoCandidates(pool, m, filter, now);
    }
    admitted := None;
    at := 0;
    if u.Some? {
      at := CandidateIs(pool, m, filter, now, k);
      SameName(pool.upstreams, u.value, pool.upstreams[at]);
      admitted := Try(pool, u.value, m, now);
    }
  }

  /** The selection half of a turn. */
  method Select(pool: UpstreamPool, m: string, filter: seq<string>, now: nat)
    returns (u: Option<Upstream>, ghost k: nat)
    requires pool.Valid()
    modifies pool`currentLeader
    ensures
      var cands := old(pool.Candidates(m, filter, now));
      && (u == None <==> cands == [])
      && (u.Some? ==>
            && k < |cands| && u.value in pool.upstreams && u.value.name == cands[k].name
            && Choice(LeaderOf(old(pool.currentLeader), m), cands, pool.config.hysteresisMargin, Some(k)))
    ensures LeaderOf(pool.currentLeader, m) ==
            if u == None then LeaderOf(old(pool.currentLeader), m) else Some(u.value.name)
    ensures pool.currentLeader - {m} == old(pool.currentLeader) - {m}
  {
    ghost var pick;
    ghost var before := pool.currentLeader;
    u, pick := pool.SelectForMethod(m, filter, now);
    OthersKeep(before, pool.currentLeader, m);
    k := if pick.Some? then pick.value else 0;
  }

  lemma OthersKeep(a: map<string, string>, b: map<string, string>, m: string)
    requires forall k :: k != m ==> LeaderOf(b, k) == LeaderOf(a, k)
    ensures b - {m} == a - {m}
  {
    forall k | k != m ensures (k in a <==> k in b) && (k in a ==> a[k] == b[k]) {
      assert LeaderOf(b, k) == LeaderOf(a, k);
    }
  }

  /** A refusal never makes an upstream look dropped, or stop looking dropped. */
  lemma AdmitKeepsDropped(c: Circuit, available: nat, now: nat)
    ensures Dropped(AfterAdmit(c, available, now), now) == Dropped(c, now)
  {}

  /** The admission half: what selection sees of the pool stays as it was. */
  method Try(pool: UpstreamPool, u: Upstream, m: string, now: nat) returns (admitted: Option<bool>)
    requires u in pool.upstreams
    modifies u`circuit, u`available, u`probeLog, u`held
    ensures pool.Views(m, now) == old(pool.Views(m, now))
    ensures if admitted.Some? then Taken(u, admitted.value, now) else Refused(u, now)
  {
    ghost var vs := pool.Views(m, now);
    forall i | 0 <= i < |pool.upstreams| ensures vs[i] == pool.ViewAt(i, m, now) {
      pool.FirstViewsAt(|pool.upstreams|, m, now, i);
    }
    AdmitKeepsDropped(u.circuit, u.available, now);
    if Admitted(u.circuit, u.available, now) == None {
      RefusalRepeats(u.circuit, u.available, now);
    }
    admitted := u.TryAdmit(now);
    forall i | 0 <= i < |pool.upstreams| ensures pool.Views(m, now)[i] == vs[i] {
      pool.FirstViewsAt(|pool.upstreams|, m, now, i);
    }
  }

  /** Everybody a request could still turn to refuses it. */
  ghost predicate NobodyLeft(pool: UpstreamPool, m: string, excluded: seq<string>, now: nat)
    requires pool.Valid()
    reads pool.stats, pool.upstreams, pool.tip
  {
    forall i :: 0 <= i < |pool.upstreams| && pool.upstreams[i].name !in excluded && EligibleAt(pool, i, m, now) ==>
      Admitted(pool.upstreams[i].circuit, pool.upstreams[i].available, now) == None
  }

  /** With a positive latency weight, nobody is left exactly when every upstream that is
      not excluded has an unexpired open circuit, a probe in flight or no permit. */
  lemma NobodyLeftIff(pool: UpstreamPool, m: string, excluded: seq<string>, now: nat)
    requires pool.Valid() && pool.config.latencyWeight > 0.0
    ensures NobodyLeft(pool, m, excluded, now) <==>
            forall u :: u in pool.upstreams && u.name !in excluded ==>
              Dropped(u.circuit, now) || u.circuit == HalfOpen(true) || u.available == 0
  {
    forall i | 0 <= i < |pool.upstreams|
      ensures EligibleAt(pool, i, m, now)
      ensures var u := pool.upstreams[i];
              Admitted(u.circuit, u.available, now) == None <==>
              Dropped(u.circuit, now) || u.circuit == HalfOpen(true) || u.available == 0
    {
      WeightMakesEligible(pool, i, m, now);
      RefusalIff(pool.upstreams[i].circuit, pool.upstreams[i].available, now);
    }
  }

  /** The upstream of that name is the one the sticky-leader rule allows among those that
      are neither in `excluded` nor among `skips`, who have all refused; whoever refused
      last leads by then, but is no candidate any more. */
  ghost predicate ChosenAfter(pool: UpstreamPool, m: string, excluded: seq<string>, skips: seq<string>, now: nat,
                              k: nat, name: string)
    requires pool.Valid()
    reads pool, pool.stats, pool.upstreams, pool.tip
  {
    pool.ViewsSane(m, now);
    && Allowed(pool.config, pool.tip.slot, pool.Views(m, now), m, excluded + skips,
               if skips == [] then LeaderOf(pool.currentLeader, m) else Some(skips[|skips| - 1]), k, name)
    && forall w :: w in pool.upstreams && w.name in skips ==> Admitted(w.circuit, w.available, now) == None
  }

  ghost predicate Chosen(pool: UpstreamPool, m: string, excluded: seq<string>, now: nat, name: string)
    requires pool.Valid()
    reads pool, pool.stats, pool.upstreams, pool.tip
  {
    exists skips, k: nat :: ChosenAfter(pool, m, excluded, skips, now, k, name)
  }

  /** Whoever is chosen scores within the margin of everybody left, or ties with the top;
      and after a refusal it ties. */
  lemma ChosenScore(pool: UpstreamPool, m: string, excluded: seq<string>, skips: seq<string>, now: nat,
                    k: nat, name: string)
    requires pool.Valid() && ChosenAfter(pool, m, excluded, skips, now, k, name)
    ensures
      var cands, margin := pool.Candidates(m, excluded + skips, now), pool.config.hysteresisMargin;
      && (cands[k].score >= Cut(Top(cands), margin) || cands[k].score > Top(cands) - 0.000000001)
      && (skips != [] ==> cands[k].score > Top(cands) - 0.000000001)
  {
    var cands := pool.Candidates(m, excluded + skips, now);
    var leader := if skips == [] then LeaderOf(pool.currentLeader, m) else Some(skips[|skips| - 1]);
    ChosenNearTop(leader, cands, pool.config.hysteresisMargin, k);
    if skips != [] {
      SkippedIsGone(pool, m, excluded + skips, now, skips[|skips| - 1]);
    }
  }

  lemma SkippedIsGone(pool: UpstreamPool, m: string, filter: seq<string>, now: nat, name: string)
    requires pool.Valid() && name in filter
    ensures !Sits(Some(name), pool.Candidates(m, filter, now))
  {
    var cands := pool.Candidates(m, filter, now);
    if Sits(Some(name), cands) {
      var i := CandidateIs(pool, m, filter, now, IndexOf(cands, name));
      assert false;
    }
  }

  /** Who has not been skipped yet. */
  ghost function Unskipped(us: seq<Upstream>, skips: seq<string>): set<Upstream> {
    set w | w in us && w.name !in skips
  }

  /** Those skipped have refused, the others are untouched. */
  twostate predicate SkippedRefused(us: seq<Upstream>, skips: seq<string>, now: nat)
    reads us
  {
    forall w :: w in us ==> if w.name in skips then Refused(w, now) else unchanged(w)
  }

  /** If those skipped refuse and selection finds nobody else, everybody left refuses. */
  lemma NothingMore(pool: UpstreamPool, m: string, excluded: seq<string>, skips: seq<string>, now: nat)
    requires pool.Valid()
    requires forall i :: 0 <= i < |pool.upstreams| ==>
               pool.upstreams[i].name in excluded + skips || Dropped(pool.upstreams[i].circuit, now)
               || !EligibleAt(pool, i, m, now)
    requires forall w :: w in pool.upstreams && w.name in skips ==> Admitted(w.circuit, w.available, now) == None
    ensures NobodyLeft(pool, m, excluded, now)
  {
    forall i | 0 <= i < |pool.upstreams| && pool.upstreams[i].name !in excluded && EligibleAt(pool, i, m, now)
      ensures Admitted(pool.upstreams[i].circuit, pool.upstreams[i].available, now) == None
    {
      assert pool.upstreams[i] in pool.upstreams;
    }
  }

  /** The select-and-admit loop, with the clock and everybody else standing still. */
  method SelectAndAdmit(pool: UpstreamPool, m: string, excluded: seq<string>, now: nat)
    returns (r: Option<(Upstream, bool)>)
    requires pool.Valid()
    modifies pool`currentLeader, pool.upstreams
    // Nothing is returned exactly when every upstream that could take the request refuses it.
    ensures r == None <==> old(NobodyLeft(pool, m, excluded, now))
    ensures r == None ==> NobodyLeft(pool, m, excluded, now)
    ensures r.Some? ==>
              r.value.0 in pool.upstreams && r.value.0.name !in excluded && Taken(r.value.0, r.value.1, now)
    // Whoever is returned is the sticky-leader choice among those who do not refuse, and leads.
    ensures r.Some? ==>
              && old(Chosen(pool, m, excluded, now, r.value.0.name))
              && LeaderOf(pool.currentLeader, m) == Some(r.value.0.name)
    ensures forall w :: w in pool.upstreams && (r == None || w != r.value.0) ==> unchanged(w) || Refused(w, now)
    ensures pool.currentLeader - {m} == old(pool.currentLeader) - {m}
  {
    var skips: seq<string> := [];
    while true
      invariant SkippedRefused(pool.upstreams, skips, now)
      invariant pool.Views(m, now) == old(pool.Views(m, now))
      invariant LeaderOf(pool.currentLeader, m) ==
                if skips == [] then LeaderOf(old(pool.currentLeader), m) else Some(skips[|skips| - 1])
      invariant pool.currentLeader - {m} == old(pool.currentLeader) - {m}
      decreases Unskipped(pool.upstreams, skips)
    {
      var u, admitted, at, k := SelectAndTry(pool, m, excluded + skips, now);
      if u == None {
        NothingMore(pool, m, excluded, skips, now);
        forall i | 0 <= i < |pool.upstreams| && pool.upstreams[i].name !in excluded && old(EligibleAt(pool, i, m, now))
          ensures Admitted(old(pool.upstreams[i].circuit), old(pool.upstreams[i].available), now) == None
        {
          assert EligibleAt(pool, i, m, now) && pool.upstreams[i] in pool.upstreams;
        }
        return None;
      }
      assert u.value in Unskipped(pool.upstreams, skips);
      if admitted.Some? {
        assert old(ChosenAfter(pool, m, excluded, skips, now, k, u.value.name));
        return Some((u.value, admitted.value));
      }
      forall w | w in pool.upstreams && w.name == u.value.name ensures w == u.value {
        SameName(pool.upstreams, w, u.value);
      }
      skips := skips + [u.value.name];
    }
  }
}
