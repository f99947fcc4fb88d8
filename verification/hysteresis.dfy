/** The sticky leader: one routing decision over scored candidates, and runs of them. */
module Hysteresis {
  import opened Reals
  import opened Wrappers

  datatype Candidate = Candidate(name: string, score: real)

  /** Scores this close to the top count as tied. */
  const TIE: real := 0.000000001

  function Top(cands: seq<Candidate>): real
    requires cands != []
  {
    if |cands| == 1 then cands[0].score
    else
      var t, x := Top(cands[..|cands| - 1]), cands[|cands| - 1].score;
      if t < x then x else t
  }

  lemma {:induction false} TopIsMaximum(cands: seq<Candidate>) returns (best: nat)
    requires cands != []
    ensures forall k :: 0 <= k < |cands| ==> cands[k].score <= Top(cands)
    ensures best < |cands| && cands[best].score == Top(cands)
  {
    var n := |cands| - 1;
    if n == 0 {
      best := 0;
    } else {
      best := TopIsMaximum(cands[..n]);
      assert forall k :: 0 <= k < n ==> cands[k] == cands[..n][k];
      if Top(cands[..n]) < cands[n].score {
        best := n;
      }
    }
  }

  /** Index of the first candidate of that name, or the length if there is none. */
  function IndexOf(cands: seq<Candidate>, name: string): (i: nat)
    ensures i <= |cands|
    ensures i < |cands| ==> cands[i].name == name
    ensures forall k :: 0 <= k < i ==> cands[k].name != name
  {
    if cands == [] || cands[0].name == name then 0 else 1 + IndexOf(cands[1..], name)
  }

  predicate Sits(leader: Option<string>, cands: seq<Candidate>) {
    leader.Some? && IndexOf(cands, leader.value) < |cands|
  }

  function Cut(score: real, margin: real): real { score * (1.0 - margin) }

  /** The leader is a candidate and within the margin of the top. */
  predicate Held(leader: Option<string>, cands: seq<Candidate>, margin: real) {
    Sits(leader, cands) && cands[IndexOf(cands, leader.value)].score >= Cut(Top(cands), margin)
  }

  predicate Electable(cands: seq<Candidate>, k: nat) {
    k < |cands| && var d := cands[k].score - Top(cands); -TIE < d < TIE
  }

  function Named(cands: seq<Candidate>, pick: Option<nat>, leader: Option<string>): Option<string>
    requires pick.Some? ==> pick.value < |cands|
  {
    if pick.Some? then Some(cands[pick.value].name) else leader
  }

  /** One decision. The tiebreak among electable candidates is random. */
  ghost predicate Choice(leader: Option<string>, cands: seq<Candidate>, margin: real, pick: Option<nat>) {
    if cands == [] then pick == None
    else if Held(leader, cands, margin) then pick == Some(IndexOf(cands, leader.value))
    else pick.Some? && Electable(cands, pick.value)
  }

  lemma CutMonotone(a: real, b: real, margin: real)
    requires a <= b && margin < 1.0
    ensures Cut(a, margin) <= Cut(b, margin)
  {
    TimesPositive(a, b, 1.0 - margin);
  }

  /** Cutting a score by the margin takes that share of it away. */
  lemma CutOf(a: real, margin: real)
    ensures Cut(a, margin) == a - margin * a
  {}

  // ---------- one decision ----------

  /** A sitting leader is kept exactly when no candidate's score, cut by the margin,
      exceeds its own. */
  lemma HeldIff(l: string, cands: seq<Candidate>, margin: real)
    requires 0.0 <= margin < 1.0 && Sits(Some(l), cands)
    ensures
      Held(Some(l), cands, margin) <==>
      forall k :: 0 <= k < |cands| ==> cands[IndexOf(cands, l)].score >= Cut(cands[k].score, margin)
  {
    var best := TopIsMaximum(cands);
    forall k | 0 <= k < |cands| ensures Cut(cands[k].score, margin) <= Cut(Top(cands), margin) {
      CutMonotone(cands[k].score, Top(cands), margin);
    }
  }

  /** Who can be crowned: those within a billionth of the top. */
  lemma ElectableIff(cands: seq<Candidate>, k: nat)
    requires k < |cands|
    ensures Electable(cands, k) <==> cands[k].score > Top(cands) - 0.000000001
  {
    var best := TopIsMaximum(cands);
  }

  /** Whoever is chosen is within the margin of the top, or tied with it. */
  lemma ChosenNearTop(leader: Option<string>, cands: seq<Candidate>, margin: real, k: nat)
    requires Choice(leader, cands, margin, Some(k))
    ensures k < |cands|
    ensures cands[k].score >= Cut(Top(cands), margin) || cands[k].score > Top(cands) - 0.000000001
    ensures !Held(leader, cands, margin) ==> cands[k].score > Top(cands) - 0.000000001
  {
    if !Held(leader, cands, margin) {
      assert Electable(cands, k);
    }
  }

  // ---------- runs ----------

  datatype Round = Round(cands: seq<Candidate>, pick: Option<nat>)

  /** Who leads after some rounds. */
  function Leader(start: Option<string>, rounds: seq<Round>): Option<string> {
    if rounds == [] then start
    else
      var before, r := Leader(start, rounds[..|rounds| - 1]), rounds[|rounds| - 1];
      if Picked(r) then Some(PickedName(r)) else before
  }

  ghost predicate ValidRun(start: Option<string>, rounds: seq<Round>, margin: real) {
    rounds == [] ||
    var before, r := rounds[..|rounds| - 1], rounds[|rounds| - 1];
    ValidRun(start, before, margin) && Choice(Leader(start, before), r.cands, margin, r.pick)
  }

  /** Every score of the round lies in the band, and `l` is a candidate. */
  ghost predicate InBand(r: Round, l: string, lo: real, hi: real) {
    Sits(Some(l), r.cands) && forall k :: 0 <= k < |r.cands| ==> lo <= r.cands[k].score <= hi
  }

  /** Anti-flapping. While every viable score stays in a band no wider than the margin
      and the leader stays viable, the leader never changes and gets every request. */
  lemma {:induction false} BandHoldsLeader(l: string, rounds: seq<Round>, margin: real, lo: real, hi: real)
    requires 0.0 <= margin < 1.0 && lo >= Cut(hi, margin)
    requires ValidRun(Some(l), rounds, margin)
    requires forall i :: 0 <= i < |rounds| ==> InBand(rounds[i], l, lo, hi)
    ensures Leader(Some(l), rounds) == Some(l)
    ensures forall i :: 0 <= i < |rounds| ==> rounds[i].pick == Some(IndexOf(rounds[i].cands, l))
  {
    if rounds != [] {
      var before, r := rounds[..|rounds| - 1], rounds[|rounds| - 1];
      BandHoldsLeader(l, before, margin, lo, hi);
      assert InBand(r, l, lo, hi);
      BandHolds(l, r.cands, margin, lo, hi);
      assert rounds == before + [r];
    }
  }

  lemma BandHolds(l: string, cands: seq<Candidate>, margin: real, lo: real, hi: real)
    requires 0.0 <= margin < 1.0 && lo >= Cut(hi, margin) && Sits(Some(l), cands)
    requires forall k :: 0 <= k < |cands| ==> lo <= cands[k].score <= hi
    ensures Held(Some(l), cands, margin)
  {
    var best := TopIsMaximum(cands);
    CutMonotone(Top(cands), hi, margin);
    assert lo <= cands[IndexOf(cands, l)].score;
  }

  /** The score of the candidate a round routes to. */
  function Routed(r: Round): real
    requires Picked(r)
  {
    r.cands[r.pick.value].score
  }

  predicate Picked(r: Round) { r.pick.Some? && r.pick.value < |r.cands| }

  function PickedName(r: Round): string
    requires Picked(r)
  {
    r.cands[r.pick.value].name
  }

  /** The leader `prev` routed to is still viable in `cur`, its score no lower. */
  ghost predicate Follows(prev: Round, cur: Round) {
    && Picked(prev) && Sits(Some(PickedName(prev)), cur.cands)
    && cur.cands[IndexOf(cur.cands, PickedName(prev))].score >= Routed(prev)
  }

  /** No sitting leader's score falls from one round to the next. */
  ghost predicate NeverFalls(rounds: seq<Round>) {
    |rounds| <= 1 ||
    (NeverFalls(rounds[..|rounds| - 1]) && Follows(rounds[|rounds| - 2], rounds[|rounds| - 1]))
  }

  /** The sitting leader loses its seat in `cur`: a challenger beats the margin. */
  ghost predicate Dethrones(prev: Round, cur: Round, margin: real) {
    Picked(prev) && !Held(Some(PickedName(prev)), cur.cands, margin)
  }

  ghost function Dethronings(rounds: seq<Round>, margin: real): nat {
    if |rounds| <= 1 then 0
    else
      Dethronings(rounds[..|rounds| - 1], margin) +
      (if Dethrones(rounds[|rounds| - 2], rounds[|rounds| - 1], margin) then 1 else 0)
  }

  /** Below this score the tie tolerance, not the margin, rules. */
  function Floor(margin: real): real
    requires 0.0 < margin < 1.0
  {
    TIE * (1.0 - margin) / margin
  }

  lemma FloorFacts(margin: real)
    requires 0.0 < margin < 1.0
    ensures Floor(margin) * margin == TIE * (1.0 - margin) && Floor(margin) > 0.0
  {
    var f := Floor(margin);
    assert f * margin == TIE * (1.0 - margin);
    if f <= 0.0 {
      TimesPositive(f, 0.0, margin);
    }
  }

  lemma LiftArithmetic(margin: real, old_: real, top: real, new_: real)
    requires 0.0 < margin < 1.0
    requires old_ < Cut(top, margin) && new_ > top - TIE
    ensures Cut(new_ - Floor(margin), margin) > old_ - Floor(margin)
  {
    var b, f := 1.0 - margin, Floor(margin);
    FloorFacts(margin);
    TimesPositive(top - TIE, new_, b);
    assert f * b == f - TIE * b;
    assert (top - TIE) * b == top * b - TIE * b;
    assert (new_ - f) * b == new_ * b - f * b;
  }

  /** One dethroning lifts the routed score, measured from the floor, by 1/(1 - margin). */
  lemma DethroningLifts(prev: Round, cur: Round, margin: real)
    requires 0.0 < margin < 1.0 && Follows(prev, cur) && Dethrones(prev, cur, margin)
    requires Choice(Some(PickedName(prev)), cur.cands, margin, cur.pick)
    ensures Picked(cur) && Cut(Routed(cur) - Floor(margin), margin) > Routed(prev) - Floor(margin)
  {
    var mine := cur.cands[IndexOf(cur.cands, PickedName(prev))].score;
    LiftArithmetic(margin, mine, Top(cur.cands), Routed(cur));
  }

  lemma HeldKeeps(prev: Round, cur: Round, margin: real)
    requires Follows(prev, cur) && !Dethrones(prev, cur, margin)
    requires Choice(Some(PickedName(prev)), cur.cands, margin, cur.pick)
    ensures Picked(cur) && Routed(cur) >= Routed(prev)
  {}

  /** The score a round routes to, measured from the floor and cut by the margin `d` times. */
  function Lift(margin: real, r: Round, d: nat): real
    requires 0.0 < margin < 1.0 && Picked(r)
  {
    Times(1.0 - margin, Routed(r) - Floor(margin), d)
  }

  lemma LiftUp(b: real, x: real, y: real, d: nat, first: real)
    requires 0.0 < b && x <= y * b && Times(b, x, d) >= first
    ensures Times(b, y, d + 1) >= first
  {
    TimesMonotone(b, x, y * b, d);
    TimesInside(b, y, y * b, d);
  }

  lemma GeometricStep(prev: Round, cur: Round, margin: real, first: real, d: nat)
    requires 0.0 < margin < 1.0 && Follows(prev, cur) && Lift(margin, prev, d) >= first
    requires Choice(Some(PickedName(prev)), cur.cands, margin, cur.pick)
    ensures Picked(cur)
    ensures Lift(margin, cur, if Dethrones(prev, cur, margin) then d + 1 else d) >= first
  {
    var f := Floor(margin);
    if Dethrones(prev, cur, margin) {
      DethroningLifts(prev, cur, margin);
      LiftUp(1.0 - margin, Routed(prev) - f, Routed(cur) - f, d, first);
    } else {
      HeldKeeps(prev, cur, margin);
      TimesMonotone(1.0 - margin, Routed(prev) - f, Routed(cur) - f, d);
    }
  }

  lemma DethroningsSnoc(rounds: seq<Round>, margin: real)
    requires |rounds| > 1
    ensures Dethronings(rounds, margin) ==
            var before := Dethronings(rounds[..|rounds| - 1], margin);
            if Dethrones(rounds[|rounds| - 2], rounds[|rounds| - 1], margin) then before + 1 else before
  {}

  /** The geometric bound. When no sitting leader's score falls, `d` dethronings push
      the routed score, measured from the floor, up by 1/(1 - margin) to the power d:
      the last one, cut by the margin d times, still reaches the first. */
  lemma {:induction false} DethroningsGeometric(start: Option<string>, rounds: seq<Round>, margin: real)
    requires 0.0 < margin < 1.0 && rounds != []
    requires ValidRun(start, rounds, margin) && NeverFalls(rounds) && Picked(rounds[0])
    ensures Picked(rounds[|rounds| - 1])
    ensures Lift(margin, rounds[|rounds| - 1], Dethronings(rounds, margin)) >= Lift(margin, rounds[0], 0)
  {
    var n := |rounds|;
    if n > 1 {
      var before, prev, cur := rounds[..n - 1], rounds[n - 2], rounds[n - 1];
      DethroningsGeometric(start, before, margin);
      GeometricStep(prev, cur, margin, Lift(margin, rounds[0], 0), Dethronings(before, margin));
      DethroningsSnoc(rounds, margin);
    }
  }

  lemma GainArithmetic(margin: real, f: real, first: real, prev: real, cur: real)
    requires 0.0 < margin < 1.0 && f < first <= prev && Cut(cur - f, margin) > prev - f
    ensures cur >= prev + margin * (first - f)
  {
    var x, y := cur - f, prev - f;
    CutOf(x, margin);
    CutOf(y, margin);
    ProductPositive(margin, y);
    if x <= y {
      CutMonotone(x, y, margin);
      assert false;
    }
    TimesPositive(first - f, x, margin);
  }

  lemma DethroningGains(prev: Round, cur: Round, margin: real, first: real, gain: real)
    requires 0.0 < margin < 1.0 && Follows(prev, cur) && Dethrones(prev, cur, margin)
    requires Choice(Some(PickedName(prev)), cur.cands, margin, cur.pick)
    requires Floor(margin) < first <= Routed(prev) && gain == margin * (first - Floor(margin))
    ensures Picked(cur) && Routed(cur) >= Routed(prev) + gain
  {
    DethroningLifts(prev, cur, margin);
    GainArithmetic(margin, Floor(margin), first, Routed(prev), Routed(cur));
  }

  /** What a dethroning adds to the routed score at least, given the first one. */
  function Gain(margin: real, first: Round): real
    requires 0.0 < margin < 1.0 && Picked(first)
  {
    margin * (Routed(first) - Floor(margin))
  }

  lemma GainStep(prev: Round, cur: Round, margin: real, first: Round, d: nat)
    requires 0.0 < margin < 1.0 && Picked(first) && Follows(prev, cur) && Routed(first) > Floor(margin)
    requires Choice(Some(PickedName(prev)), cur.cands, margin, cur.pick)
    requires Gain(margin, first) > 0.0 && Routed(prev) >= Routed(first) + Multiple(d, Gain(margin, first))
    ensures Picked(cur)
    ensures Routed(cur) >=
            Routed(first) + Multiple(if Dethrones(prev, cur, margin) then d + 1 else d, Gain(margin, first))
  {
    MultiplePositive(d, Gain(margin, first));
    if Dethrones(prev, cur, margin) {
      DethroningGains(prev, cur, margin, Routed(first), Gain(margin, first));
    } else {
      HeldKeeps(prev, cur, margin);
    }
  }

  /** How many dethronings there can be: each adds at least margin * (first - floor) to
      the routed score, so bounded scores and a first score above the floor bound them. */
  lemma {:induction false} DethroningsBounded(start: Option<string>, rounds: seq<Round>, margin: real)
    requires 0.0 < margin < 1.0 && rounds != []
    requires ValidRun(start, rounds, margin) && NeverFalls(rounds) && Picked(rounds[0])
    requires Routed(rounds[0]) > Floor(margin)
    ensures Picked(rounds[|rounds| - 1]) && Gain(margin, rounds[0]) > 0.0
    ensures Routed(rounds[|rounds| - 1]) >=
            Routed(rounds[0]) + Multiple(Dethronings(rounds, margin), Gain(margin, rounds[0]))
  {
    var n := |rounds|;
    if n > 1 {
      var before, prev, cur := rounds[..n - 1], rounds[n - 2], rounds[n - 1];
      DethroningsBounded(start, before, margin);
      GainStep(prev, cur, margin, rounds[0], Dethronings(before, margin));
      DethroningsSnoc(rounds, margin);
    } else {
      ProductPositive(margin, Routed(rounds[0]) - Floor(margin));
    }
  }

  // ---------- a snapshot of fixed scores ----------

  ghost predicate DistinctNames(cands: seq<Candidate>) {
    forall i, j :: 0 <= i < j < |cands| ==> cands[i].name != cands[j].name
  }

  ghost predicate AllSee(rounds: seq<Round>, cands: seq<Candidate>) {
    forall i :: 0 <= i < |rounds| ==> rounds[i].cands == cands
  }

  /** Everybody who can be elected can also hold the seat. */
  ghost predicate ElectedCanHold(cands: seq<Candidate>, margin: real)
    requires cands != []
  {
    forall k :: 0 <= k < |cands| && Electable(cands, k) ==> cands[k].score >= Cut(Top(cands), margin)
  }

  lemma OwnIndex(cands: seq<Candidate>, k: nat)
    requires DistinctNames(cands) && k < |cands|
    ensures IndexOf(cands, cands[k].name) == k
  {
    var i := IndexOf(cands, cands[k].name);
    assert i <= k;
  }

  lemma {:induction false} FixedScoresHold(cands: seq<Candidate>, margin: real, rounds: seq<Round>)
    requires cands != [] && DistinctNames(cands) && ElectedCanHold(cands, margin)
    requires rounds != [] && ValidRun(None, rounds, margin) && AllSee(rounds, cands)
    ensures Picked(rounds[0]) && Electable(cands, rounds[0].pick.value)
    ensures forall i :: 0 <= i < |rounds| ==> rounds[i].pick == rounds[0].pick
    ensures Leader(None, rounds) == Some(PickedName(rounds[0]))
  {
    var n := |rounds| - 1;
    if n > 0 {
      FixedScoresHold(cands, margin, rounds[..n]);
      OwnIndex(cands, rounds[0].pick.value);
      assert forall i :: 0 <= i < n ==> rounds[..n][i] == rounds[i];
    } else {
      assert rounds[..0] == [];
    }
  }

  lemma OneRound(cands: seq<Candidate>, margin: real, k: nat)
    requires k < |cands| && Electable(cands, k)
    ensures ValidRun(None, [Round(cands, Some(k))], margin)
    ensures Leader(None, [Round(cands, Some(k))]) == Some(cands[k].name)
  {
    var one := [Round(cands, Some(k))];
    assert one[..0] == [];
    assert Leader(None, one[..0]) == None;
    assert ValidRun(None, one[..0], margin);
  }

  lemma TwoRounds(cands: seq<Candidate>, margin: real, k: nat, best: nat) returns (rounds: seq<Round>)
    requires DistinctNames(cands) && k < |cands| && Electable(cands, k) && cands[k].score < Cut(Top(cands), margin)
    requires best < |cands| && cands[best].score == Top(cands)
    ensures rounds == [Round(cands, Some(k)), Round(cands, Some(best))]
    ensures ValidRun(None, rounds, margin) && AllSee(rounds, cands)
  {
    rounds := [Round(cands, Some(k)), Round(cands, Some(best))];
    OwnIndex(cands, k);
    assert rounds[..1] == [Round(cands, Some(k))];
    OneRound(cands, margin, k);
  }

  lemma UnstableRun(cands: seq<Candidate>, margin: real) returns (rounds: seq<Round>)
    requires 0.0 <= margin < 1.0 && cands != [] && DistinctNames(cands) && !ElectedCanHold(cands, margin)
    requires forall k :: 0 <= k < |cands| ==> cands[k].score >= 0.0
    ensures |rounds| == 2 && ValidRun(None, rounds, margin) && AllSee(rounds, cands)
    ensures rounds[1].pick != rounds[0].pick
  {
    var k :| 0 <= k < |cands| && Electable(cands, k) && cands[k].score < Cut(Top(cands), margin);
    var best := TopIsMaximum(cands);
    ProductPositive(margin, Top(cands));
    CutOf(Top(cands), margin);
    rounds := TwoRounds(cands, margin, k, best);
  }

  /** With fixed scores, the first leader elected keeps the seat in every run if and only
      if every candidate in the tie band of the top is also within the margin of it. */
  lemma FixedScoresStableIff(cands: seq<Candidate>, margin: real)
    requires 0.0 <= margin < 1.0 && cands != [] && DistinctNames(cands)
    requires forall k :: 0 <= k < |cands| ==> cands[k].score >= 0.0
    ensures ElectedCanHold(cands, margin) <==>
            forall rounds: seq<Round> :: rounds != [] && ValidRun(None, rounds, margin) && AllSee(rounds, cands) ==>
              forall i :: 0 <= i < |rounds| ==> rounds[i].pick == rounds[0].pick
  {
    if ElectedCanHold(cands, margin) {
      forall rounds: seq<Round> | rounds != [] && ValidRun(None, rounds, margin) && AllSee(rounds, cands)
        ensures forall i :: 0 <= i < |rounds| ==> rounds[i].pick == rounds[0].pick
      {
        FixedScoresHold(cands, margin, rounds);
      }
    } else {
      var rounds := UnstableRun(cands, margin);
      assert !forall i :: 0 <= i < |rounds| ==> rounds[i].pick == rounds[0].pick;
    }
  }

  lemma LargeScoresHold(cands: seq<Candidate>, margin: real)
    requires cands != [] && margin * Top(cands) >= TIE
    ensures ElectedCanHold(cands, margin)
  {
    CutOf(Top(cands), margin);
  }

  /** A top score of at least TIE / margin is enough: no run over it ever flaps. */
  lemma LargeScoresStable(cands: seq<Candidate>, margin: real, rounds: seq<Round>)
    requires cands != [] && DistinctNames(cands) && margin * Top(cands) >= TIE
    requires rounds != [] && ValidRun(None, rounds, margin) && AllSee(rounds, cands)
    ensures forall i :: 0 <= i < |rounds| ==> rounds[i].pick == rounds[0].pick
    ensures Leader(None, rounds) == Some(PickedName(rounds[0]))
  {
    LargeScoresHold(cands, margin);
    FixedScoresHold(cands, margin, rounds);
  }

  // ---------- endless flapping below the floor ----------

  function Tiny(): (cands: seq<Candidate>)
    ensures |cands| == 3
  {
    [Candidate("a", 0.000000000001), Candidate("b", 0.000000000002), Candidate("c", 0.00000000000125)]
  }

  lemma TinyFacts()
    ensures Top(Tiny()) == 0.000000000002
    ensures IndexOf(Tiny(), "a") == 0 && IndexOf(Tiny(), "c") == 2
    ensures Electable(Tiny(), 0) && Electable(Tiny(), 2)
    ensures !Held(Some("a"), Tiny(), 0.1) && !Held(Some("c"), Tiny(), 0.1)
  {
    var t := Tiny();
    assert t[..2] == [t[0], t[1]] && t[..2][..1] == [t[0]];
    assert Top(t[..2][..1]) == t[0].score;
    assert Top(t[..2]) == t[1].score;
    assert t[1..][1..] == [t[2]];
  }

  function Turn(i: nat): nat { if i % 2 == 0 then 0 else 2 }

  ghost predicate Alternates(rounds: seq<Round>) {
    AllSee(rounds, Tiny()) && forall i :: 0 <= i < |rounds| ==> rounds[i].pick == Some(Turn(i))
  }

  lemma TinyChoice(i: nat)
    ensures Choice(None, Tiny(), 0.1, Some(Turn(0)))
    ensures Choice(Some(Tiny()[Turn(i)].name), Tiny(), 0.1, Some(Turn(i + 1)))
  {
    TinyFacts();
  }

  lemma TinyLeader(before: seq<Round>)
    requires before != [] && Alternates(before)
    ensures Leader(None, before) == Some(Tiny()[Turn(|before| - 1)].name)
  {
    var prev := before[|before| - 1];
    assert prev.cands == Tiny() && prev.pick == Some(Turn(|before| - 1));
  }

  lemma RunSnoc(start: Option<string>, before: seq<Round>, r: Round, margin: real)
    requires ValidRun(start, before, margin) && Choice(Leader(start, before), r.cands, margin, r.pick)
    ensures ValidRun(start, before + [r], margin)
  {
    assert (before + [r])[..|before|] == before;
  }

  lemma TinyStep(before: seq<Round>, r: Round)
    requires ValidRun(None, before, 0.1) && Alternates(before)
    requires r.cands == Tiny() && r.pick == Some(Turn(|before|))
    ensures ValidRun(None, before + [r], 0.1)
  {
    if before == [] {
      TinyChoice(0);
    } else {
      TinyLeader(before);
      TinyChoice(|before| - 1);
    }
    RunSnoc(None, before, r, 0.1);
  }

  /** With scores under the tie tolerance and the default margin of 0.1, the leader can
      alternate for ever although no score ever moves. */
  lemma {:induction false} TinyScoresFlap(n: nat) returns (rounds: seq<Round>)
    ensures |rounds| == n && ValidRun(None, rounds, 0.1) && Alternates(rounds)
  {
    if n == 0 {
      rounds := [];
    } else {
      var before := TinyScoresFlap(n - 1);
      var r := Round(Tiny(), Some(Turn(n - 1)));
      TinyStep(before, r);
      rounds := before + [r];
    }
  }
}
