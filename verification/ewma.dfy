/** Exponentially weighted averages of latency and success, per upstream and method. */
module Ewma {
  import opened Reals

  datatype Sample = Sample(latency: real, ok: bool)

  datatype MethodStats = MethodStats(ewmaLatency: real, ewmaSuccess: real, samples: nat)

  const DEFAULT_STATS := MethodStats(0.0, 1.0, 0)

  function Hit(ok: bool): real { if ok then 1.0 else 0.0 }

  function Mix(alpha: real, x: real, y: real): real {
    alpha * x + (1.0 - alpha) * y
  }

  /** The in-place update: the first sample seeds both averages. */
  function Update(alpha: real, m: MethodStats, s: Sample): MethodStats {
    if m.samples == 0 then MethodStats(s.latency, Hit(s.ok), 1)
    else MethodStats(
      Mix(alpha, s.latency, m.ewmaLatency),
      Mix(alpha, Hit(s.ok), m.ewmaSuccess),
      m.samples + 1)
  }

  /** The entry after a whole history. */
  function Fold(alpha: real, h: seq<Sample>): (m: MethodStats)
    ensures m.samples == |h|
  {
    if h == [] then DEFAULT_STATS else Update(alpha, Fold(alpha, h[..|h| - 1]), h[|h| - 1])
  }

  /** The recurrence both averages follow. */
  function Average(alpha: real, xs: seq<real>): real
    requires xs != []
  {
    if |xs| == 1 then xs[0] else Mix(alpha, xs[|xs| - 1], Average(alpha, xs[..|xs| - 1]))
  }

  function Latencies(h: seq<Sample>): (xs: seq<real>)
    ensures |xs| == |h|
  {
    seq(|h|, i requires 0 <= i < |h| => h[i].latency)
  }

  /** One for a success, zero for a failure. */
  function Hits(h: seq<Sample>): (xs: seq<real>)
    ensures |xs| == |h|
  {
    seq(|h|, i requires 0 <= i < |h| => if h[i].ok then 1.0 else 0.0)
  }

  lemma {:induction false} FoldIsAverage(alpha: real, h: seq<Sample>)
    requires h != []
    ensures Fold(alpha, h).ewmaLatency == Average(alpha, Latencies(h))
    ensures Fold(alpha, h).ewmaSuccess == Average(alpha, Hits(h))
  {
    var before := h[..|h| - 1];
    if before != [] {
      FoldIsAverage(alpha, before);
      assert Latencies(h)[..|h| - 1] == Latencies(before);
      assert Hits(h)[..|h| - 1] == Hits(before);
    }
  }

  // ---------- the closed form ----------

  function Pow(x: real, n: nat): real {
    if n == 0 then 1.0 else x * Pow(x, n - 1)
  }

  /** Weight of sample `i` among `n`: the seed keeps all that the others have not claimed. */
  function Weight(alpha: real, n: nat, i: nat): real
    requires i < n
  {
    if i == 0 then Pow(1.0 - alpha, n - 1) else alpha * Pow(1.0 - alpha, n - 1 - i)
  }

  function Weights(alpha: real, n: nat): (ws: seq<real>)
    ensures |ws| == n
  {
    seq(n, i requires 0 <= i < n => Weight(alpha, n, i))
  }

  /** The first `k` terms of the weighted sum. */
  function WeightedSum(ws: seq<real>, xs: seq<real>, k: nat): real
    requires k <= |xs| && k <= |ws|
  {
    if k == 0 then 0.0 else WeightedSum(ws, xs, k - 1) + ws[k - 1] * xs[k - 1]
  }

  lemma Distribute(b: real, s: real, w: real, x: real)
    ensures b * (s + w * x) == b * s + (b * w) * x
  {}

  lemma {:induction false} ScaledSum(b: real, ws: seq<real>, vs: seq<real>, xs: seq<real>, k: nat)
    requires k <= |xs| && k <= |ws| && k <= |vs|
    requires forall i :: 0 <= i < k ==> vs[i] == b * ws[i]
    ensures WeightedSum(vs, xs, k) == b * WeightedSum(ws, xs, k)
  {
    if k > 0 {
      ScaledSum(b, ws, vs, xs, k - 1);
      Distribute(b, WeightedSum(ws, xs, k - 1), ws[k - 1], xs[k - 1]);
    }
  }

  lemma WeightDecays(alpha: real, n: nat, i: nat)
    requires i < n
    ensures Weight(alpha, n + 1, i) == (1.0 - alpha) * Weight(alpha, n, i)
  {
    if i > 0 {
      var p := Pow(1.0 - alpha, n - 1 - i);
      assert Pow(1.0 - alpha, n - i) == (1.0 - alpha) * p;
      assert alpha * ((1.0 - alpha) * p) == (1.0 - alpha) * (alpha * p);
    }
  }

  lemma LastWeight(alpha: real, n: nat)
    requires n >= 1
    ensures Weight(alpha, n, n - 1) == if n == 1 then 1.0 else alpha
  {
    assert Pow(1.0 - alpha, 0) == 1.0;
  }

  /** One more sample scales every earlier weight by 1 - alpha. */
  lemma WeightsScale(alpha: real, n: nat)
    requires n >= 1
    ensures forall i :: 0 <= i < n ==> Weights(alpha, n + 1)[i] == (1.0 - alpha) * Weights(alpha, n)[i]
    ensures Weights(alpha, n + 1)[n] == alpha
  {
    forall i | 0 <= i < n ensures Weights(alpha, n + 1)[i] == (1.0 - alpha) * Weights(alpha, n)[i] {
      WeightDecays(alpha, n, i);
    }
    LastWeight(alpha, n + 1);
  }

  lemma SumStep(alpha: real, ws: seq<real>, vs: seq<real>, xs: seq<real>, n: nat)
    requires n < |xs| && |ws| == n && |vs| == n + 1
    requires forall i :: 0 <= i < n ==> vs[i] == (1.0 - alpha) * ws[i]
    requires vs[n] == alpha
    ensures WeightedSum(vs, xs, n + 1) == Mix(alpha, xs[n], WeightedSum(ws, xs, n))
  {
    ScaledSum(1.0 - alpha, ws, vs, xs, n);
  }

  lemma ClosedStep(alpha: real, xs: seq<real>, n: nat)
    requires 1 <= n < |xs|
    ensures WeightedSum(Weights(alpha, n + 1), xs, n + 1) == Mix(alpha, xs[n], WeightedSum(Weights(alpha, n), xs, n))
  {
    WeightsScale(alpha, n);
    SumStep(alpha, Weights(alpha, n), Weights(alpha, n + 1), xs, n);
  }

  lemma {:induction false} AverageOfPrefix(alpha: real, xs: seq<real>, n: nat)
    requires 1 <= n <= |xs|
    ensures Average(alpha, xs[..n]) == WeightedSum(Weights(alpha, n), xs, n)
  {
    if n == 1 {
      LastWeight(alpha, 1);
      assert WeightedSum(Weights(alpha, 1), xs, 0) == 0.0;
    } else {
      AverageOfPrefix(alpha, xs, n - 1);
      ClosedStep(alpha, xs, n - 1);
      assert xs[..n][..n - 1] == xs[..n - 1];
    }
  }

  /** Both averages are the closed-form weighted sum of the whole history. */
  lemma FoldIsWeightedSum(alpha: real, h: seq<Sample>)
    requires h != []
    ensures Fold(alpha, h).ewmaLatency == WeightedSum(Weights(alpha, |h|), Latencies(h), |h|)
    ensures Fold(alpha, h).ewmaSuccess == WeightedSum(Weights(alpha, |h|), Hits(h), |h|)
  {
    FoldIsAverage(alpha, h);
    AverageOfPrefix(alpha, Latencies(h), |h|);
    AverageOfPrefix(alpha, Hits(h), |h|);
    assert Latencies(h)[..|h|] == Latencies(h) && Hits(h)[..|h|] == Hits(h);
  }

  // ---------- bounds and forgetting ----------

  lemma Between(alpha: real, x: real, y: real, lo: real, hi: real)
    requires 0.0 <= alpha <= 1.0 && lo <= x <= hi && lo <= y <= hi
    ensures lo <= Mix(alpha, x, y) <= hi
  {
    var b := 1.0 - alpha;
    ProductPositive(alpha, x - lo);
    ProductPositive(b, y - lo);
    ProductPositive(alpha, hi - x);
    ProductPositive(b, hi - y);
  }

  lemma {:induction false} AverageBounds(alpha: real, xs: seq<real>, lo: real, hi: real)
    requires 0.0 <= alpha <= 1.0 && xs != []
    requires forall i :: 0 <= i < |xs| ==> lo <= xs[i] <= hi
    ensures lo <= Average(alpha, xs) <= hi
  {
    if |xs| > 1 {
      AverageBounds(alpha, xs[..|xs| - 1], lo, hi);
      Between(alpha, xs[|xs| - 1], Average(alpha, xs[..|xs| - 1]), lo, hi);
    }
  }

  /** The latency average never leaves the range of the samples; the success average is a rate. */
  lemma FoldBounds(alpha: real, h: seq<Sample>, lo: real, hi: real)
    requires 0.0 < alpha < 1.0 && h != []
    requires forall i :: 0 <= i < |h| ==> lo <= h[i].latency <= hi
    ensures lo <= Fold(alpha, h).ewmaLatency <= hi
    ensures 0.0 <= Fold(alpha, h).ewmaSuccess <= 1.0
  {
    FoldIsAverage(alpha, h);
    AverageBounds(alpha, Latencies(h), lo, hi);
    AverageBounds(alpha, Hits(h), 0.0, 1.0);
  }

  /** An average carried on from the value `a`. */
  function Extend(alpha: real, a: real, more: seq<real>): real {
    if more == [] then a else Mix(alpha, more[|more| - 1], Extend(alpha, a, more[..|more| - 1]))
  }

  lemma MixForgets(alpha: real, z: real, x: real, y: real)
    ensures Mix(alpha, z, x) - Mix(alpha, z, y) == (1.0 - alpha) * (x - y)
  {}

  lemma {:induction false} ExtendForgets(alpha: real, a: real, b: real, more: seq<real>)
    ensures Extend(alpha, a, more) - Extend(alpha, b, more) == Times(1.0 - alpha, a - b, |more|)
  {
    if more != [] {
      var before := more[..|more| - 1];
      ExtendForgets(alpha, a, b, before);
      MixForgets(alpha, more[|more| - 1], Extend(alpha, a, before), Extend(alpha, b, before));
    }
  }

  lemma {:induction false} FoldExtends(alpha: real, h: seq<Sample>, more: seq<Sample>)
    requires h != []
    ensures Fold(alpha, h + more).ewmaLatency == Extend(alpha, Fold(alpha, h).ewmaLatency, Latencies(more))
    ensures Fold(alpha, h + more).ewmaSuccess == Extend(alpha, Fold(alpha, h).ewmaSuccess, Hits(more))
    decreases |more|
  {
    if more == [] {
      assert h + more == h;
    } else {
      var before := more[..|more| - 1];
      FoldExtends(alpha, h, before);
      assert (h + more)[..|h + more| - 1] == h + before;
      assert Latencies(more)[..|more| - 1] == Latencies(before);
      assert Hits(more)[..|more| - 1] == Hits(before);
    }
  }

  /** Forgetting: after the same further samples `more`, two histories differ by exactly
      (1 - alpha) to the power |more| times their earlier difference. */
  lemma LatencyForgets(alpha: real, h1: seq<Sample>, h2: seq<Sample>, more: seq<Sample>)
    requires h1 != [] && h2 != []
    ensures
      Fold(alpha, h1 + more).ewmaLatency - Fold(alpha, h2 + more).ewmaLatency ==
      Times(1.0 - alpha, Fold(alpha, h1).ewmaLatency - Fold(alpha, h2).ewmaLatency, |more|)
  {
    var a, b := Fold(alpha, h1).ewmaLatency, Fold(alpha, h2).ewmaLatency;
    FoldExtends(alpha, h1, more);
    FoldExtends(alpha, h2, more);
    ExtendForgets(alpha, a, b, Latencies(more));
  }

  lemma SuccessForgets(alpha: real, h1: seq<Sample>, h2: seq<Sample>, more: seq<Sample>)
    requires h1 != [] && h2 != []
    ensures
      Fold(alpha, h1 + more).ewmaSuccess - Fold(alpha, h2 + more).ewmaSuccess ==
      Times(1.0 - alpha, Fold(alpha, h1).ewmaSuccess - Fold(alpha, h2).ewmaSuccess, |more|)
  {
    var a, b := Fold(alpha, h1).ewmaSuccess, Fold(alpha, h2).ewmaSuccess;
    FoldExtends(alpha, h1, more);
    FoldExtends(alpha, h2, more);
    ExtendForgets(alpha, a, b, Hits(more));
  }
}
