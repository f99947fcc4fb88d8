/** Time-stamped deques pruned from the front only, and only when something is pushed. */
module Window {
  type Log<T> = seq<(nat, T)>

  /** `Instant::duration_since` saturates: a sample from the future has age zero. */
  function Age(now: nat, at: nat): nat { if now < at then 0 else now - at }

  predicate Expired<T>(window: nat, now: nat, e: (nat, T)) { Age(now, e.0) > window }

  function Prune<T>(q: Log<T>, window: nat, now: nat): Log<T> {
    if q != [] && Expired(window, now, q[0]) then Prune(q[1..], window, now) else q
  }

  /** One record: push at the back, pop expired samples off the front. */
  function Push<T>(q: Log<T>, window: nat, now: nat, x: T): Log<T> {
    Prune(q + [(now, x)], window, now)
  }

  /** The deque after a whole history of pushes, in the order the lock was taken. */
  function Retained<T>(h: Log<T>, window: nat): Log<T> {
    if h == [] then [] else Push(Retained(h[..|h| - 1], window), window, h[|h| - 1].0, h[|h| - 1].1)
  }

  /** The reference: the samples whose age at `now` is within the window. */
  function Recent<T>(h: Log<T>, window: nat, now: nat): Log<T> {
    if h == [] then []
    else (if h[0].0 + window < now then [] else [h[0]]) + Recent(h[1..], window, now)
  }

  /** The pruning loop. */
  method PopExpired<T>(log: Log<T>, window: nat, now: nat) returns (q: Log<T>)
    ensures q == Prune(log, window, now)
  {
    q := log;
    while q != []
      invariant Prune(q, window, now) == Prune(log, window, now)
      decreases |q|
    {
      if Expired(window, now, q[0]) {
        q := q[1..];
      } else {
        break;
      }
    }
  }

  /** Pruning drops a prefix of expired samples and stops at the first live one. */
  lemma {:induction false} PruneDropsPrefix<T>(q: Log<T>, window: nat, now: nat) returns (p: nat)
    ensures p <= |q| && Prune(q, window, now) == q[p..]
    ensures forall i :: 0 <= i < p ==> Expired(window, now, q[i])
    ensures p < |q| ==> !Expired(window, now, q[p])
  {
    if q != [] && Expired(window, now, q[0]) {
      p := PruneDropsPrefix(q[1..], window, now);
      assert q[1..][p..] == q[p + 1..];
      assert p + 1 < |q| ==> q[1..][p] == q[p + 1];
      forall i | 0 <= i < p + 1 ensures Expired(window, now, q[i]) {
        if i > 0 {
          assert q[i] == q[1..][i - 1];
        }
      }
      p := p + 1;
    } else {
      p := 0;
    }
  }

  /** Whatever the timestamps, a record keeps a non-empty suffix of what it found and
      drops no sample that is within the window at that record. */
  lemma PushDropsOnlyExpired<T>(q: Log<T>, window: nat, now: nat, x: T) returns (p: nat)
    ensures p <= |q| && Push(q, window, now, x) == q[p..] + [(now, x)]
    ensures forall i :: 0 <= i < p ==> q[i].0 + window < now
  {
    var all := q + [(now, x)];
    p := PruneDropsPrefix(all, window, now);
    assert all[|q|] == (now, x);
    assert !Expired(window, now, all[|q|]);
    assert all[p..] == q[p..] + [(now, x)];
    forall i | 0 <= i < p ensures Expired(window, now, q[i]) {
      assert all[i] == q[i];
    }
  }

  /** Over any history, in order or not, the deque is a suffix of the pushes. */
  lemma {:induction false} RetainedIsSuffix<T>(h: Log<T>, window: nat) returns (p: nat)
    ensures p <= |h| && Retained(h, window) == h[p..]
    ensures h != [] ==> p < |h|
  {
    if h == [] {
      p := 0;
    } else {
      var before, last := h[..|h| - 1], h[|h| - 1];
      var kept := Retained(before, window);
      var p0 := RetainedIsSuffix(before, window);
      var d := PushDropsOnlyExpired(kept, window, last.0, last.1);
      assert Retained(h, window) == kept[d..] + [last];
      p := p0 + d;
      SuffixOfSuffix(before, p0, d);
      SuffixSnoc(h, p);
    }
  }

  lemma SuffixOfSuffix<T>(h: seq<T>, p: nat, d: nat)
    requires p + d <= |h|
    ensures h[p..][d..] == h[p + d..]
  {}

  lemma SuffixSnoc<T>(h: seq<T>, p: nat)
    requires p < |h|
    ensures h[..|h| - 1][p..] + [h[|h| - 1]] == h[p..]
  {}

  // ---------- pruning against filtering ----------

  /** Expired samples come first. */
  ghost predicate ExpiredFirst<T>(q: Log<T>, window: nat, now: nat) {
    forall i, j :: 0 <= i < j < |q| && Expired(window, now, q[j]) ==> Expired(window, now, q[i])
  }

  lemma {:induction false} RecentAll<T>(q: Log<T>, window: nat, now: nat)
    ensures |Recent(q, window, now)| <= |q|
    ensures |Recent(q, window, now)| == |q| <==> forall i :: 0 <= i < |q| ==> !Expired(window, now, q[i])
    ensures |Recent(q, window, now)| == |q| ==> Recent(q, window, now) == q
  {
    if q != [] {
      RecentAll(q[1..], window, now);
      assert forall i :: 1 <= i < |q| ==> q[i] == q[1..][i - 1];
      if forall i :: 0 <= i < |q| ==> !Expired(window, now, q[i]) {
        assert forall i :: 0 <= i < |q[1..]| ==> !Expired(window, now, q[1..][i]);
      }
    }
  }

  /** Popping the front is filtering exactly when the expired samples come first. */
  lemma {:induction false} PruneIsRecentIff<T>(q: Log<T>, window: nat, now: nat)
    ensures Prune(q, window, now) == Recent(q, window, now) <==> ExpiredFirst(q, window, now)
  {
    if q == [] {
    } else if Expired(window, now, q[0]) {
      PruneIsRecentIff(q[1..], window, now);
      ExpiredFirstTail(q, window, now);
    } else {
      RecentAll(q, window, now);
      if ExpiredFirst(q, window, now) {
        forall i | 0 <= i < |q| ensures !Expired(window, now, q[i]) {
        }
      }
    }
  }

  lemma ExpiredFirstTail<T>(q: Log<T>, window: nat, now: nat)
    requires q != [] && Expired(window, now, q[0])
    ensures ExpiredFirst(q, window, now) <==> ExpiredFirst(q[1..], window, now)
  {
    var t := q[1..];
    assert forall i :: 1 <= i < |q| ==> q[i] == t[i - 1];
    if ExpiredFirst(q, window, now) {
      forall i, j | 0 <= i < j < |t| && Expired(window, now, t[j]) ensures Expired(window, now, t[i]) {
        assert q[i + 1] == t[i] && q[j + 1] == t[j];
      }
    }
    if ExpiredFirst(t, window, now) {
      forall i, j | 0 <= i < j < |q| && Expired(window, now, q[j]) ensures Expired(window, now, q[i]) {
        if i > 0 {
          assert q[i] == t[i - 1] && q[j] == t[j - 1];
        }
      }
    }
  }

  ghost predicate InOrder<T>(h: Log<T>) {
    forall i, j :: 0 <= i < j < |h| ==> h[i].0 <= h[j].0
  }

  lemma Associative<T>(a: seq<T>, b: seq<T>, c: seq<T>)
    ensures (a + b) + c == a + (b + c)
  {}

  lemma {:induction false} RecentConcat<T>(a: Log<T>, b: Log<T>, window: nat, now: nat)
    ensures Recent(a + b, window, now) == Recent(a, window, now) + Recent(b, window, now)
  {
    if a == [] {
      assert a + b == b;
    } else {
      RecentConcat(a[1..], b, window, now);
      assert (a + b)[1..] == a[1..] + b && (a + b)[0] == a[0];
      var first := if Expired(window, now, a[0]) then [] else [a[0]];
      Associative(first, Recent(a[1..], window, now), Recent(b, window, now));
    }
  }

  lemma {:induction false} RecentNone<T>(q: Log<T>, window: nat, now: nat)
    requires forall i :: 0 <= i < |q| ==> Expired(window, now, q[i])
    ensures Recent(q, window, now) == []
  {
    if q != [] {
      assert forall i :: 0 <= i < |q[1..]| ==> q[1..][i] == q[i + 1];
      RecentNone(q[1..], window, now);
    }
  }

  lemma RecentSuffix<T>(h: Log<T>, p: nat, window: nat, now: nat)
    requires p <= |h| && forall i :: 0 <= i < p ==> Expired(window, now, h[i])
    ensures Recent(h[p..], window, now) == Recent(h, window, now)
  {
    RecentNone(h[..p], window, now);
    RecentConcat(h[..p], h[p..], window, now);
    assert h[..p] + h[p..] == h;
  }

  lemma OneMorePush<T>(h: Log<T>, window: nat) returns (p: nat)
    requires h != []
    ensures p < |h| && Retained(h[..|h| - 1], window) == h[..|h| - 1][p..]
    ensures Retained(h, window) == Prune(h[p..], window, h[|h| - 1].0)
  {
    var before, last := h[..|h| - 1], h[|h| - 1];
    p := RetainedIsSuffix(before, window);
    SuffixSnoc(h, p);
  }

  lemma PruneInOrder<T>(h: Log<T>, p: nat, window: nat, now: nat)
    requires InOrder(h) && p <= |h|
    ensures Prune(h[p..], window, now) == Recent(h[p..], window, now)
  {
    var q := h[p..];
    forall i, j | 0 <= i < j < |q| && Expired(window, now, q[j]) ensures Expired(window, now, q[i]) {
      assert q[i] == h[p + i] && q[j] == h[p + j];
    }
    PruneIsRecentIff(q, window, now);
  }

  lemma RecentStep<T>(h: Log<T>, window: nat)
    requires h != [] && InOrder(h)
    requires |h| > 1 ==> Retained(h[..|h| - 1], window) == Recent(h[..|h| - 1], window, h[|h| - 2].0)
    ensures Retained(h, window) == Recent(h, window, h[|h| - 1].0)
  {
    var p := OneMorePush(h, window);
    PruneInOrder(h, p, window, h[|h| - 1].0);
    if |h| > 1 {
      StillExpired(h, p, window);
    }
    RecentSuffix(h, p, window, h[|h| - 1].0);
  }

  /** Incremental pruning refines filtering: with timestamps in order, the deque after a
      record is the whole history filtered by age at that record. */
  lemma {:induction false} RetainedIsRecent<T>(h: Log<T>, window: nat)
    requires h != [] && InOrder(h)
    ensures Retained(h, window) == Recent(h, window, h[|h| - 1].0)
  {
    if |h| > 1 {
      RetainedIsRecent(h[..|h| - 1], window);
    }
    RecentStep(h, window);
  }

  lemma StillExpired<T>(h: Log<T>, p: nat, window: nat)
    requires |h| > 1 && p < |h| && InOrder(h)
    requires Recent(h[..|h| - 1], window, h[|h| - 2].0) == h[..|h| - 1][p..]
    ensures forall i :: 0 <= i < p ==> Expired(window, h[|h| - 1].0, h[i])
  {
    var before := h[..|h| - 1];
    DroppedAreExpired(before, p, window, h[|h| - 2].0);
    forall i | 0 <= i < p ensures Expired(window, h[|h| - 1].0, h[i]) {
      assert before[i] == h[i];
    }
  }

  lemma LiveRest<T>(h: Log<T>, p: nat, i: nat, window: nat, now: nat)
    requires InOrder(h) && i < p <= |h| && !Expired(window, now, h[i])
    ensures |Recent(h[p..], window, now)| == |h| - p
  {
    forall j | 0 <= j < |h[p..]| ensures !Expired(window, now, h[p..][j]) {
      assert h[p..][j].0 == h[p + j].0 >= h[i].0;
    }
    RecentAll(h[p..], window, now);
  }

  lemma DroppedAreExpired<T>(h: Log<T>, p: nat, window: nat, now: nat)
    requires p <= |h| && Recent(h, window, now) == h[p..] && InOrder(h)
    ensures forall i :: 0 <= i < p ==> Expired(window, now, h[i])
  {
    forall i | 0 <= i < p ensures Expired(window, now, h[i]) {
      if !Expired(window, now, h[i]) {
        RecentConcat(h[..p], h[p..], window, now);
        assert h[..p] + h[p..] == h;
        LiveRest(h, p, i, window, now);
        RecentMember(h[..p], i, window, now);
        assert false;
      }
    }
  }

  lemma {:induction false} RecentMember<T>(q: Log<T>, i: nat, window: nat, now: nat)
    requires i < |q| && !Expired(window, now, q[i])
    ensures Recent(q, window, now) != []
  {
    if i > 0 {
      assert q[1..][i - 1] == q[i];
      RecentMember(q[1..], i - 1, window, now);
    }
  }

  // ---------- out of order ----------

  lemma RetainedSnoc<T>(q: Log<T>, e: (nat, T), window: nat)
    ensures Retained(q + [e], window) == Prune(Retained(q, window) + [e], window, e.0)
  {
    assert (q + [e])[..|q|] == q;
  }

  /** A push that finds the front live keeps everything. */
  lemma PushKeepsAll<T>(q: Log<T>, e: (nat, T), window: nat)
    requires Retained(q, window) == q && (q != [] ==> !Expired(window, e.0, q[0]))
    ensures Retained(q + [e], window) == q + [e]
  {
    RetainedSnoc(q, e, window);
    assert !Expired(window, e.0, (q + [e])[0]);
  }

  lemma RecentOne<T>(e: (nat, T), window: nat, now: nat)
    ensures Recent([e], window, now) == if Expired(window, now, e) then [] else [e]
  {
    assert [e][1..] == [];
  }

  /** Out of order it is not: one millisecond is enough, for any window, to hide a stale
      sample behind a newer one. The clock is read before the lock is taken, so this
      order of pushes can happen. */
  lemma OutOfOrderKeepsStale(w: nat)
    requires w >= 1
    ensures
      var h: Log<bool> := [(w, false)] + [(w - 1, true)] + [(2 * w, false)];
      && Retained(h, w) == h
      && Recent(h, w, 2 * w) == [(w, false)] + [(2 * w, false)]
  {
    var a: (nat, bool), b: (nat, bool), c: (nat, bool) := (w, false), (w - 1, true), (2 * w, false);
    PushKeepsAll([], a, w);
    assert [] + [a] == [a];
    PushKeepsAll([a], b, w);
    PushKeepsAll([a] + [b], c, w);
    RecentConcat([a] + [b], [c], w, 2 * w);
    RecentConcat([a], [b], w, 2 * w);
    RecentOne(a, w, 2 * w);
    RecentOne(b, w, 2 * w);
    RecentOne(c, w, 2 * w);
  }

  /** A sample no push has found expired is still there, and all that came after it. */
  lemma {:induction false} KeptSince<T>(h: Log<T>, window: nat, i: nat) returns (p: nat)
    requires i < |h| && forall k :: i <= k < |h| ==> !Expired(window, h[k].0, h[i])
    ensures p <= i && Retained(h, window) == h[p..]
  {
    var before, last := h[..|h| - 1], h[|h| - 1];
    if i == |h| - 1 {
      p := RetainedIsSuffix(h, window);
    } else {
      assert before[i] == h[i] && forall k :: i <= k < |before| ==> before[k] == h[k];
      var kept := Retained(before, window);
      var p0 := KeptSince(before, window, i);
      var d := PushDropsOnlyExpired(kept, window, last.0, last.1);
      assert kept[i - p0] == h[i];
      p := p0 + d;
      SuffixOfSuffix(before, p0, d);
      SuffixSnoc(h, p);
      assert Retained(h, window) == kept[d..] + [last];
    }
  }

  lemma {:induction false} RecentAreLive<T>(q: Log<T>, window: nat, now: nat)
    ensures forall i :: 0 <= i < |Recent(q, window, now)| ==> !Expired(window, now, Recent(q, window, now)[i])
  {
    if q != [] {
      RecentAreLive(q[1..], window, now);
    }
  }

  /** After one more push at `now` the deque is the filtered history. */
  ghost predicate FilteredAfter<T>(h: Log<T>, window: nat, now: nat, x: T) {
    Retained(h + [(now, x)], window) == Recent(h + [(now, x)], window, now)
  }

  lemma StaleBehind<T>(h: Log<T>, i: nat, j: nat, window: nat, now: nat)
    requires i < j < |h| && h[|h| - 1].0 == now && forall k :: 0 <= k < |h| ==> h[k].0 <= now
    requires !Expired(window, now, h[i]) && Expired(window, now, h[j])
    ensures Retained(h, window) != Recent(h, window, now)
  {
    var p := KeptSince(h, window, i);
    RecentAreLive(h, window, now);
    assert h[p..][j - p] == h[j];
  }

  /** A time after every push at which sample `i` is a whole number of seconds old. */
  lemma {:induction false} LaterBySeconds<T>(h: Log<T>, start: nat, n: nat) returns (secs: nat)
    requires n <= |h|
    ensures secs > 0 && forall k :: 0 <= k < n ==> h[k].0 <= start + 1000 * secs
  {
    if n == 0 {
      secs := 1;
    } else {
      secs := LaterBySeconds(h, start, n - 1);
      if h[n - 1].0 > start + 1000 * secs {
        secs := h[n - 1].0;
      }
    }
  }

  /** What order is worth, exactly: the stamps of a history are in order if and only if,
      for every window of whole seconds and every push stamped no earlier than all
      before it, the deque after that push is the filtered history. */
  lemma FilteredIffInOrder<T>(h: Log<T>)
    ensures InOrder(h) <==>
            forall secs: nat, now, x ::
              secs > 0 && (forall k :: 0 <= k < |h| ==> h[k].0 <= now) ==> FilteredAfter(h, 1000 * secs, now, x)
  {
    if InOrder(h) {
      forall secs: nat, now, x | secs > 0 && (forall k :: 0 <= k < |h| ==> h[k].0 <= now)
        ensures FilteredAfter(h, 1000 * secs, now, x)
      {
        RetainedIsRecent(h + [(now, x)], 1000 * secs);
      }
    } else {
      var i, j :| 0 <= i < j < |h| && h[i].0 > h[j].0;
      var secs := LaterBySeconds(h, h[i].0, |h|);
      var now := h[i].0 + 1000 * secs;
      StaleBehind(h + [(now, h[i].1)], i, j, 1000 * secs, now);
      assert !FilteredAfter(h, 1000 * secs, now, h[i].1);
    }
  }

  // ---------- failure fraction ----------

  function Failures(q: Log<bool>): (n: nat)
    ensures n <= |q|
  {
    if q == [] then 0 else (if q[0].1 then 1 else 0) + Failures(q[1..])
  }

  function Flags(q: Log<bool>): (flags: seq<bool>)
    ensures |flags| == |q|
  {
    seq(|q|, i requires 0 <= i < |q| => q[i].1)
  }

  /** The count is that of the raised flags. */
  lemma {:induction false} FailuresCount(q: Log<bool>)
    ensures Failures(q) == multiset(Flags(q))[true]
  {
    if q != [] {
      FailuresCount(q[1..]);
      assert Flags(q) == [q[0].1] + Flags(q[1..]);
    }
  }

  lemma {:induction false} FailuresConcat(a: Log<bool>, b: Log<bool>)
    ensures Failures(a + b) == Failures(a) + Failures(b)
  {
    if a == [] {
      assert a + b == b;
    } else {
      assert (a + b)[1..] == a[1..] + b;
      FailuresConcat(a[1..], b);
    }
  }

  lemma Fraction(f: real, n: real)
    requires 0.0 <= f <= n && n > 0.0
    ensures 0.0 <= f / n <= 1.0
  {}

  function FailureRate(q: Log<bool>): (r: real)
    ensures 0.0 <= r <= 1.0
  {
    if q == [] then 0.0
    else
      Fraction(Failures(q) as real, |q| as real);
      Failures(q) as real / |q| as real
  }
}
