/** The blockhash cache: an LRU from blockhash to the highest slot reported for it. */
module BlockhashCache {
  import opened ShortVec
  import opened Wrappers

  datatype Entry = Entry(key: Bytes, slot: nat)

  /** Most recently used first. */
  type Lru = seq<Entry>

  function Max(a: nat, b: nat): nat { if a < b then b else a }

  // ---------- the operations of the LRU map ----------

  function Peek(q: Lru, k: Bytes): Option<nat> {
    if q == [] then None else if q[0].key == k then Some(q[0].slot) else Peek(q[1..], k)
  }

  predicate Has(q: Lru, k: Bytes) { Peek(q, k).Some? }

  function Remove(q: Lru, k: Bytes): (r: Lru)
    ensures |r| == |q| - (if Has(q, k) then 1 else 0)
  {
    if q == [] then [] else if q[0].key == k then q[1..] else [q[0]] + Remove(q[1..], k)
  }

  /** Set a key's slot and make it the most recent, evicting the oldest if need be. */
  function Put(q: Lru, cap: nat, k: Bytes, slot: nat): Lru {
    if Has(q, k) then [Entry(k, slot)] + Remove(q, k)
    else [Entry(k, slot)] + (if 0 < cap <= |q| then q[..|q| - 1] else q)
  }

  /** A hit makes the key the most recent; a miss changes nothing. */
  function Touch(q: Lru, k: Bytes): Lru {
    match Peek(q, k) case None => q case Some(s) => [Entry(k, s)] + Remove(q, k)
  }

  ghost predicate Distinct(q: Lru) {
    forall i, j :: 0 <= i < j < |q| ==> q[i].key != q[j].key
  }

  ghost predicate ValidLru(q: Lru, cap: nat) {
    Distinct(q) && |q| <= cap
  }

  // ---------- runs ----------

  datatype Op = Insert(key: Bytes, slot: nat) | Get(key: Bytes)

  function SlotOr0(q: Lru, k: Bytes): nat {
    if Has(q, k) then Peek(q, k).value else 0
  }

  function Step(q: Lru, cap: nat, op: Op): Lru {
    match op
    case Insert(k, s) => Put(q, cap, k, Max(SlotOr0(q, k), s))
    case Get(k) => Touch(q, k)
  }

  function Run(cap: nat, ops: seq<Op>): Lru {
    if ops == [] then [] else Step(Run(cap, ops[..|ops| - 1]), cap, ops[|ops| - 1])
  }

  class BlockhashCache {
    var entries: Lru
    const cap: nat
    const createdAt: nat
    const warmupSecs: nat

    ghost predicate Valid()
      reads this
    {
      cap >= 1 && ValidLru(entries, cap)
    }

    constructor (warmupSecs: nat, maxEntries: nat, now: nat)
      ensures Valid() && entries == [] && cap == Max(maxEntries, 1)
      ensures this.warmupSecs == warmupSecs && createdAt == now
    {
      this.entries, this.cap := [], Max(maxEntries, 1);
      this.createdAt, this.warmupSecs := now, warmupSecs;
    }

    /** Keep the highest slot seen for the blockhash, and promote it. */
    method InsertSlot(k: Bytes, slot: nat)
      requires Valid()
      modifies this`entries
      ensures Valid() && entries == Step(old(entries), cap, Insert(k, slot))
    {
      StepValid(entries, cap, Insert(k, slot));
      var seen := Peek(entries, k);
      var newSlot := Max(if seen.Some? then seen.value else 0, slot);
      entries := Put(entries, cap, k, newSlot);
    }

    method GetSlot(k: Bytes) returns (r: Option<nat>)
      requires Valid()
      modifies this`entries
      ensures Valid() && r == Peek(old(entries), k) && entries == Step(old(entries), cap, Get(k))
    {
      StepValid(entries, cap, Get(k));
      r := Peek(entries, k);
      entries := Touch(entries, k);
    }

    /** Instants are in milliseconds; whole elapsed seconds are compared. */
    method IsWarmedUp(now: nat) returns (warm: bool)
      requires createdAt <= now
      ensures warm <==> createdAt + 1000 * warmupSecs <= now
    {
      warm := (now - createdAt) / 1000 >= warmupSecs;
    }
  }

  // ---------- basic facts ----------

  lemma {:induction false} HasIndex(q: Lru, k: Bytes)
    ensures Has(q, k) <==> exists i :: 0 <= i < |q| && q[i].key == k
    ensures Has(q, k) ==> exists i :: 0 <= i < |q| && q[i] == Entry(k, Peek(q, k).value)
  {
    if q != [] {
      HasIndex(q[1..], k);
      if q[0].key == k {
        assert q[0] == Entry(k, Peek(q, k).value);
      } else if Has(q[1..], k) {
        var i :| 0 <= i < |q[1..]| && q[1..][i] == Entry(k, Peek(q[1..], k).value);
        assert q[i + 1] == Entry(k, Peek(q, k).value);
      } else {
        forall i | 0 <= i < |q| ensures q[i].key != k {
          if i > 0 {
            assert q[i] == q[1..][i - 1];
          }
        }
      }
    }
  }

  lemma {:induction false} PeekAt(q: Lru, i: nat)
    requires Distinct(q) && i < |q|
    ensures Peek(q, q[i].key) == Some(q[i].slot)
  {
    if i > 0 {
      assert q[i] == q[1..][i - 1];
      PeekAt(q[1..], i - 1);
    }
  }

  lemma {:induction false} RemoveKeeps(q: Lru, k: Bytes)
    requires Distinct(q)
    ensures Distinct(Remove(q, k)) && !Has(Remove(q, k), k)
    ensures forall j :: j != k ==> Peek(Remove(q, k), j) == Peek(q, j)
  {
    if q != [] {
      RemoveKeeps(q[1..], k);
      var r := Remove(q, k);
      if q[0].key == k {
        HasIndex(q[1..], k);
      } else {
        assert r[1..] == Remove(q[1..], k);
        forall i | 1 <= i < |r| ensures r[i].key != q[0].key {
          assert r[i] == r[1..][i - 1];
          HasIndex(r[1..], r[i].key);
          HasIndex(q[1..], r[i].key);
        }
      }
    }
  }

  lemma {:induction false} DropLast(q: Lru)
    requires Distinct(q) && q != []
    ensures Distinct(q[..|q| - 1]) && !Has(q[..|q| - 1], q[|q| - 1].key)
    ensures forall j :: j != q[|q| - 1].key ==> Peek(q[..|q| - 1], j) == Peek(q, j)
  {
    var d := q[..|q| - 1];
    if |q| > 1 {
      DropLast(q[1..]);
      assert d[1..] == q[1..][..|q| - 2];
    }
  }

  lemma PushFront(e: Entry, q: Lru)
    requires Distinct(q) && !Has(q, e.key)
    ensures Distinct([e] + q)
    ensures forall j :: Peek([e] + q, j) == if j == e.key then Some(e.slot) else Peek(q, j)
  {
    assert ([e] + q)[1..] == q;
    HasIndex(q, e.key);
  }

  /** The map a step leaves: the inserted key holds the maximum, every other key
      keeps its slot, except that a full cache drops its oldest key on a new one. */
  lemma StepMap(q: Lru, cap: nat, op: Op)
    requires ValidLru(q, cap) && cap >= 1
    ensures ValidLru(Step(q, cap, op), cap)
    ensures op.Get? ==> forall j :: Peek(Step(q, cap, op), j) == Peek(q, j)
    ensures op.Insert? ==> Peek(Step(q, cap, op), op.key) == Some(Max(SlotOr0(q, op.key), op.slot))
    ensures op.Insert? ==> forall j :: j != op.key ==>
              Peek(Step(q, cap, op), j) ==
              if !Has(q, op.key) && |q| == cap && q[|q| - 1].key == j then None else Peek(q, j)
  {
    if op.Get? && !Has(q, op.key) {
      return;
    }
    var front := Step(q, cap, op)[0];
    var rest := if Has(q, op.key) then Remove(q, op.key) else if |q| == cap then q[..|q| - 1] else q;
    assert Step(q, cap, op) == [front] + rest;
    if Has(q, op.key) {
      RemoveKeeps(q, op.key);
    } else if |q| == cap {
      DropLast(q);
      HasIndex(q, op.key);
    }
    PushFront(front, rest);
  }

  lemma StepValid(q: Lru, cap: nat, op: Op)
    requires ValidLru(q, cap) && cap >= 1
    ensures ValidLru(Step(q, cap, op), cap)
  {
    StepMap(q, cap, op);
  }

  lemma {:induction false} RunValid(cap: nat, ops: seq<Op>)
    requires cap >= 1
    ensures ValidLru(Run(cap, ops), cap)
  {
    if ops != [] {
      RunValid(cap, ops[..|ops| - 1]);
      StepValid(Run(cap, ops[..|ops| - 1]), cap, ops[|ops| - 1]);
    }
  }

  // ---------- inclusion: a smaller cache is embedded in a larger one ----------

  /** `small` is a subsequence of `large`, key by key, with slots no larger. */
  predicate Embedded(small: Lru, large: Lru) {
    if small == [] then true
    else if large == [] then false
    else if small[0].key == large[0].key then small[0].slot <= large[0].slot && Embedded(small[1..], large[1..])
    else Embedded(small, large[1..])
  }

  lemma {:induction false} EmbeddedKey(small: Lru, large: Lru, k: Bytes)
    requires Embedded(small, large) && Distinct(large) && Has(small, k)
    ensures Has(large, k) && Peek(small, k).value <= Peek(large, k).value
    decreases |large|
  {
    if small[0].key == large[0].key {
      if small[0].key != k {
        EmbeddedKey(small[1..], large[1..], k);
      }
    } else {
      EmbeddedKey(small, large[1..], k);
      if large[0].key == k {
        HasIndex(large[1..], k);
      }
    }
  }

  lemma {:induction false} EmbeddedLength(small: Lru, large: Lru)
    requires Embedded(small, large)
    ensures |small| <= |large|
    ensures |small| == |large| ==> forall i :: 0 <= i < |small| ==> small[i].key == large[i].key
    decreases |large|
  {
    if small != [] {
      if small[0].key == large[0].key {
        EmbeddedLength(small[1..], large[1..]);
        forall i | 0 <= i < |small| && |small| == |large| ensures small[i].key == large[i].key {
          if i > 0 {
            assert small[i] == small[1..][i - 1] && large[i] == large[1..][i - 1];
          }
        }
      } else {
        EmbeddedLength(small, large[1..]);
      }
    }
  }

  /** An entry in front of `large` that `small` does not have gets in nobody's way. */
  lemma EmbeddedUnder(small: Lru, e: Entry, large: Lru)
    requires Embedded(small, large) && !Has(small, e.key)
    ensures Embedded(small, [e] + large)
  {
    assert ([e] + large)[1..] == large;
  }

  lemma {:induction false} EmbeddedRemove(small: Lru, large: Lru, k: Bytes)
    requires Embedded(small, large) && Distinct(small) && Distinct(large)
    ensures Embedded(Remove(small, k), Remove(large, k))
    decreases |large|
  {
    if small == [] {
    } else if small[0].key == large[0].key {
      if small[0].key != k {
        EmbeddedRemove(small[1..], large[1..], k);
        var s, l := Remove(small, k), Remove(large, k);
        assert s[1..] == Remove(small[1..], k) && l[1..] == Remove(large[1..], k);
      }
    } else {
      NotAhead(small, large);
      if large[0].key == k {
        RemoveAbsent(small, k);
      } else {
        EmbeddedRemove(small, large[1..], k);
        RemoveKeeps(small, k);
        EmbeddedUnder(Remove(small, k), large[0], Remove(large[1..], k));
      }
    }
  }

  lemma NotAhead(small: Lru, large: Lru)
    requires large != [] && Distinct(large) && Embedded(small, large[1..])
    ensures !Has(small, large[0].key)
  {
    if Has(small, large[0].key) {
      EmbeddedKey(small, large[1..], large[0].key);
      HasIndex(large[1..], large[0].key);
    }
  }

  lemma {:induction false} RemoveAbsent(q: Lru, k: Bytes)
    requires !Has(q, k)
    ensures Remove(q, k) == q
  {
    if q != [] {
      RemoveAbsent(q[1..], k);
    }
  }

  lemma {:induction false} EmbeddedEvictSmall(small: Lru, large: Lru)
    requires Embedded(small, large) && small != []
    ensures Embedded(small[..|small| - 1], large)
    decreases |large|
  {
    var s := small[..|small| - 1];
    if small[0].key == large[0].key {
      if |small| > 1 {
        EmbeddedEvictSmall(small[1..], large[1..]);
        assert s[1..] == small[1..][..|small| - 2];
      }
    } else {
      EmbeddedEvictSmall(small, large[1..]);
    }
  }

  lemma {:induction false} EmbeddedEvictBoth(small: Lru, large: Lru)
    requires Embedded(small, large) && small != []
    ensures Embedded(small[..|small| - 1], large[..|large| - 1])
    decreases |large|
  {
    var s, l := small[..|small| - 1], large[..|large| - 1];
    if small[0].key == large[0].key {
      if |small| > 1 {
        EmbeddedEvictBoth(small[1..], large[1..]);
        EmbeddedLength(small[1..], large[1..]);
        assert s[1..] == small[1..][..|small| - 2] && l[1..] == large[1..][..|large| - 2];
      }
    } else {
      EmbeddedEvictBoth(small, large[1..]);
      EmbeddedLength(small, large[1..]);
      assert l[1..] == large[1..][..|large| - 2];
      assert l[0] == large[0];
    }
  }

  /** What the inclusion proof carries: a small cache that is not full has lost nothing. */
  ghost predicate Includes(small: Lru, smallCap: nat, large: Lru, largeCap: nat) {
    && ValidLru(small, smallCap) && ValidLru(large, largeCap)
    && Embedded(small, large)
    && (|small| == smallCap || |small| == |large|)
  }

  lemma IncludesStep(small: Lru, smallCap: nat, large: Lru, largeCap: nat, op: Op)
    requires 1 <= smallCap <= largeCap && Includes(small, smallCap, large, largeCap)
    ensures Includes(Step(small, smallCap, op), smallCap, Step(large, largeCap, op), largeCap)
  {
    var k := op.key;
    StepValid(small, smallCap, op);
    StepValid(large, largeCap, op);
    EmbeddedLength(small, large);
    EmbeddedRemove(small, large, k);
    if Has(small, k) {
      EmbeddedKey(small, large, k);
      ConsBoth(Step(small, smallCap, op)[0], Remove(small, k), Step(large, largeCap, op)[0], Remove(large, k));
    } else {
      RemoveAbsent(small, k);
      if |small| == |large| {
        SameKeys(small, large, k);
      }
      match op {
        case Get(_) =>
          if Has(large, k) {
            EmbeddedUnder(small, Step(large, largeCap, op)[0], Remove(large, k));
          }
        case Insert(_, s) =>
          var l := if Has(large, k) then Remove(large, k)
                   else if |large| == largeCap then large[..|large| - 1] else large;
          var t := if |small| == smallCap then small[..|small| - 1] else small;
          if |small| == smallCap {
            if !Has(large, k) && |large| == largeCap {
              EmbeddedEvictBoth(small, large);
            } else if Has(large, k) {
              EmbeddedEvictSmall(small, Remove(large, k));
            } else {
              EmbeddedEvictSmall(small, large);
            }
          }
          ConsBoth(Entry(k, s), t, Step(large, largeCap, op)[0], l);
      }
    }
  }

  lemma ConsBoth(e: Entry, small: Lru, f: Entry, large: Lru)
    requires e.key == f.key && e.slot <= f.slot && Embedded(small, large)
    ensures Embedded([e] + small, [f] + large)
  {
    assert ([e] + small)[1..] == small && ([f] + large)[1..] == large;
  }

  lemma SameKeys(small: Lru, large: Lru, k: Bytes)
    requires Embedded(small, large) && |small| == |large|
    ensures Has(small, k) <==> Has(large, k)
  {
    EmbeddedLength(small, large);
    HasIndex(small, k);
    HasIndex(large, k);
    if i :| 0 <= i < |large| && large[i].key == k {
      assert small[i].key == k;
    }
  }

  lemma {:induction false} IncludesRun(smallCap: nat, largeCap: nat, ops: seq<Op>)
    requires 1 <= smallCap <= largeCap
    ensures Includes(Run(smallCap, ops), smallCap, Run(largeCap, ops), largeCap)
  {
    if ops != [] {
      var before, op := ops[..|ops| - 1], ops[|ops| - 1];
      IncludesRun(smallCap, largeCap, before);
      IncludesStep(Run(smallCap, before), smallCap, Run(largeCap, before), largeCap, op);
    }
  }

  function Position(q: Lru, k: Bytes): (i: nat)
    ensures i <= |q|
    ensures i < |q| ==> q[i].key == k
  {
    if q == [] || q[0].key == k then 0 else 1 + Position(q[1..], k)
  }

  lemma {:induction false} EmbeddedOrder(small: Lru, large: Lru, i: nat, j: nat)
    requires Embedded(small, large) && Distinct(small) && Distinct(large) && i < j < |small|
    ensures Position(large, small[i].key) < Position(large, small[j].key) < |large|
    decreases |large|
  {
    if small[0].key == large[0].key {
      assert small[j] == small[1..][j - 1];
      if i == 0 {
        PositionInside(small[1..], large[1..], j - 1);
      } else {
        assert small[i] == small[1..][i - 1];
        EmbeddedOrder(small[1..], large[1..], i - 1, j - 1);
      }
    } else {
      NotAhead(small, large);
      PeekAt(small, i);
      PeekAt(small, j);
      EmbeddedOrder(small, large[1..], i, j);
    }
  }

  lemma {:induction false} PositionInside(small: Lru, large: Lru, j: nat)
    requires Embedded(small, large) && Distinct(small) && Distinct(large) && j < |small|
    ensures Position(large, small[j].key) < |large|
    decreases |large|
  {
    if small[0].key == large[0].key {
      if j > 0 {
        assert small[j] == small[1..][j - 1];
        PositionInside(small[1..], large[1..], j - 1);
      }
    } else {
      PositionInside(small, large[1..], j);
    }
  }

  /** LRU inclusion. After any one sequence of inserts and lookups, a cache with a
      smaller limit holds a subset of the keys of one with a larger limit, each with
      a slot no larger, and in the same order of recency. */
  lemma Inclusion(smallCap: nat, largeCap: nat, ops: seq<Op>)
    requires 1 <= smallCap <= largeCap
    ensures
      var small, large := Run(smallCap, ops), Run(largeCap, ops);
      && (forall k :: Has(small, k) ==> Has(large, k) && Peek(small, k).value <= Peek(large, k).value)
      && (forall i, j :: 0 <= i < j < |small| ==>
            Position(large, small[i].key) < Position(large, small[j].key) < |large|)
  {
    IncludesRun(smallCap, largeCap, ops);
    var small, large := Run(smallCap, ops), Run(largeCap, ops);
    forall k | Has(small, k) ensures Has(large, k) && Peek(small, k).value <= Peek(large, k).value {
      EmbeddedKey(small, large, k);
    }
    forall i, j | 0 <= i < j < |small|
      ensures Position(large, small[i].key) < Position(large, small[j].key) < |large|
    {
      EmbeddedOrder(small, large, i, j);
    }
  }

  // ---------- the order of recency ----------

  lemma {:induction false} HasPosition(q: Lru, k: Bytes)
    ensures Has(q, k) <==> Position(q, k) < |q|
  {
    if q != [] {
      HasPosition(q[1..], k);
    }
  }

  lemma {:induction false} RemovePosition(q: Lru, k: Bytes, a: Bytes)
    requires a != k
    ensures Position(Remove(q, k), a) == Position(q, a) - (if Position(q, k) < Position(q, a) then 1 else 0)
  {
    if q != [] && q[0].key != k {
      assert Remove(q, k)[1..] == Remove(q[1..], k);
      RemovePosition(q[1..], k, a);
    }
  }

  lemma {:induction false} TakePosition(q: Lru, n: nat, a: Bytes)
    requires n <= |q|
    ensures Position(q[..n], a) == if Position(q, a) < n then Position(q, a) else n
  {
    if n > 0 {
      assert q[..n][1..] == q[1..][..n - 1];
      TakePosition(q[1..], n - 1, a);
    }
  }

  lemma PushPosition(e: Entry, q: Lru, a: Bytes)
    requires a != e.key
    ensures Position([e] + q, a) == 1 + Position(q, a)
  {
    assert ([e] + q)[1..] == q;
  }

  /** What a step leaves behind its most recent entry. */
  function RestOf(q: Lru, cap: nat, k: Bytes): Lru {
    if Has(q, k) then Remove(q, k) else if 0 < cap <= |q| then q[..|q| - 1] else q
  }

  lemma RestOrder(q: Lru, cap: nat, k: Bytes, a: Bytes, b: Bytes)
    requires ValidLru(q, cap) && cap >= 1 && a != k && b != k
    requires Has(RestOf(q, cap, k), a) && Has(RestOf(q, cap, k), b)
    ensures Position(q, a) < Position(q, b) <==> Position(RestOf(q, cap, k), a) < Position(RestOf(q, cap, k), b)
  {
    HasPosition(RestOf(q, cap, k), a);
    HasPosition(RestOf(q, cap, k), b);
    if Has(q, k) {
      RemoveOrder(q, k, a, b);
    } else if cap <= |q| {
      TakePosition(q, |q| - 1, a);
      TakePosition(q, |q| - 1, b);
    }
  }

  lemma RemoveOrder(q: Lru, k: Bytes, a: Bytes, b: Bytes)
    requires a != k && b != k
    requires Position(Remove(q, k), a) < |Remove(q, k)| && Position(Remove(q, k), b) < |Remove(q, k)|
    ensures Position(q, a) < Position(q, b) <==> Position(Remove(q, k), a) < Position(Remove(q, k), b)
  {
    RemovePosition(q, k, a);
    RemovePosition(q, k, b);
  }

  /** Least recently used, exactly: a hit and an insert make the key the most recent with
      the slot it then has, a miss changes nothing, and all others keep their order. */
  lemma StepOrder(q: Lru, cap: nat, op: Op, a: Bytes, b: Bytes)
    requires ValidLru(q, cap) && cap >= 1
    ensures op.Get? && !Has(q, op.key) ==> Step(q, cap, op) == q
    ensures op.Get? && Has(q, op.key) ==>
              Step(q, cap, op) != [] && Step(q, cap, op)[0] == Entry(op.key, Peek(q, op.key).value)
    ensures op.Insert? ==> Step(q, cap, op) != [] && Step(q, cap, op)[0].key == op.key
    ensures a != op.key && b != op.key && Has(Step(q, cap, op), a) && Has(Step(q, cap, op), b) ==>
              (Position(q, a) < Position(q, b) <==> Position(Step(q, cap, op), a) < Position(Step(q, cap, op), b))
  {
    var k, after := op.key, Step(q, cap, op);
    if (op.Insert? || Has(q, k)) && a != k && b != k && Has(after, a) && Has(after, b) {
      var rest := RestOf(q, cap, k);
      assert after == [after[0]] + rest && after[1..] == rest;
      PushPosition(after[0], rest, a);
      PushPosition(after[0], rest, b);
      RestOrder(q, cap, k, a, b);
    }
  }

  // ---------- what a resident slot is ----------

  function MaxInserted(ops: seq<Op>, k: Bytes): nat {
    if ops == [] then 0
    else
      var before, op := MaxInserted(ops[..|ops| - 1], k), ops[|ops| - 1];
      if op.Insert? && op.key == k then Max(before, op.slot) else before
  }

  ghost predicate ResidentAfter(cap: nat, ops: seq<Op>, i: nat, k: Bytes)
    requires i <= |ops|
  {
    Has(Run(cap, ops[..i]), k)
  }

  /** `k` entered at operation `j` and has been resident ever since. */
  ghost predicate EnteredAt(cap: nat, ops: seq<Op>, k: Bytes, j: nat) {
    && j < |ops| && !ResidentAfter(cap, ops, j, k)
    && forall i :: j < i <= |ops| ==> ResidentAfter(cap, ops, i, k)
  }

  lemma EnteredExtends(cap: nat, ops: seq<Op>, op: Op, k: Bytes, j: nat)
    requires EnteredAt(cap, ops, k, j) && Has(Run(cap, ops + [op]), k)
    ensures EnteredAt(cap, ops + [op], k, j)
  {
    var after := ops + [op];
    assert after[..j] == ops[..j];
    assert after[..|after|] == after;
    forall i | j < i <= |ops| ensures ResidentAfter(cap, after, i, k) {
      assert ResidentAfter(cap, ops, i, k);
      assert after[..i] == ops[..i];
    }
  }

  lemma MaxInsertedSnoc(ops: seq<Op>, op: Op, j: nat, k: Bytes)
    requires j <= |ops|
    ensures MaxInserted((ops + [op])[j..], k) ==
            if op.Insert? && op.key == k then Max(MaxInserted(ops[j..], k), op.slot) else MaxInserted(ops[j..], k)
  {
    assert (ops + [op])[j..] == ops[j..] + [op];
    assert (ops[j..] + [op])[..|ops[j..]|] == ops[j..];
  }

  /** Every resident slot is the maximum inserted for its key since the key last entered. */
  lemma {:induction false} SlotSinceEntry(cap: nat, ops: seq<Op>, k: Bytes) returns (j: nat)
    requires cap >= 1 && Has(Run(cap, ops), k)
    ensures EnteredAt(cap, ops, k, j)
    ensures Peek(Run(cap, ops), k) == Some(MaxInserted(ops[j..], k))
  {
    var n := |ops| - 1;
    var before, op := ops[..n], ops[n];
    assert ops == before + [op];
    RunValid(cap, before);
    StepMap(Run(cap, before), cap, op);
    if Has(Run(cap, before), k) {
      j := SlotSinceEntry(cap, before, k);
      EnteredExtends(cap, before, op, k, j);
    } else {
      j := n;
      assert ops[..|ops|] == ops;
    }
    MaxInsertedSnoc(before, op, j, k);
  }
}
