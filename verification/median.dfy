/** The median of the retained latencies, by sorting a copy. */
module Median {
  function Insert(x: real, s: seq<real>): (r: seq<real>)
    ensures |r| == |s| + 1
  {
    if s == [] || x <= s[0] then [x] + s else [s[0]] + Insert(x, s[1..])
  }

  function Sort(v: seq<real>): (r: seq<real>)
    ensures |r| == |v|
  {
    if v == [] then [] else Insert(v[0], Sort(v[1..]))
  }

  function P50(v: seq<real>): real
    requires v != []
  {
    Sort(v)[|v| / 2]
  }

  ghost predicate Sorted(s: seq<real>) {
    forall i, j :: 0 <= i < j < |s| ==> s[i] <= s[j]
  }

  /** How many elements are strictly below, and strictly above, `x`. */
  function Below(v: seq<real>, x: real): (n: nat)
    ensures n <= |v|
  {
    if v == [] then 0 else (if v[0] < x then 1 else 0) + Below(v[1..], x)
  }

  function Above(v: seq<real>, x: real): (n: nat)
    ensures n <= |v|
  {
    if v == [] then 0 else (if v[0] > x then 1 else 0) + Above(v[1..], x)
  }

  lemma {:induction false} InsertCounts(x: real, s: seq<real>, y: real)
    ensures Below(Insert(x, s), y) == (if x < y then 1 else 0) + Below(s, y)
    ensures Above(Insert(x, s), y) == (if x > y then 1 else 0) + Above(s, y)
    ensures multiset(Insert(x, s)) == multiset{x} + multiset(s)
  {
    if s == [] || x <= s[0] {
      assert ([x] + s)[1..] == s;
    } else {
      InsertCounts(x, s[1..], y);
      assert ([s[0]] + Insert(x, s[1..]))[1..] == Insert(x, s[1..]);
      assert [s[0]] + s[1..] == s;
    }
  }

  lemma {:induction false} InsertFloor(x: real, s: seq<real>, lo: real)
    requires lo <= x && forall i :: 0 <= i < |s| ==> lo <= s[i]
    ensures forall i :: 0 <= i < |Insert(x, s)| ==> lo <= Insert(x, s)[i]
  {
    if s != [] && x > s[0] {
      InsertFloor(x, s[1..], lo);
    }
  }

  lemma {:induction false} InsertSorted(x: real, s: seq<real>)
    requires Sorted(s)
    ensures Sorted(Insert(x, s))
  {
    var r := Insert(x, s);
    if s == [] || x <= s[0] {
    } else {
      InsertSorted(x, s[1..]);
      assert r[1..] == Insert(x, s[1..]);
      InsertFloor(x, s[1..], s[0]);
      forall i, j | 0 <= i < j < |r| ensures r[i] <= r[j] {
        if i > 0 {
          assert r[i] == r[1..][i - 1] && r[j] == r[1..][j - 1];
        }
      }
    }
  }

  lemma {:induction false} SortFacts(v: seq<real>, y: real)
    ensures Sorted(Sort(v)) && multiset(Sort(v)) == multiset(v)
    ensures Below(Sort(v), y) == Below(v, y) && Above(Sort(v), y) == Above(v, y)
  {
    if v != [] {
      SortFacts(v[1..], y);
      InsertSorted(v[0], Sort(v[1..]));
      InsertCounts(v[0], Sort(v[1..]), y);
      assert v == [v[0]] + v[1..];
    }
  }

  /** In a sorted sequence, the elements below the one at `k` sit before it. */
  lemma {:induction false} SortedCounts(s: seq<real>, y: real, k: nat)
    requires Sorted(s) && k <= |s|
    requires forall i :: 0 <= i < k ==> s[i] <= y
    requires forall i :: k <= i < |s| ==> s[i] >= y
    ensures Below(s, y) <= k && Above(s, y) <= |s| - k
  {
    if s != [] {
      assert forall i :: 0 <= i < |s[1..]| ==> s[1..][i] == s[i + 1];
      if k > 0 {
        SortedCounts(s[1..], y, k - 1);
      } else {
        SortedCounts(s[1..], y, 0);
      }
    }
  }

  lemma {:induction false} CountsAtLeast(s: seq<real>, y: real, k: nat)
    requires k <= |s|
    ensures (forall i :: 0 <= i < k ==> s[i] < y) ==> Below(s, y) >= k
    ensures (forall i :: k <= i < |s| ==> s[i] > y) ==> Above(s, y) >= |s| - k
  {
    if s != [] {
      assert forall i :: 0 <= i < |s[1..]| ==> s[1..][i] == s[i + 1];
      if k > 0 {
        CountsAtLeast(s[1..], y, k - 1);
      } else {
        CountsAtLeast(s[1..], y, 0);
      }
    }
  }

  /** `y` splits `v` as a median at index n/2 does. */
  ghost predicate Splits(v: seq<real>, y: real) {
    Below(v, y) <= |v| / 2 && Above(v, y) <= |v| - 1 - |v| / 2
  }

  lemma MedianOccurs(v: seq<real>)
    requires v != []
    ensures P50(v) in v
  {
    SortFacts(v, 0.0);
    assert Sort(v)[|v| / 2] in multiset(Sort(v));
  }

  lemma SortedSplits(s: seq<real>, m: nat)
    requires Sorted(s) && m < |s|
    ensures Below(s, s[m]) <= m && Above(s, s[m]) <= |s| - 1 - m
  {
    SortedCounts(s, s[m], m);
    SortedCounts(s, s[m], m + 1);
  }

  lemma MedianSplits(v: seq<real>)
    requires v != []
    ensures Splits(v, P50(v))
  {
    SortFacts(v, P50(v));
    SortedSplits(Sort(v), |v| / 2);
  }

  lemma SortedOnly(s: seq<real>, m: nat, y: real)
    requires Sorted(s) && m < |s| && Below(s, y) <= m && Above(s, y) <= |s| - 1 - m
    ensures y == s[m]
  {
    CountsAtLeast(s, y, m);
    CountsAtLeast(s, y, m + 1);
  }

  lemma OnlyMedianSplits(v: seq<real>, y: real)
    requires v != [] && Splits(v, y)
    ensures y == P50(v)
  {
    SortFacts(v, y);
    SortedOnly(Sort(v), |v| / 2, y);
  }

  /** The median is an element of the window, with at most half of the n samples
      strictly below it and at most n - 1 - n/2 strictly above it, and no other
      number has that property. */
  lemma MedianExact(v: seq<real>, y: real)
    requires v != []
    ensures P50(v) in v
    ensures Splits(v, y) <==> y == P50(v)
  {
    MedianOccurs(v);
    MedianSplits(v);
    if Splits(v, y) {
      OnlyMedianSplits(v, y);
    }
  }
}
