/**
 Optimality of the merge loop. Code lengths are compared through the Kraft sum: a length vector is
 feasible when the powers 2^-length of the present slots add up to at most one. Every prefix code is
 feasible (module PrefixCodes), and one greedy merge turns any feasible vector into a feasible vector
 for the merged weights that is cheaper by at least the merged weight.
 */
module HuffmanOptimality {
  import opened Sums
  import opened HuffmanForest

  function CostTerms(w: seq<nat>, d: seq<nat>): (t: seq<int>)
    requires |d| == |w|
    ensures |t| == |w|
    ensures forall i :: 0 <= i < |w| ==> t[i] == w[i] * d[i]
  {
    seq(|w|, i requires 0 <= i < |w| => w[i] * d[i])
  }

  /** Total frequency-weighted length. */
  function Cost(w: seq<nat>, d: seq<nat>): int
    requires |d| == |w|
  {
    Sum(CostTerms(w, d))
  }

  ghost predicate Bounded(w: seq<nat>, d: seq<nat>, limit: nat) {
    |d| == |w| && forall i :: 0 <= i < |w| && w[i] > 0 ==> d[i] <= limit
  }

  ghost function KraftTerms(w: seq<nat>, d: seq<nat>, limit: nat): (t: seq<int>)
    requires Bounded(w, d, limit)
    ensures |t| == |w|
    ensures forall i :: 0 <= i < |w| ==> t[i] == if w[i] > 0 then Pow2(limit - d[i]) else 0
  {
    seq(|w|, i requires 0 <= i < |w| => if w[i] > 0 then Pow2(limit - d[i]) else 0)
  }

  /** The Kraft sum of the present slots, scaled by 2^limit. */
  ghost function Kraft(w: seq<nat>, d: seq<nat>, limit: nat): int
    requires Bounded(w, d, limit)
  {
    Sum(KraftTerms(w, d, limit))
  }

  ghost predicate Feasible(w: seq<nat>, d: seq<nat>, limit: nat) {
    Bounded(w, d, limit) && Kraft(w, d, limit) <= Pow2(limit)
  }

  ghost function MergeTotal(f: seq<nat>, ms: seq<Merge>): int
    requires |f| == SLOTS && GreedyRun(f, ms)
    decreases |ms|
  {
    if ms == [] then 0
    else
      var n := |ms| - 1;
      var w := Weights(f, ms[..n]);
      MergeTotal(f, ms[..n]) + w[ms[n].low] + w[ms[n].high]
  }

  // ----- one step: any feasible vector yields a cheaper one for the merged weights

  function Swapped(d: seq<nat>, a: nat, x: nat): seq<nat>
    requires a < |d| && x < |d|
  {
    d[a := d[x]][x := d[a]]
  }

  lemma ExchangeKraft(w: seq<nat>, d: seq<nat>, limit: nat, a: nat, x: nat)
    requires Bounded(w, d, limit)
    requires a < |w| && x < |w| && a != x && w[a] > 0 && w[x] > 0
    ensures Bounded(w, Swapped(d, a, x), limit)
    ensures Kraft(w, Swapped(d, a, x), limit) == Kraft(w, d, limit)
  {
    var t, u := KraftTerms(w, d, limit), KraftTerms(w, Swapped(d, a, x), limit);
    assert u == t[a := t[x]][x := t[a]];
    SumUpdate(t, a, t[x]);
    SumUpdate(t[a := t[x]], x, t[a]);
  }

  /** Giving the lighter slot the longer length does not cost more and keeps the Kraft sum. */
  lemma Exchange(w: seq<nat>, d: seq<nat>, limit: nat, a: nat, x: nat)
    requires Feasible(w, d, limit)
    requires a < |w| && x < |w| && 0 < w[a] <= w[x] && d[a] <= d[x]
    ensures Feasible(w, Swapped(d, a, x), limit)
    ensures Cost(w, Swapped(d, a, x)) <= Cost(w, d)
  {
    if a == x {
      assert Swapped(d, a, x) == d;
    } else {
      ExchangeKraft(w, d, limit, a, x);
      ExchangeCost(w, d, a, x);
    }
  }

  lemma ExchangeCost(w: seq<nat>, d: seq<nat>, a: nat, x: nat)
    requires |w| == |d| && a < |w| && x < |w| && a != x && w[a] <= w[x] && d[a] <= d[x]
    ensures Cost(w, Swapped(d, a, x)) <= Cost(w, d)
  {
    var t, u := CostTerms(w, d), CostTerms(w, Swapped(d, a, x));
    assert u == t[a := u[a]][x := u[x]];
    SumUpdate(t, a, u[a]);
    SumUpdate(t[a := u[a]], x, u[x]);
    SwapProducts(w[a], w[x], d[a], d[x]);
  }

  lemma SwapProducts(p: int, q: int, k: int, l: int)
    requires p <= q && k <= l
    ensures p * l + q * k <= p * k + q * l
  {
    assert (q - p) * (l - k) >= 0;
  }

  /** A present slot other than `skip` whose length is the largest among those. */
  lemma {:induction false} Longest(w: seq<nat>, d: seq<nat>, skip: int, n: nat) returns (x: nat)
    requires |w| == |d| && n <= |w|
    requires exists i :: 0 <= i < n && i != skip && w[i] > 0
    ensures x < n && x != skip && w[x] > 0
    ensures forall i :: 0 <= i < n && i != skip && w[i] > 0 ==> d[i] <= d[x]
  {
    x :| 0 <= x < n && x != skip && w[x] > 0;
    var k := 0;
    while k < n
      invariant k <= n
      invariant x < n && x != skip && w[x] > 0
      invariant forall i :: 0 <= i < k && i != skip && w[i] > 0 ==> d[i] <= d[x]
    {
      if k != skip && w[k] > 0 && d[k] > d[x] {
        x := k;
      }
      k := k + 1;
    }
  }

  lemma MulMonotone(a: int, b: int, p: int)
    requires a <= b && p >= 0
    ensures a * p <= b * p
  {
    assert (b - a) * p >= 0;
  }

  lemma RoundUp(q: int, p: int, c: int, e: int)
    requires p > 0 && e > 0 && q * p + e <= c * p
    ensures q * p + p <= c * p
  {
    if q >= c {
      MulMonotone(c, q, p);
    } else {
      MulMonotone(q + 1, c, p);
      assert (q + 1) * p == q * p + p;
    }
  }

  /** Terms of length at most len are multiples of 2^(limit - len), and so is their sum. */
  lemma OthersMultiple(w: seq<nat>, d: seq<nat>, limit: nat, a: nat, len: nat) returns (q: int)
    requires Bounded(w, d, limit) && a < |w| && len <= limit
    requires forall i :: 0 <= i < |w| && i != a && w[i] > 0 ==> d[i] <= len
    ensures Sum(KraftTerms(w, d, limit)[a := 0]) == Pow2(limit - len) * q
  {
    var rest := KraftTerms(w, d, limit)[a := 0];
    var p := Pow2(limit - len);
    var quotients := seq(|w|, i requires 0 <= i < |w| => if i != a && w[i] > 0 then Pow2(len - d[i]) else 0);
    forall i | 0 <= i < |w| ensures rest[i] == p * quotients[i] {
      if i != a && w[i] > 0 {
        Pow2Add(limit - len, len - d[i]);
      }
    }
    SumScale(quotients, rest, p);
    q := Sum(quotients);
  }

  /** How the Kraft sum moves when slot a gets length len instead. */
  lemma ShortenKraft(w: seq<nat>, d: seq<nat>, limit: nat, a: nat, len: nat)
    requires Bounded(w, d, limit) && a < |w| && w[a] > 0 && len <= limit
    ensures Bounded(w, d[a := len], limit)
    ensures var rest := Sum(KraftTerms(w, d, limit)[a := 0]);
      && Kraft(w, d, limit) == rest + Pow2(limit - d[a])
      && Kraft(w, d[a := len], limit) == rest + Pow2(limit - len)
  {
    assert Bounded(w, d[a := len], limit);
    var t := KraftTerms(w, d, limit);
    SumUpdate(t, a, 0);
    assert KraftTerms(w, d[a := len], limit) == t[a := 0][a := Pow2(limit - len)];
    SumUpdate(t[a := 0], a, Pow2(limit - len));
  }

  /** A length strictly above all others can be cut down to the largest of the others. */
  lemma Shorten(w: seq<nat>, d: seq<nat>, limit: nat, a: nat, len: nat)
    requires Feasible(w, d, limit) && a < |w| && w[a] > 0 && len <= d[a]
    requires forall i :: 0 <= i < |w| && i != a && w[i] > 0 ==> d[i] <= len
    ensures Feasible(w, d[a := len], limit)
  {
    ShortenKraft(w, d, limit, a, len);
    var q := OthersMultiple(w, d, limit, a, len);
    Pow2Add(len, limit - len);
    RoundUp(q, Pow2(limit - len), Pow2(len), Pow2(limit - d[a]));
  }

  /** Moving two siblings into their parent, one level up, keeps the Kraft sum... */
  lemma KraftMerge(w: seq<nat>, d: seq<nat>, limit: nat, m: Merge, j: nat)
    requires Bounded(w, d, limit)
    requires m.low < |w| && m.high < |w| && j < |w| && m.low != m.high
    requires w[m.low] > 0 && w[m.high] > 0 && w[j] == 0 && d[m.low] == d[m.high] == d[j] + 1
    ensures Bounded(Merged(w, m, j), d, limit)
    ensures Kraft(Merged(w, m, j), d, limit) == Kraft(w, d, limit)
  {
    assert Bounded(Merged(w, m, j), d, limit);
    SumMerge(KraftTerms(w, d, limit), KraftTerms(Merged(w, m, j), d, limit), m, j);
  }

  /** ... and saves exactly the merged weight. */
  lemma CostMerge(w: seq<nat>, d: seq<nat>, m: Merge, j: nat)
    requires |w| == |d| && m.low < |w| && m.high < |w| && j < |w| && m.low != m.high
    requires w[m.low] > 0 && w[m.high] > 0 && w[j] == 0 && d[m.low] == d[m.high] == d[j] + 1
    ensures Cost(Merged(w, m, j), d) + w[m.low] + w[m.high] == Cost(w, d)
  {
    var t, u := CostTerms(w, d), CostTerms(Merged(w, m, j), d);
    SumMerge(t, u, m, j);
    SharedLevel(w[m.low], w[m.high], d[j]);
  }

  lemma SharedLevel(a: int, b: int, k: int)
    ensures a * (k + 1) + b * (k + 1) == (a + b) * k + a + b
  {
  }

  lemma AbsentSlot(w: seq<nat>, d: seq<nat>, limit: nat, j: nat, v: nat)
    requires Feasible(w, d, limit) && j < |w| && w[j] == 0
    ensures Feasible(w, d[j := v], limit) && Cost(w, d[j := v]) == Cost(w, d)
  {
    assert KraftTerms(w, d[j := v], limit) == KraftTerms(w, d, limit);
    assert CostTerms(w, d[j := v]) == CostTerms(w, d);
  }

  /** Two distinct slots cannot both have length zero. */
  lemma NotBothZero(w: seq<nat>, d: seq<nat>, limit: nat, a: nat, b: nat)
    requires Feasible(w, d, limit) && a < |w| && b < |w| && a != b && w[a] > 0 && w[b] > 0
    ensures d[a] > 0 || d[b] > 0
  {
    SumPair(KraftTerms(w, d, limit), a, b);
  }

  /** Two siblings of equal length become one node one level up. */
  lemma Contract(w: seq<nat>, d: seq<nat>, limit: nat, m: Merge, j: nat) returns (d': seq<nat>)
    requires Feasible(w, d, limit)
    requires m.low < |w| && m.high < |w| && j < |w| && m.low != m.high
    requires w[m.low] > 0 && w[m.high] > 0 && w[j] == 0 && d[m.low] == d[m.high]
    ensures Feasible(Merged(w, m, j), d', limit)
    ensures Cost(Merged(w, m, j), d') + w[m.low] + w[m.high] == Cost(w, d)
  {
    NotBothZero(w, d, limit, m.low, m.high);
    d' := d[j := d[m.low] - 1];
    AbsentSlot(w, d, limit, j, d[m.low] - 1);
    KraftMerge(w, d', limit, m, j);
    CostMerge(w, d', m, j);
  }

  /** The two smallest can be made the two longest, the first at least as long as the second. */
  lemma Deepest(w: seq<nat>, d: seq<nat>, limit: nat, m: Merge, j: nat) returns (d': seq<nat>)
    requires j < |w| && SmallestTwo(w, j, m) && Feasible(w, d, limit)
    requires forall i :: j <= i < |w| ==> w[i] == 0
    ensures Feasible(w, d', limit) && Cost(w, d') <= Cost(w, d)
    ensures d'[m.high] <= d'[m.low]
    ensures forall i :: 0 <= i < |w| && i != m.low && w[i] > 0 ==> d'[i] <= d'[m.high]
  {
    var x := Longest(w, d, -1, j);
    Exchange(w, d, limit, m.low, x);
    var d1 := Swapped(d, m.low, x);
    var y := Longest(w, d1, m.low, j);
    Exchange(w, d1, limit, m.high, y);
    d' := Swapped(d1, m.high, y);
    assert d'[m.low] == d1[m.low] == d[x];
  }

  /** The greedy step: whatever the competitor's lengths, merging the two smallest loses nothing. */
  lemma GreedyStep(w: seq<nat>, d: seq<nat>, limit: nat, m: Merge, j: nat) returns (d': seq<nat>)
    requires j < |w| && SmallestTwo(w, j, m) && Feasible(w, d, limit)
    requires forall i :: j <= i < |w| ==> w[i] == 0
    ensures Feasible(Merged(w, m, j), d', limit)
    ensures Cost(Merged(w, m, j), d') + w[m.low] + w[m.high] <= Cost(w, d)
  {
    var d2 := Deepest(w, d, limit, m, j);
    var len := d2[m.high];
    Shorten(w, d2, limit, m.low, len);
    ShortenCost(w, d2, m.low, len);
    d' := Contract(w, d2[m.low := len], limit, m, j);
  }

  lemma ShortenCost(w: seq<nat>, d: seq<nat>, a: nat, len: nat)
    requires |w| == |d| && a < |w| && len <= d[a]
    ensures Cost(w, d[a := len]) <= Cost(w, d)
  {
    var t, u := CostTerms(w, d), CostTerms(w, d[a := len]);
    assert u == t[a := u[a]];
    SumUpdate(t, a, u[a]);
    assert w[a] * (d[a] - len) >= 0;
  }

  /** Lower bound: no feasible length vector for f costs less than the merges add up to. */
  lemma {:induction false} LowerBound(f: seq<nat>, ms: seq<Merge>, d: seq<nat>, limit: nat) returns (d': seq<nat>)
    requires ValidTable(f) && GreedyRun(f, ms) && Feasible(f, d, limit)
    ensures Feasible(Weights(f, ms), d', limit)
    ensures Cost(Weights(f, ms), d') + MergeTotal(f, ms) <= Cost(f, d)
    decreases |ms|
  {
    if ms == [] {
      d' := d;
    } else {
      var n := |ms| - 1;
      var d1 := LowerBound(f, ms[..n], d, limit);
      FreshSlots(f, ms[..n]);
      d' := GreedyStep(Weights(f, ms[..n]), d1, limit, ms[n], SYMBOLS + n);
    }
  }

  lemma CostNonnegative(w: seq<nat>, d: seq<nat>)
    requires |w| == |d|
    ensures Cost(w, d) >= 0
  {
    var zero := seq(|w|, _ => 0);
    SumZero(zero);
    SumLess(zero, CostTerms(w, d));
  }

  // ----- the lengths the forest itself gives

  /** d gives both parts of every merge one level more than the node they were merged into. */
  ghost predicate TreeLengths(ms: seq<Merge>, d: seq<nat>) {
    && InRange(ms) && |d| == SLOTS
    && forall k :: 0 <= k < |ms| ==> d[ms[k].low] == d[ms[k].high] == d[SYMBOLS + k] + 1
  }

  lemma {:induction false} TreeCost(f: seq<nat>, ms: seq<Merge>, d: seq<nat>)
    requires ValidTable(f) && GreedyRun(f, ms) && TreeLengths(ms, d)
    ensures Cost(f, d) == Cost(Weights(f, ms), d) + MergeTotal(f, ms)
    decreases |ms|
  {
    if ms != [] {
      var n := |ms| - 1;
      var w := Weights(f, ms[..n]);
      TreeCost(f, ms[..n], d);
      assert w[SYMBOLS + n] == 0 by { FreshSlots(f, ms[..n]); }
      CostMerge(w, d, ms[n], SYMBOLS + n);
    }
  }

  lemma {:induction false} TreeKraft(f: seq<nat>, ms: seq<Merge>, d: seq<nat>, limit: nat)
    requires ValidTable(f) && GreedyRun(f, ms) && TreeLengths(ms, d)
    requires forall i :: 0 <= i < SLOTS ==> d[i] <= limit
    ensures Kraft(f, d, limit) == Kraft(Weights(f, ms), d, limit)
    decreases |ms|
  {
    if ms != [] {
      var n := |ms| - 1;
      var w := Weights(f, ms[..n]);
      TreeKraft(f, ms[..n], d, limit);
      assert w[SYMBOLS + n] == 0 by { FreshSlots(f, ms[..n]); }
      KraftMerge(w, d, limit, ms[n], SYMBOLS + n);
    }
  }

  /** When every present slot sits at depth zero the cost is nothing... */
  lemma RootCost(w: seq<nat>, d: seq<nat>)
    requires |d| == |w| && forall i :: 0 <= i < |w| && w[i] > 0 ==> d[i] == 0
    ensures Cost(w, d) == 0
  {
    var t := CostTerms(w, d);
    forall i | 0 <= i < |w| ensures t[i] == 0 {
      if w[i] > 0 {
        assert w[i] * d[i] == 0;
      }
    }
    SumZero(t);
  }

  lemma {:induction false} SumIndicator(l: seq<int>, t: seq<int>, c: int)
    requires |l| == |t|
    requires forall i :: 0 <= i < |l| ==> (l[i] == 0 && t[i] == 0) || (l[i] == 1 && t[i] == c)
    ensures Sum(t) == Sum(l) * c
  {
    if l != [] {
      var n := |l| - 1;
      SumIndicator(l[..n], t[..n], c);
    }
  }

  /** ... and each present slot contributes 2^limit to the Kraft sum. */
  lemma RootKraft(w: seq<nat>, d: seq<nat>, limit: nat)
    requires Bounded(w, d, limit) && forall i :: 0 <= i < |w| && w[i] > 0 ==> d[i] == 0
    ensures Kraft(w, d, limit) == LiveCount(w) * Pow2(limit)
  {
    SumIndicator(LiveTerms(w), KraftTerms(w, d, limit), Pow2(limit));
  }

  /**
   Optimality over lengths: the depths in the final forest cost no more than any feasible vector,
   and their Kraft sum is the number of roots.
   */
  lemma OptimalLengths(f: seq<nat>, ms: seq<Merge>, depth: seq<nat>, d: seq<nat>, limit: nat)
    requires ValidTable(f) && GreedyRun(f, ms) && TreeLengths(ms, depth)
    requires forall i :: 0 <= i < SLOTS ==> depth[i] <= limit
    requires forall i :: 0 <= i < SLOTS && Weights(f, ms)[i] > 0 ==> depth[i] == 0
    ensures Kraft(f, depth, limit) == LiveCount(Weights(f, ms)) * Pow2(limit)
    ensures Feasible(f, d, limit) ==> Cost(f, depth) <= Cost(f, d)
  {
    TreeCost(f, ms, depth);
    TreeKraft(f, ms, depth, limit);
    RootCost(Weights(f, ms), depth);
    RootKraft(Weights(f, ms), depth, limit);
    if Feasible(f, d, limit) {
      var d' := LowerBound(f, ms, d, limit);
      CostNonnegative(Weights(f, ms), d');
    }
  }
}
