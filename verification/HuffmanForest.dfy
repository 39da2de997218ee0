/**
 The merge loop of the 4XM Huffman table reader, as a greedy run over one weight per array slot.
 Slots 0..256 are symbols, slots 257..511 are the nodes the loop creates, and a slot whose weight
 is zero is absent: either never used or already consumed by a merge.
 */
module HuffmanForest {
  import opened Sums

  const SYMBOLS: nat := 257
  const SLOTS: nat := 512
  const SENTINEL: nat := 256 * 256

  /** What the byte reader leaves in `frequency`: bytes for symbols 0..255, one for symbol 256. */
  predicate ValidTable(f: seq<nat>) {
    && |f| == SLOTS
    && (forall i :: 0 <= i < 256 ==> f[i] <= 255)
    && f[256] == 1
    && (forall i :: SYMBOLS <= i < SLOTS ==> f[i] == 0)
  }

  datatype Merge = Merge(low: nat, high: nat)

  /** The order of the scan: smaller weight first, and the earlier slot among equals. */
  predicate Before(w: seq<nat>, i: nat, k: nat)
    requires i < |w| && k < |w|
  {
    w[i] < w[k] || (w[i] == w[k] && i < k)
  }

  /** m names the first and the second slot of the scan order among the present slots below n. */
  predicate SmallestTwo(w: seq<nat>, n: nat, m: Merge)
    requires n <= |w|
  {
    && m.low < n && m.high < n && m.low != m.high
    && w[m.low] > 0 && w[m.high] > 0
    && Before(w, m.low, m.high)
    && forall k :: 0 <= k < n && k != m.low && k != m.high && w[k] > 0 ==> Before(w, m.high, k)
  }

  function Merged(w: seq<nat>, m: Merge, j: nat): seq<nat>
    requires m.low < |w| && m.high < |w| && j < |w|
  {
    w[j := w[m.low] + w[m.high]][m.low := 0][m.high := 0]
  }

  /** The weights after the first |ms| merges. */
  ghost function Weights(f: seq<nat>, ms: seq<Merge>): (w: seq<nat>)
    requires |f| == SLOTS && |ms| <= SLOTS - SYMBOLS
    requires forall k :: 0 <= k < |ms| ==> ms[k].low < SLOTS && ms[k].high < SLOTS
    ensures |w| == SLOTS
  {
    if ms == [] then f
    else
      var n := |ms| - 1;
      Merged(Weights(f, ms[..n]), ms[n], SYMBOLS + n)
  }

  ghost predicate InRange(ms: seq<Merge>) {
    && |ms| <= SLOTS - SYMBOLS
    && forall k :: 0 <= k < |ms| ==> ms[k].low < SYMBOLS + k && ms[k].high < SYMBOLS + k
  }

  /** Every merge of ms took the two smallest present slots at its time. */
  ghost predicate GreedyRun(f: seq<nat>, ms: seq<Merge>)
    requires |f| == SLOTS
    decreases |ms|
  {
    && InRange(ms)
    && (ms == [] ||
        var n := |ms| - 1;
        GreedyRun(f, ms[..n]) && SmallestTwo(Weights(f, ms[..n]), SYMBOLS + n, ms[n]))
  }

  predicate FewerThanTwo(w: seq<nat>) {
    forall i, k :: 0 <= i < k < |w| ==> w[i] == 0 || w[k] == 0
  }

  /** The loop stops when fewer than two slots are present or when the slots run out. */
  ghost predicate CompleteRun(f: seq<nat>, ms: seq<Merge>)
    requires |f| == SLOTS
  {
    GreedyRun(f, ms) && (|ms| == SLOTS - SYMBOLS || FewerThanTwo(Weights(f, ms)))
  }

  // ----- what a run keeps

  lemma {:induction false} RunPrefix(f: seq<nat>, ms: seq<Merge>, k: nat)
    requires |f| == SLOTS && GreedyRun(f, ms) && k <= |ms|
    ensures GreedyRun(f, ms[..k])
    decreases |ms|
  {
    if k == |ms| {
      assert ms[..k] == ms;
    } else {
      var n := |ms| - 1;
      RunPrefix(f, ms[..n], k);
      assert ms[..n][..k] == ms[..k];
    }
  }

  lemma {:induction false} FreshSlots(f: seq<nat>, ms: seq<Merge>)
    requires ValidTable(f) && GreedyRun(f, ms)
    ensures forall i :: SYMBOLS + |ms| <= i < SLOTS ==> Weights(f, ms)[i] == 0
    decreases |ms|
  {
    if ms != [] {
      FreshSlots(f, ms[..|ms| - 1]);
    }
  }

  /** How a merge moves a sum of per-slot terms that vanish on absent slots. */
  lemma SumMerge(t: seq<int>, u: seq<int>, m: Merge, j: nat)
    requires |t| == |u| && m.low < |t| && m.high < |t| && j < |t|
    requires m.low != m.high && m.low != j && m.high != j
    requires t[j] == 0 && u[m.low] == 0 && u[m.high] == 0
    requires forall i :: 0 <= i < |t| && i != m.low && i != m.high && i != j ==> u[i] == t[i]
    ensures Sum(u) == Sum(t) - t[m.low] - t[m.high] + u[j]
  {
    var t1 := t[j := u[j]];
    var t2 := t1[m.low := 0];
    assert u == t2[m.high := 0];
    SumUpdate(t, j, u[j]);
    SumUpdate(t1, m.low, 0);
    SumUpdate(t2, m.high, 0);
  }

  lemma WeightMerge(w: seq<nat>, m: Merge, j: nat)
    requires m.low < |w| && m.high < |w| && j < |w| && m.low != m.high && m.low != j && m.high != j && w[j] == 0
    ensures Sum(Merged(w, m, j)) == Sum(w)
  {
    SumMerge(w, Merged(w, m, j), m, j);
  }

  /** Merging conserves the total weight. */
  lemma {:induction false} WeightConserved(f: seq<nat>, ms: seq<Merge>)
    requires ValidTable(f) && GreedyRun(f, ms)
    ensures Sum(Weights(f, ms)) == Sum(f)
    decreases |ms|
  {
    if ms != [] {
      var n := |ms| - 1;
      var w := Weights(f, ms[..n]);
      WeightConserved(f, ms[..n]);
      assert w[SYMBOLS + n] == 0 by { FreshSlots(f, ms[..n]); }
      WeightMerge(w, ms[n], SYMBOLS + n);
    }
  }

  lemma {:induction false} SumBytes(s: seq<nat>)
    requires forall i :: 0 <= i < |s| ==> s[i] <= 255
    ensures Sum(s) <= 255 * |s|
  {
    if s != [] {
      SumBytes(s[..|s| - 1]);
    }
  }

  /** 256 bytes and a one: the total stays below the sentinel. */
  lemma TotalBound(f: seq<nat>)
    requires ValidTable(f)
    ensures Sum(f) <= 256 * 255 + 1 < SENTINEL
  {
    var tail := f[SYMBOLS..];
    assert f == f[..256] + ([f[256]] + tail);
    SumSplit(f[..256], [f[256]] + tail);
    SumSplit([f[256]], tail);
    SumSingle([f[256]], 0);
    SumZero(tail);
    SumBytes(f[..256]);
  }

  /** No single weight, and no sum of two, ever reaches the sentinel. */
  lemma BelowSentinel(f: seq<nat>, ms: seq<Merge>, i: nat, k: nat)
    requires ValidTable(f) && GreedyRun(f, ms) && i < SLOTS && k < SLOTS && i != k
    ensures Weights(f, ms)[i] + Weights(f, ms)[k] <= 256 * 255 + 1
  {
    WeightConserved(f, ms);
    TotalBound(f);
    SumPair(Weights(f, ms), i, k);
  }

  function LiveTerms(w: seq<nat>): (t: seq<int>)
    ensures |t| == |w|
    ensures forall i :: 0 <= i < |w| ==> t[i] == if w[i] > 0 then 1 else 0
  {
    seq(|w|, i requires 0 <= i < |w| => if w[i] > 0 then 1 else 0)
  }

  /** The number of present slots. */
  function LiveCount(w: seq<nat>): int {
    Sum(LiveTerms(w))
  }

  lemma LiveMerge(w: seq<nat>, m: Merge, j: nat)
    requires m.low < |w| && m.high < |w| && j < |w| && m.low != m.high
    requires w[m.low] > 0 && w[m.high] > 0 && w[j] == 0
    ensures LiveCount(Merged(w, m, j)) == LiveCount(w) - 1
  {
    SumMerge(LiveTerms(w), LiveTerms(Merged(w, m, j)), m, j);
  }

  /** Each merge removes exactly one present slot. */
  lemma {:induction false} LiveAfter(f: seq<nat>, ms: seq<Merge>)
    requires ValidTable(f) && GreedyRun(f, ms)
    ensures LiveCount(Weights(f, ms)) == LiveCount(f) - |ms|
    decreases |ms|
  {
    if ms != [] {
      var n := |ms| - 1;
      LiveAfter(f, ms[..n]);
      FreshSlots(f, ms[..n]);
      LiveMerge(Weights(f, ms[..n]), ms[n], SYMBOLS + n);
    }
  }

  lemma LiveAtMostOne(w: seq<nat>)
    requires FewerThanTwo(w)
    ensures LiveCount(w) <= 1
  {
    if i :| 0 <= i < |w| && w[i] > 0 {
      SumSingle(LiveTerms(w), i);
    } else {
      SumZero(LiveTerms(w));
    }
  }

  lemma TotalPositive(w: seq<nat>)
    requires Sum(w) > 0
    ensures LiveCount(w) >= 1
  {
    if i :| 0 <= i < |w| && w[i] > 0 {
      var zero := seq(|w|, k => if k == i then 1 else 0);
      SumSingle(zero, i);
      SumLess(zero, LiveTerms(w));
    } else {
      SumZero(w);
    }
  }

  /**
   A complete run ends with one root exactly when at most 256 symbols are present: there are 255
   node slots. With all 257 symbols present two roots remain.
   */
  lemma RootCount(f: seq<nat>, ms: seq<Merge>)
    requires ValidTable(f) && CompleteRun(f, ms)
    ensures LiveCount(Weights(f, ms)) == if LiveCount(f) <= 256 then 1 else 2
  {
    LiveAfter(f, ms);
    WeightConserved(f, ms);
    SymbolCount(f);
    var zero := seq(SLOTS, i => 0)[256 := 1];
    SumSingle(zero, 256);
    SumLess(zero, f);
    TotalPositive(Weights(f, ms));
    if FewerThanTwo(Weights(f, ms)) {
      LiveAtMostOne(Weights(f, ms));
    }
  }

  lemma {:induction false} SumOnes(s: seq<int>)
    requires forall i :: 0 <= i < |s| ==> s[i] <= 1
    ensures Sum(s) <= |s|
  {
    if s != [] {
      SumOnes(s[..|s| - 1]);
    }
  }

  lemma SymbolCount(f: seq<nat>)
    requires ValidTable(f)
    ensures LiveCount(f) <= SYMBOLS
  {
    var t := LiveTerms(f);
    assert t == t[..SYMBOLS] + t[SYMBOLS..];
    SumSplit(t[..SYMBOLS], t[SYMBOLS..]);
    SumZero(t[SYMBOLS..]);
    SumOnes(t[..SYMBOLS]);
  }
}
