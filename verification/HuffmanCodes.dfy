/**
 The parent links the merge loop leaves behind: codes read off by walking to the root, their
 prefix-freeness, and the Fibonacci bound on their length.
 */
module HuffmanCodes {
  import opened BitStrings
  import Slices
  import opened HuffmanForest

  /** up and flag record exactly the merges ms: -1 for a slot that was never consumed. */
  ghost predicate Linked(ms: seq<Merge>, up: seq<int>, flag: seq<nat>) {
    && InRange(ms) && |up| == SLOTS && |flag| == SLOTS
    && (forall k :: 0 <= k < |ms| ==> up[ms[k].low] == SYMBOLS + k && flag[ms[k].low] == 0)
    && (forall k :: 0 <= k < |ms| ==> up[ms[k].high] == SYMBOLS + k && flag[ms[k].high] == 1)
    && (forall i :: 0 <= i < SLOTS ==> up[i] == -1 || IsChild(ms, up, flag, i))
  }

  ghost predicate IsChild(ms: seq<Merge>, up: seq<int>, flag: seq<nat>, i: nat)
    requires i < |up| && i < |flag|
  {
    && SYMBOLS <= up[i] < SYMBOLS + |ms| && i < up[i]
    && (if flag[i] == 0 then ms[up[i] - SYMBOLS].low == i else flag[i] == 1 && ms[up[i] - SYMBOLS].high == i)
  }

  /** Parents sit in later slots, so every walk ends. */
  ghost predicate Rising(up: seq<int>, flag: seq<nat>) {
    && |up| == |flag| == SLOTS
    && forall i :: 0 <= i < SLOTS ==> up[i] == -1 || i < up[i] < SLOTS
  }

  /** The code of slot i, from its root down. */
  ghost function CodeOf(up: seq<int>, flag: seq<nat>, i: nat): Code
    requires Rising(up, flag) && i < SLOTS
    decreases SLOTS - i
  {
    if up[i] == -1 then [] else CodeOf(up, flag, up[i]) + [flag[i] == 1]
  }

  ghost function RootOf(up: seq<int>, flag: seq<nat>, i: nat): (r: nat)
    requires Rising(up, flag) && i < SLOTS
    ensures r < SLOTS && up[r] == -1
    decreases SLOTS - i
  {
    if up[i] == -1 then i else RootOf(up, flag, up[i])
  }

  // ----- two slots under one root have different, incomparable codes

  /** One link up: a bit less of the code, the same root. */
  lemma UpOne(up: seq<int>, flag: seq<nat>, x: nat, p: nat)
    requires Rising(up, flag) && x < SLOTS && up[x] == p
    ensures p < SLOTS && CodeOf(up, flag, x) == CodeOf(up, flag, p) + [flag[x] == 1]
    ensures RootOf(up, flag, x) == RootOf(up, flag, p)
  {
  }

  lemma AtRoot(up: seq<int>, flag: seq<nat>, x: nat)
    requires Rising(up, flag) && x < SLOTS
    ensures CodeOf(up, flag, x) == [] <==> up[x] == -1
    ensures up[x] == -1 ==> RootOf(up, flag, x) == x
  {
  }

  /** A node has one child for each bit. */
  lemma SameChild(ms: seq<Merge>, up: seq<int>, flag: seq<nat>, x: nat, y: nat)
    requires Linked(ms, up, flag) && x < SLOTS && y < SLOTS && up[x] == up[y] != -1
    requires (flag[x] == 1) == (flag[y] == 1)
    ensures x == y
  {
    assert IsChild(ms, up, flag, x) && IsChild(ms, up, flag, y);
  }

  lemma {:induction false} SameCode(ms: seq<Merge>, up: seq<int>, flag: seq<nat>, x: nat, y: nat)
    requires Linked(ms, up, flag) && Rising(up, flag) && x < SLOTS && y < SLOTS
    requires CodeOf(up, flag, x) == CodeOf(up, flag, y) && RootOf(up, flag, x) == RootOf(up, flag, y)
    ensures x == y
    decreases SLOTS - x
  {
    AtRoot(up, flag, x);
    AtRoot(up, flag, y);
    if up[x] != -1 {
      var p, q := up[x], up[y];
      UpOne(up, flag, x, p);
      UpOne(up, flag, y, q);
      Slices.SameLast(CodeOf(up, flag, p), flag[x] == 1, CodeOf(up, flag, q), flag[y] == 1);
      SameCode(ms, up, flag, p, q);
      SameChild(ms, up, flag, x, y);
    }
  }

  lemma {:induction false} Ancestor(ms: seq<Merge>, up: seq<int>, flag: seq<nat>, y: nat, n: nat) returns (z: nat)
    requires Linked(ms, up, flag) && Rising(up, flag) && y < SLOTS && n <= |CodeOf(up, flag, y)|
    ensures z < SLOTS && CodeOf(up, flag, z) == CodeOf(up, flag, y)[..n]
    ensures RootOf(up, flag, z) == RootOf(up, flag, y)
    ensures z == y || z >= SYMBOLS
    decreases SLOTS - y
  {
    var c := CodeOf(up, flag, y);
    if n == |c| {
      z := y;
      assert c[..n] == c;
    } else {
      var p := up[y];
      assert IsChild(ms, up, flag, y);
      Shorter(CodeOf(up, flag, p), c, n);
      z := Ancestor(ms, up, flag, p, n);
    }
  }

  lemma Shorter(a: Code, b: Code, n: nat)
    requires n <= |a| && a <= b
    ensures b[..n] == a[..n]
  {
  }

  /** Distinct symbols under one root: neither code is a prefix of the other. */
  lemma NotPrefix(ms: seq<Merge>, up: seq<int>, flag: seq<nat>, x: nat, y: nat)
    requires Linked(ms, up, flag) && Rising(up, flag) && x < SYMBOLS && y < SYMBOLS && x != y
    requires RootOf(up, flag, x) == RootOf(up, flag, y)
    ensures !(CodeOf(up, flag, x) <= CodeOf(up, flag, y))
  {
    if CodeOf(up, flag, x) <= CodeOf(up, flag, y) {
      var z := Ancestor(ms, up, flag, y, |CodeOf(up, flag, x)|);
      SameCode(ms, up, flag, x, z);
    }
  }

  // ----- which slots are roots

  ghost predicate Consumed(ms: seq<Merge>, i: nat) {
    exists k :: 0 <= k < |ms| && (ms[k].low == i || ms[k].high == i)
  }

  ghost predicate Present(f: seq<nat>, ms: seq<Merge>, i: nat)
    requires |f| == SLOTS
  {
    i < SYMBOLS + |ms| && (i < SYMBOLS ==> f[i] > 0)
  }

  lemma ConsumedStep(ms: seq<Merge>, i: nat)
    requires ms != []
    ensures Consumed(ms, i) <==> Consumed(ms[..|ms| - 1], i) || ms[|ms| - 1].low == i || ms[|ms| - 1].high == i
  {
    var n := |ms| - 1;
    if Consumed(ms, i) {
      var k :| 0 <= k < |ms| && (ms[k].low == i || ms[k].high == i);
      if k < n {
        assert ms[..n][k] == ms[k];
      }
    }
    if Consumed(ms[..n], i) {
      var k :| 0 <= k < n && (ms[..n][k].low == i || ms[..n][k].high == i);
      assert ms[..n][k] == ms[k];
    }
  }

  /** A slot still has weight exactly when it was used and not yet consumed. */
  lemma {:induction false} LiveSlots(f: seq<nat>, ms: seq<Merge>, i: nat)
    requires ValidTable(f) && GreedyRun(f, ms) && i < SLOTS
    ensures Weights(f, ms)[i] > 0 <==> Present(f, ms, i) && !Consumed(ms, i)
    decreases |ms|
  {
    if ms != [] {
      var n := |ms| - 1;
      LiveSlots(f, ms[..n], i);
      ConsumedStep(ms, i);
    }
    if ms != [] && i == SYMBOLS + |ms| - 1 && Consumed(ms, i) {
      var k :| 0 <= k < |ms| && (ms[k].low == i || ms[k].high == i);
    }
  }

  lemma ConsumedLinked(ms: seq<Merge>, up: seq<int>, flag: seq<nat>, i: nat)
    requires Linked(ms, up, flag) && i < SLOTS
    ensures Consumed(ms, i) <==> up[i] != -1
  {
    if up[i] != -1 {
      assert IsChild(ms, up, flag, i);
      var k := up[i] - SYMBOLS;
      assert ms[k].low == i || ms[k].high == i;
    }
  }

  /** Every used slot walks up to a slot that still has weight. */
  lemma {:induction false} RootLive(f: seq<nat>, ms: seq<Merge>, up: seq<int>, flag: seq<nat>, i: nat)
    requires ValidTable(f) && GreedyRun(f, ms) && Linked(ms, up, flag) && Rising(up, flag)
    requires i < SLOTS && Present(f, ms, i)
    ensures Weights(f, ms)[RootOf(up, flag, i)] > 0
    decreases SLOTS - i
  {
    ConsumedLinked(ms, up, flag, i);
    if up[i] == -1 {
      LiveSlots(f, ms, i);
    } else {
      assert IsChild(ms, up, flag, i);
      RootLive(f, ms, up, flag, up[i]);
    }
  }

  // ----- Fibonacci bound

  function Fib(n: nat): nat {
    if n < 2 then n else Fib(n - 1) + Fib(n - 2)
  }

  /** The weight each slot had when it was created. */
  ghost function Births(f: seq<nat>, ms: seq<Merge>): (b: seq<nat>)
    requires |f| == SLOTS && InRange(ms)
    ensures |b| == SLOTS
    decreases |ms|
  {
    if ms == [] then f
    else
      var n := |ms| - 1;
      var b := Births(f, ms[..n]);
      b[SYMBOLS + n := b[ms[n].low] + b[ms[n].high]]
  }

  lemma {:induction false} BirthsPrefix(f: seq<nat>, ms: seq<Merge>, k: nat, i: nat)
    requires |f| == SLOTS && InRange(ms) && k <= |ms| && i < SYMBOLS + k
    ensures Births(f, ms[..k])[i] == Births(f, ms)[i]
    decreases |ms|
  {
    if k == |ms| {
      assert ms[..k] == ms;
    } else {
      var n := |ms| - 1;
      BirthsPrefix(f, ms[..n], k, i);
      assert ms[..n][..k] == ms[..k];
    }
  }

  /** What the last merge of a run did, slot by slot. */
  lemma LastMerge(f: seq<nat>, ms: seq<Merge>, i: nat)
    requires ValidTable(f) && GreedyRun(f, ms) && ms != [] && i < SLOTS
    ensures var n := |ms| - 1; var w := Weights(f, ms[..n]); var m := ms[n];
      && w[m.low] > 0 && w[m.high] > 0 && m.low != m.high && w[m.low] <= w[m.high]
      && Weights(f, ms)[i] ==
         (if i == m.low || i == m.high then 0 else if i == SYMBOLS + n then w[m.low] + w[m.high] else w[i])
      && (i != m.low && i != m.high && w[i] > 0 ==> w[m.high] <= w[i])
  {
    FreshSlots(f, ms[..|ms| - 1]);
  }

  /** A slot keeps its birth weight until it is consumed. */
  lemma {:induction false} LiveWeight(f: seq<nat>, ms: seq<Merge>, i: nat)
    requires ValidTable(f) && GreedyRun(f, ms) && i < SLOTS && Weights(f, ms)[i] > 0
    ensures Weights(f, ms)[i] == Births(f, ms)[i]
    decreases |ms|
  {
    if ms != [] {
      var n := |ms| - 1;
      LastMerge(f, ms, i);
      if i == SYMBOLS + n {
        LiveWeight(f, ms[..n], ms[n].low);
        LiveWeight(f, ms[..n], ms[n].high);
      } else {
        LiveWeight(f, ms[..n], i);
      }
    }
  }

  /** The lighter of what a slot was before the last merge: itself, or a part of the new node. */
  lemma LiveBefore(f: seq<nat>, ms: seq<Merge>, i: nat) returns (i': nat)
    requires ValidTable(f) && GreedyRun(f, ms) && ms != [] && i < SLOTS && Weights(f, ms)[i] > 0
    ensures i' < SLOTS && 0 < Weights(f, ms[..|ms| - 1])[i'] <= Weights(f, ms)[i]
  {
    LastMerge(f, ms, i);
    i' := if i == SYMBOLS + |ms| - 1 then ms[|ms| - 1].high else i;
  }

  lemma LastLighter(f: seq<nat>, ms: seq<Merge>, x: nat, i: nat)
    requires ValidTable(f) && GreedyRun(f, ms) && ms != [] && i < SLOTS && Weights(f, ms)[i] > 0
    requires ms[|ms| - 1].low == x || ms[|ms| - 1].high == x
    ensures x < SLOTS && 0 < Weights(f, ms[..|ms| - 1])[x] <= Weights(f, ms)[i]
  {
    LastMerge(f, ms, i);
  }

  /** Every slot that still has weight is at least as heavy as everything consumed before. */
  lemma {:induction false} ConsumedLighter(f: seq<nat>, ms: seq<Merge>, k: nat, x: nat, i: nat)
    requires ValidTable(f) && GreedyRun(f, ms) && k < |ms| && i < SLOTS && Weights(f, ms)[i] > 0
    requires ms[k].low == x || ms[k].high == x
    ensures x < SLOTS && Births(f, ms)[x] <= Weights(f, ms)[i]
    decreases |ms|
  {
    var n := |ms| - 1;
    BirthsPrefix(f, ms, n, x);
    if k < n {
      var i' := LiveBefore(f, ms, i);
      assert ms[..n][k] == ms[k];
      ConsumedLighter(f, ms[..n], k, x, i');
    } else {
      LastLighter(f, ms, x, i);
      LiveWeight(f, ms[..n], x);
    }
  }

  /** A parent weighs the sum of its two children. */
  lemma ParentWeight(f: seq<nat>, ms: seq<Merge>, k: nat)
    requires ValidTable(f) && GreedyRun(f, ms) && k < |ms|
    ensures Births(f, ms)[SYMBOLS + k] == Births(f, ms)[ms[k].low] + Births(f, ms)[ms[k].high]
    ensures Births(f, ms)[ms[k].low] >= 1 && Births(f, ms)[ms[k].high] >= 1
  {
    RunPrefix(f, ms, k + 1);
    RunPrefix(f, ms, k);
    var head := ms[..k + 1];
    assert head[..k] == ms[..k];
    BirthsPrefix(f, ms, k + 1, SYMBOLS + k);
    BirthsPrefix(f, ms, k, ms[k].low);
    BirthsPrefix(f, ms, k, ms[k].high);
    LiveWeight(f, ms[..k], ms[k].low);
    LiveWeight(f, ms[..k], ms[k].high);
  }

  lemma ChosenLive(f: seq<nat>, ms: seq<Merge>, l: nat, y: nat)
    requires ValidTable(f) && GreedyRun(f, ms) && l < |ms|
    requires ms[l].low == y || ms[l].high == y
    ensures GreedyRun(f, ms[..l]) && y < SYMBOLS + l && Weights(f, ms[..l])[y] > 0
  {
    RunPrefix(f, ms, l);
    RunPrefix(f, ms, l + 1);
    var head := ms[..l + 1];
    assert head[..l] == ms[..l] && head[l] == ms[l];
    LastMerge(f, head, y);
  }

  lemma SiblingWeight(f: seq<nat>, ms: seq<Merge>, k: nat, l: nat, x: nat, y: nat)
    requires ValidTable(f) && GreedyRun(f, ms) && k < l < |ms|
    requires ms[k].low == x || ms[k].high == x
    requires ms[l].low == y || ms[l].high == y
    ensures x < SLOTS && y < SLOTS && Births(f, ms)[y] >= Births(f, ms)[x]
  {
    ChosenLive(f, ms, l, y);
    assert ms[..l][k] == ms[k];
    ConsumedLighter(f, ms[..l], k, x, y);
    LiveWeight(f, ms[..l], y);
    BirthsPrefix(f, ms, l, y);
    BirthsPrefix(f, ms, l, x);
  }

  /** One parent step outweighs the two nodes before it: the Fibonacci recurrence. */
  lemma GrandparentWeight(f: seq<nat>, ms: seq<Merge>, k: nat, l: nat, x: nat)
    requires ValidTable(f) && GreedyRun(f, ms) && k < l < |ms|
    requires ms[k].low == x || ms[k].high == x
    requires ms[l].low == SYMBOLS + k || ms[l].high == SYMBOLS + k
    ensures x < SLOTS && Births(f, ms)[SYMBOLS + l] >= Births(f, ms)[SYMBOLS + k] + Births(f, ms)[x]
  {
    ParentWeight(f, ms, l);
    SiblingWeight(f, ms, k, l, x, if ms[l].low == SYMBOLS + k then ms[l].high else ms[l].low);
  }

  /** No slot ever weighs more than 256 bytes and a one. */
  lemma BirthBound(f: seq<nat>, ms: seq<Merge>, i: nat)
    requires ValidTable(f) && GreedyRun(f, ms) && i < SYMBOLS + |ms|
    ensures Births(f, ms)[i] <= 256 * 255 + 1
  {
    if i >= SYMBOLS {
      var k := i - SYMBOLS;
      ParentWeight(f, ms, k);
      RunPrefix(f, ms, k);
      BirthsPrefix(f, ms, k, ms[k].low);
      BirthsPrefix(f, ms, k, ms[k].high);
      RunPrefix(f, ms, k + 1);
      var head := ms[..k + 1];
      assert head[..k] == ms[..k];
      LiveWeight(f, ms[..k], ms[k].low);
      LiveWeight(f, ms[..k], ms[k].high);
      BelowSentinel(f, ms[..k], ms[k].low, ms[k].high);
    } else {
      BirthsPrefix(f, ms, 0, i);
      assert ms[..0] == [];
    }
  }

  lemma FibMonotone(m: nat, n: nat)
    requires m <= n
    ensures Fib(m) <= Fib(n)
  {
    if m < n {
      FibMonotone(m, n - 1);
    }
  }

  lemma FibLimit(len: nat)
    requires Fib(len + 2) <= 256 * 255 + 1
    ensures len <= 22
  {
    if len >= 23 {
      assert Fib(5) == 5 && Fib(6) == 8 && Fib(7) == 13 && Fib(8) == 21;
      assert Fib(9) == 34 && Fib(10) == 55 && Fib(11) == 89 && Fib(12) == 144;
      assert Fib(13) == 233 && Fib(14) == 377 && Fib(15) == 610 && Fib(16) == 987;
      assert Fib(17) == 1597 && Fib(18) == 2584 && Fib(19) == 4181 && Fib(20) == 6765;
      assert Fib(21) == 10946 && Fib(22) == 17711 && Fib(23) == 28657 && Fib(24) == 46368;
      assert Fib(25) == 75025;
      FibMonotone(25, len + 2);
    }
  }
}
