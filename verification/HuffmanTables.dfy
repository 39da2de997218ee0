/**
 The 4XM Huffman table reader from the frequency table on: the merge loop over fixed arrays, the
 parent walk that extracts (bits, len) pairs, and what the resulting table is worth.
 */
module HuffmanTables {
  import opened Sums
  import opened BitStrings
  import opened HuffmanForest
  import opened PrefixCodes
  import opened HuffmanCodes

  // ----- the merge loop

  method FindTwoSmallest(frequency: array<nat>, j: nat)
    returns (minFreq0: nat, minFreq1: nat, smallest0: nat, smallest1: nat)
    requires j <= frequency.Length
    requires forall i :: 0 <= i < j ==> frequency[i] < SENTINEL
    ensures minFreq1 == SENTINEL ==> forall i, k :: 0 <= i < k < j ==> frequency[i] == 0 || frequency[k] == 0
    ensures minFreq1 != SENTINEL ==>
      && SmallestTwo(frequency[..], j, Merge(smallest0, smallest1))
      && minFreq0 == frequency[smallest0] && minFreq1 == frequency[smallest1]
    ensures minFreq1 != SENTINEL ==> smallest0 < j && smallest1 < j && smallest0 != smallest1
    ensures minFreq1 != SENTINEL ==> forall k :: 0 <= k < j && k != smallest0 && frequency[k] > 0 ==>
      frequency[smallest0] < frequency[k] || (frequency[smallest0] == frequency[k] && smallest0 < k)
    ensures minFreq1 != SENTINEL ==> forall k :: 0 <= k < j && k != smallest0 && k != smallest1 && frequency[k] > 0 ==>
      frequency[smallest1] < frequency[k] || (frequency[smallest1] == frequency[k] && smallest1 < k)
  {
    minFreq0, minFreq1, smallest0, smallest1 := SENTINEL, SENTINEL, 0, 0;
    var i := 0;
    while i < j
      invariant i <= j && minFreq0 <= minFreq1 <= SENTINEL
      invariant minFreq0 == SENTINEL ==> forall k :: 0 <= k < i ==> frequency[k] == 0
      invariant minFreq0 != SENTINEL ==> smallest0 < i && minFreq0 == frequency[smallest0] > 0
      invariant minFreq0 != SENTINEL && minFreq1 == SENTINEL ==>
        forall k :: 0 <= k < i && k != smallest0 ==> frequency[k] == 0
      invariant minFreq1 != SENTINEL ==>
        && SmallestTwo(frequency[..], i, Merge(smallest0, smallest1)) && minFreq1 == frequency[smallest1]
    {
      if frequency[i] != 0 {
        if frequency[i] < minFreq1 {
          if frequency[i] < minFreq0 {
            minFreq1, smallest1 := minFreq0, smallest0;
            minFreq0, smallest0 := frequency[i], i;
          } else {
            minFreq1, smallest1 := frequency[i], i;
          }
        }
      }
      i := i + 1;
    }
  }

  /** One more merge m, into slot j, and its two links. */
  ghost predicate Joins(ms: seq<Merge>, m: Merge, up: seq<int>, flag: seq<nat>, j: nat,
      ms': seq<Merge>, up': seq<int>, flag': seq<nat>)
  {
    && |up| == |flag| == SLOTS && j == SYMBOLS + |ms| < SLOTS && m.low < j && m.high < j && m.low != m.high
    && ms' == ms + [m] && up' == up[m.low := j][m.high := j] && flag' == flag[m.low := 0][m.high := 1]
  }

  lemma LinkForward(ms: seq<Merge>, m: Merge, up: seq<int>, flag: seq<nat>, j: nat,
      ms': seq<Merge>, up': seq<int>, flag': seq<nat>, k: nat)
    requires Linked(ms, up, flag) && Joins(ms, m, up, flag, j, ms', up', flag') && k < |ms'|
    requires up[m.low] == -1 && up[m.high] == -1
    ensures up'[ms'[k].low] == SYMBOLS + k && flag'[ms'[k].low] == 0
    ensures up'[ms'[k].high] == SYMBOLS + k && flag'[ms'[k].high] == 1
  {
    if k < |ms| {
      assert ms'[k] == ms[k];
    }
  }

  lemma LinkStep(ms: seq<Merge>, m: Merge, up: seq<int>, flag: seq<nat>, j: nat,
      ms': seq<Merge>, up': seq<int>, flag': seq<nat>)
    requires Linked(ms, up, flag) && Joins(ms, m, up, flag, j, ms', up', flag')
    requires up[m.low] == -1 && up[m.high] == -1
    ensures Linked(ms', up', flag')
  {
    forall k | 0 <= k < |ms'|
      ensures up'[ms'[k].low] == SYMBOLS + k && flag'[ms'[k].low] == 0
      ensures up'[ms'[k].high] == SYMBOLS + k && flag'[ms'[k].high] == 1
    {
      LinkForward(ms, m, up, flag, j, ms', up', flag', k);
    }
    forall i | 0 <= i < SLOTS
      ensures up'[i] == -1 || IsChild(ms', up', flag', i)
    {
      ChildKept(ms, m, up, flag, j, ms', up', flag', i);
    }
  }

  lemma ChildKept(ms: seq<Merge>, m: Merge, up: seq<int>, flag: seq<nat>, j: nat,
      ms': seq<Merge>, up': seq<int>, flag': seq<nat>, i: nat)
    requires Joins(ms, m, up, flag, j, ms', up', flag') && i < SLOTS
    requires up[i] == -1 || IsChild(ms, up, flag, i)
    ensures up'[i] == -1 || IsChild(ms', up', flag', i)
  {
    if i == m.low || i == m.high {
      assert ms'[j - SYMBOLS] == m;
    } else if up[i] != -1 {
      assert ms'[up[i] - SYMBOLS] == ms[up[i] - SYMBOLS];
    }
  }

  lemma LinkedRises(ms: seq<Merge>, up: seq<int>, flag: seq<nat>)
    requires Linked(ms, up, flag)
    ensures Rising(up, flag)
  {
    forall i | 0 <= i < SLOTS ensures up[i] == -1 || i < up[i] < SLOTS {
      assert up[i] == -1 || IsChild(ms, up, flag, i);
    }
  }

  lemma AllBelowSentinel(f: seq<nat>, ms: seq<Merge>)
    requires ValidTable(f) && GreedyRun(f, ms)
    ensures forall i :: 0 <= i < SLOTS ==> Weights(f, ms)[i] < SENTINEL
  {
    forall i | 0 <= i < SLOTS ensures Weights(f, ms)[i] < SENTINEL {
      BelowSentinel(f, ms, i, if i == 0 then 1 else 0);
    }
  }

  lemma RunExtends(f: seq<nat>, ms: seq<Merge>, m: Merge)
    requires ValidTable(f) && GreedyRun(f, ms) && |ms| < SLOTS - SYMBOLS
    requires SmallestTwo(Weights(f, ms), SYMBOLS + |ms|, m)
    ensures GreedyRun(f, ms + [m])
    ensures Weights(f, ms + [m]) == Merged(Weights(f, ms), m, SYMBOLS + |ms|)
  {
    assert (ms + [m])[..|ms|] == ms;
  }

  /** Slot j becomes the parent of two slots, which leave the pool. */
  method Join(frequency: array<nat>, up: array<int>, flag: array<nat>, j: nat, smallest0: nat, smallest1: nat)
    requires frequency != flag && up.Length == flag.Length == frequency.Length == SLOTS
    requires j < SLOTS && smallest0 < j && smallest1 < j && smallest0 != smallest1
    modifies frequency, up, flag
    ensures frequency[..] == Merged(old(frequency[..]), Merge(smallest0, smallest1), j)
    ensures up[..] == old(up[..])[smallest0 := j][smallest1 := j]
    ensures flag[..] == old(flag[..])[smallest0 := 0][smallest1 := 1]
  {
    frequency[j] := frequency[smallest0] + frequency[smallest1];
    flag[smallest0] := 0;
    flag[smallest1] := 1;
    up[smallest0] := j;
    up[smallest1] := j;
    frequency[smallest0] := 0;
    frequency[smallest1] := 0;
  }

  /** The loop invariant survives one join. */
  lemma JoinKeeps(f: seq<nat>, ms: seq<Merge>, m: Merge, up: seq<int>, flag: seq<nat>)
    requires ValidTable(f) && GreedyRun(f, ms) && |ms| < SLOTS - SYMBOLS && Linked(ms, up, flag)
    requires SmallestTwo(Weights(f, ms), SYMBOLS + |ms|, m)
    ensures var j := SYMBOLS + |ms|;
      && GreedyRun(f, ms + [m]) && Weights(f, ms + [m]) == Merged(Weights(f, ms), m, j)
      && Linked(ms + [m], up[m.low := j][m.high := j], flag[m.low := 0][m.high := 1])
  {
    RunExtends(f, ms, m);
    Unlinked(f, ms, up, flag, m.low);
    Unlinked(f, ms, up, flag, m.high);
    var j := SYMBOLS + |ms|;
    LinkStep(ms, m, up, flag, j, ms + [m], up[m.low := j][m.high := j], flag[m.low := 0][m.high := 1]);
  }

  method MergeLoop(frequency: array<nat>, up: array<int>, flag: array<nat>) returns (ghost ms: seq<Merge>)
    requires frequency != flag && ValidTable(frequency[..])
    requires up.Length == flag.Length == SLOTS
    requires forall i :: 0 <= i < SLOTS ==> up[i] == -1
    modifies frequency, up, flag
    ensures CompleteRun(old(frequency[..]), ms)
    ensures frequency[..] == Weights(old(frequency[..]), ms)
    ensures Linked(ms, up[..], flag[..])
  {
    ms := [];
    ghost var f := frequency[..];
    var j := SYMBOLS;
    while j < SLOTS
      invariant SYMBOLS <= j <= SLOTS && |ms| == j - SYMBOLS
      invariant GreedyRun(f, ms) && frequency[..] == Weights(f, ms)
      invariant Linked(ms, up[..], flag[..])
    {
      AllBelowSentinel(f, ms);
      ghost var w := frequency[..];
      assert forall i :: 0 <= i < SLOTS ==> frequency[i] == w[i];
      var minFreq0, minFreq1, smallest0, smallest1 := FindTwoSmallest(frequency, j);
      if minFreq1 == SENTINEL {
        FreshSlots(f, ms);
        assert FewerThanTwo(w);
        break;
      }
      ghost var m := Merge(smallest0, smallest1);
      JoinKeeps(f, ms, m, up[..], flag[..]);
      Join(frequency, up, flag, j, smallest0, smallest1);
      ms := ms + [m];
      j := j + 1;
    }
  }

  lemma Unlinked(f: seq<nat>, ms: seq<Merge>, up: seq<int>, flag: seq<nat>, i: nat)
    requires ValidTable(f) && GreedyRun(f, ms) && Linked(ms, up, flag)
    requires i < SLOTS && Weights(f, ms)[i] > 0
    ensures up[i] == -1
  {
    LiveSlots(f, ms, i);
    ConsumedLinked(ms, up, flag, i);
  }

  // ----- extracting the codes

  /** (bits, lens) is the table of the forest that some complete greedy run over f built. */
  ghost predicate TableOf(f: seq<nat>, bits: seq<nat>, lens: seq<nat>) {
    && ValidTable(f) && |bits| == |lens| == SYMBOLS
    && exists ms, up, flag :: BuiltBy(f, ms, up, flag) && ReadsOff(up, flag, bits, lens)
  }

  ghost predicate BuiltBy(f: seq<nat>, ms: seq<Merge>, up: seq<int>, flag: seq<nat>)
    requires |f| == SLOTS
  {
    CompleteRun(f, ms) && Linked(ms, up, flag) && Rising(up, flag)
  }

  ghost predicate ReadsOff(up: seq<int>, flag: seq<nat>, bits: seq<nat>, lens: seq<nat>)
    requires |bits| == |lens| == SYMBOLS
  {
    Rising(up, flag) &&
    forall s :: 0 <= s < SYMBOLS ==>
      lens[s] == |CodeOf(up, flag, s)| && bits[s] == Value(CodeOf(up, flag, s))
  }

  /** The weight reached after `len` steps of the walk is at least Fib(len + 2). */
  ghost predicate FibonacciWalk(f: seq<nat>, ms: seq<Merge>, up: seq<int>, prev: nat, node: nat, len: nat)
    requires |f| == SLOTS && InRange(ms) && |up| == SLOTS
  {
    && node < SYMBOLS + |ms| && Births(f, ms)[node] >= Fib(len + 2)
    && (len > 0 ==> prev < SLOTS && up[prev] == node && Births(f, ms)[prev] >= Fib(len + 1))
  }

  lemma FibNext(len: nat, next: nat)
    requires next == len + 1
    ensures Fib(next + 2) == Fib(len + 2) + Fib(len + 1) && Fib(next + 1) == Fib(len + 2)
    ensures len == 0 ==> Fib(len + 2) == Fib(len + 1) == 1
  {
  }

  /** What the walk gains by one step: the sibling's weight, or that of the slot before. */
  lemma WalkGain(f: seq<nat>, ms: seq<Merge>, up: seq<int>, flag: seq<nat>, prev: nat, node: nat, len: nat, parent: nat)
    requires ValidTable(f) && GreedyRun(f, ms) && Linked(ms, up, flag)
    requires FibonacciWalk(f, ms, up, prev, node, len) && up[node] == parent
    ensures SYMBOLS <= parent < SYMBOLS + |ms| && node < SLOTS
    ensures Births(f, ms)[parent] >= Births(f, ms)[node] + if len == 0 then 1 else Births(f, ms)[prev]
  {
    assert IsChild(ms, up, flag, node);
    var l := parent - SYMBOLS;
    if len == 0 {
      ParentWeight(f, ms, l);
    } else {
      assert IsChild(ms, up, flag, prev);
      GrandparentWeight(f, ms, node - SYMBOLS, l, prev);
    }
  }

  lemma WalkStep(f: seq<nat>, ms: seq<Merge>, up: seq<int>, flag: seq<nat>, prev: nat, node: nat, len: nat, next: nat)
    requires ValidTable(f) && GreedyRun(f, ms) && Linked(ms, up, flag) && next == len + 1
    requires FibonacciWalk(f, ms, up, prev, node, len) && up[node] != -1
    ensures up[node] >= 0 && FibonacciWalk(f, ms, up, node, up[node], next)
  {
    assert IsChild(ms, up, flag, node);
    WalkGain(f, ms, up, flag, prev, node, len, up[node]);
    FibNext(len, next);
  }

  lemma WalkShort(f: seq<nat>, ms: seq<Merge>, up: seq<int>, prev: nat, node: nat, len: nat)
    requires ValidTable(f) && GreedyRun(f, ms) && |up| == SLOTS
    requires FibonacciWalk(f, ms, up, prev, node, len)
    ensures len <= 22
  {
    BirthBound(f, ms, node);
    FibLimit(len);
  }

  lemma SymbolPresent(f: seq<nat>, ms: seq<Merge>, up: seq<int>, flag: seq<nat>, s: nat)
    requires ValidTable(f) && GreedyRun(f, ms) && Linked(ms, up, flag) && s < SYMBOLS
    ensures Births(f, ms)[s] == f[s]
    ensures up[s] != -1 ==> f[s] > 0
  {
    BirthsPrefix(f, ms, 0, s);
    assert ms[..0] == [];
    if up[s] != -1 {
      assert IsChild(ms, up, flag, s);
      ParentWeight(f, ms, up[s] - SYMBOLS);
    }
  }

  /** No table the construction can produce has a code longer than 22 bits. */
  lemma {:induction false} LengthBound(f: seq<nat>, ms: seq<Merge>, up: seq<int>, flag: seq<nat>, s: nat)
    requires ValidTable(f) && BuiltBy(f, ms, up, flag) && s < SYMBOLS
    ensures |CodeOf(up, flag, s)| <= 22
  {
    SymbolPresent(f, ms, up, flag, s);
    if f[s] > 0 {
      var prev, node, len := s, s, 0;
      while up[node] != -1
        invariant node < SLOTS && |CodeOf(up, flag, s)| == |CodeOf(up, flag, node)| + len
        invariant FibonacciWalk(f, ms, up, prev, node, len)
        decreases SLOTS - node
      {
        var next := len + 1;
        WalkStep(f, ms, up, flag, prev, node, len, next);
        prev, node, len := node, up[node], next;
      }
      WalkShort(f, ms, up, prev, node, len);
    }
  }

  lemma CodeStep(up: seq<int>, flag: seq<nat>, s: nat, node: nat, suffix: Code)
    requires Rising(up, flag) && s < SLOTS && node < SLOTS && up[node] != -1
    requires CodeOf(up, flag, s) == CodeOf(up, flag, node) + suffix
    ensures CodeOf(up, flag, s) == CodeOf(up, flag, up[node]) + ([flag[node] == 1] + suffix)
    ensures Value([flag[node] == 1] + suffix) == (if flag[node] == 1 then Pow2(|suffix|) else 0) + Value(suffix)
  {
    ValuePrepend(flag[node] == 1, suffix);
    assert CodeOf(up, flag, node) + suffix == CodeOf(up, flag, up[node]) + ([flag[node] == 1] + suffix);
  }

  /** One symbol's walk; `overflow` is the "vlc length overflow" branch, which is never taken. */
  method WalkUp(ghost f: seq<nat>, ghost ms: seq<Merge>, up: array<int>, flag: array<nat>, s: nat)
    returns (bits: nat, len: nat, overflow: bool)
    requires up.Length == flag.Length == SLOTS
    requires ValidTable(f) && BuiltBy(f, ms, up[..], flag[..]) && s < SYMBOLS
    ensures !overflow && len <= 22
    ensures len == |CodeOf(up[..], flag[..], s)| && bits == Value(CodeOf(up[..], flag[..], s))
  {
    ghost var u, g := up[..], flag[..];
    var node := s;
    ghost var suffix: Code := [];
    bits, len, overflow := 0, 0, false;
    LengthBound(f, ms, u, g, s);
    assert CodeOf(u, g, s) == CodeOf(u, g, node) + suffix;
    while up[node] != -1
      invariant node < SLOTS && !overflow && len == |suffix| && bits == Value(suffix)
      invariant CodeOf(u, g, s) == CodeOf(u, g, node) + suffix
      decreases SLOTS - node
    {
      assert u[node] == up[node] && g[node] == flag[node];
      assert IsChild(ms, u, g, node);
      CodeStep(u, g, s, node, suffix);
      suffix := [g[node] == 1] + suffix;
      bits := bits + flag[node] * Pow2(len);
      len := len + 1;
      if len > 31 {
        overflow := true;
      }
      node := up[node];
    }
    assert CodeOf(u, g, s) == suffix;
  }

  /** The whole construction: arrays in, table out, for every frequency table the reader can produce. */
  method BuildTables(frequency: array<nat>) returns (bitsTab: array<nat>, lenTab: array<nat>, overflow: bool)
    requires ValidTable(frequency[..])
    modifies frequency
    ensures !overflow
    ensures bitsTab.Length == lenTab.Length == SYMBOLS
    ensures TableOf(old(frequency[..]), bitsTab[..], lenTab[..])
  {
    ghost var f := frequency[..];
    var up := new int[SLOTS](_ => -1);
    var flag := new nat[SLOTS];
    ghost var ms := MergeLoop(frequency, up, flag);
    LinkedRises(ms, up[..], flag[..]);
    ghost var u, g := up[..], flag[..];
    bitsTab, lenTab, overflow := new nat[SYMBOLS], new nat[SYMBOLS], false;
    var j := 0;
    while j < SYMBOLS
      invariant j <= SYMBOLS && !overflow
      invariant up[..] == u && flag[..] == g
      invariant forall s :: 0 <= s < j ==> lenTab[s] == |CodeOf(u, g, s)| && bitsTab[s] == Value(CodeOf(u, g, s))
    {
      var bits, len, tooLong := WalkUp(f, ms, up, flag, j);
      overflow := overflow || tooLong;
      bitsTab[j] := bits;
      lenTab[j] := len;
      j := j + 1;
    }
    assert BuiltBy(f, ms, u, g) && ReadsOff(u, g, bitsTab[..], lenTab[..]);
  }

  // ----- what the table is worth

  /** The codewords of a table. */
  function Codewords(bits: seq<nat>, lens: seq<nat>): (codes: seq<Code>)
    requires |bits| == |lens|
    ensures |codes| == |bits|
    ensures forall s :: 0 <= s < |bits| ==> codes[s] == Codeword(bits[s], lens[s])
  {
    seq(|bits|, s requires 0 <= s < |bits| => Codeword(bits[s], lens[s]))
  }

  ghost function ForestCodes(up: seq<int>, flag: seq<nat>): (codes: seq<Code>)
    requires Rising(up, flag)
    ensures |codes| == SYMBOLS
    ensures forall s :: 0 <= s < SYMBOLS ==> codes[s] == CodeOf(up, flag, s)
  {
    seq(SYMBOLS, s requires 0 <= s < SYMBOLS => CodeOf(up, flag, s))
  }

  lemma TableCodes(f: seq<nat>, bits: seq<nat>, lens: seq<nat>) returns (ms: seq<Merge>, up: seq<int>, flag: seq<nat>)
    requires TableOf(f, bits, lens)
    ensures BuiltBy(f, ms, up, flag) && ReadsOff(up, flag, bits, lens)
    ensures Codewords(bits, lens) == ForestCodes(up, flag)
    ensures lens == Lengths(ForestCodes(up, flag)) == Lengths(Codewords(bits, lens))
  {
    ms, up, flag :| BuiltBy(f, ms, up, flag) && ReadsOff(up, flag, bits, lens);
    forall s | 0 <= s < SYMBOLS ensures Codeword(bits[s], lens[s]) == CodeOf(up, flag, s) {
      CodewordValue(CodeOf(up, flag, s));
    }
  }
}
