/** The table is determined by the frequencies: merges are unique, and of two siblings the lighter or earlier gets the zero. */
module HuffmanOrder {
  import opened BitStrings
  import opened HuffmanForest
  import opened PrefixCodes
  import opened HuffmanCodes
  import opened HuffmanTables
  import opened HuffmanTheorems
  import Slices

  // ----- one table for each frequency table

  lemma SameSmallest(w: seq<nat>, n: nat, a: Merge, b: Merge)
    requires n <= |w| && SmallestTwo(w, n, a) && SmallestTwo(w, n, b)
    ensures a == b
  {
  }

  /** What the k-th merge of a run was chosen from. */
  lemma ChosenAt(f: seq<nat>, ms: seq<Merge>, k: nat)
    requires |f| == SLOTS && GreedyRun(f, ms) && k < |ms|
    ensures GreedyRun(f, ms[..k]) && SmallestTwo(Weights(f, ms[..k]), SYMBOLS + k, ms[k])
  {
    RunPrefix(f, ms, k);
    RunPrefix(f, ms, k + 1);
    var head := ms[..k + 1];
    assert head[..k] == ms[..k] && head[k] == ms[k];
  }

  lemma SameNext(f: seq<nat>, a: seq<Merge>, b: seq<Merge>, n: nat)
    requires |f| == SLOTS && GreedyRun(f, a) && GreedyRun(f, b) && n < |a| && n < |b| && a[..n] == b[..n]
    ensures a[n] == b[n]
  {
    ChosenAt(f, a, n);
    ChosenAt(f, b, n);
    SameSmallest(Weights(f, a[..n]), SYMBOLS + n, a[n], b[n]);
  }

  /** Two greedy runs agree as far as both go. */
  lemma {:induction false} SameMerges(f: seq<nat>, a: seq<Merge>, b: seq<Merge>, k: nat)
    requires |f| == SLOTS && GreedyRun(f, a) && GreedyRun(f, b) && k <= |a| && k <= |b|
    ensures a[..k] == b[..k]
  {
    if k > 0 {
      var n := k - 1;
      SameMerges(f, a, b, n);
      SameNext(f, a, b, n);
      Slices.SameFront(a, b, n, k);
    }
  }

  lemma TwoPresent(w: seq<nat>, i: nat, k: nat)
    requires i < |w| && k < |w| && i != k && w[i] > 0 && w[k] > 0
    ensures !FewerThanTwo(w)
  {
    if i < k {
      assert w[i] > 0 && w[k] > 0;
    }
  }

  /** A complete run cannot go on. */
  lemma CompleteStops(f: seq<nat>, a: seq<Merge>, b: seq<Merge>)
    requires |f| == SLOTS && CompleteRun(f, a) && GreedyRun(f, b)
    ensures |b| <= |a|
  {
    if |a| < |b| {
      SameMerges(f, a, b, |a|);
      assert a[..|a|] == a;
      ChosenAt(f, b, |a|);
      TwoPresent(Weights(f, a), b[|a|].low, b[|a|].high);
    }
  }

  lemma SameRun(f: seq<nat>, a: seq<Merge>, b: seq<Merge>)
    requires |f| == SLOTS && CompleteRun(f, a) && CompleteRun(f, b)
    ensures a == b
  {
    CompleteStops(f, a, b);
    CompleteStops(f, b, a);
    SameMerges(f, a, b, |a|);
    assert a[..|a|] == a && b[..|b|] == b;
  }

  /** The merges fix every link, and the flag of every slot that has a parent. */
  lemma SameLink(ms: seq<Merge>, up: seq<int>, flag: seq<nat>, up': seq<int>, flag': seq<nat>, i: nat)
    requires Linked(ms, up, flag) && Linked(ms, up', flag') && i < SLOTS
    ensures up[i] == up'[i] && (up[i] != -1 ==> flag[i] == flag'[i])
  {
    ConsumedLinked(ms, up, flag, i);
    ConsumedLinked(ms, up', flag', i);
    assert up[i] == -1 || IsChild(ms, up, flag, i);
  }

  lemma {:induction false} SameCodes(ms: seq<Merge>, up: seq<int>, flag: seq<nat>, up': seq<int>, flag': seq<nat>, i: nat)
    requires Linked(ms, up, flag) && Linked(ms, up', flag') && Rising(up, flag) && Rising(up', flag') && i < SLOTS
    ensures CodeOf(up, flag, i) == CodeOf(up', flag', i)
    decreases SLOTS - i
  {
    SameLink(ms, up, flag, up', flag', i);
    if up[i] != -1 {
      SameCodes(ms, up, flag, up', flag', up[i]);
    }
  }

  /** Whatever way it was built, the table of a frequency table is one and the same. */
  lemma TableUnique(f: seq<nat>, bits: seq<nat>, lens: seq<nat>, bits': seq<nat>, lens': seq<nat>)
    requires TableOf(f, bits, lens) && TableOf(f, bits', lens')
    ensures bits == bits' && lens == lens'
  {
    var ms, up, flag := TableCodes(f, bits, lens);
    var ms', up', flag' := TableCodes(f, bits', lens');
    SameRun(f, ms, ms');
    forall s | 0 <= s < SYMBOLS
      ensures bits[s] == bits'[s] && lens[s] == lens'[s]
    {
      SameCodes(ms, up, flag, up', flag', s);
    }
  }

  // ----- which of two siblings gets which bit

  lemma SameParent(ms: seq<Merge>, up: seq<int>, flag: seq<nat>, x: nat, y: nat, c: Code)
    requires Linked(ms, up, flag) && Rising(up, flag) && x < SLOTS && y < SLOTS
    requires RootOf(up, flag, x) == RootOf(up, flag, y)
    requires CodeOf(up, flag, x) == c + [false] && CodeOf(up, flag, y) == c + [true]
    ensures up[x] == up[y] != -1 && flag[x] == 0 && flag[y] == 1
  {
    AtRoot(up, flag, x);
    AtRoot(up, flag, y);
    var p, q := up[x], up[y];
    UpOne(up, flag, x, p);
    UpOne(up, flag, y, q);
    Slices.SameLast(CodeOf(up, flag, p), flag[x] == 1, c, false);
    Slices.SameLast(CodeOf(up, flag, q), flag[y] == 1, c, true);
    SameCode(ms, up, flag, p, q);
    assert IsChild(ms, up, flag, x);
  }

  /** The slot a merge flags with zero was lighter than the other, or as heavy and earlier. */
  lemma MergedInOrder(f: seq<nat>, ms: seq<Merge>, k: nat)
    requires ValidTable(f) && GreedyRun(f, ms) && k < |ms|
    ensures var w := Weights(f, ms[..k]); var x, y := ms[k].low, ms[k].high;
      w[x] < w[y] || (w[x] == w[y] && x < y)
  {
    ChosenAt(f, ms, k);
  }

  lemma SymbolWeight(f: seq<nat>, ms: seq<Merge>, k: nat, s: nat)
    requires ValidTable(f) && GreedyRun(f, ms) && k < |ms| && s < SYMBOLS && (ms[k].low == s || ms[k].high == s)
    ensures Weights(f, ms[..k])[s] == f[s]
  {
    ChosenLive(f, ms, k, s);
    LiveWeight(f, ms[..k], s);
    BirthsPrefix(f, ms[..k], 0, s);
    assert ms[..k][..0] == [];
  }

  lemma SiblingSymbols(f: seq<nat>, ms: seq<Merge>, up: seq<int>, flag: seq<nat>, x: nat, y: nat)
    requires ValidTable(f) && BuiltBy(f, ms, up, flag) && x < SYMBOLS && y < SYMBOLS
    requires up[x] == up[y] != -1 && flag[x] == 0 && flag[y] == 1
    ensures f[x] < f[y] || (f[x] == f[y] && x < y)
  {
    assert IsChild(ms, up, flag, x) && IsChild(ms, up, flag, y);
    var k := up[x] - SYMBOLS;
    MergedInOrder(f, ms, k);
    SymbolWeight(f, ms, k, x);
    SymbolWeight(f, ms, k, y);
  }

  /** Two symbols whose codes differ in the last bit only: the zero goes to the rarer, and to the earlier among equals. */
  lemma SiblingOrder(f: seq<nat>, bits: seq<nat>, lens: seq<nat>, x: nat, y: nat, c: Code)
    requires TableOf(f, bits, lens) && LiveCount(f) <= 256 && x < SYMBOLS && y < SYMBOLS && f[x] > 0 && f[y] > 0
    requires Codewords(bits, lens)[x] == c + [false] && Codewords(bits, lens)[y] == c + [true]
    ensures f[x] < f[y] || (f[x] == f[y] && x < y)
  {
    var ms, up, flag := TableCodes(f, bits, lens);
    RootCount(f, ms);
    RootLive(f, ms, up, flag, x);
    RootLive(f, ms, up, flag, y);
    OneRoot(Weights(f, ms), RootOf(up, flag, x), RootOf(up, flag, y));
    SameParent(ms, up, flag, x, y, c);
    SiblingSymbols(f, ms, up, flag, x, y);
  }

  // ----- two symbols

  /** Only s and the end symbol occur. */
  predicate TwoSymbols(f: seq<nat>, s: nat) {
    ValidTable(f) && s < 256 && f[s] > 0 && forall i :: 0 <= i < 256 && i != s ==> f[i] == 0
  }

  /** The whole run: one merge, of the end symbol with s. */
  function OneMerge(f: seq<nat>, s: nat): Merge
    requires s < |f|
  {
    if f[s] <= 1 then Merge(s, 256) else Merge(256, s)
  }

  lemma OneMergeRun(f: seq<nat>, s: nat)
    requires TwoSymbols(f, s)
    ensures CompleteRun(f, [OneMerge(f, s)])
  {
    var m := OneMerge(f, s);
    assert [m][..0] == [];
    assert SmallestTwo(f, SYMBOLS, m);
    assert Weights(f, [m]) == Merged(f, m, SYMBOLS);
  }

  lemma OneBit()
    ensures Value([false]) == 0 && Value([true]) == 1
  {
  }

  /** After one merge there is one node, with two codes of one bit below it. */
  lemma OneNode(ms: seq<Merge>, up: seq<int>, flag: seq<nat>, m: Merge, node: nat)
    requires Linked(ms, up, flag) && Rising(up, flag) && ms == [m] && node == SYMBOLS
    ensures m.low < SLOTS && CodeOf(up, flag, m.low) == [false]
    ensures m.high < SLOTS && CodeOf(up, flag, m.high) == [true]
  {
    assert ms[0] == m;
    var x, y := m.low, m.high;
    ConsumedLinked(ms, up, flag, node);
    AtRoot(up, flag, node);
    UpOne(up, flag, x, node);
    UpOne(up, flag, y, node);
  }

  /** A code of one bit each: zero for s if it occurs once, as the end symbol does, and one if it is more frequent. */
  lemma TwoSymbolTable(f: seq<nat>, s: nat, bits: seq<nat>, lens: seq<nat>)
    requires TwoSymbols(f, s) && TableOf(f, bits, lens)
    ensures lens[s] == lens[256] == 1
    ensures if f[s] == 1 then bits[s] == 0 && bits[256] == 1 else bits[s] == 1 && bits[256] == 0
  {
    var ms, up, flag := TableCodes(f, bits, lens);
    OneMergeRun(f, s);
    var m := OneMerge(f, s);
    SameRun(f, ms, [m]);
    OneNode(ms, up, flag, m, SYMBOLS);
    OneBit();
  }
}
