/** What every table built by HuffmanTables is worth: length, prefix-freeness, decoding, optimality. */
module HuffmanTheorems {
  import opened Sums
  import opened BitStrings
  import opened HuffmanForest
  import opened HuffmanOptimality
  import opened PrefixCodes
  import opened HuffmanCodes
  import opened HuffmanTables
  import opened Wrappers

  /** The depth of every slot; the symbols come first. */
  ghost function Depths(up: seq<int>, flag: seq<nat>): (d: seq<nat>)
    requires Rising(up, flag)
    ensures |d| == SLOTS
    ensures forall i :: 0 <= i < SLOTS ==> d[i] == |CodeOf(up, flag, i)|
  {
    seq(SLOTS, i requires 0 <= i < SLOTS => |CodeOf(up, flag, i)|)
  }

  lemma {:induction false} DepthLimit(up: seq<int>, flag: seq<nat>, i: nat)
    requires Rising(up, flag) && i < SLOTS
    ensures |CodeOf(up, flag, i)| <= SLOTS - i
    decreases SLOTS - i
  {
    if up[i] != -1 {
      DepthLimit(up, flag, up[i]);
    }
  }

  lemma DepthsFitTree(f: seq<nat>, ms: seq<Merge>, up: seq<int>, flag: seq<nat>)
    requires ValidTable(f) && BuiltBy(f, ms, up, flag)
    ensures TreeLengths(ms, Depths(up, flag))
    ensures forall i :: 0 <= i < SLOTS ==> Depths(up, flag)[i] <= SLOTS
    ensures forall i :: 0 <= i < SLOTS && Weights(f, ms)[i] > 0 ==> Depths(up, flag)[i] == 0
  {
    forall i | 0 <= i < SLOTS ensures Depths(up, flag)[i] <= SLOTS {
      DepthLimit(up, flag, i);
    }
    forall i | 0 <= i < SLOTS && Weights(f, ms)[i] > 0 ensures Depths(up, flag)[i] == 0 {
      Unlinked(f, ms, up, flag, i);
    }
  }

  // ----- sums over the 257 symbols and over all 512 slots agree

  function Padded(d: seq<nat>): (r: seq<nat>)
    requires |d| == SYMBOLS
    ensures |r| == SLOTS && r[..SYMBOLS] == d
  {
    d + seq(SLOTS - SYMBOLS, _ => 0)
  }

  lemma SumOverSymbols(t: seq<int>)
    requires |t| == SLOTS && forall i :: SYMBOLS <= i < SLOTS ==> t[i] == 0
    ensures Sum(t) == Sum(t[..SYMBOLS])
  {
    assert t == t[..SYMBOLS] + t[SYMBOLS..];
    SumSplit(t[..SYMBOLS], t[SYMBOLS..]);
    SumZero(t[SYMBOLS..]);
  }

  lemma CostOverSymbols(f: seq<nat>, d: seq<nat>)
    requires ValidTable(f) && |d| == SLOTS
    ensures Cost(f, d) == Cost(f[..SYMBOLS], d[..SYMBOLS])
  {
    SumOverSymbols(CostTerms(f, d));
    assert CostTerms(f, d)[..SYMBOLS] == CostTerms(f[..SYMBOLS], d[..SYMBOLS]);
  }

  lemma KraftOverSymbols(f: seq<nat>, d: seq<nat>, limit: nat)
    requires ValidTable(f) && |d| == SLOTS
    requires Bounded(f[..SYMBOLS], d[..SYMBOLS], limit)
    ensures Bounded(f, d, limit)
    ensures Kraft(f, d, limit) == Kraft(f[..SYMBOLS], d[..SYMBOLS], limit)
  {
    assert forall i :: 0 <= i < SYMBOLS ==> f[i] == f[..SYMBOLS][i] && d[i] == d[..SYMBOLS][i];
    assert Bounded(f, d, limit);
    SumOverSymbols(KraftTerms(f, d, limit));
    assert KraftTerms(f, d, limit)[..SYMBOLS] == KraftTerms(f[..SYMBOLS], d[..SYMBOLS], limit);
  }

  lemma LensAreDepths(up: seq<int>, flag: seq<nat>, bits: seq<nat>, lens: seq<nat>)
    requires |bits| == |lens| == SYMBOLS && ReadsOff(up, flag, bits, lens)
    ensures Depths(up, flag)[..SYMBOLS] == lens
  {
  }

  // ----- the theorems

  /** "Can this happen at all?" It cannot: no code of any table is longer than 22 bits. */
  lemma NoLengthOverflow(f: seq<nat>, bits: seq<nat>, lens: seq<nat>)
    requires TableOf(f, bits, lens)
    ensures forall s :: 0 <= s < SYMBOLS ==> lens[s] <= 22 && bits[s] < Pow2(22)
  {
    var ms, up, flag := TableCodes(f, bits, lens);
    forall s | 0 <= s < SYMBOLS ensures lens[s] <= 22 && bits[s] < Pow2(22) {
      LengthBound(f, ms, up, flag, s);
      ValueBound(CodeOf(up, flag, s), 22);
    }
  }

  lemma {:induction false} ValueBound(c: Code, n: nat)
    requires |c| <= n
    ensures Value(c) < Pow2(n)
  {
    if c != [] {
      ValueBound(c[..|c| - 1], n - 1);
    }
  }

  lemma SymbolsBounded(up: seq<int>, flag: seq<nat>, f: seq<nat>, lens: seq<nat>)
    requires Rising(up, flag) && |f| == SLOTS && lens == Depths(up, flag)[..SYMBOLS]
    ensures Bounded(f[..SYMBOLS], lens, SLOTS)
  {
    forall i | 0 <= i < SYMBOLS ensures lens[i] <= SLOTS {
      DepthLimit(up, flag, i);
    }
  }

  lemma ForestKraft(f: seq<nat>, ms: seq<Merge>, up: seq<int>, flag: seq<nat>, limit: nat)
    requires ValidTable(f) && BuiltBy(f, ms, up, flag) && limit >= SLOTS
    ensures Bounded(f, Depths(up, flag), limit)
    ensures Kraft(f, Depths(up, flag), limit) == LiveCount(Weights(f, ms)) * Pow2(limit)
  {
    var d := Depths(up, flag);
    DepthsFitTree(f, ms, up, flag);
    OptimalLengths(f, ms, d, d, limit);
  }

  /** The Kraft sum of a table is the number of trees the slots allowed: one, or two for 257 symbols. */
  lemma KraftEquality(f: seq<nat>, bits: seq<nat>, lens: seq<nat>, limit: nat)
    requires TableOf(f, bits, lens) && limit >= SLOTS
    ensures Bounded(f[..SYMBOLS], lens, limit)
    ensures Kraft(f[..SYMBOLS], lens, limit) == (if LiveCount(f) <= 256 then 1 else 2) * Pow2(limit)
  {
    var ms, up, flag := TableCodes(f, bits, lens);
    LensAreDepths(up, flag, bits, lens);
    SymbolsBounded(up, flag, f, lens);
    KraftOverSymbols(f, Depths(up, flag), limit);
    ForestKraft(f, ms, up, flag, limit);
    RootCount(f, ms);
  }

  lemma OneRoot(w: seq<nat>, i: nat, k: nat)
    requires i < |w| && k < |w| && w[i] > 0 && w[k] > 0 && LiveCount(w) == 1
    ensures i == k
  {
    if i != k {
      SumPair(LiveTerms(w), i, k);
    }
  }

  lemma SingleTreePrefixFree(f: seq<nat>, ms: seq<Merge>, up: seq<int>, flag: seq<nat>)
    requires ValidTable(f) && BuiltBy(f, ms, up, flag) && LiveCount(f) <= 256
    ensures PrefixFree(f[..SYMBOLS], ForestCodes(up, flag))
  {
    RootCount(f, ms);
    var codes := ForestCodes(up, flag);
    forall x, y | 0 <= x < SYMBOLS && 0 <= y < SYMBOLS && x != y && f[x] > 0 && f[y] > 0
      ensures !(codes[x] <= codes[y])
    {
      RootLive(f, ms, up, flag, x);
      RootLive(f, ms, up, flag, y);
      OneRoot(Weights(f, ms), RootOf(up, flag, x), RootOf(up, flag, y));
      NotPrefix(ms, up, flag, x, y);
    }
  }

  /** The table is a prefix code exactly when at most 256 of the 257 symbols occur. */
  lemma PrefixFreeExactly(f: seq<nat>, bits: seq<nat>, lens: seq<nat>)
    requires TableOf(f, bits, lens)
    ensures PrefixFree(f[..SYMBOLS], Codewords(bits, lens)) <==> LiveCount(f) <= 256
  {
    var ms, up, flag := TableCodes(f, bits, lens);
    if LiveCount(f) <= 256 {
      SingleTreePrefixFree(f, ms, up, flag);
    } else if PrefixFree(f[..SYMBOLS], Codewords(bits, lens)) {
      var limit: nat :| limit >= SLOTS;
      KraftEquality(f, bits, lens, limit);
      KraftInequality(f[..SYMBOLS], Codewords(bits, lens), limit);
    }
  }

  /** With two or more symbols every code is nonempty, so any message decodes to what was encoded. */
  lemma MessageDecodes(f: seq<nat>, bits: seq<nat>, lens: seq<nat>, symbols: seq<nat>)
    requires TableOf(f, bits, lens) && 2 <= LiveCount(f) <= 256
    requires forall i :: 0 <= i < |symbols| ==> symbols[i] < SYMBOLS && f[symbols[i]] > 0
    ensures var codes := Codewords(bits, lens);
      Decode(f[..SYMBOLS], codes, Encode(codes, symbols)) == Some(symbols)
  {
    var codes := Codewords(bits, lens);
    var w := f[..SYMBOLS];
    PrefixFreeExactly(f, bits, lens);
    forall i | 0 <= i < SYMBOLS && w[i] > 0 ensures codes[i] != [] {
      var k := OtherSymbol(f, i);
      assert !(codes[i] <= codes[k]);
    }
    DecodeEncode(w, codes, symbols);
  }

  lemma OtherSymbol(f: seq<nat>, i: nat) returns (k: nat)
    requires ValidTable(f) && LiveCount(f) >= 2 && i < SYMBOLS && f[i] > 0
    ensures k < SYMBOLS && k != i && f[k] > 0
  {
    if forall x :: 0 <= x < SLOTS && x != i ==> f[x] == 0 {
      SumSingle(LiveTerms(f), i);
    }
    k :| 0 <= k < SLOTS && k != i && f[k] > 0;
  }

  /** Optimality: no prefix code for the symbols that occur has a smaller frequency-weighted length. */
  lemma TableOptimal(f: seq<nat>, bits: seq<nat>, lens: seq<nat>, codes: seq<Code>)
    requires TableOf(f, bits, lens) && PrefixFree(f[..SYMBOLS], codes)
    ensures Cost(f[..SYMBOLS], lens) <= Cost(f[..SYMBOLS], Lengths(codes))
  {
    var w := f[..SYMBOLS];
    var longest := LengthLimit(codes);
    var limit := if longest > SLOTS then longest else SLOTS;
    assert Bounded(w, Lengths(codes), limit);
    KraftInequality(w, codes, limit);
    var ms, up, flag := TableCodes(f, bits, lens);
    var depth, d := Depths(up, flag), Padded(Lengths(codes));
    DepthsFitTree(f, ms, up, flag);
    LensAreDepths(up, flag, bits, lens);
    KraftOverSymbols(f, d, limit);
    OptimalLengths(f, ms, depth, d, limit);
    CostOverSymbols(f, d);
    CostOverSymbols(f, depth);
  }
}
