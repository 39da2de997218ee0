/** Exactly which tables decode every message to what was encoded. */
module HuffmanDecoding {
  import opened BitStrings
  import opened HuffmanForest
  import opened PrefixCodes
  import opened HuffmanCodes
  import opened HuffmanTables
  import opened HuffmanTheorems
  import opened Wrappers

  predicate Message(w: seq<nat>, symbols: seq<nat>) {
    forall i :: 0 <= i < |symbols| ==> symbols[i] < |w| && w[symbols[i]] > 0
  }

  /** Every sequence of present symbols comes back. */
  ghost predicate Decodes(w: seq<nat>, codes: seq<Code>)
    requires |codes| == |w|
  {
    forall symbols :: Message(w, symbols) ==> Decode(w, codes, Encode(codes, symbols)) == Some(symbols)
  }

  lemma OneSymbol(codes: seq<Code>, s: nat)
    requires s < |codes|
    ensures Encode(codes, [s]) == codes[s]
  {
    assert [s][1..] == [];
  }

  /** A symbol with an empty code is lost. */
  lemma EmptyCodeLost(w: seq<nat>, codes: seq<Code>, s: nat)
    requires |codes| == |w| && s < |w| && w[s] > 0 && codes[s] == []
    ensures !Decodes(w, codes)
  {
    OneSymbol(codes, s);
    assert Message(w, [s]);
  }

  /** What is decoded from a nonempty code starts with the first matching symbol. */
  lemma FirstDecoded(w: seq<nat>, codes: seq<Code>, symbols: seq<nat>)
    requires |codes| == |w| && Message(w, symbols) && symbols != [] && codes[symbols[0]] != []
    requires Decode(w, codes, Encode(codes, symbols)) == Some(symbols)
    ensures Match(w, codes, Encode(codes, symbols), |w|) == Some(symbols[0])
  {
    var bits := Encode(codes, symbols);
    assert bits == codes[symbols[0]] + Encode(codes, symbols[1..]);
  }

  lemma {:induction false} FirstMatch(w: seq<nat>, codes: seq<Code>, bits: Code, n: nat, i: nat)
    requires |codes| == |w| && n <= |w| && i < n && w[i] > 0 && codes[i] <= bits
    ensures Match(w, codes, bits, n).Some? && Match(w, codes, bits, n).value <= i
  {
    if i < n - 1 {
      FirstMatch(w, codes, bits, n - 1, i);
    }
  }

  /**
   Comparable codes cannot both be decoded: where the shorter one comes first it wins the longer code, and where the
   longer one comes first it wins a message that starts with the shorter and goes on with the rest of the longer.
   */
  lemma ComparableLost(w: seq<nat>, codes: seq<Code>, i: nat, k: nat, more: seq<nat>)
    requires |codes| == |w| && i < |w| && k < |w| && i != k && w[i] > 0 && w[k] > 0
    requires codes[i] != [] && codes[i] <= codes[k] && Message(w, more)
    requires codes[k][|codes[i]|..] <= Encode(codes, more)
    ensures !Decodes(w, codes)
  {
    if Decodes(w, codes) {
      if i < k {
        OneSymbol(codes, k);
        assert Message(w, [k]);
        FirstDecoded(w, codes, [k]);
        FirstMatch(w, codes, codes[k], |w|, i);
      } else {
        var symbols := [i] + more;
        assert Message(w, symbols) && symbols[1..] == more;
        FirstDecoded(w, codes, symbols);
        Extends(codes[i], codes[k], Encode(codes, more));
        FirstMatch(w, codes, Encode(codes, symbols), |w|, k);
      }
    }
  }

  lemma Extends(a: Code, b: Code, c: Code)
    requires a <= b && b[|a|..] <= c
    ensures b <= a + c
  {
    assert b == a + b[|a|..];
  }

  // ----- the trees are full

  /** The children of a node: present symbols or earlier nodes, one bit further down. */
  lemma Child(f: seq<nat>, ms: seq<Merge>, up: seq<int>, flag: seq<nat>, node: nat, b: bool) returns (c: nat)
    requires ValidTable(f) && BuiltBy(f, ms, up, flag) && SYMBOLS <= node < SYMBOLS + |ms|
    ensures c < node && (c < SYMBOLS ==> f[c] > 0)
    ensures CodeOf(up, flag, c) == CodeOf(up, flag, node) + [b]
  {
    var k := node - SYMBOLS;
    c := if b then ms[k].high else ms[k].low;
    ChosenLive(f, ms, k, c);
    LiveSlots(f, ms[..k], c);
    assert up[c] == node;
  }

  /** Some symbol lies below every node. */
  lemma {:induction false} SymbolBelow(f: seq<nat>, ms: seq<Merge>, up: seq<int>, flag: seq<nat>, z: nat) returns (s: nat)
    requires ValidTable(f) && BuiltBy(f, ms, up, flag) && z < SYMBOLS + |ms| && (z < SYMBOLS ==> f[z] > 0)
    ensures s < SYMBOLS && f[s] > 0 && CodeOf(up, flag, z) <= CodeOf(up, flag, s)
    decreases z
  {
    if z < SYMBOLS {
      s := z;
    } else {
      var c := Child(f, ms, up, flag, z, false);
      s := SymbolBelow(f, ms, up, flag, c);
    }
  }

  lemma OneMoreBit(c: Code, t: Code, m: nat, n: nat, d: Code)
    requires m < |t| && n == m + 1 && c == t[..m] && d == c + [t[m]]
    ensures d == t[..n] && d <= t
  {
  }

  /** Following bits down from a root meets a symbol on the way, or a node when the bits run out. */
  lemma {:induction false} Descend(f: seq<nat>, ms: seq<Merge>, up: seq<int>, flag: seq<nat>, root: nat, t: Code, n: nat)
    returns (z: nat)
    requires ValidTable(f) && BuiltBy(f, ms, up, flag) && n <= |t|
    requires SYMBOLS <= root < SYMBOLS + |ms| && up[root] == -1
    ensures z < SYMBOLS + |ms| && (z < SYMBOLS ==> f[z] > 0)
    ensures if z < SYMBOLS then CodeOf(up, flag, z) <= t else CodeOf(up, flag, z) == t[..n]
  {
    if n == 0 {
      z := root;
    } else {
      var m := n - 1;
      var node := Descend(f, ms, up, flag, root, t, m);
      if node < SYMBOLS {
        return node;
      }
      z := Child(f, ms, up, flag, node, t[m]);
      OneMoreBit(CodeOf(up, flag, node), t, m, n, CodeOf(up, flag, z));
    }
  }

  /** Under a root that is a node, some symbol's code starts the bits or goes on from them. */
  lemma Comparable(f: seq<nat>, ms: seq<Merge>, up: seq<int>, flag: seq<nat>, root: nat, t: Code) returns (s: nat)
    requires ValidTable(f) && BuiltBy(f, ms, up, flag)
    requires SYMBOLS <= root < SYMBOLS + |ms| && up[root] == -1
    ensures s < SYMBOLS && f[s] > 0
    ensures CodeOf(up, flag, s) <= t || t <= CodeOf(up, flag, s)
  {
    var z := Descend(f, ms, up, flag, root, t, |t|);
    s := z;
    if z >= SYMBOLS {
      assert t[..|t|] == t;
      s := SymbolBelow(f, ms, up, flag, z);
    }
  }

  /** Any bits can be written as the start of a message. */
  lemma {:induction false} Spelled(f: seq<nat>, ms: seq<Merge>, up: seq<int>, flag: seq<nat>, root: nat, t: Code)
    returns (symbols: seq<nat>)
    requires ValidTable(f) && BuiltBy(f, ms, up, flag)
    requires SYMBOLS <= root < SYMBOLS + |ms| && up[root] == -1
    requires forall s :: 0 <= s < SYMBOLS && f[s] > 0 ==> CodeOf(up, flag, s) != []
    ensures Message(f[..SYMBOLS], symbols) && t <= Encode(ForestCodes(up, flag), symbols)
    decreases |t|
  {
    var codes := ForestCodes(up, flag);
    if t == [] {
      symbols := [];
    } else {
      var s := Comparable(f, ms, up, flag, root, t);
      symbols := [s];
      if codes[s] <= t {
        var more := Spelled(f, ms, up, flag, root, t[|codes[s]|..]);
        symbols := [s] + more;
        SpelledMore(f[..SYMBOLS], codes, s, more, t);
      } else {
        OneSymbol(codes, s);
      }
    }
  }

  lemma SpelledMore(w: seq<nat>, codes: seq<Code>, s: nat, more: seq<nat>, t: Code)
    requires |codes| == |w| && Message(w, more) && s < |w| && w[s] > 0 && codes[s] <= t
    requires t[|codes[s]|..] <= Encode(codes, more)
    ensures Message(w, [s] + more) && t <= Encode(codes, [s] + more)
  {
    assert ([s] + more)[1..] == more;
    Extends(codes[s], t, Encode(codes, more));
  }

  // ----- the three kinds of tables

  lemma RootNode(f: seq<nat>, ms: seq<Merge>, up: seq<int>, flag: seq<nat>, s: nat) returns (root: nat)
    requires ValidTable(f) && BuiltBy(f, ms, up, flag) && s < SYMBOLS && up[s] != -1
    ensures SYMBOLS <= root < SYMBOLS + |ms| && up[root] == -1
  {
    root := up[s];
    assert IsChild(ms, up, flag, s);
    while up[root] != -1
      invariant SYMBOLS <= root < SYMBOLS + |ms|
      decreases SLOTS - root
    {
      assert IsChild(ms, up, flag, root);
      root := up[root];
    }
  }

  /** With all 257 symbols two trees remain, and some message is lost. */
  lemma TwoTreesLose(f: seq<nat>, bits: seq<nat>, lens: seq<nat>)
    requires TableOf(f, bits, lens) && LiveCount(f) > 256
    ensures !Decodes(f[..SYMBOLS], Codewords(bits, lens))
  {
    var codes := Codewords(bits, lens);
    var i, k := ComparableCodes(f, bits, lens);
    var ms, up, flag := TableCodes(f, bits, lens);
    if s :| 0 <= s < SYMBOLS && f[s] > 0 && codes[s] == [] {
      EmptyCodeLost(f[..SYMBOLS], codes, s);
    } else {
      TreesClash(f, ms, up, flag, i, k);
    }
  }

  lemma ComparableCodes(f: seq<nat>, bits: seq<nat>, lens: seq<nat>) returns (i: nat, k: nat)
    requires TableOf(f, bits, lens) && LiveCount(f) > 256
    ensures i < SYMBOLS && k < SYMBOLS && i != k && f[i] > 0 && f[k] > 0
    ensures Codewords(bits, lens)[i] <= Codewords(bits, lens)[k]
  {
    var w, codes := f[..SYMBOLS], Codewords(bits, lens);
    PrefixFreeExactly(f, bits, lens);
    i, k :| 0 <= i < |w| && 0 <= k < |w| && i != k && w[i] > 0 && w[k] > 0 && codes[i] <= codes[k];
  }

  /** The code of one symbol starts that of another: their messages begin with the same bits. */
  lemma TreesClash(f: seq<nat>, ms: seq<Merge>, up: seq<int>, flag: seq<nat>, i: nat, k: nat)
    requires ValidTable(f) && BuiltBy(f, ms, up, flag) && i < SYMBOLS && k < SYMBOLS && i != k && f[i] > 0 && f[k] > 0
    requires forall s :: 0 <= s < SYMBOLS && f[s] > 0 ==> CodeOf(up, flag, s) != []
    requires CodeOf(up, flag, i) <= CodeOf(up, flag, k)
    ensures !Decodes(f[..SYMBOLS], ForestCodes(up, flag))
  {
    var codes := ForestCodes(up, flag);
    var root := RootNode(f, ms, up, flag, i);
    var more := Spelled(f, ms, up, flag, root, codes[k][|codes[i]|..]);
    ComparableLost(f[..SYMBOLS], codes, i, k, more);
  }

  /** A lone end symbol has the empty code. */
  lemma LoneSymbolLost(f: seq<nat>, bits: seq<nat>, lens: seq<nat>)
    requires TableOf(f, bits, lens) && LiveCount(f) < 2
    ensures !Decodes(f[..SYMBOLS], Codewords(bits, lens))
  {
    var ms, up, flag := TableCodes(f, bits, lens);
    LiveAfter(f, ms);
    RootCount(f, ms);
    assert ms == [];
    ConsumedLinked(ms, up, flag, 256);
    EmptyCodeLost(f[..SYMBOLS], Codewords(bits, lens), 256);
  }

  /** Every message comes back exactly when at least two and at most 256 symbols occur. */
  lemma TableDecodes(f: seq<nat>, bits: seq<nat>, lens: seq<nat>)
    requires TableOf(f, bits, lens)
    ensures Decodes(f[..SYMBOLS], Codewords(bits, lens)) <==> 2 <= LiveCount(f) <= 256
  {
    if LiveCount(f) < 2 {
      LoneSymbolLost(f, bits, lens);
    } else if LiveCount(f) > 256 {
      TwoTreesLose(f, bits, lens);
    } else {
      forall symbols | Message(f[..SYMBOLS], symbols)
        ensures Decode(f[..SYMBOLS], Codewords(bits, lens), Encode(Codewords(bits, lens), symbols)) == Some(symbols)
      {
        MessageDecodes(f, bits, lens, symbols);
      }
    }
  }
}
