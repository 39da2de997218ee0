/** Binary prefix codes over a table of symbols: the Kraft inequality and unique decoding. */
module PrefixCodes {
  import opened Sums
  import opened Wrappers
  import opened BitStrings
  import opened HuffmanOptimality

  /** No present symbol's code is a prefix of another present symbol's code. */
  ghost predicate PrefixFree(w: seq<nat>, codes: seq<Code>) {
    && |codes| == |w|
    && forall i, k :: 0 <= i < |w| && 0 <= k < |w| && i != k && w[i] > 0 && w[k] > 0 ==> !(codes[i] <= codes[k])
  }

  function Lengths(codes: seq<Code>): (d: seq<nat>)
    ensures |d| == |codes|
    ensures forall i :: 0 <= i < |codes| ==> d[i] == |codes[i]|
  {
    seq(|codes|, i requires 0 <= i < |codes| => |codes[i]|)
  }

  // ----- Kraft inequality

  ghost function BelowTerms(w: seq<nat>, codes: seq<Code>, limit: nat, p: Code): (t: seq<int>)
    requires |codes| == |w| && Bounded(w, Lengths(codes), limit)
    ensures |t| == |w|
    ensures forall i :: 0 <= i < |w| ==>
      t[i] == if w[i] > 0 && p <= codes[i] then Pow2(limit - Lengths(codes)[i]) else 0
  {
    seq(|w|, i requires 0 <= i < |w| => if w[i] > 0 && p <= codes[i] then Pow2(limit - Lengths(codes)[i]) else 0)
  }

  lemma PrefixExtends(p: Code, c: Code)
    requires p <= c && p != c
    ensures (p + [false] <= c) != (p + [true] <= c)
  {
    assert c[..|p| + 1] == p + [c[|p|]];
    assert c[|p|] == (p + [c[|p|]])[|p|];
  }

  /** A code of a prefix code is the only one that starts with itself. */
  lemma OnlyCode(w: seq<nat>, codes: seq<Code>, limit: nat, i: nat)
    requires PrefixFree(w, codes) && Bounded(w, Lengths(codes), limit) && i < |w| && w[i] > 0
    ensures Sum(BelowTerms(w, codes, limit, codes[i])) == Pow2(limit - |codes[i]|)
  {
    var t := BelowTerms(w, codes, limit, codes[i]);
    assert forall k :: 0 <= k < |w| && k != i ==> t[k] == 0;
    SumSingle(t, i);
  }

  lemma SplitTerms(w: seq<nat>, codes: seq<Code>, limit: nat, p: Code)
    requires |codes| == |w| && Bounded(w, Lengths(codes), limit)
    requires forall i :: 0 <= i < |w| && w[i] > 0 ==> codes[i] != p
    ensures Sum(BelowTerms(w, codes, limit, p)) ==
      Sum(BelowTerms(w, codes, limit, p + [false])) + Sum(BelowTerms(w, codes, limit, p + [true]))
  {
    var t := BelowTerms(w, codes, limit, p);
    var t0 := BelowTerms(w, codes, limit, p + [false]);
    var t1 := BelowTerms(w, codes, limit, p + [true]);
    forall i | 0 <= i < |w| ensures t[i] == t0[i] + t1[i] {
      if w[i] > 0 && p <= codes[i] {
        PrefixExtends(p, codes[i]);
      } else if w[i] > 0 {
        assert p <= p + [false] && p <= p + [true];
      }
    }
    SumAdd(t0, t1, t);
  }

  /** The codes that start with p share the space 2^-|p|. */
  lemma {:induction false} KraftBelow(w: seq<nat>, codes: seq<Code>, limit: nat, p: Code)
    requires PrefixFree(w, codes) && Bounded(w, Lengths(codes), limit) && |p| <= limit
    ensures Sum(BelowTerms(w, codes, limit, p)) <= Pow2(limit - |p|)
    decreases limit - |p|
  {
    var t := BelowTerms(w, codes, limit, p);
    if i :| 0 <= i < |w| && w[i] > 0 && codes[i] == p {
      OnlyCode(w, codes, limit, i);
    } else if |p| == limit {
      assert forall i :: 0 <= i < |w| && w[i] > 0 ==> Lengths(codes)[i] <= limit && codes[i] != p;
      SumZero(t);
    } else {
      SplitTerms(w, codes, limit, p);
      KraftBelow(w, codes, limit, p + [false]);
      KraftBelow(w, codes, limit, p + [true]);
    }
  }

  /** Kraft's inequality: the lengths of any prefix code are feasible. */
  lemma KraftInequality(w: seq<nat>, codes: seq<Code>, limit: nat)
    requires PrefixFree(w, codes) && Bounded(w, Lengths(codes), limit)
    ensures Feasible(w, Lengths(codes), limit)
  {
    KraftBelow(w, codes, limit, []);
    assert BelowTerms(w, codes, limit, []) == KraftTerms(w, Lengths(codes), limit);
  }

  lemma {:induction false} LengthLimit(codes: seq<Code>) returns (limit: nat)
    ensures forall i :: 0 <= i < |codes| ==> |codes[i]| <= limit
  {
    if codes == [] {
      limit := 0;
    } else {
      var n := |codes| - 1;
      limit := LengthLimit(codes[..n]);
      limit := if |codes[n]| > limit then |codes[n]| else limit;
      assert forall i :: 0 <= i < n ==> codes[i] == codes[..n][i];
    }
  }

  // ----- decoding

  function Encode(codes: seq<Code>, symbols: seq<nat>): Code
    requires forall i :: 0 <= i < |symbols| ==> symbols[i] < |codes|
  {
    if symbols == [] then [] else codes[symbols[0]] + Encode(codes, symbols[1..])
  }

  /** The first present symbol below n whose code starts the input. */
  function Match(w: seq<nat>, codes: seq<Code>, bits: Code, n: nat): (r: Option<nat>)
    requires |codes| == |w| && n <= |w|
    ensures r.Some? ==> r.value < n && w[r.value] > 0 && codes[r.value] <= bits
    ensures r.None? ==> forall i :: 0 <= i < n && w[i] > 0 ==> !(codes[i] <= bits)
  {
    if n == 0 then None
    else
      var r := Match(w, codes, bits, n - 1);
      if r.Some? then r
      else if w[n - 1] > 0 && codes[n - 1] <= bits then Some(n - 1)
      else None
  }

  /** Repeatedly strip the code that starts the input; None when no code matches. */
  function Decode(w: seq<nat>, codes: seq<Code>, bits: Code): Option<seq<nat>>
    requires |codes| == |w|
    decreases |bits|
  {
    if bits == [] then Some([])
    else
      var r := Match(w, codes, bits, |w|);
      if r.None? || codes[r.value] == [] then None
      else
        var rest := Decode(w, codes, bits[|codes[r.value]|..]);
        if rest.None? then None else Some([r.value] + rest.value)
  }

  /** Two prefixes of one string are comparable. */
  lemma PrefixesCompare(a: Code, b: Code, c: Code)
    requires a <= c && b <= c
    ensures a <= b || b <= a
  {
    if |a| <= |b| {
      assert a == c[..|a|] == b[..|a|];
    } else {
      assert b == c[..|b|] == a[..|b|];
    }
  }

  lemma MatchOwnCode(w: seq<nat>, codes: seq<Code>, s: nat, rest: Code)
    requires PrefixFree(w, codes) && s < |w| && w[s] > 0
    ensures Match(w, codes, codes[s] + rest, |w|) == Some(s)
  {
    var bits := codes[s] + rest;
    var r := Match(w, codes, bits, |w|);
    assert codes[s] <= bits;
    assert r.Some?;
    PrefixesCompare(codes[s], codes[r.value], bits);
  }

  /** Unique decoding: concatenated nonempty codes of a prefix code decode to the symbols they came from. */
  lemma {:induction false} DecodeEncode(w: seq<nat>, codes: seq<Code>, symbols: seq<nat>)
    requires PrefixFree(w, codes)
    requires forall i :: 0 <= i < |w| && w[i] > 0 ==> codes[i] != []
    requires forall i :: 0 <= i < |symbols| ==> symbols[i] < |w| && w[symbols[i]] > 0
    ensures Decode(w, codes, Encode(codes, symbols)) == Some(symbols)
  {
    if symbols != [] {
      var s := symbols[0];
      DecodeEncode(w, codes, symbols[1..]);
      var rest := Encode(codes, symbols[1..]);
      var bits := codes[s] + rest;
      MatchOwnCode(w, codes, s, rest);
      assert bits[|codes[s]|..] == rest;
      assert symbols == [s] + symbols[1..];
    }
  }
}
