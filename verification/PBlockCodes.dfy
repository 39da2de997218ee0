/**
 The block type codes by their rule: the types a shape has, in order, get codes one bit longer than the one before. The
 decoder's tables read exactly these.
 */
module PBlockCodes {
  import opened Sums
  import opened BitStrings
  import opened PBlocks
  import Slices

  /** The types of a shape: halves need a side and more than two pixels to be left, single words two pixels. */
  function Kinds(log2w: nat, log2h: nat): (r: seq<nat>)
    ensures 0 < |r| && forall k :: 0 <= k < |r| ==> r[k] < 7
  {
    [0] + (if log2h > 0 && log2w + log2h > 1 then [1] else []) + (if log2w > 0 && log2w + log2h > 1 then [2] else [])
    + [3, 4, 5] + (if log2w + log2h == 1 then [6] else [])
  }

  /** The other types, which share a first bit in the older codes. */
  function Others(log2w: nat, log2h: nat): (r: seq<nat>)
    ensures 0 < |r| && forall k :: 0 <= k < |r| ==> r[k] < 7
  {
    (if log2h > 0 && log2w + log2h > 1 then [1] else []) + (if log2w > 0 && log2w + log2h > 1 then [2] else [])
    + [4, 5] + (if log2w + log2h == 1 then [6] else [])
  }

  function Rank(kinds: seq<nat>, code: nat): (r: nat)
    ensures r <= |kinds| && (r < |kinds| ==> kinds[r] == code)
  {
    if kinds == [] || kinds[0] == code then 0 else 1 + Rank(kinds[1..], code)
  }

  function Ones(n: nat): (c: Code)
    ensures |c| == n && forall i :: 0 <= i < n ==> c[i]
  {
    if n == 0 then [] else Ones(n - 1) + [true]
  }

  /** The code of the k-th of n: k ones and a zero, which the last does without. */
  function Unary(k: nat, n: nat): Code {
    if k + 1 < n then Ones(k) + [false] else Ones(k)
  }

  /** Newer streams count all types; in older ones 3 is 00, 0 is 01, and the others follow a one. */
  function TypeBits(newer: bool, log2w: nat, log2h: nat, code: nat): Code {
    var kinds, others := Kinds(log2w, log2h), Others(log2w, log2h);
    if newer then Unary(Rank(kinds, code), |kinds|)
    else if code == 3 then [false, false]
    else if code == 0 then [false, true]
    else if |others| == 4 then [true] + Codeword(Rank(others, code), 2)
    else [true] + Unary(Rank(others, code), |others|)
  }

  // ----- their values

  lemma {:induction false} OnesValue(n: nat)
    ensures Value(Ones(n)) == Pow2(n) - 1
  {
    if n > 0 {
      OnesValue(n - 1);
      ValueLast(Ones(n - 1), true);
    }
  }

  lemma UnaryValue(k: nat, n: nat)
    requires k < n
    ensures |Unary(k, n)| == (if k + 1 < n then k + 1 else k)
    ensures Value(Unary(k, n)) == if k + 1 < n then 2 * (Pow2(k) - 1) else Pow2(k) - 1
  {
    OnesValue(k);
    ValueLast(Ones(k), false);
  }

  lemma SmallPowers()
    ensures Pow2(0) == 1 && Pow2(1) == 2 && Pow2(2) == 4 && Pow2(3) == 8 && Pow2(4) == 16 && Pow2(5) == 32
  {
  }

  /** The four lists of types and the table row of their shapes. */
  lemma KindsOfShape(log2w: nat, log2h: nat, index: nat)
    requires log2w < 4 && log2h < 4 && log2w + log2h > 0 && index == SizeIndex(log2h, log2w)
    ensures index < 4
    ensures Kinds(log2w, log2h) == NewerKinds(index) && Others(log2w, log2h) == OlderOthers(index)
  {
  }

  lemma RankIs(kinds: seq<nat>, k: nat)
    requires k < |kinds| && forall i, j :: 0 <= i < j < |kinds| ==> kinds[i] != kinds[j]
    ensures Rank(kinds, kinds[k]) == k
  {
    if k > 0 {
      RankIs(kinds[1..], k - 1);
    }
  }

  lemma RankOf(kinds: seq<nat>, code: nat, k: nat)
    requires k < |kinds| && kinds[k] == code && forall i, j :: 0 <= i < j < |kinds| ==> kinds[i] != kinds[j]
    ensures Rank(kinds, code) == k
  {
    RankIs(kinds, k);
  }

  function NewerKinds(index: nat): seq<nat>
    requires index < 4
  {
    [[0, 1, 2, 3, 4, 5], [0, 2, 3, 4, 5], [0, 1, 3, 4, 5], [0, 3, 4, 5, 6]][index]
  }

  function OlderOthers(index: nat): seq<nat>
    requires index < 4
  {
    [[1, 2, 4, 5], [2, 4, 5], [1, 4, 5], [4, 5, 6]][index]
  }

  lemma NewerRow(index: nat, k: nat)
    requires index < 4 && k < |NewerKinds(index)|
    ensures var n := |NewerKinds(index)|; var code := NewerKinds(index)[k];
      code < 7 && 5 <= n <= 6
      && Entry(true, index, code) == if k + 1 < n then (2 * ([1, 2, 4, 8, 16, 32][k] - 1), k + 1) else ([1, 2, 4, 8, 16, 32][k] - 1, k)
  {
  }

  lemma OlderRow(index: nat, k: nat)
    requires index < 4 && k < |OlderOthers(index)|
    ensures var n := |OlderOthers(index)|; var code := OlderOthers(index)[k];
      code < 7 && 3 <= n <= 4
      && Entry(false, index, code) == if n == 4 then (4 + k, 3) else if k == 0 then (2, 2) else (5 + k, 3)
  {
  }

  lemma PowerOf(k: nat)
    requires k < 6
    ensures Pow2(k) == [1, 2, 4, 8, 16, 32][k]
  {
    SmallPowers();
  }

  /** The table of the newer streams holds the rule's codes. */
  lemma {:induction false} NewerEntry(index: nat, kinds: seq<nat>, code: nat, k: nat)
    requires index < 4 && kinds == NewerKinds(index) && k < |kinds| && kinds[k] == code
    ensures Rank(kinds, code) == k && Unary(k, |kinds|) != []
    ensures code < 7 && Entry(true, index, code) == (Value(Unary(k, |kinds|)), |Unary(k, |kinds|)|)
  {
    RankOf(kinds, code, k);
    NewerRow(index, k);
    UnaryValue(k, |kinds|);
    PowerOf(k);
  }

  lemma OlderRank(index: nat, others: seq<nat>, code: nat, k: nat)
    requires index < 4 && others == OlderOthers(index) && k < |others| && others[k] == code
    ensures Rank(others, code) == k
  {
    RankOf(others, code, k);
  }

  /** A one in front of the k-th of three. */
  lemma AfterOne(k: nat, n: nat)
    requires k < n && n == 3
    ensures Value([true] + Unary(k, n)) == (if k == 0 then 2 else 5 + k) && |Unary(k, n)| == if k == 0 then 1 else 2
  {
    ValuePrepend(true, Unary(k, n));
    UnaryValue(k, n);
    SmallPowers();
  }

  /** A one in front of two bits. */
  lemma AfterOnePair(k: nat)
    requires k < 4
    ensures Value([true] + Codeword(k, 2)) == 4 + k
  {
    ValuePrepend(true, Codeword(k, 2));
    SmallPowers();
    ValueCodeword(k, 2);
  }

  lemma {:induction false} OlderEntry(index: nat, others: seq<nat>, code: nat, k: nat, c: Code)
    requires index < 4 && others == OlderOthers(index) && k < |others| && others[k] == code
    requires c == [true] + if |others| == 4 then Codeword(k, 2) else Unary(k, |others|)
    ensures code < 7 && Entry(false, index, code) == (Value(c), |c|)
  {
    OlderRow(index, k);
    if |others| == 4 {
      AfterOnePair(k);
    } else {
      AfterOne(k, |others|);
    }
  }

  /** Wherever the shape has the type, the table holds its code. */
  lemma {:induction false} EntryIs(newer: bool, log2w: nat, log2h: nat, code: nat, index: nat)
    requires log2w < 4 && log2h < 4 && log2w + log2h > 0 && index == SizeIndex(log2h, log2w)
    requires code in Kinds(log2w, log2h)
    ensures index < 4 && code < 7
    ensures var c := TypeBits(newer, log2w, log2h, code); 0 < |c| <= 5 && Entry(newer, index, code) == (Value(c), |c|)
  {
    KindsOfShape(log2w, log2h, index);
    if newer {
      var k :| 0 <= k < |NewerKinds(index)| && NewerKinds(index)[k] == code;
      NewerEntry(index, NewerKinds(index), code, k);
      UnaryValue(k, |NewerKinds(index)|);
      NewerRow(index, k);
    } else if code == 3 || code == 0 {
      TwoBits();
    } else {
      var k := OtherAt(index, code);
      OlderRank(index, OlderOthers(index), code, k);
      OlderRow(index, k);
      if |OlderOthers(index)| == 3 {
        AfterOne(k, 3);
      }
      OlderEntry(index, OlderOthers(index), code, k, TypeBits(newer, log2w, log2h, code));
    }
  }

  lemma TwoBits()
    ensures Value([false, false]) == 0 && Value([false, true]) == 1
  {
    assert [false, false][..1] == [false] && [false, true][..1] == [false] && [false][..0] == [];
  }

  lemma OtherAt(index: nat, code: nat) returns (k: nat)
    requires index < 4 && code in NewerKinds(index) && code != 0 && code != 3
    ensures k < |OlderOthers(index)| && OlderOthers(index)[k] == code
  {
    k := if code == OlderOthers(index)[0] then 0 else if code == OlderOthers(index)[1] then 1
      else if code == OlderOthers(index)[2] then 2 else 3;
  }

  // ----- reading a code

  /** The next five bits, zeros past the end. */
  function Five(bits: seq<bool>): (c: Code)
    ensures |c| == 5 && forall i :: 0 <= i < 5 ==> c[i] == (i < |bits| && bits[i])
  {
    seq(5, i requires 0 <= i < 5 => i < |bits| && bits[i])
  }

  lemma ThreeBits(a: bool, b: bool, c: bool)
    ensures Value([a, b, c]) == 4 * BitValue(a) + 2 * BitValue(b) + BitValue(c)
  {
    assert [a][..0] == [] && [a] + [b] == [a, b] && [a, b] + [c] == [a, b, c];
    ValueLast([a], b);
    ValueLast([a, b], c);
  }

  lemma FiveBits(a: bool, b: bool, c: bool, d: bool, e: bool)
    ensures Value([a, b, c, d, e])
      == 16 * BitValue(a) + 8 * BitValue(b) + 4 * BitValue(c) + 2 * BitValue(d) + BitValue(e)
  {
    ThreeBits(a, b, c);
    assert [a, b, c] + [d] == [a, b, c, d] && [a, b, c, d] + [e] == [a, b, c, d, e];
    ValueLast([a, b, c], d);
    ValueLast([a, b, c, d], e);
  }

  function BitValue(b: bool): nat {
    if b then 1 else 0
  }

  lemma WindowIs(bits: seq<bool>)
    ensures Window(bits) == Value(Five(bits))
  {
    var c := Five(bits);
    assert c == [c[0], c[1], c[2], c[3], c[4]];
    FiveBits(c[0], c[1], c[2], c[3], c[4]);
  }

  lemma {:induction false} SideIsPower(n: nat)
    ensures Side(n) == Pow2(n)
  {
    if n > 0 {
      SideIsPower(n - 1);
    }
  }

  lemma WindowStarts(c: Code, rest: seq<bool>, n: nat, side: nat)
    requires |c| + n == 5 && side == Pow2(n)
    ensures Value(c) * side <= Window(c + rest) < Value(c) * side + side
  {
    var tail := Five(c + rest)[|c|..];
    assert Five(c + rest) == c + tail;
    WindowIs(c + rest);
    ValueAppend(c, tail);
    ValueBelow(tail);
  }

  lemma OneMoreSide(v: nat, side: nat)
    ensures (v + 1) * side == v * side + side
  {
  }

  /** A code at the front of the bits is what the window starts with. */
  lemma {:induction false} CodeMatches(newer: bool, index: nat, code: nat, c: Code, rest: seq<bool>)
    requires index < 4 && code < 7 && 0 < |c| <= 5 && Entry(newer, index, code) == (Value(c), |c|)
    ensures Matches(newer, index, code, Window(c + rest))
  {
    var n: nat := 5 - |c|;
    SideIsPower(n);
    WindowStarts(c, rest, n, Side(n));
    OneMoreSide(Value(c), Side(n));
  }

  /** pad are the zeros read for what is missing at the end of the bits. */
  ghost predicate Zeros(pad: Code) {
    forall i :: 0 <= i < |pad| ==> !pad[i]
  }

  /** bits start with the code c and go on with rest, perhaps up to zeros missing at the end of c. */
  ghost predicate StartWith(bits: seq<bool>, pad: Code, c: Code, rest: seq<bool>) {
    bits + pad == c + rest && Zeros(pad) && (pad != [] ==> rest == [] && |pad| < |c|)
  }

  lemma WindowPadded(bits: seq<bool>, pad: Code)
    requires Zeros(pad)
    ensures Window(bits + pad) == Window(bits)
  {
    assert Five(bits + pad) == Five(bits);
    WindowIs(bits);
    WindowIs(bits + pad);
  }

  lemma StartSkipped(bits: seq<bool>, pad: Code, c: Code, rest: seq<bool>)
    requires StartWith(bits, pad, c, rest) && c != []
    ensures bits != [] && Skipped(bits, |c|) == rest
  {
    Slices.Front(c, rest);
    if pad == [] {
      Slices.Nothing(bits);
    } else {
      assert |bits + pad| == |c + rest|;
    }
  }

  /** The decoder reads the type back and knows its length. */
  lemma TypeReadBack(v: Video, s: Streams, pad: Code, log2w: nat, log2h: nat, code: nat, rest: seq<bool>)
    requires Ready(v) && v.types == VlcTables(v.newer) && log2w < 4 && log2h < 4 && log2w + log2h > 0
    requires code in Kinds(log2w, log2h) && StartWith(s.bits, pad, TypeBits(v.newer, log2w, log2h, code), rest)
    ensures BlockType(v, s, log2w, log2h) == (code, |TypeBits(v.newer, log2w, log2h, code)|)
    ensures s.bits != [] && Skipped(s.bits, |TypeBits(v.newer, log2w, log2h, code)|) == rest
  {
    var index, c := SizeIndex(log2h, log2w), TypeBits(v.newer, log2w, log2h, code);
    EntryIs(v.newer, log2w, log2h, code, index);
    CodeMatches(v.newer, index, code, c, rest);
    WindowPadded(s.bits, pad);
    CodeExactlyOne(v.newer, index, Window(s.bits), code);
    StartSkipped(s.bits, pad, c, rest);
  }

  /** A type that has a code is one of the shape's. */
  lemma EntryKind(newer: bool, log2w: nat, log2h: nat, code: nat, index: nat)
    requires log2w < 4 && log2h < 4 && log2w + log2h > 0 && index == SizeIndex(log2h, log2w)
    requires code < 7 && index < 4 && Entry(newer, index, code).1 > 0
    ensures code in Kinds(log2w, log2h)
  {
    KindsOfShape(log2w, log2h, index);
    assert index == 0 ==> code == NewerKinds(0)[code];
    assert index == 1 ==> code == NewerKinds(1)[if code == 0 then 0 else code - 1];
    assert index == 2 ==> code == NewerKinds(2)[if code < 2 then code else code - 1];
    assert index == 3 ==> code == NewerKinds(3)[if code == 0 then 0 else code - 2];
  }

  lemma {:induction false} ValueUnique(a: Code, b: Code)
    requires |a| == |b| && Value(a) == Value(b)
    ensures a == b
  {
    CodewordValue(a);
    CodewordValue(b);
  }

  lemma QuotientUnique(a: nat, b: nat, x: nat, side: nat)
    requires a * side <= x < a * side + side && b * side <= x < b * side + side
    ensures a == b
  {
    var d: int := b - a;
    assert d * side == b * side - a * side;
    assert 0 < d * side + side && d * side < side;
  }

  /** A window that matches a code starts with it. */
  lemma WindowHas(c: Code, bits: seq<bool>, n: nat, side: nat)
    requires |c| + n == 5 && side == Pow2(n) && Value(c) * side <= Window(bits) < Value(c) * side + side
    ensures Five(bits)[..|c|] == c
  {
    var d, tail := Five(bits)[..|c|], Five(bits)[|c|..];
    assert Five(bits) == d + tail;
    WindowIs(bits);
    ValueAppend(d, tail);
    ValueBelow(tail);
    QuotientUnique(Value(d), Value(c), Window(bits), side);
    ValueUnique(d, c);
  }

  lemma {:induction false} MatchedCode(newer: bool, index: nat, code: nat, c: Code, bits: seq<bool>)
    requires index < 4 && code < 7 && 0 < |c| <= 5 && Entry(newer, index, code) == (Value(c), |c|)
    requires Matches(newer, index, code, Window(bits))
    ensures Five(bits)[..|c|] == c
  {
    var n: nat := 5 - |c|;
    SideIsPower(n);
    OneMoreSide(Value(c), Side(n));
    WindowHas(c, bits, n, Side(n));
  }

  lemma CutOrWhole(bits: seq<bool>, c: Code) returns (pad: Code)
    requires bits != [] && |c| <= 5 && Five(bits)[..|c|] == c
    ensures StartWith(bits, pad, c, Skipped(bits, |c|))
  {
    if |c| <= |bits| {
      pad := [];
      assert bits[..|c|] == c;
    } else {
      pad := c[|bits|..];
      assert c[..|bits|] == bits;
    }
  }

  /** Whatever type is read, it is one of the shape's and its code is at the front of the bits. */
  lemma TypeFound(v: Video, s: Streams, log2w: nat, log2h: nat, code: nat) returns (pad: Code)
    requires Ready(v) && v.types == VlcTables(v.newer) && log2w < 4 && log2h < 4 && log2w + log2h > 0
    requires s.bits != [] && code == BlockType(v, s, log2w, log2h).0
    ensures code in Kinds(log2w, log2h)
    ensures BlockType(v, s, log2w, log2h).1 == |TypeBits(v.newer, log2w, log2h, code)|
    ensures StartWith(s.bits, pad, TypeBits(v.newer, log2w, log2h, code), Skipped(s.bits, BlockType(v, s, log2w, log2h).1))
  {
    var index, c := SizeIndex(log2h, log2w), TypeBits(v.newer, log2w, log2h, code);
    KindsOfShape(log2w, log2h, index);
    CodeExactlyOne(v.newer, index, Window(s.bits), code);
    EntryKind(v.newer, log2w, log2h, code, index);
    EntryIs(v.newer, log2w, log2h, code, index);
    MatchedCode(v.newer, index, code, c, s.bits);
    pad := CutOrWhole(s.bits, c);
  }
}
