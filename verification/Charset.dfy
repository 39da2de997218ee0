/**
 render_charset of the C64 multicolour encoder: every character of 4x8 pixels is drawn with four two-bit codes, each
 standing for a palette entry of rising brightness; with five colours the darkest and the brightest share a code and a
 flag per character tells them apart.
 */
module Charset {

  const DITHERSTEPS := 8

  /** Brightness of the palette entries, and the interlaced dither patterns: step, then two rows per line, then column. */
  datatype Palette = Palette(luma: seq<int>, five: bool, patterns: seq<seq<seq<bool>>>)

  /** The interlaced patterns, rows written as strings. */
  function PatternRows(): seq<seq<string>> {
    [
     ["0000", "0000", "0000", "0000", "0000", "0000", "0000", "0000"],
     ["1010", "0000", "0000", "0000", "1010", "0000", "0000", "0000"],
     ["1010", "0000", "0000", "0101", "1010", "0000", "0000", "0101"],
     ["1010", "0101", "0101", "0000", "1010", "0101", "0101", "0000"],
     ["1010", "0101", "0101", "1010", "1010", "0101", "0101", "1010"],
     ["1010", "0101", "1111", "1010", "1010", "0101", "1111", "1010"],
     ["1010", "1111", "1111", "0101", "1010", "1111", "1111", "0101"],
     ["1111", "1111", "1111", "0101", "1111", "1111", "1111", "0101"],
     ["1111", "1111", "1111", "1111", "1111", "1111", "1111", "1111"]]
  }

  function InterlacedPatterns(): seq<seq<seq<bool>>> {
    seq(9, d requires 0 <= d < 9 => seq(8, r requires 0 <= r < 8 => seq(4, x requires 0 <= x < 4 =>
      |PatternRows()| == 9 && |PatternRows()[d]| == 8 && |PatternRows()[d][r]| == 4 && PatternRows()[d][r][x] == '1')))
  }

  /** The encoder's patterns have the required shape, and the first one is empty. */
  lemma PatternsValid(p: Palette)
    requires |p.luma| == (if p.five then 5 else 4) && p.patterns == InterlacedPatterns()
    requires forall i :: 0 <= i < |p.luma| ==> 0 <= p.luma[i] < 256
    requires forall i, j :: 0 <= i < j < |p.luma| ==> p.luma[i] < p.luma[j]
    ensures ValidPalette(p)
  {
    forall r, x | 0 <= r < 8 && 0 <= x < 4
      ensures !p.patterns[0][r][x]
    {
      assert PatternRows()[0][r] == "0000";
    }
  }

  predicate ValidPalette(p: Palette) {
    && |p.luma| == (if p.five then 5 else 4)
    && (forall i :: 0 <= i < |p.luma| ==> 0 <= p.luma[i] < 256)
    && (forall i, j :: 0 <= i < j < |p.luma| ==> p.luma[i] < p.luma[j])
    && |p.patterns| >= DITHERSTEPS
    && (forall d :: 0 <= d < |p.patterns| ==> |p.patterns[d]| == 8)
    && (forall d, r :: 0 <= d < |p.patterns| && 0 <= r < 8 ==> |p.patterns[d][r]| == 4)
    && (forall r, x :: 0 <= r < 8 && 0 <= x < 4 ==> !p.patterns[0][r][x])
  }

  function Last(p: Palette): int {
    |p.luma| - 1
  }

  // ----- lookup tables

  /** The brightest entry up to i that is no brighter than a, or the darkest one. */
  function EntryFrom(p: Palette, a: int, i: nat): (r: nat)
    requires i < |p.luma|
    ensures r <= i && (r == 0 || p.luma[r] <= a)
    ensures forall j :: r < j <= i ==> a < p.luma[j]
  {
    if i == 0 || p.luma[i] <= a then i else EntryFrom(p, a, i - 1)
  }

  function Entry(p: Palette, a: int): (r: nat)
    requires ValidPalette(p)
    ensures r <= Last(p) && (r == 0 || p.luma[r] <= a)
    ensures forall j :: r < j <= Last(p) ==> a < p.luma[j]
  {
    EntryFrom(p, a, Last(p))
  }

  function Brighter(p: Palette, a: int): (r: nat)
    requires ValidPalette(p)
    ensures r <= Last(p)
  {
    if Entry(p, a) < Last(p) then Entry(p, a) + 1 else Last(p)
  }

  /** How far a lies on the way to the next entry, in steps. */
  function Dither(p: Palette, a: int): (d: int)
    requires ValidPalette(p)
  {
    var i := Entry(p, a);
    if i == Last(p) || a < p.luma[0] then 0
    else (a - p.luma[i]) * (DITHERSTEPS - 1) / (p.luma[i + 1] - p.luma[i])
  }

  lemma DitherStep(b: int, distance: int)
    requires 0 <= b < distance
    ensures 0 <= b * (DITHERSTEPS - 1) / distance < DITHERSTEPS - 1
  {
    assert b * (DITHERSTEPS - 1) < (DITHERSTEPS - 1) * distance;
  }

  lemma DitherRange(p: Palette, a: int)
    requires ValidPalette(p)
    ensures 0 <= Dither(p, a) < DITHERSTEPS
  {
    var i := Entry(p, a);
    if i < Last(p) && a >= p.luma[0] {
      DitherStep(a - p.luma[i], p.luma[i + 1] - p.luma[i]);
    }
  }

  /** The table's meaning: a brightness within the palette lies between its entry and the next. */
  lemma EntryBrackets(p: Palette, a: int, i: nat)
    requires ValidPalette(p) && i <= Last(p)
    requires (i == 0 || p.luma[i] <= a) && (i == Last(p) || a < p.luma[i + 1])
    ensures Entry(p, a) == i
  {
    forall j | i < j <= Last(p)
      ensures a < p.luma[j]
    {
      assert p.luma[i + 1] <= p.luma[j];
    }
  }

  // ----- characters

  /** A character: 32 brightness values, four to a row. */
  type Char = seq<int>

  predicate ValidChar(ch: Char) {
    |ch| == 32 && forall k :: 0 <= k < 32 ==> 0 <= ch[k] < 256
  }

  function Dark(p: Palette, v: int): (r: int)
    requires ValidPalette(p)
    ensures r >= 0
  {
    if v < p.luma[1] then p.luma[1] - v else 0
  }

  function Bright(p: Palette, v: int): (r: int)
    requires ValidPalette(p)
    ensures r >= 0
  {
    if v > p.luma[3] then v - p.luma[3] else 0
  }

  /** How much of the first n pixels is darker than the second entry. */
  function Low(p: Palette, ch: Char, n: nat): (r: int)
    requires ValidPalette(p) && n <= |ch|
    ensures r >= 0
  {
    if n == 0 then 0 else Low(p, ch, n - 1) + Dark(p, ch[n - 1])
  }

  /** How much of the first n pixels is brighter than the fourth entry. */
  function High(p: Palette, ch: Char, n: nat): (r: int)
    requires ValidPalette(p) && n <= |ch|
    ensures r >= 0
  {
    if n == 0 then 0 else High(p, ch, n - 1) + Bright(p, ch[n - 1])
  }

  predicate Clashes(p: Palette, ch: Char)
    requires ValidPalette(p) && |ch| == 32
  {
    p.five && High(p, ch, 32) > 0 && Low(p, ch, 32) > 0
  }

  function Clamped(p: Palette, bright: bool, v: int): int
    requires ValidPalette(p)
  {
    if bright then (if p.luma[3] < v then p.luma[3] else v) else (if p.luma[1] > v then p.luma[1] else v)
  }

  /** All pixels cut at the bright or at the dark end. */
  function Cut(p: Palette, ch: Char, bright: bool): (r: Char)
    requires ValidPalette(p)
    ensures |r| == |ch|
  {
    seq(|ch|, k requires 0 <= k < |ch| => Clamped(p, bright, ch[k]))
  }

  /** The end that costs less is cut. */
  function Adjusted(p: Palette, ch: Char): (r: Char)
    requires ValidPalette(p) && |ch| == 32
    ensures |r| == 32
  {
    Cut(p, ch, Low(p, ch, 32) > High(p, ch, 32))
  }

  /** The character as it is finally drawn. */
  function Settled(p: Palette, ch: Char): (r: Char)
    requires ValidPalette(p) && |ch| == 32
    ensures |r| == 32
  {
    if Clashes(p, ch) then Adjusted(p, ch) else ch
  }

  // ----- drawing

  /** The palette entry drawn for a brightness at column x of row y, in one of the two interlaced fields. */
  function Drawn(p: Palette, v: int, y: nat, x: nat, field: nat): (r: nat)
    requires ValidPalette(p) && x < 4 && field < 2
    ensures r <= Last(p)
  {
    DitherRange(p, v);
    if p.patterns[Dither(p, v)][y % 4 * 2 + field][x] then Brighter(p, v) else Entry(p, v)
  }

  function Code(entry: nat): (c: nat)
    ensures c < 4
  {
    3 - entry % 4
  }

  /** The code drawn at a pixel. */
  function Pen(p: Palette, ch: Char, y: nat, x: nat, field: nat): (c: nat)
    requires ValidPalette(p) && |ch| == 32 && y < 8 && x < 4 && field < 2
    ensures c < 4
  {
    Code(Drawn(p, ch[4 * y + x], y, x, field))
  }

  /** The codes of a row. */
  function Pens(p: Palette, ch: Char, y: nat, field: nat): (s: seq<nat>)
    requires ValidPalette(p) && |ch| == 32 && y < 8 && field < 2
    ensures |s| == 4 && forall x :: 0 <= x < 4 ==> s[x] == Pen(p, ch, y, x, field) < 4
  {
    seq(4, x requires 0 <= x < 4 => Pen(p, ch, y, x, field))
  }

  /** Codes as bits, the first on top. */
  function Packed(codes: seq<nat>): nat {
    if codes == [] then 0 else 4 * Packed(codes[..|codes| - 1]) + codes[|codes| - 1]
  }

  /** The byte of row y. */
  function RowByte(p: Palette, ch: Char, y: nat, field: nat): (r: nat)
    requires ValidPalette(p) && |ch| == 32 && y < 8 && field < 2
  {
    Packed(Pens(p, ch, y, field))
  }

  /** The entry shown for a two-bit code: five colours tell the darkest from the brightest by the flag. */
  function Shown(p: Palette, code: nat, flag: bool): nat
    requires code < 4
  {
    if code == 3 && p.five && flag then 4 else 3 - code
  }

  /** The code a number of columns from the right end of a row's byte. */
  function CodeAt(row: nat, fromRight: nat): (c: nat)
    ensures c < 4
  {
    if fromRight == 0 then row % 4 else CodeAt(row / 4, fromRight - 1)
  }

  // ----- the properties

  lemma {:induction false} LowZero(p: Palette, ch: Char, n: nat)
    requires ValidPalette(p) && n <= |ch|
    ensures Low(p, ch, n) == 0 <==> forall k :: 0 <= k < n ==> p.luma[1] <= ch[k]
  {
    if n > 0 {
      LowZero(p, ch, n - 1);
    }
  }

  lemma {:induction false} HighZero(p: Palette, ch: Char, n: nat)
    requires ValidPalette(p) && n <= |ch|
    ensures High(p, ch, n) == 0 <==> forall k :: 0 <= k < n ==> ch[k] <= p.luma[3]
  {
    if n > 0 {
      HighZero(p, ch, n - 1);
    }
  }

  /** One adjustment is enough: the settled character uses only one end of the palette. */
  lemma OneRedo(p: Palette, ch: Char)
    requires ValidPalette(p) && |ch| == 32
    ensures !Clashes(p, Settled(p, ch))
  {
    if Clashes(p, ch) {
      LowZero(p, Adjusted(p, ch), 32);
      HighZero(p, Adjusted(p, ch), 32);
    }
  }

  /** Total change of the first n pixels. */
  function Change(a: Char, b: Char, n: nat): int
    requires n <= |a| && n <= |b|
  {
    if n == 0 then 0 else Change(a, b, n - 1) + if a[n - 1] < b[n - 1] then b[n - 1] - a[n - 1] else a[n - 1] - b[n - 1]
  }

  lemma {:induction false} CutChange(p: Palette, ch: Char, bright: bool, n: nat)
    requires ValidPalette(p) && n <= |ch|
    ensures Change(ch, Cut(p, ch, bright), n) == if bright then High(p, ch, n) else Low(p, ch, n)
  {
    if n > 0 {
      CutChange(p, ch, bright, n - 1);
    }
  }

  /** Any character that leaves out one end of the palette differs at least as much as the one the encoder settles on. */
  lemma {:induction false} LeavingOutCosts(p: Palette, ch: Char, other: Char, n: nat)
    requires ValidPalette(p) && n <= |ch| && |other| == |ch|
    ensures (forall k :: 0 <= k < n ==> other[k] <= p.luma[3]) ==> Change(ch, other, n) >= High(p, ch, n)
    ensures (forall k :: 0 <= k < n ==> other[k] >= p.luma[1]) ==> Change(ch, other, n) >= Low(p, ch, n)
  {
    if n > 0 {
      LeavingOutCosts(p, ch, other, n - 1);
    }
  }

  lemma AdjustedCheapest(p: Palette, ch: Char, other: Char)
    requires ValidPalette(p) && |ch| == |other| == 32 && Clashes(p, ch) && !Clashes(p, other)
    ensures Change(ch, Adjusted(p, ch), 32) <= Change(ch, other, 32)
  {
    CutChange(p, ch, Low(p, ch, 32) > High(p, ch, 32), 32);
    LeavingOutCosts(p, ch, other, 32);
    LowZero(p, other, 32);
    HighZero(p, other, 32);
  }

  /** A drawn entry is one of the two around the brightness, and the fifth only for what is brighter than the fourth. */
  lemma DrawnNear(p: Palette, v: int, y: nat, x: nat, field: nat)
    requires ValidPalette(p) && x < 4 && field < 2
    ensures var d := Drawn(p, v, y, x, field);
      && (d == Entry(p, v) || d == Brighter(p, v))
      && (v >= p.luma[1] ==> d > 0)
      && (v <= p.luma[3] ==> d <= 3)
  {
    DitherRange(p, v);
    if v == p.luma[3] {
      ExactlyFourth(p, y, x, field);
    } else if v < p.luma[3] {
      assert Entry(p, v) < 3;
    }
  }

  lemma NoSteps(distance: int)
    requires distance > 0
    ensures 0 * (DITHERSTEPS - 1) / distance == 0
  {
  }

  lemma DitherAtEntry(p: Palette, i: nat)
    requires ValidPalette(p) && i <= Last(p)
    ensures Entry(p, p.luma[i]) == i && Dither(p, p.luma[i]) == 0
  {
    EntryBrackets(p, p.luma[i], i);
    if i < Last(p) {
      NoSteps(p.luma[i + 1] - p.luma[i]);
    }
  }

  /** A brightness equal to the fourth entry is drawn with it: the first dither pattern is empty. */
  lemma ExactlyFourth(p: Palette, y: nat, x: nat, field: nat)
    requires ValidPalette(p) && x < 4 && field < 2
    ensures Drawn(p, p.luma[3], y, x, field) == 3
  {
    DitherAtEntry(p, 3);
    var r := y % 4 * 2 + field;
    assert 0 <= r < 8 && !p.patterns[0][r][x];
  }

  lemma EntryRecovered(p: Palette, ch: Char, v: int, y: nat, x: nat, field: nat)
    requires ValidPalette(p) && |ch| == 32 && !Clashes(p, ch) && v in ch && x < 4 && field < 2
    ensures Shown(p, Code(Drawn(p, v, y, x, field)), High(p, ch, 32) > 0) == Drawn(p, v, y, x, field)
  {
    DrawnNear(p, v, y, x, field);
    LowZero(p, ch, 32);
    HighZero(p, ch, 32);
  }

  lemma LastDigit(q: nat, d: nat)
    requires d < 4
    ensures (4 * q + d) / 4 == q && (4 * q + d) % 4 == d
  {
  }

  lemma PackedStep(codes: seq<nat>, x: nat)
    requires x < |codes|
    ensures Packed(codes[..x + 1]) == 4 * Packed(codes[..x]) + codes[x]
  {
    assert codes[..x + 1][..x] == codes[..x];
  }

  lemma {:induction false} PackedDigits(codes: seq<nat>, x: nat)
    requires x < |codes| && forall k :: 0 <= k < |codes| ==> codes[k] < 4
    ensures CodeAt(Packed(codes), |codes| - 1 - x) == codes[x]
  {
    var n := |codes| - 1;
    LastDigit(Packed(codes[..n]), codes[n]);
    if x < n {
      PackedDigits(codes[..n], x);
    }
  }

  function Limit(n: nat): nat {
    if n == 0 then 1 else 4 * Limit(n - 1)
  }

  lemma {:induction false} PackedFits(codes: seq<nat>)
    requires forall k :: 0 <= k < |codes| ==> codes[k] < 4
    ensures Packed(codes) < Limit(|codes|)
  {
    if codes != [] {
      PackedFits(codes[..|codes| - 1]);
    }
  }

  function Shifted(row: nat, code: nat): nat {
    row * 4 % 0x100 + code
  }

  /** Shifting one more code into a byte loses nothing while there are at most three before it. */
  lemma ShiftStep(codes: seq<nat>, x: nat, x1: nat)
    requires |codes| == 4 && x < 4 && x1 == x + 1 && forall k :: 0 <= k < 4 ==> codes[k] < 4
    ensures Packed(codes[..x1]) == Shifted(Packed(codes[..x]), codes[x])
  {
    PackedStep(codes, x);
    PackedFits(codes[..x]);
    assert Limit(3) == 64 && Limit(2) == 16 && Limit(1) == 4 && Limit(0) == 1;
  }

  /** What the entry table says about the ends of the palette. */
  lemma EntryEnds(p: Palette, v: int)
    requires ValidPalette(p)
    ensures Entry(p, v) >= 3 <==> v >= p.luma[3]
    ensures Entry(p, v) < 1 <==> v < p.luma[1]
  {
  }

  /** One more pixel of the sums. */
  lemma EndsStep(p: Palette, ch: Char, n: nat, n1: nat)
    requires ValidPalette(p) && n < |ch| && n1 == n + 1
    ensures Low(p, ch, n1) == Low(p, ch, n) + Dark(p, ch[n]) && High(p, ch, n1) == High(p, ch, n) + Bright(p, ch[n])
  {
  }

  /** Every pixel's palette entry can be told from the row byte and the character's flag. */
  lemma PixelRecovered(p: Palette, ch: Char, y: nat, x: nat, field: nat)
    requires ValidPalette(p) && |ch| == 32 && y < 8 && x < 4 && field < 2
    ensures var s := Settled(p, ch);
      Shown(p, CodeAt(RowByte(p, s, y, field), 3 - x), High(p, s, 32) > 0) == Drawn(p, s[4 * y + x], y, x, field)
  {
    OneRedo(p, ch);
    PenRecovered(p, Settled(p, ch), y, x, field);
  }

  lemma PenRecovered(p: Palette, s: Char, y: nat, x: nat, field: nat)
    requires ValidPalette(p) && |s| == 32 && !Clashes(p, s) && y < 8 && x < 4 && field < 2
    ensures Shown(p, CodeAt(RowByte(p, s, y, field), 3 - x), High(p, s, 32) > 0) == Drawn(p, s[4 * y + x], y, x, field)
  {
    var pens, k := Pens(p, s, y, field), 4 * y + x;
    PackedDigits(pens, x);
    assert pens[x] == Pen(p, s, y, x, field);
    EntryRecovered(p, s, s[k], y, x, field);
  }

}
