/** The finished charset pixel by pixel, in brightness values, dither patterns and bits. */
module CharsetPixels {
  import opened Charset
  import opened CharsetRenderer
  import Slices

  // ----- the character that is drawn

  function Capped(ch: Char, top: int): (r: Char)
    ensures |r| == |ch| && forall k :: 0 <= k < |ch| ==> r[k] == if ch[k] < top then ch[k] else top
  {
    seq(|ch|, k requires 0 <= k < |ch| => if ch[k] < top then ch[k] else top)
  }

  function Floored(ch: Char, bottom: int): (r: Char)
    ensures |r| == |ch| && forall k :: 0 <= k < |ch| ==> r[k] == if ch[k] > bottom then ch[k] else bottom
  {
    seq(|ch|, k requires 0 <= k < |ch| => if ch[k] > bottom then ch[k] else bottom)
  }

  /** With five colours, are there pixels below the second entry as well as above the fourth? */
  predicate BothEnds(p: Palette, ch: Char)
    requires ValidPalette(p)
  {
    p.five && (exists k :: 0 <= k < |ch| && ch[k] < p.luma[1]) && (exists k :: 0 <= k < |ch| && ch[k] > p.luma[3])
  }

  lemma ClashesIs(p: Palette, ch: Char)
    requires ValidPalette(p) && |ch| == 32
    ensures Clashes(p, ch) <==> BothEnds(p, ch)
  {
    if p.five {
      LowZero(p, ch, 32);
      HighZero(p, ch, 32);
    }
  }

  lemma CutIs(p: Palette, ch: Char)
    requires ValidPalette(p)
    ensures Cut(p, ch, true) == Capped(ch, p.luma[3]) && Cut(p, ch, false) == Floored(ch, p.luma[1])
  {
  }

  /**
   A character that uses both ends loses the bright one if raising its dark pixels would change it more, otherwise the dark
   one; any other character stays as it is.
   */
  lemma SettledIs(p: Palette, ch: Char, capped: Char, floored: Char)
    requires ValidPalette(p) && |ch| == 32 && capped == Capped(ch, p.luma[3]) && floored == Floored(ch, p.luma[1])
    ensures Settled(p, ch)
      == if !BothEnds(p, ch) then ch else if Change(ch, floored, 32) > Change(ch, capped, 32) then capped else floored
  {
    ClashesIs(p, ch);
    CutIs(p, ch);
    CutChange(p, ch, true, 32);
    CutChange(p, ch, false, 32);
  }

  // ----- the entry that is drawn

  /** The brightness lies d steps of seven on the way from entry i to the next. */
  predicate OnTheWay(p: Palette, v: int, i: nat, d: nat)
    requires ValidPalette(p)
  {
    && i < Last(p) && p.luma[i] <= v < p.luma[i + 1] && d < 7
    && d * (p.luma[i + 1] - p.luma[i]) <= 7 * (v - p.luma[i]) < (d + 1) * (p.luma[i + 1] - p.luma[i])
  }

  lemma DitherIs(p: Palette, v: int, i: nat, d: nat)
    requires ValidPalette(p) && OnTheWay(p, v, i, d)
    ensures Entry(p, v) == i && Brighter(p, v) == i + 1 && Dither(p, v) == d
  {
    EntryBrackets(p, v, i);
    assert i > 0 ==> p.luma[0] < p.luma[i];
    Quotient(v - p.luma[i], p.luma[i + 1] - p.luma[i], d);
  }

  lemma Quotient(b: nat, distance: nat, d: nat)
    requires distance > 0 && d * distance <= 7 * b < (d + 1) * distance
    ensures b * (DITHERSTEPS - 1) / distance == d
  {
    var q := b * 7 / distance;
    var r := b * 7 % distance;
    assert b * 7 == q * distance + r;
    var e: int := q - d;
    assert e * distance == q * distance - d * distance;
    assert 0 < e * distance + distance && e * distance < distance;
  }

  lemma Steps(b: nat, distance: nat) returns (d: nat)
    requires b < distance
    ensures d < 7 && d * distance <= 7 * b < (d + 1) * distance
  {
    DitherStep(b, distance);
    d := b * (DITHERSTEPS - 1) / distance;
    assert b * (DITHERSTEPS - 1) == d * distance + b * (DITHERSTEPS - 1) % distance;
  }

  lemma OnSomeWay(p: Palette, v: int) returns (i: nat, d: nat)
    requires ValidPalette(p) && p.luma[0] <= v < p.luma[Last(p)]
    ensures OnTheWay(p, v, i, d)
  {
    i := Entry(p, v);
    d := Steps(v - p.luma[i], p.luma[i + 1] - p.luma[i]);
  }

  /** A brightness on the way is drawn with the next entry where the pattern of its step has a dot, else with its own. */
  lemma DrawnIs(p: Palette, v: int, y: nat, x: nat, field: nat, i: nat, d: nat)
    requires ValidPalette(p) && x < 4 && field < 2 && OnTheWay(p, v, i, d)
    ensures Drawn(p, v, y, x, field) == if p.patterns[d][2 * (y % 4) + field][x] then i + 1 else i
  {
    DitherIs(p, v, i, d);
  }

  /** Outside the palette it is drawn with the entry at that end. */
  lemma DrawnOutside(p: Palette, v: int, y: nat, x: nat, field: nat)
    requires ValidPalette(p) && x < 4 && field < 2
    ensures v < p.luma[0] ==> Drawn(p, v, y, x, field) == 0
    ensures v >= p.luma[Last(p)] ==> Drawn(p, v, y, x, field) == Last(p)
  {
    assert y % 4 * 2 + field < 8;
    if v < p.luma[0] {
      EntryBrackets(p, v, 0);
      assert Dither(p, v) == 0;
    } else if v >= p.luma[Last(p)] {
      EntryBrackets(p, v, Last(p));
    }
  }

  // ----- the bytes of the charset

  /** The two bits at column x of a row. */
  function BitsAt(row: nat, x: nat): nat
    requires x < 4
  {
    row / [64, 16, 4, 1][x] % 4
  }

  lemma Quarters(row: nat)
    ensures row / 4 / 4 == row / 16 && row / 16 / 4 == row / 64
  {
  }

  lemma CodeAtStep(row: nat, n: nat, n1: nat)
    requires n1 == n + 1
    ensures CodeAt(row, n1) == CodeAt(row / 4, n)
  {
  }

  lemma CodeAtBits(row: nat, x: nat, n: nat)
    requires x < 4 && n == 3 - x
    ensures CodeAt(row, n) == BitsAt(row, x)
  {
    Quarters(row);
    if n > 0 {
      CodeAtStep(row, n - 1, n);
    }
    if n > 1 {
      CodeAtStep(row / 4, n - 2, n - 1);
    }
    if n > 2 {
      CodeAtStep(row / 16, n - 3, n - 2);
    }
  }

  lemma FourCodes()
    ensures Limit(4) == 0x100
  {
    assert Limit(2) == 16 && Limit(3) == 64;
  }

  lemma RowBits(p: Palette, ch: Char, y: nat, x: nat, field: nat, i: nat)
    requires ValidPalette(p) && |ch| == 32 && y < 8 && x < 4 && field < 2 && i == 4 * y + x
    ensures BitsAt(RowByte(p, ch, y, field), x) == 3 - Drawn(p, ch[i], y, x, field) % 4
  {
    var pens := Pens(p, ch, y, field);
    PackedDigits(pens, x);
    CodeAtBits(Packed(pens), x, 3 - x);
  }

  lemma RowFits(p: Palette, ch: Char, y: nat, field: nat)
    requires ValidPalette(p) && |ch| == 32 && y < 8 && field < 2
    ensures RowByte(p, ch, y, field) < 0x100
  {
    PackedFits(Pens(p, ch, y, field));
    FourCodes();
  }

  /** The brightness of a pixel once its character is settled. */
  function PixelOf(p: Palette, cb: seq<int>, k: nat, y: nat, x: nat): int
    requires ValidPalette(p) && |cb| == 32 * CHARSET_CHARS && k < CHARSET_CHARS && y < 8 && x < 4
  {
    Settled(p, cb[32 * k..32 * k + 32])[4 * y + x]
  }

  /**
   In each field, two bits of the finished charset's byte for a row hold three minus the entry drawn for the settled pixel,
   modulo four.
   */
  lemma CharsetBits(p: Palette, cs: seq<int>, cb: seq<int>, k: nat, y: nat, x: nat, field: nat, at: nat) returns (row: nat)
    requires ValidPalette(p) && |cs| == 0x1000 && |cb| == 32 * CHARSET_CHARS && k < CHARSET_CHARS
    requires y < 8 && x < 4 && field < 2 && at == 0x800 * field + 8 * k + y
    ensures row == Drawing(p, cs, cb, CHARSET_CHARS)[at] && row < 0x100
    ensures BitsAt(row, x) == 3 - Drawn(p, PixelOf(p, cb, k, y, x), y, x, field) % 4
  {
    row := RowByte(p, Settled(p, CharAt(cb, k)), y, field);
    ByteDrawn(p, cs, cb, k, y, field, at);
    RowFits(p, Settled(p, CharAt(cb, k)), y, field);
    RowBits(p, Settled(p, CharAt(cb, k)), y, x, field, 4 * y + x);
  }

  /** The flag says that the settled character has a pixel above the fourth entry. */
  lemma FlagIs(p: Palette, cb: seq<int>, was: seq<bool>, k: nat, settled: Char)
    requires ValidPalette(p) && |cb| == 32 * CHARSET_CHARS && |was| == CHARSET_CHARS && k < CHARSET_CHARS
    requires settled == Settled(p, cb[32 * k..32 * k + 32])
    ensures Flags(p, cb, was, CHARSET_CHARS)[k] <==> exists i :: 0 <= i < 32 && settled[i] > p.luma[3]
  {
    HighZero(p, settled, 32);
  }

  // ----- the patterns

  function Ones(row: string): nat {
    if row == "" then 0 else Ones(row[..|row| - 1]) + if row[|row| - 1] == '1' then 1 else 0
  }

  function Dots(rows: seq<string>): nat {
    if rows == [] then 0 else Dots(rows[..|rows| - 1]) + Ones(rows[|rows| - 1])
  }

  lemma OnesLast(row: string, c: char)
    ensures Ones(row + [c]) == Ones(row) + if c == '1' then 1 else 0
  {
    Slices.Front(row, [c]);
  }

  lemma OnesOfFour(a: char, b: char, c: char, d: char)
    ensures Ones([a, b, c, d])
      == (if a == '1' then 1 else 0) + (if b == '1' then 1 else 0) + (if c == '1' then 1 else 0) + if d == '1' then 1 else 0
  {
    OnesLast([], a);
    OnesLast([a], b);
    OnesLast([a, b], c);
    OnesLast([a, b, c], d);
    assert [] + [a] == [a] && [a] + [b] == [a, b] && [a, b] + [c] == [a, b, c] && [a, b, c] + [d] == [a, b, c, d];
  }

  lemma DotsLast(rows: seq<string>, row: string)
    ensures Dots(rows + [row]) == Dots(rows) + Ones(row)
  {
    Slices.Front(rows, [row]);
  }

  lemma DotsOfFour(rows: seq<string>, a: string, b: string, c: string, d: string)
    ensures Dots(rows + [a, b, c, d]) == Dots(rows) + Ones(a) + Ones(b) + Ones(c) + Ones(d)
  {
    DotsLast(rows, a);
    DotsLast(rows + [a], b);
    DotsLast(rows + [a] + [b], c);
    DotsLast(rows + [a] + [b] + [c], d);
    assert rows + [a] + [b] + [c] + [d] == rows + [a, b, c, d];
  }

  lemma DotsOfEight(a: string, b: string, c: string, d: string, e: string, f: string, g: string, h: string)
    ensures Dots([a, b, c, d, e, f, g, h]) == Ones(a) + Ones(b) + Ones(c) + Ones(d) + Ones(e) + Ones(f) + Ones(g) + Ones(h)
  {
    DotsOfFour([], a, b, c, d);
    Slices.Nothing([a, b, c, d]);
    DotsOfFour([a, b, c, d], e, f, g, h);
    assert [a, b, c, d] + [e, f, g, h] == [a, b, c, d, e, f, g, h];
  }

  lemma RowsOnes()
    ensures Ones("0000") == 0 && Ones("1010") == 2 && Ones("0101") == 2 && Ones("1111") == 4
  {
    OnesOfFour('0', '0', '0', '0');
    OnesOfFour('1', '0', '1', '0');
    OnesOfFour('0', '1', '0', '1');
    OnesOfFour('1', '1', '1', '1');
  }

  /** Each step has four dots more in a tile of four by four pixels and two fields: brightness rises evenly. */
  lemma PatternDots(d: nat)
    requires d <= DITHERSTEPS
    ensures |PatternRows()| == 9 && Dots(PatternRows()[d]) == 4 * d
  {
    RowsOnes();
    var r := PatternRows()[d];
    assert |r| == 8;
    assert r == [r[0], r[1], r[2], r[3], r[4], r[5], r[6], r[7]];
    DotsOfEight(r[0], r[1], r[2], r[3], r[4], r[5], r[6], r[7]);
  }
}
