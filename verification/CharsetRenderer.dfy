/** render_charset in place: lookup tables, 256 characters, at most one redo of each. */
module CharsetRenderer {
  import opened Charset

  class Tables {
    const palette: Palette
    const index1: array<int>
    const index2: array<int>
    const dither: array<int>

    ghost predicate Shaped() {
      && ValidPalette(palette) && index1 != index2 && index1 != dither && index2 != dither
      && index1.Length == index2.Length == dither.Length == 256
    }

    ghost predicate Built()
      reads index1, index2, dither
    {
      && Shaped()
      && (forall a :: 0 <= a < 256 ==> index1[a] == Entry(palette, a))
      && (forall a :: 0 <= a < 256 ==> index2[a] == Brighter(palette, a))
      && (forall a :: 0 <= a < 256 ==> dither[a] == Dither(palette, a))
    }

    constructor (palette: Palette)
      requires ValidPalette(palette)
      ensures Shaped() && this.palette == palette && fresh(index1) && fresh(index2) && fresh(dither)
      ensures forall a :: 0 <= a < 256 ==> dither[a] == 0
    {
      this.palette := palette;
      index1 := new int[256](_ => 0);
      index2 := new int[256](_ => 0);
      dither := new int[256](_ => 0);
    }

    /** The steps from one palette entry to the next. */
    method Ramp(i: nat)
      requires Shaped() && i < Last(palette)
      modifies dither
      ensures forall a :: 0 <= a < 256 && !(palette.luma[i] <= a <= palette.luma[i + 1]) ==> dither[a] == old(dither[a])
      ensures forall a :: palette.luma[i] <= a < palette.luma[i + 1] ==> dither[a] == Dither(palette, a)
    {
      var from, to := palette.luma[i], palette.luma[i + 1];
      var distance := to - from;
      var b := 0;
      while b <= distance
        invariant 0 <= b <= distance + 1
        invariant forall a :: 0 <= a < 256 && !(from <= a <= to) ==> dither[a] == old(dither[a])
        invariant forall a :: from <= a < from + b && a < to ==> dither[a] == Dither(palette, a)
      {
        if b < distance {
          EntryBrackets(palette, from + b, i);
        }
        dither[from + b] := b * (DITHERSTEPS - 1) / distance;
        b := b + 1;
      }
    }

    method Store(a: nat, i: nat)
      requires Shaped() && a < 256 && i == Entry(palette, a)
      modifies index1, index2
      ensures index1[a] == Entry(palette, a) && index2[a] == Brighter(palette, a)
      ensures forall k :: 0 <= k < 256 && k != a ==> index1[k] == old(index1[k]) && index2[k] == old(index2[k])
    {
      index1[a] := i;
      index2[a] := if i + 1 < Last(palette) then i + 1 else Last(palette);
    }

    method Build()
      requires Shaped() && forall a :: 0 <= a < palette.luma[0] ==> dither[a] == 0
      modifies index1, index2, dither
      ensures Built()
    {
      var i: nat, a := 0, 0;
      ghost var ready := palette.luma[0];
      while a < 256
        invariant 0 <= a <= 256 && i <= Last(palette)
        invariant i == 0 || palette.luma[i] < a
        invariant i == Last(palette) || a <= palette.luma[i + 1]
        invariant forall k :: 0 <= k < a ==> index1[k] == Entry(palette, k) && index2[k] == Brighter(palette, k)
        invariant ready == if i == Last(palette) then a else palette.luma[i]
        invariant forall k :: 0 <= k < ready ==> dither[k] == Dither(palette, k)
      {
        i, ready := FillFrom(a, i, ready);
        a := a + 1;
      }
    }

    /** The entries of brightness a, moving on to the next palette entry where it begins. */
    method FillFrom(a: nat, i: nat, ghost ready: int) returns (i': nat, ghost ready': int)
      requires Shaped() && a < 256 && i <= Last(palette)
      requires (i == 0 || palette.luma[i] < a) && (i == Last(palette) || a <= palette.luma[i + 1])
      requires ready == (if i == Last(palette) then a else palette.luma[i])
      requires forall k :: 0 <= k < ready ==> dither[k] == Dither(palette, k)
      modifies index1, index2, dither
      ensures i' <= Last(palette) && (i' == 0 || palette.luma[i'] <= a) && (i' == Last(palette) || a < palette.luma[i' + 1])
      ensures index1[a] == Entry(palette, a) && index2[a] == Brighter(palette, a)
      ensures forall k :: 0 <= k < 256 && k != a ==> index1[k] == old(index1[k]) && index2[k] == old(index2[k])
      ensures ready' == if i' == Last(palette) then a + 1 else palette.luma[i']
      ensures forall k :: 0 <= k < ready' ==> dither[k] == Dither(palette, k)
    {
      i', ready' := NextEntry(a, i, ready);
      EntryBrackets(palette, a, i');
      if i' >= Last(palette) {
        dither[a] := 0;
        ready' := a + 1;
      }
      Store(a, i');
    }

    /** Where a palette entry begins, the steps up to it are filled in. */
    method NextEntry(a: nat, i: nat, ghost ready: int) returns (i': nat, ghost ready': int)
      requires Shaped() && a < 256 && i <= Last(palette)
      requires (i == 0 || palette.luma[i] < a) && (i == Last(palette) || a <= palette.luma[i + 1])
      requires ready == (if i == Last(palette) then a else palette.luma[i])
      requires forall k :: 0 <= k < ready ==> dither[k] == Dither(palette, k)
      modifies dither
      ensures i' <= Last(palette) && (i' == 0 || palette.luma[i'] <= a) && (i' == Last(palette) || a < palette.luma[i' + 1])
      ensures ready' == if i' == Last(palette) then a else palette.luma[i']
      ensures forall k :: 0 <= k < ready' ==> dither[k] == Dither(palette, k)
    {
      i', ready' := i, ready;
      if i < Last(palette) && a == palette.luma[i + 1] {
        Ramp(i);
        i' := i + 1;
        ready' := palette.luma[i'];
      }
    }
  }

  const CHARSET_CHARS := 256

  /** The k-th character of a codebook. */
  function CharAt(cb: seq<int>, k: nat): (ch: Char)
    requires |cb| == 32 * CHARSET_CHARS && k < CHARSET_CHARS
    ensures |ch| == 32
  {
    cb[32 * k..32 * k + 32]
  }

  /** The bytes of a character's rows in both fields. */
  datatype Glyph = Glyph(first: seq<nat>, second: seq<nat>)

  predicate ValidGlyph(g: Glyph) {
    |g.first| == |g.second| == 8
  }

  function GlyphOf(p: Palette, ch: Char): (g: Glyph)
    requires ValidPalette(p) && |ch| == 32
    ensures ValidGlyph(g)
    ensures forall y :: 0 <= y < 8 ==> g.first[y] == RowByte(p, ch, y, 0)
    ensures forall y :: 0 <= y < 8 ==> g.second[y] == RowByte(p, ch, y, 1)
  {
    Glyph(seq(8, y requires 0 <= y < 8 => RowByte(p, ch, y, 0)), seq(8, y requires 0 <= y < 8 => RowByte(p, ch, y, 1)))
  }

  /** Byte i of one character's rows in both fields, if it is among the first rows, otherwise what was there. */
  function ByteOf(was: int, g: Glyph, k: nat, rows: nat, i: nat): int
    requires ValidGlyph(g) && k < CHARSET_CHARS && rows <= 8 && i < 0x1000
  {
    if 8 * k <= i < 8 * k + rows then g.first[i - 8 * k]
    else if 0x800 + 8 * k <= i < 0x800 + 8 * k + rows then g.second[i - 0x800 - 8 * k]
    else was
  }

  lemma ByteAt(was: int, g: Glyph, k: nat, rows: nat, y: nat, i: nat, j: nat)
    requires ValidGlyph(g) && k < CHARSET_CHARS && rows <= 8 && y < 8
    requires i == 8 * k + y && j == 0x800 + 8 * k + y
    ensures ByteOf(was, g, k, rows, i) == if y < rows then g.first[y] else was
    ensures ByteOf(was, g, k, rows, j) == if y < rows then g.second[y] else was
  {
    assert i - 8 * k == y && j - 0x800 - 8 * k == y;
  }

  lemma ByteElsewhere(was: int, g: Glyph, k: nat, y: nat, y1: nat, i: nat)
    requires ValidGlyph(g) && k < CHARSET_CHARS && y < 8 && y1 == y + 1 && i < 0x1000
    requires i != 8 * k + y && i != 0x800 + 8 * k + y
    ensures ByteOf(was, g, k, y1, i) == ByteOf(was, g, k, y, i)
  {
  }

  lemma ByteOfOther(was: int, g: Glyph, k: nat, rows: nat, other: nat, y: nat, i: nat, j: nat)
    requires ValidGlyph(g) && k < CHARSET_CHARS && rows <= 8 && y < 8
    requires other < k && i == 8 * other + y && j == 0x800 + 8 * other + y
    ensures ByteOf(was, g, k, rows, i) == was && ByteOf(was, g, k, rows, j) == was
  {
  }

  /** The charset once the first rows of the k-th character are drawn, each in both fields. */
  function WithRows(cs: seq<int>, g: Glyph, k: nat, rows: nat): (r: seq<int>)
    requires ValidGlyph(g) && |cs| == 0x1000 && k < CHARSET_CHARS && rows <= 8
    ensures |r| == 0x1000
  {
    seq(0x1000, i requires 0 <= i < 0x1000 => ByteOf(cs[i], g, k, rows, i))
  }

  lemma NoRows(cs: seq<int>, g: Glyph, k: nat)
    requires ValidGlyph(g) && |cs| == 0x1000 && k < CHARSET_CHARS
    ensures WithRows(cs, g, k, 0) == cs
  {
  }

  lemma OneMoreRow(cs: seq<int>, g: Glyph, k: nat, y: nat, y1: nat)
    requires ValidGlyph(g) && |cs| == 0x1000 && k < CHARSET_CHARS && y < 8 && y1 == y + 1
    ensures WithRows(cs, g, k, y1) == WithRow(WithRows(cs, g, k, y), g, k, y)
  {
    var a, b := WithRows(cs, g, k, y1), WithRow(WithRows(cs, g, k, y), g, k, y);
    var at1, at2 := 8 * k + y, 0x800 + 8 * k + y;
    ByteAt(cs[at1], g, k, y1, y, at1, at2);
    ByteAt(cs[at2], g, k, y1, y, at1, at2);
    forall i | 0 <= i < 0x1000 && i != at1 && i != at2
      ensures a[i] == b[i]
    {
      ByteElsewhere(cs[i], g, k, y, y1, i);
    }
  }

  function WithRow(cs: seq<int>, g: Glyph, k: nat, y: nat): (r: seq<int>)
    requires ValidGlyph(g) && |cs| == 0x1000 && k < CHARSET_CHARS && y < 8
    ensures |r| == 0x1000
  {
    cs[8 * k + y := g.first[y]][0x800 + 8 * k + y := g.second[y]]
  }

  /** The codebook with another k-th character. */
  function SetChar(cb: seq<int>, k: nat, ch: Char): (r: seq<int>)
    requires |cb| == 32 * CHARSET_CHARS && k < CHARSET_CHARS && |ch| == 32
    ensures |r| == |cb|
  {
    cb[..32 * k] + ch + cb[32 * k + 32..]
  }

  lemma SetCharAt(cb: seq<int>, k: nat, ch: Char, j: nat)
    requires |cb| == 32 * CHARSET_CHARS && k < CHARSET_CHARS && |ch| == 32 && j < CHARSET_CHARS
    ensures CharAt(SetChar(cb, k, ch), j) == if j == k then ch else CharAt(cb, j)
  {
  }

  /** The charset after the first n characters, each as it is settled. */
  function Drawing(p: Palette, cs: seq<int>, cb: seq<int>, n: nat): (r: seq<int>)
    requires ValidPalette(p) && |cs| == 0x1000 && |cb| == 32 * CHARSET_CHARS && n <= CHARSET_CHARS
    ensures |r| == 0x1000
    decreases n, 0
  {
    if n == 0 then cs else DrawnOver(p, cs, cb, n - 1)
  }

  function DrawnOver(p: Palette, cs: seq<int>, cb: seq<int>, k: nat): (r: seq<int>)
    requires ValidPalette(p) && |cs| == 0x1000 && |cb| == 32 * CHARSET_CHARS && k < CHARSET_CHARS
    ensures |r| == 0x1000
    decreases k, 1
  {
    WithRows(Drawing(p, cs, cb, k), GlyphOf(p, Settled(p, CharAt(cb, k))), k, 8)
  }

  /** Drawing a character again replaces the first drawing. */
  lemma Redrawn(cs: seq<int>, a: Glyph, b: Glyph, k: nat)
    requires ValidGlyph(a) && ValidGlyph(b) && |cs| == 0x1000 && k < CHARSET_CHARS
    ensures WithRows(WithRows(cs, a, k, 8), b, k, 8) == WithRows(cs, b, k, 8)
  {
    var once := WithRows(cs, b, k, 8);
    var twice := WithRows(WithRows(cs, a, k, 8), b, k, 8);
    forall i | 0 <= i < 0x1000
      ensures once[i] == twice[i]
    {
      assert once[i] == ByteOf(cs[i], b, k, 8, i);
      assert twice[i] == ByteOf(ByteOf(cs[i], a, k, 8, i), b, k, 8, i);
    }
  }

  /** Each character's rows are those of the settled character, whatever is drawn after it. */
  lemma {:induction false} DrawingAt(p: Palette, cs: seq<int>, cb: seq<int>, n: nat, k: nat, g: Glyph, y: nat, i: nat, j: nat)
    requires ValidPalette(p) && |cs| == 0x1000 && |cb| == 32 * CHARSET_CHARS && k < n <= CHARSET_CHARS && y < 8
    requires g == GlyphOf(p, Settled(p, CharAt(cb, k))) && i == 8 * k + y && j == 0x800 + 8 * k + y
    ensures Drawing(p, cs, cb, n)[i] == g.first[y] && Drawing(p, cs, cb, n)[j] == g.second[y]
  {
    var m := n - 1;
    var before, h := Drawing(p, cs, cb, m), GlyphOf(p, Settled(p, CharAt(cb, m)));
    DrawingStep(p, cs, cb, m, n);
    if k < m {
      DrawingAt(p, cs, cb, m, k, g, y, i, j);
      ByteOfOther(before[i], h, m, 8, k, y, i, j);
      ByteOfOther(before[j], h, m, 8, k, y, i, j);
    } else {
      assert h == g && m == k;
      ByteAt(before[i], g, k, 8, y, i, j);
      ByteAt(before[j], g, k, 8, y, i, j);
    }
  }

  lemma DrawingStep(p: Palette, cs: seq<int>, cb: seq<int>, m: nat, n: nat)
    requires ValidPalette(p) && |cs| == 0x1000 && |cb| == 32 * CHARSET_CHARS && m + 1 == n <= CHARSET_CHARS
    ensures Drawing(p, cs, cb, n) == WithRows(Drawing(p, cs, cb, m), GlyphOf(p, Settled(p, CharAt(cb, m))), m, 8)
  {
    assert Drawing(p, cs, cb, n) == DrawnOver(p, cs, cb, m);
  }

  lemma ByteDrawn(p: Palette, cs: seq<int>, cb: seq<int>, k: nat, y: nat, field: nat, at: nat)
    requires ValidPalette(p) && |cs| == 0x1000 && |cb| == 32 * CHARSET_CHARS && k < CHARSET_CHARS
    requires y < 8 && field < 2 && at == 0x800 * field + 8 * k + y
    ensures Drawing(p, cs, cb, CHARSET_CHARS)[at] == RowByte(p, Settled(p, CharAt(cb, k)), y, field)
  {
    var g := GlyphOf(p, Settled(p, CharAt(cb, k)));
    if field == 0 {
      DrawingAt(p, cs, cb, CHARSET_CHARS, k, g, y, at, at + 0x800);
    } else {
      DrawingAt(p, cs, cb, CHARSET_CHARS, k, g, y, at - 0x800, at);
    }
  }

  /** From a byte of the finished charset and the character's flag every pixel's palette entry can be recovered. */
  lemma CharsetRecovered(p: Palette, cs: seq<int>, cb: seq<int>, k: nat, y: nat, x: nat, field: nat, at: nat)
    returns (byte: nat)
    requires ValidPalette(p) && |cs| == 0x1000 && |cb| == 32 * CHARSET_CHARS && k < CHARSET_CHARS
    requires y < 8 && x < 4 && field < 2 && at == 0x800 * field + 8 * k + y
    ensures byte == Drawing(p, cs, cb, CHARSET_CHARS)[at]
    ensures var s := Settled(p, CharAt(cb, k));
      Shown(p, CodeAt(byte, 3 - x), Flag(p, cb, k)) == Drawn(p, s[4 * y + x], y, x, field)
  {
    byte := RowByte(p, Settled(p, CharAt(cb, k)), y, field);
    ByteDrawn(p, cs, cb, k, y, field, at);
    PixelRecovered(p, CharAt(cb, k), y, x, field);
  }

  predicate Bytes(s: seq<int>) {
    forall i :: 0 <= i < |s| ==> 0 <= s[i] < 256
  }

  lemma SetCharValid(cb: seq<int>, k: nat, ch: Char)
    requires |cb| == 32 * CHARSET_CHARS && k < CHARSET_CHARS && Bytes(cb) && ValidChar(ch)
    ensures Bytes(SetChar(cb, k, ch))
  {
  }

  lemma CharValid(cb: seq<int>, k: nat)
    requires |cb| == 32 * CHARSET_CHARS && k < CHARSET_CHARS && Bytes(cb)
    ensures ValidChar(CharAt(cb, k))
  {
  }

  /** Character k while the one at charpos is worked on, for the second time if redone. */
  function Reached(p: Palette, cb: seq<int>, k: nat, charpos: nat, redone: bool): (ch: Char)
    requires ValidPalette(p) && |cb| == 32 * CHARSET_CHARS && k < CHARSET_CHARS
    ensures |ch| == 32
  {
    if k < charpos then Settled(p, CharAt(cb, k))
    else if k == charpos && redone then Adjusted(p, CharAt(cb, k))
    else CharAt(cb, k)
  }

  function Chars(cb: seq<int>): (r: seq<Char>)
    requires |cb| == 32 * CHARSET_CHARS
    ensures |r| == CHARSET_CHARS
  {
    seq(CHARSET_CHARS, k requires 0 <= k < CHARSET_CHARS => CharAt(cb, k))
  }

  function AllReached(p: Palette, cb: seq<int>, charpos: nat, redone: bool): (r: seq<Char>)
    requires ValidPalette(p) && |cb| == 32 * CHARSET_CHARS
    ensures |r| == CHARSET_CHARS
  {
    seq(CHARSET_CHARS, k requires 0 <= k < CHARSET_CHARS => Reached(p, cb, k, charpos, redone))
  }

  lemma NothingReached(p: Palette, cb: seq<int>)
    requires ValidPalette(p) && |cb| == 32 * CHARSET_CHARS
    ensures AllReached(p, cb, 0, false) == Chars(cb)
  {
  }

  /** Adjusting the character at charpos in the codebook. */
  lemma ReachedRedo(p: Palette, cb: seq<int>, was: seq<int>, charpos: nat, ch: Char)
    requires ValidPalette(p) && |cb| == |was| == 32 * CHARSET_CHARS && charpos < CHARSET_CHARS && |ch| == 32
    requires Chars(was) == AllReached(p, cb, charpos, false) && ch == Adjusted(p, CharAt(cb, charpos))
    ensures Chars(SetChar(was, charpos, ch)) == AllReached(p, cb, charpos, true)
  {
    forall k | 0 <= k < CHARSET_CHARS
      ensures Chars(SetChar(was, charpos, ch))[k] == AllReached(p, cb, charpos, true)[k]
    {
      SetCharAt(was, charpos, ch, k);
      assert Chars(was)[k] == AllReached(p, cb, charpos, false)[k];
    }
  }

  lemma ReachedNext(p: Palette, cb: seq<int>, charpos: nat, redone: bool, next: nat)
    requires ValidPalette(p) && |cb| == 32 * CHARSET_CHARS && charpos + 1 == next <= CHARSET_CHARS
    requires redone == Clashes(p, CharAt(cb, charpos))
    ensures AllReached(p, cb, charpos, redone) == AllReached(p, cb, next, false)
  {
    forall k | 0 <= k < CHARSET_CHARS
      ensures AllReached(p, cb, charpos, redone)[k] == AllReached(p, cb, next, false)[k]
    {
    }
  }

  /** Does the character use the bright end? */
  function Flag(p: Palette, cb: seq<int>, k: nat): bool
    requires ValidPalette(p) && |cb| == 32 * CHARSET_CHARS && k < CHARSET_CHARS
  {
    High(p, Settled(p, CharAt(cb, k)), 32) > 0
  }

  /** The flags once the first n characters are done. */
  function Flags(p: Palette, cb: seq<int>, was: seq<bool>, n: nat): (r: seq<bool>)
    requires ValidPalette(p) && |cb| == 32 * CHARSET_CHARS && |was| == CHARSET_CHARS
    ensures |r| == CHARSET_CHARS
  {
    seq(CHARSET_CHARS, k requires 0 <= k < CHARSET_CHARS => if k < n then Flag(p, cb, k) else was[k])
  }

  lemma NoFlags(p: Palette, cb: seq<int>, was: seq<bool>)
    requires ValidPalette(p) && |cb| == 32 * CHARSET_CHARS && |was| == CHARSET_CHARS
    ensures Flags(p, cb, was, 0) == was
  {
  }

  lemma NextFlag(p: Palette, cb: seq<int>, was: seq<bool>, k: nat, next: nat)
    requires ValidPalette(p) && |cb| == 32 * CHARSET_CHARS && |was| == CHARSET_CHARS && k + 1 == next <= CHARSET_CHARS
    ensures Flags(p, cb, was, k)[k := Flag(p, cb, k)] == Flags(p, cb, was, next)
  {
  }

  /** The charset at that point: a character being redone has been drawn as it was. */
  function Partly(p: Palette, cs: seq<int>, cb: seq<int>, charpos: nat, redone: bool): (r: seq<int>)
    requires ValidPalette(p) && |cs| == 0x1000 && |cb| == 32 * CHARSET_CHARS && charpos <= CHARSET_CHARS
    requires redone ==> charpos < CHARSET_CHARS
    ensures |r| == 0x1000
  {
    if redone then WithRows(Drawing(p, cs, cb, charpos), GlyphOf(p, CharAt(cb, charpos)), charpos, 8)
    else Drawing(p, cs, cb, charpos)
  }

  /** Drawing the settled character leads on, whether or not the character was drawn before. */
  lemma Finished(p: Palette, cs: seq<int>, cb: seq<int>, charpos: nat, next: nat, redone: bool)
    requires ValidPalette(p) && |cs| == 0x1000 && |cb| == 32 * CHARSET_CHARS && charpos + 1 == next <= CHARSET_CHARS
    ensures WithRows(Partly(p, cs, cb, charpos, redone), GlyphOf(p, Settled(p, CharAt(cb, charpos))), charpos, 8)
            == Drawing(p, cs, cb, next)
  {
    DrawingStep(p, cs, cb, charpos, next);
    if redone {
      Redrawn(Drawing(p, cs, cb, charpos), GlyphOf(p, CharAt(cb, charpos)), GlyphOf(p, Settled(p, CharAt(cb, charpos))),
              charpos);
    }
  }

  lemma SettledValid(p: Palette, ch: Char)
    requires ValidPalette(p) && ValidChar(ch)
    ensures ValidChar(Adjusted(p, ch)) && ValidChar(Settled(p, ch))
  {
  }

  class Renderer {
    const tables: Tables
    const palette: Palette
    const bestCb: array<int>
    const charset: array<int>
    const colram: array<bool>

    ghost predicate Shaped() {
      && tables.Shaped() && tables.palette == palette
      && bestCb.Length == 32 * CHARSET_CHARS && charset.Length == 0x1000 && colram.Length == CHARSET_CHARS
      && bestCb !in {tables.index1, tables.index2, tables.dither}
      && charset !in {tables.index1, tables.index2, tables.dither, bestCb}
    }

    ghost predicate Valid()
      reads tables.index1, tables.index2, tables.dither, bestCb
    {
      Shaped() && tables.Built() && Bytes(bestCb[..])
    }

    constructor (tables: Tables, bestCb: array<int>)
      requires tables.Shaped() && bestCb.Length == 32 * CHARSET_CHARS
      requires bestCb !in {tables.index1, tables.index2, tables.dither}
      ensures Shaped() && this.tables == tables && this.bestCb == bestCb && fresh(charset) && fresh(colram)
    {
      this.tables, this.bestCb, palette := tables, bestCb, tables.palette;
      charset := new int[0x1000](_ => 0);
      colram := new bool[CHARSET_CHARS](_ => false);
    }

    /** The codes of one pixel in both fields; adds what is too dark and too bright. */
    method DrawPixel(pix: int, y: nat, x: nat, low: int, high: int, ghost ch: Char)
      returns (code1: nat, code2: nat, low': int, high': int)
      requires Valid() && y < 8 && x < 4 && ValidChar(ch) && pix == ch[4 * y + x]
      ensures code1 == Pens(palette, ch, y, 0)[x] < 4 && code2 == Pens(palette, ch, y, 1)[x] < 4
      ensures low' == low + Dark(palette, pix) && high' == high + Bright(palette, pix)
    {
      low', high' := low, high;
      var first, second := tables.index1[pix], tables.index2[pix];
      EntryEnds(palette, pix);
      if first >= 3 {
        high' := high' + pix - palette.luma[3];
      }
      if first < 1 {
        low' := low' + palette.luma[1] - pix;
      }
      DitherRange(palette, pix);
      var pattern := palette.patterns[tables.dither[pix]];
      code1 := Code(if pattern[y % 4 * 2 + 0][x] then second else first);
      code2 := Code(if pattern[y % 4 * 2 + 1][x] then second else first);
      assert code1 == Pen(palette, ch, y, x, 0) && code2 == Pen(palette, ch, y, x, 1);
    }

    /** One pixel appended to both fields of its row. */
    method AddPixel(pix: int, y: nat, x: nat, row1: nat, row2: nat, low: int, high: int, ghost ch: Char, ghost i: nat,
                    ghost pens1: seq<nat>, ghost pens2: seq<nat>, ghost x1: nat, ghost i1: nat)
      returns (row1': nat, row2': nat, low': int, high': int)
      requires Valid() && y < 8 && x < 4 && ValidChar(ch) && i == 4 * y + x && pix == ch[i]
      requires x1 == x + 1 && i1 == i + 1
      requires pens1 == Pens(palette, ch, y, 0) && pens2 == Pens(palette, ch, y, 1)
      requires row1 == Packed(pens1[..x]) && row2 == Packed(pens2[..x])
      requires low == Low(palette, ch, i) && high == High(palette, ch, i)
      ensures row1' == Packed(pens1[..x1]) && row2' == Packed(pens2[..x1])
      ensures low' == Low(palette, ch, i1) && high' == High(palette, ch, i1)
    {
      ShiftStep(pens1, x, x1);
      ShiftStep(pens2, x, x1);
      EndsStep(palette, ch, i, i1);
      var code1, code2;
      code1, code2, low', high' := DrawPixel(pix, y, x, low, high, ch);
      row1', row2' := Shifted(row1, code1), Shifted(row2, code2);
    }

    lemma Whole(codes: seq<nat>)
      ensures codes[..0] == [] && codes[..|codes|] == codes
    {
    }

    /** One row of a character in both fields, from pixel n to pixel m. */
    method DrawRow(k: nat, y: nat, low: int, high: int, ghost ch: Char, ghost n: nat, ghost m: nat)
      returns (row1: nat, row2: nat, low': int, high': int)
      requires Valid() && k < CHARSET_CHARS && y < 8 && ValidChar(ch) && n == 4 * y && m == n + 4
      requires forall i :: 0 <= i < 32 ==> bestCb[32 * k + i] == ch[i]
      requires low == Low(palette, ch, n) && high == High(palette, ch, n)
      ensures row1 == RowByte(palette, ch, y, 0) && row2 == RowByte(palette, ch, y, 1)
      ensures low' == Low(palette, ch, m) && high' == High(palette, ch, m)
    {
      row1, row2, low', high' := 0, 0, low, high;
      ghost var pens1, pens2 := Pens(palette, ch, y, 0), Pens(palette, ch, y, 1);
      Whole(pens1);
      Whole(pens2);
      ghost var i := n;
      var x: nat := 0;
      while x < 4
        invariant x <= 4 && i == n + x
        invariant row1 == Packed(pens1[..x]) && row2 == Packed(pens2[..x])
        invariant low' == Low(palette, ch, i) && high' == High(palette, ch, i)
      {
        var pix := bestCb[32 * k + (4 * y + x)];
        assert ch[i] == pix;
        ghost var x1, i1 := x + 1, i + 1;
        row1, row2, low', high' := AddPixel(pix, y, x, row1, row2, low', high', ch, i, pens1, pens2, x1, i1);
        x, i := x + 1, i1;
      }
    }

    /** Draw a character; how much of it is too dark for the bright palette and too bright for the dark one. */
    method DrawChar(k: nat, ghost ch: Char) returns (low: int, high: int)
      requires Valid() && k < CHARSET_CHARS && ValidChar(ch)
      requires forall i :: 0 <= i < 32 ==> bestCb[32 * k + i] == ch[i]
      modifies charset
      ensures low == Low(palette, ch, 32) && high == High(palette, ch, 32)
      ensures charset[..] == WithRows(old(charset[..]), GlyphOf(palette, ch), k, 8)
    {
      ghost var g := GlyphOf(palette, ch);
      low, high := 0, 0;
      var y: nat := 0;
      ghost var n: nat := 0;
      NoRows(charset[..], g, k);
      while y < 8
        invariant y <= 8 && n == 4 * y
        invariant low == Low(palette, ch, n) && high == High(palette, ch, n)
        invariant charset[..] == WithRows(old(charset[..]), g, k, y)
      {
        var row1, row2;
        ghost var m, y1 := n + 4, y + 1;
        row1, row2, low, high := DrawRow(k, y, low, high, ch, n, m);
        StoreRow(k, y, row1, row2, g);
        OneMoreRow(old(charset[..]), g, k, y, y1);
        y, n := y + 1, m;
      }
    }

    method StoreRow(k: nat, y: nat, row1: nat, row2: nat, ghost g: Glyph)
      requires Shaped() && k < CHARSET_CHARS && y < 8 && ValidGlyph(g) && row1 == g.first[y] && row2 == g.second[y]
      modifies charset
      ensures charset[..] == WithRow(old(charset[..]), g, k, y)
    {
      charset[8 * k + y] := row1;
      charset[0x800 + 8 * k + y] := row2;
    }

    /** Cut a character at the bright or at the dark end. */
    method Adjust(k: nat, bright: bool)
      requires Shaped() && k < CHARSET_CHARS
      modifies bestCb
      ensures bestCb[..] == SetChar(old(bestCb[..]), k, Cut(palette, CharAt(old(bestCb[..]), k), bright))
    {
      var x := 0;
      while x < 32
        invariant 0 <= x <= 32
        invariant forall i :: 0 <= i < bestCb.Length && !(32 * k <= i < 32 * k + x) ==> bestCb[i] == old(bestCb[i])
        invariant forall i :: 32 * k <= i < 32 * k + x ==> bestCb[i] == Clamped(palette, bright, old(bestCb[i]))
      {
        bestCb[32 * k + x] := Clamped(palette, bright, bestCb[32 * k + x]);
        x := x + 1;
      }
    }

    /** Draw a character; if it clashes, adjust it and ask for another go, otherwise remember its flag. */
    method RenderChar(k: nat, ghost ch: Char) returns (redo: bool)
      requires Valid() && k < CHARSET_CHARS && ValidChar(ch) && ch == CharAt(bestCb[..], k)
      modifies charset, bestCb, colram
      ensures Valid() && redo == Clashes(palette, ch)
      ensures charset[..] == WithRows(old(charset[..]), GlyphOf(palette, ch), k, 8)
      ensures bestCb[..] == if redo then SetChar(old(bestCb[..]), k, Adjusted(palette, ch)) else old(bestCb[..])
      ensures colram[..] == if redo then old(colram[..]) else old(colram[..])[k := High(palette, ch, 32) > 0]
    {
      SliceAt(k);
      var low, high := DrawChar(k, ch);
      redo := high > 0 && low > 0 && palette.five;
      if redo {
        assert CharAt(bestCb[..], k) == ch;
        Adjust(k, low > high);
        SettledValid(palette, ch);
        SetCharValid(old(bestCb[..]), k, Adjusted(palette, ch));
      } else {
        colram[k] := high > 0;
      }
    }

    lemma SliceAt(k: nat)
      requires Shaped() && k < CHARSET_CHARS
      ensures forall i :: 0 <= i < 32 ==> bestCb[32 * k + i] == CharAt(bestCb[..], k)[i]
    {
    }

    /** What has been rendered when the character at charpos is next, for the second time if redone. */
    ghost predicate Rendered(charpos: nat, redone: bool, cb: seq<int>, cs: seq<int>, flags: seq<bool>)
      reads tables.index1, tables.index2, tables.dither, bestCb, charset, colram
    {
      && Valid() && charpos <= CHARSET_CHARS && |cb| == 32 * CHARSET_CHARS && |cs| == 0x1000 && |flags| == CHARSET_CHARS
      && (redone ==> charpos < CHARSET_CHARS && Clashes(palette, CharAt(cb, charpos)))
      && Chars(bestCb[..]) == AllReached(palette, cb, charpos, redone)
      && charset[..] == Partly(palette, cs, cb, charpos, redone)
      && colram[..] == Flags(palette, cb, flags, charpos)
    }

    /** Render the character at charpos, and say whether it has to be done again. */
    method Advance(charpos: nat, ghost redone: bool, ghost cb: seq<int>, ghost cs: seq<int>, ghost flags: seq<bool>)
      returns (redo: bool)
      requires charpos < CHARSET_CHARS && Rendered(charpos, redone, cb, cs, flags)
      modifies charset, bestCb, colram
      ensures redo == (!redone && Clashes(palette, CharAt(cb, charpos)))
      ensures Rendered(if redo then charpos else charpos + 1, redo, cb, cs, flags)
    {
      ghost var ch, was, next := CharAt(bestCb[..], charpos), bestCb[..], charpos + 1;
      CharValid(was, charpos);
      assert ch == Chars(was)[charpos] == Reached(palette, cb, charpos, charpos, redone);
      OneRedo(palette, CharAt(cb, charpos));
      redo := RenderChar(charpos, ch);
      if redo {
        ReachedRedo(palette, cb, was, charpos, Adjusted(palette, ch));
      } else {
        ReachedNext(palette, cb, charpos, redone, next);
        Finished(palette, cs, cb, charpos, next, redone);
        NextFlag(palette, cb, flags, charpos, next);
      }
    }

    /** All characters; a character that clashes is adjusted and drawn once more. */
    method RenderCharset()
      requires Valid()
      modifies charset, bestCb, colram
      ensures Valid()
      ensures Chars(bestCb[..]) == AllReached(palette, old(bestCb[..]), CHARSET_CHARS, false)
      ensures charset[..] == Drawing(palette, old(charset[..]), old(bestCb[..]), CHARSET_CHARS)
      ensures colram[..] == Flags(palette, old(bestCb[..]), old(colram[..]), CHARSET_CHARS)
    {
      ghost var cb, cs, flags := bestCb[..], charset[..], colram[..];
      NoFlags(palette, cb, flags);
      var charpos: nat := 0;
      var redone := false;
      NothingReached(palette, cb);
      while charpos < CHARSET_CHARS
        invariant Rendered(charpos, redone, cb, cs, flags)
        decreases CHARSET_CHARS - charpos, if redone then 0 else 1
      {
        redone := Advance(charpos, redone, cb, cs, flags);
        if !redone {
          charpos := charpos + 1;
        }
      }
    }
  }
}
