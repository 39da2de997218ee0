/** Blocks tile, copies stay inside the last frame, and each pixel is decided by the one leaf over it. */
module PBlockProofs {
  import opened PBlocks
  import Slices
  import Sums

  // ----- addresses

  /** Row and column of an address. */
  lemma Address(w: nat, x: nat, y: nat)
    requires x < w
    ensures (y * w + x) / w == y && (y * w + x) % w == x
  {
    DivUnique(y * w + x, w, y, x);
  }

  lemma DivUnique(a: nat, w: nat, q: nat, r: nat)
    requires a == q * w + r && r < w
    ensures a / w == q && a % w == r
  {
    var d := a / w - q;
    assert a == (a / w) * w + a % w;
    assert d * w == r - a % w;
    assert 0 < d * w + w && d * w < w;
  }

  lemma SameAddress(w: nat, i: nat, k: nat)
    requires w > 0 && i / w == k / w && i % w == k % w
    ensures i == k
  {
    assert i == (i / w) * w + i % w && k == (k / w) * w + k % w;
  }

  lemma MulLess(a: nat, b: nat, w: nat)
    requires a <= b
    ensures a * w <= b * w
  {
  }

  /** The rectangle read by a copy lies inside the last frame exactly if the checked address does. */
  lemma SourceInside(v: Video, src: int, log2w: nat, log2h: nat)
    requires v.width > 0
    ensures InPicture(v, src, log2w, log2h) <==>
            0 <= src && src + (Side(log2h) - 1) * v.width + (Side(log2w) - 1) < v.width * v.height
  {
    var h := Side(log2h);
    assert v.width * (v.height - h + 1) == v.width * v.height - (h - 1) * v.width;
  }

  lemma SidePositive(n: nat)
    ensures Side(n) > 0 && (n > 0 ==> Side(n) % 2 == 0)
  {
  }

  lemma SourceInBuffer(v: Video, leaf: Leaf, r: nat, c: nat)
    requires v.width > 0 && leaf.action.Copy? && ValidLeaf(v, leaf)
    requires r < Side(leaf.log2h) && c < Side(leaf.log2w)
    ensures 0 <= leaf.action.src + r * v.width + c < v.width * v.height
    ensures leaf.action.src + c < v.width * v.height
  {
    SourceInside(v, leaf.action.src, leaf.log2w, leaf.log2h);
    MulLess(r, Side(leaf.log2h) - 1, v.width);
    MulLess(0, Side(leaf.log2h) - 1, v.width);
  }

  lemma PixelInFrame(v: Video, leaf: Leaf, r: nat, c: nat)
    requires v.width > 0 && Fits(v, leaf.x, leaf.y, leaf.log2w, leaf.log2h)
    requires r < Side(leaf.log2h) && c < Side(leaf.log2w)
    ensures var k := Base(v, leaf.x, leaf.y) + r * v.width + c;
      && 0 <= k < v.width * v.height && k == Base(v, leaf.x + c, leaf.y + r)
      && k / v.width == leaf.y + r && k % v.width == leaf.x + c
  {
    var k := Base(v, leaf.x, leaf.y) + r * v.width + c;
    SumOfProducts(leaf.y, r, v.width);
    Address(v.width, leaf.x + c, leaf.y + r);
    LastRow(v, leaf.x + c, leaf.y + r);
  }

  lemma SumOfProducts(a: nat, b: nat, w: nat)
    ensures a * w + b * w == (a + b) * w
  {
  }

  lemma LastRow(v: Video, px: nat, py: nat)
    requires px < v.width && py < v.height
    ensures py * v.width + px < v.width * v.height
  {
    MulLess(py + 1, v.height, v.width);
    SumOfProducts(py, 1, v.width);
  }

  // ----- drawing pixel by pixel

  lemma StartDrawing(v: Video, last: seq<Pixel>, before: seq<Pixel>, leaf: Leaf)
    requires v.width > 0
    ensures DrawnTo(v, last, before, leaf, 0, 0) == before
  {
  }

  lemma NextRow(v: Video, last: seq<Pixel>, before: seq<Pixel>, leaf: Leaf, r: nat, r1: nat, c: nat)
    requires v.width > 0 && c == Side(leaf.log2w) && r1 == r + 1
    ensures DrawnTo(v, last, before, leaf, r, c) == DrawnTo(v, last, before, leaf, r1, 0)
  {
  }

  lemma OnePixel(v: Video, last: seq<Pixel>, before: seq<Pixel>, leaf: Leaf, r: nat, c: nat, c1: nat)
    requires v.width > 0 && Fits(v, leaf.x, leaf.y, leaf.log2w, leaf.log2h) && |before| == v.width * v.height
    requires r < Side(leaf.log2h) && c < Side(leaf.log2w) && c1 == c + 1
    ensures var k := Base(v, leaf.x, leaf.y) + r * v.width + c;
      && 0 <= k < |before|
      && DrawnTo(v, last, before, leaf, r, c1)
         == DrawnTo(v, last, before, leaf, r, c)[k := Filled(v, last, leaf, c, r, before[k])]
  {
    PixelInFrame(v, leaf, r, c);
    var k := Base(v, leaf.x, leaf.y) + r * v.width + c;
    var a := DrawnTo(v, last, before, leaf, r, c1);
    var b := DrawnTo(v, last, before, leaf, r, c)[k := Filled(v, last, leaf, c, r, before[k])];
    forall i | 0 <= i < |before|
      ensures a[i] == b[i]
    {
      if i != k && i / v.width == leaf.y + r && i % v.width == leaf.x + c {
        SameAddress(v.width, i, k);
      }
    }
  }

  /** Adding both pixels of a word at once: the sum of the low halves carries into the high one. */
  lemma PackedSum(p0: Pixel, p1: Pixel, dc: Pixel)
    ensures var packed := Packed(p0, p1, 1, dc);
      packed % 0x1_0000 == Sum(p0, dc) && packed / 0x1_0000 % 0x1_0000 == Sum(p1 + Carry(p0, dc), dc)
  {
    var high := p1 + dc + (p0 + dc) / 0x1_0000;
    var low := (p0 + dc) % 0x1_0000;
    assert p0 + 0x1_0000 * p1 + dc * 0x1_0001 == high * 0x1_0000 + low;
    WordHalves(high, low);
  }

  /** Cutting a sum of halves to 32 bits keeps the low half and the low bits of the high one. */
  lemma WordHalves(high: nat, low: nat)
    requires low < 0x1_0000
    ensures var packed := (high * 0x1_0000 + low) % 0x1_0000_0000;
      packed % 0x1_0000 == low && packed / 0x1_0000 % 0x1_0000 == high % 0x1_0000
  {
    var q, r := high / 0x1_0000, high % 0x1_0000;
    var packed := r * 0x1_0000 + low;
    assert high * 0x1_0000 + low == q * 0x1_0000_0000 + packed;
    Sums.DivMod(q, 0x1_0000_0000, packed);
    Sums.DivMod(r, 0x1_0000, low);
  }

  /** The low and the high half of the stored word are the pixels of columns 2k and 2k + 1. */
  lemma FilledPair(v: Video, last: seq<Pixel>, leaf: Leaf, r: nat, k: nat, from: nat, a: Pixel, b: Pixel)
    requires v.width > 0 && leaf.action.Copy? && leaf.action.scale in {0, 1} && ValidLeaf(v, leaf)
    requires |last| == v.width * v.height && r < Side(leaf.log2h) && 2 * k + 1 < Side(leaf.log2w)
    requires from == leaf.action.src + (if leaf.action.scale == 0 then 0 else r * v.width) + 2 * k
    requires from + 1 < |last|
    ensures var packed := Packed(last[from], last[from + 1], leaf.action.scale, leaf.action.dc);
      && Filled(v, last, leaf, 2 * k, r, a) == packed % 0x1_0000
      && Filled(v, last, leaf, 2 * k + 1, r, b) == packed / 0x1_0000 % 0x1_0000
  {
    SourceIs(v, last, leaf, 2 * k, r, from);
    SourceIs(v, last, leaf, 2 * k + 1, r, from + 1);
    var s0 := Source(v, last, leaf.action, 2 * k, r);
    var s1 := Source(v, last, leaf.action, 2 * k + 1, r);
    PackedSum(s0, s1, leaf.action.dc);
    PackedScaled(last[from], last[from + 1], leaf.action.scale, leaf.action.dc);
    EvenOdd(k);
  }

  lemma EvenOdd(k: nat)
    ensures 2 * k % 2 == 0 && (2 * k + 1) % 2 == 1
  {
  }

  lemma SourceIs(v: Video, last: seq<Pixel>, leaf: Leaf, i: nat, j: nat, from: nat)
    requires v.width > 0 && leaf.action.Copy? && leaf.action.scale in {0, 1} && ValidLeaf(v, leaf)
    requires |last| == v.width * v.height && j < Side(leaf.log2h) && i < Side(leaf.log2w)
    requires from == leaf.action.src + (if leaf.action.scale == 0 then 0 else j * v.width) + i && from < |last|
    ensures Source(v, last, leaf.action, i, j) == leaf.action.scale * last[from]
  {
    SourceInBuffer(v, leaf, j, i);
  }

  lemma PackedScaled(p0: Pixel, p1: Pixel, scale: nat, dc: Pixel)
    requires scale <= 1
    ensures Packed(p0, p1, scale, dc) == Packed(scale * p0, scale * p1, 1, dc)
  {
  }

  /** A leaf one pixel wide. */
  lemma NarrowRow(v: Video, last: seq<Pixel>, before: seq<Pixel>, leaf: Leaf, r: nat, r1: nat)
    requires v.width > 0 && leaf.action.Copy? && leaf.action.scale in {0, 1} && ValidLeaf(v, leaf)
    requires |before| == |last| == v.width * v.height && r < Side(leaf.log2h) && leaf.log2w == 0 && r1 == r + 1
    ensures var to := Base(v, leaf.x, leaf.y) + r * v.width;
      var from := leaf.action.src + if leaf.action.scale == 0 then 0 else r * v.width;
      && 0 <= to < |before| && 0 <= from < |last|
      && DrawnTo(v, last, before, leaf, r1, 0)
         == DrawnTo(v, last, before, leaf, r, 0)[to := (leaf.action.scale * last[from] + leaf.action.dc) % 0x1_0000]
  {
    SourceInBuffer(v, leaf, r, 0);
    OnePixel(v, last, before, leaf, r, 0, 1);
    NextRow(v, last, before, leaf, r, r1, 1);
  }

  lemma TwoPixels(v: Video, last: seq<Pixel>, before: seq<Pixel>, leaf: Leaf, r: nat, k: nat, c: nat, c2: nat)
    requires v.width > 0 && leaf.action.Copy? && leaf.action.scale in {0, 1} && ValidLeaf(v, leaf)
    requires |before| == |last| == v.width * v.height
    requires r < Side(leaf.log2h) && c2 <= Side(leaf.log2w) && c == 2 * k && c2 == c + 2
    ensures var to := Base(v, leaf.x, leaf.y) + r * v.width + c;
      var from := leaf.action.src + (if leaf.action.scale == 0 then 0 else r * v.width) + c;
      && 0 <= to && to + 1 < |before| && 0 <= from && from + 1 < |last|
      && var packed := Packed(last[from], last[from + 1], leaf.action.scale, leaf.action.dc);
      DrawnTo(v, last, before, leaf, r, c2)
      == DrawnTo(v, last, before, leaf, r, c)[to := packed % 0x1_0000][to + 1 := packed / 0x1_0000 % 0x1_0000]
  {
    var to := Base(v, leaf.x, leaf.y) + r * v.width + c;
    var from := leaf.action.src + (if leaf.action.scale == 0 then 0 else r * v.width) + c;
    OnePixel(v, last, before, leaf, r, c, c + 1);
    OnePixel(v, last, before, leaf, r, c + 1, c2);
    SourceInBuffer(v, leaf, r, c);
    SourceInBuffer(v, leaf, r, c + 1);
    FilledPair(v, last, leaf, r, k, from, before[to], before[to + 1]);
  }

  lemma {:induction false} DrawAppend(v: Video, last: seq<Pixel>, before: seq<Pixel>, a: seq<Leaf>, b: seq<Leaf>)
    requires v.width > 0
    ensures Draw(v, last, before, a + b) == Draw(v, last, Draw(v, last, before, a), b)
  {
    if b == [] {
      Slices.Nothing(a);
    } else {
      DrawAppend(v, last, before, a, b[..|b| - 1]);
      assert (a + b)[..|a + b| - 1] == a + b[..|b| - 1];
    }
  }

  lemma DrawOne(v: Video, last: seq<Pixel>, before: seq<Pixel>, leaf: Leaf)
    requires v.width > 0
    ensures Draw(v, last, before, [leaf]) == DrawLeaf(v, last, before, leaf)
  {
    assert [leaf][..0] == [];
  }

  /** Two pixels in a strip are the first two along it. */
  lemma PairDrawn(v: Video, last: seq<Pixel>, before: seq<Pixel>, leaf: Leaf)
    requires v.width > 0 && leaf.action.Pair? && ValidLeaf(v, leaf) && |before| == v.width * v.height
    ensures var k := Base(v, leaf.x, leaf.y); var k2 := k + if leaf.log2w > 0 then 1 else v.width;
      && k < |before| && k2 < |before|
      && DrawLeaf(v, last, before, leaf) == before[k := leaf.action.first][k2 := leaf.action.second]
  {
    SidePositive(leaf.log2w);
    SidePositive(leaf.log2h);
    PixelInFrame(v, leaf, 0, 0);
    var (r, c) := if leaf.log2w > 0 then (0, 1) else (1, 0);
    PixelInFrame(v, leaf, r, c);
    var k := Base(v, leaf.x, leaf.y);
    var k2 := k + if leaf.log2w > 0 then 1 else v.width;
    var after := DrawLeaf(v, last, before, leaf);
    forall i | 0 <= i < |before| && i != k && i != k2
      ensures after[i] == before[i]
    {
      if i / v.width == leaf.y && i % v.width == leaf.x {
        SameAddress(v.width, i, k);
      }
      if i / v.width == leaf.y + r && i % v.width == leaf.x + c {
        SameAddress(v.width, i, k2);
      }
    }
  }

  lemma SkipDrawn(v: Video, last: seq<Pixel>, before: seq<Pixel>, leaf: Leaf)
    requires v.width > 0 && leaf.action.Skip?
    ensures DrawLeaf(v, last, before, leaf) == before
  {
  }

  /** The address of a block inside the frame passes the picture check, so a fill never trips the assertion. */
  lemma OwnPlaceInPicture(v: Video, x: nat, y: nat, log2w: nat, log2h: nat)
    requires v.width > 0 && Fits(v, x, y, log2w, log2h)
    ensures InPicture(v, Base(v, x, y), log2w, log2h)
  {
    var rows := v.height - Side(log2h);
    MulLess(y, rows, v.width);
    SumOfProducts(rows, 1, v.width);
  }

  /** Where the second half of a pair of blocks starts. */
  lemma SecondHalf(v: Video, x: nat, y: nat, log2w: nat, log2h: nat, across: bool, x2: nat, y2: nat)
    requires x2 == (if across then x + Side(log2w) else x) && y2 == if across then y else y + Side(log2h)
    requires BothFit(v, x, y, log2w, log2h, across)
    ensures Base(v, x2, y2) == Base(v, x, y) + if across then Side(log2w) else Side(log2h) * v.width
    ensures Fits(v, x2, y2, log2w, log2h)
  {
    SumOfProducts(y, Side(log2h), v.width);
  }

  lemma ThenNothing(p: Parsed, s: Streams)
    ensures Then(Parsed(true, [], s), p) == p
  {
    Slices.Nothing(p.leaves);
  }

  /** After what is drawn comes the next part, alone if it fails. */
  function Advanced(drawn: seq<Leaf>, first: Parsed, rest: Parsed): Parsed {
    if first.ok then Then(Parsed(true, drawn + first.leaves, first.rest), rest)
    else Parsed(false, drawn + first.leaves, first.rest)
  }

  lemma Advance(v: Video, last: seq<Pixel>, before: seq<Pixel>, drawn: seq<Leaf>, s: Streams, first: Parsed, rest: Parsed)
    requires v.width > 0
    ensures Then(Parsed(true, drawn, s), if first.ok then Then(first, rest) else first) == Advanced(drawn, first, rest)
    ensures Draw(v, last, before, drawn + first.leaves)
            == Draw(v, last, Draw(v, last, before, drawn), first.leaves)
  {
    Slices.Assoc(drawn, first.leaves, rest.leaves);
    DrawAppend(v, last, before, drawn, first.leaves);
  }

  lemma RowStep(v: Video, input: Streams, x: nat, y: nat, x8: nat)
    requires Ready(v) && x < v.width && x8 == x + 8
    ensures var first := Block(v, input, x, y, 3, 3);
      Row(v, input, x, y) == if first.ok then Then(first, Row(v, first.rest, x8, y)) else first
  {
  }

  lemma RowsStep(v: Video, input: Streams, y: nat, y8: nat)
    requires Ready(v) && y < v.height && y8 == y + 8
    ensures var first := Row(v, input, 0, y);
      Rows(v, input, y) == if first.ok then Then(first, Rows(v, first.rest, y8)) else first
  {
  }

  // ----- tiling

  /** How many leaves lie over a pixel. */
  function Cover(leaves: seq<Leaf>, px: int, py: int): nat {
    if leaves == [] then 0
    else Cover(leaves[..|leaves| - 1], px, py) + if Inside(leaves[|leaves| - 1], px, py) then 1 else 0
  }

  lemma {:induction false} CoverAppend(a: seq<Leaf>, b: seq<Leaf>, px: int, py: int)
    ensures Cover(a + b, px, py) == Cover(a, px, py) + Cover(b, px, py)
  {
    if b == [] {
      Slices.Nothing(a);
    } else {
      CoverAppend(a, b[..|b| - 1], px, py);
      assert (a + b)[..|a + b| - 1] == a + b[..|b| - 1];
    }
  }

  predicate InBlock(x: nat, y: nat, log2w: nat, log2h: nat, px: int, py: int) {
    x <= px < x + Side(log2w) && y <= py < y + Side(log2h)
  }

  ghost predicate AllValid(v: Video, leaves: seq<Leaf>) {
    forall i :: 0 <= i < |leaves| ==> ValidLeaf(v, leaves[i])
  }

  lemma LeafFits(v: Video, s: Streams, x: nat, y: nat, log2w: nat, log2h: nat, code: nat)
    requires |v.mv| == 256 && Fits(v, x, y, log2w, log2h) && log2w + log2h > 0 && (code == 6 ==> log2w == 0 || log2h == 0)
    ensures var p := LeafBlock(v, s, x, y, log2w, log2h, code);
      && (p.ok ==> |p.leaves| == 1 && ValidLeaf(v, p.leaves[0])
                   && p.leaves[0] == Leaf(x, y, log2w, log2h, p.leaves[0].action))
      && (!p.ok ==> p.leaves == [])
  {
  }

  lemma LeafCovers(leaf: Leaf, px: int, py: int)
    ensures Cover([leaf], px, py) == if InBlock(leaf.x, leaf.y, leaf.log2w, leaf.log2h, px, py) then 1 else 0
  {
    assert [leaf][..0] == [];
  }

  /** A decoded block lies under its leaves exactly once, and they lie nowhere else. */
  ghost predicate Tiles(v: Video, p: Parsed, inside: bool, px: int, py: int) {
    && AllValid(v, p.leaves)
    && (p.ok ==> Cover(p.leaves, px, py) == if inside then 1 else 0)
    && Cover(p.leaves, px, py) <= if inside then 1 else 0
  }

  lemma ThenTiles(v: Video, first: Parsed, second: Parsed, a: bool, b: bool, px: int, py: int)
    requires first.ok && Tiles(v, first, a, px, py) && Tiles(v, second, b, px, py) && !(a && b)
    ensures Tiles(v, Then(first, second), a || b, px, py)
  {
    CoverAppend(first.leaves, second.leaves, px, py);
  }

  lemma LeafTiles(v: Video, p: Parsed, x: nat, y: nat, log2w: nat, log2h: nat, px: int, py: int)
    requires p.ok ==> |p.leaves| == 1 && ValidLeaf(v, p.leaves[0])
                      && p.leaves[0] == Leaf(x, y, log2w, log2h, p.leaves[0].action)
    requires !p.ok ==> p.leaves == []
    ensures Tiles(v, p, InBlock(x, y, log2w, log2h, px, py), px, py)
  {
    if p.ok {
      assert p.leaves == [p.leaves[0]];
      LeafCovers(p.leaves[0], px, py);
    }
  }

  predicate BothFit(v: Video, x: nat, y: nat, log2w: nat, log2h: nat, across: bool) {
    && Fits(v, x, y, log2w, log2h)
    && if across then Fits(v, x + Side(log2w), y, log2w, log2h) else Fits(v, x, y + Side(log2h), log2w, log2h)
  }

  predicate InBoth(x: nat, y: nat, log2w: nat, log2h: nat, across: bool, px: int, py: int) {
    || InBlock(x, y, log2w, log2h, px, py)
    || if across then InBlock(x + Side(log2w), y, log2w, log2h, px, py)
       else InBlock(x, y + Side(log2h), log2w, log2h, px, py)
  }

  /** Halving a block keeps its rectangle. */
  lemma SplitBlock(v: Video, x: nat, y: nat, log2w: nat, log2h: nat, px: int, py: int)
    requires Fits(v, x, y, log2w, log2h)
    ensures log2h > 0 ==> BothFit(v, x, y, log2w, log2h - 1, false)
    ensures log2w > 0 ==> BothFit(v, x, y, log2w - 1, log2h, true)
    ensures log2h > 0 ==> InBoth(x, y, log2w, log2h - 1, false, px, py) == InBlock(x, y, log2w, log2h, px, py)
    ensures log2w > 0 ==> InBoth(x, y, log2w - 1, log2h, true, px, py) == InBlock(x, y, log2w, log2h, px, py)
  {
  }

  lemma HalvesAre(v: Video, s: Streams, x: nat, y: nat, log2w: nat, log2h: nat, across: bool, x2: nat, y2: nat)
    requires log2w < 4 && log2h < 4 && log2w + log2h > 0 && Ready(v)
    requires x2 == (if across then x + Side(log2w) else x) && y2 == if across then y else y + Side(log2h)
    ensures var first := Block(v, s, x, y, log2w, log2h);
      Halves(v, s, x, y, log2w, log2h, across)
      == if first.ok then Then(first, Block(v, first.rest, x2, y2, log2w, log2h)) else first
  {
  }

  /** A type-1 block is two halves one above the other, a type-2 block two side by side. */
  lemma SplitCases(v: Video, s: Streams, x: nat, y: nat, log2w: nat, log2h: nat, t: Streams)
    requires log2w < 4 && log2h < 4 && log2w + log2h > 0 && Ready(v) && s.bits != []
    requires t == s.(bits := Skipped(s.bits, BlockType(v, s, log2w, log2h).1))
    ensures BlockType(v, s, log2w, log2h).0 == 1 ==>
      Block(v, s, x, y, log2w, log2h) == Halves(v, t, x, y, log2w, log2h - 1, false)
    ensures BlockType(v, s, log2w, log2h).0 == 2 ==>
      Block(v, s, x, y, log2w, log2h) == Halves(v, t, x, y, log2w - 1, log2h, true)
  {
  }

  lemma {:induction false} BlockTiles(v: Video, s: Streams, x: nat, y: nat, log2w: nat, log2h: nat, px: int, py: int)
    requires log2w < 4 && log2h < 4 && log2w + log2h > 0 && Fits(v, x, y, log2w, log2h) && Ready(v)
    ensures Tiles(v, Block(v, s, x, y, log2w, log2h), InBlock(x, y, log2w, log2h, px, py), px, py)
    decreases log2w + log2h, 0
  {
    if s.bits != [] {
      var (code, len) := BlockType(v, s, log2w, log2h);
      var t := s.(bits := Skipped(s.bits, len));
      SplitCases(v, s, x, y, log2w, log2h, t);
      SplitBlock(v, x, y, log2w, log2h, px, py);
      if code == 1 {
        HalvesTile(v, t, x, y, log2w, log2h - 1, false, px, py);
        assert Block(v, s, x, y, log2w, log2h) == Halves(v, t, x, y, log2w, log2h - 1, false);
      } else if code == 2 {
        HalvesTile(v, t, x, y, log2w - 1, log2h, true, px, py);
      } else {
        var p := LeafBlock(v, t, x, y, log2w, log2h, code);
        assert Block(v, s, x, y, log2w, log2h) == p;
        LeafFits(v, t, x, y, log2w, log2h, code);
        LeafTiles(v, p, x, y, log2w, log2h, px, py);
      }
    }
  }

  /** Two blocks of the same shape cover both of their rectangles. */
  lemma {:induction false} HalvesTile(v: Video, t: Streams, x: nat, y: nat, log2w: nat, log2h: nat, across: bool,
                                      px: int, py: int)
    requires log2w < 4 && log2h < 4 && log2w + log2h > 0 && Ready(v) && BothFit(v, x, y, log2w, log2h, across)
    ensures Tiles(v, Halves(v, t, x, y, log2w, log2h, across), InBoth(x, y, log2w, log2h, across, px, py), px, py)
    decreases log2w + log2h, 1
  {
    BlockTiles(v, t, x, y, log2w, log2h, px, py);
    var first := Block(v, t, x, y, log2w, log2h);
    if first.ok {
      var x2 := if across then x + Side(log2w) else x;
      var y2 := if across then y else y + Side(log2h);
      BlockTiles(v, first.rest, x2, y2, log2w, log2h, px, py);
      ThenTiles(v, first, Block(v, first.rest, x2, y2, log2w, log2h), InBlock(x, y, log2w, log2h, px, py),
                InBlock(x2, y2, log2w, log2h, px, py), px, py);
    }
  }

  lemma {:induction false} RowTiles(v: Video, s: Streams, x: nat, y: nat, px: int, py: int)
    requires Ready(v) && v.width % 8 == 0 && x % 8 == 0 && x <= v.width && y + 8 <= v.height
    ensures Tiles(v, Row(v, s, x, y), x <= px < v.width && y <= py < y + 8, px, py)
    decreases v.width - x
  {
    if x < v.width {
      var first := Block(v, s, x, y, 3, 3);
      BlockTiles(v, s, x, y, 3, 3, px, py);
      if first.ok {
        RowTiles(v, first.rest, x + 8, y, px, py);
        ThenTiles(v, first, Row(v, first.rest, x + 8, y), InBlock(x, y, 3, 3, px, py),
                  x + 8 <= px < v.width && y <= py < y + 8, px, py);
      }
    }
  }

  /** The leaves of a decoded frame lie over every pixel of it exactly once. */
  lemma {:induction false} RowsTile(v: Video, s: Streams, y: nat, px: int, py: int)
    requires Ready(v) && v.width % 8 == 0 && v.height % 8 == 0 && y % 8 == 0 && y <= v.height
    ensures Tiles(v, Rows(v, s, y), 0 <= px < v.width && y <= py < v.height, px, py)
    decreases v.height - y
  {
    if y < v.height {
      var first := Row(v, s, 0, y);
      RowTiles(v, s, 0, y, px, py);
      if first.ok {
        RowsTile(v, first.rest, y + 8, px, py);
        ThenTiles(v, first, Rows(v, first.rest, y + 8), 0 <= px < v.width && y <= py < y + 8,
                  0 <= px < v.width && y + 8 <= py < v.height, px, py);
      }
    }
  }

  // ----- the picture

  /** Outside its rectangle a leaf changes nothing; inside, each pixel becomes what the leaf says. */
  lemma DrawLeafAt(v: Video, last: seq<Pixel>, before: seq<Pixel>, leaf: Leaf, px: nat, py: nat)
    requires px < v.width && py < v.height && |before| == v.width * v.height
    ensures var k := Base(v, px, py);
      && 0 <= k < |before|
      && DrawLeaf(v, last, before, leaf)[k]
         == if Inside(leaf, px, py) then Filled(v, last, leaf, px - leaf.x, py - leaf.y, before[k]) else before[k]
  {
    Address(v.width, px, py);
    LastRow(v, px, py);
  }

  lemma {:induction false} Untouched(v: Video, last: seq<Pixel>, before: seq<Pixel>, leaves: seq<Leaf>, px: nat, py: nat)
    requires px < v.width && py < v.height && |before| == v.width * v.height
    requires Cover(leaves, px, py) == 0
    ensures 0 <= Base(v, px, py) < |before|
    ensures Draw(v, last, before, leaves)[Base(v, px, py)] == before[Base(v, px, py)]
  {
    LastRow(v, px, py);
    if leaves != [] {
      var n := |leaves| - 1;
      Untouched(v, last, before, leaves[..n], px, py);
      DrawLeafAt(v, last, Draw(v, last, before, leaves[..n]), leaves[n], px, py);
    }
  }

  /** Under tiling leaves, a pixel is what the one leaf over it makes of the old pixel and the last frame. */
  lemma {:induction false} DecidedByOne(v: Video, last: seq<Pixel>, before: seq<Pixel>, leaves: seq<Leaf>, i: nat,
                                        px: nat, py: nat)
    requires px < v.width && py < v.height && |before| == v.width * v.height
    requires i < |leaves| && Inside(leaves[i], px, py) && Cover(leaves, px, py) == 1
    ensures 0 <= Base(v, px, py) < |before|
    ensures Draw(v, last, before, leaves)[Base(v, px, py)]
            == Filled(v, last, leaves[i], px - leaves[i].x, py - leaves[i].y, before[Base(v, px, py)])
  {
    var n := |leaves| - 1;
    LastRow(v, px, py);
    DrawLeafAt(v, last, Draw(v, last, before, leaves[..n]), leaves[n], px, py);
    if i == n {
      Untouched(v, last, before, leaves[..n], px, py);
    } else {
      CoverCounts(leaves[..n], i, px, py);
      DecidedByOne(v, last, before, leaves[..n], i, px, py);
    }
  }

  lemma {:induction false} CoverCounts(leaves: seq<Leaf>, i: nat, px: int, py: int)
    requires i < |leaves| && Inside(leaves[i], px, py)
    ensures Cover(leaves, px, py) > 0
  {
    if i < |leaves| - 1 {
      CoverCounts(leaves[..|leaves| - 1], i, px, py);
    }
  }

  lemma {:induction false} CoverFinds(leaves: seq<Leaf>, px: int, py: int) returns (i: nat)
    requires Cover(leaves, px, py) > 0
    ensures i < |leaves| && Inside(leaves[i], px, py)
  {
    i := |leaves| - 1;
    if !Inside(leaves[i], px, py) {
      i := CoverFinds(leaves[..i], px, py);
    }
  }

  /** A decoded frame: each pixel is what one leaf makes of the last frame, and no other leaf lies over it. */
  lemma PictureDecided(v: Video, s: Streams, last: seq<Pixel>, before: seq<Pixel>, px: nat, py: nat) returns (i: nat)
    requires Ready(v) && v.width % 8 == 0 && v.height % 8 == 0 && |before| == v.width * v.height
    requires px < v.width && py < v.height && Rows(v, s, 0).ok
    ensures 0 <= Base(v, px, py) < |before|
    ensures var leaves := Rows(v, s, 0).leaves;
      && i < |leaves| && ValidLeaf(v, leaves[i]) && Inside(leaves[i], px, py) && Cover(leaves, px, py) == 1
      && Draw(v, last, before, leaves)[Base(v, px, py)]
         == Filled(v, last, leaves[i], px - leaves[i].x, py - leaves[i].y, before[Base(v, px, py)])
  {
    i := DecidedFrom(v, s, 0, last, before, px, py);
  }

  lemma DecidedFrom(v: Video, s: Streams, top: nat, last: seq<Pixel>, before: seq<Pixel>, px: nat, py: nat)
    returns (i: nat)
    requires Ready(v) && v.width % 8 == 0 && v.height % 8 == 0 && |before| == v.width * v.height
    requires px < v.width && top <= py < v.height && top % 8 == 0 && Rows(v, s, top).ok
    ensures 0 <= Base(v, px, py) < |before|
    ensures var leaves := Rows(v, s, top).leaves;
      && i < |leaves| && ValidLeaf(v, leaves[i]) && Inside(leaves[i], px, py) && Cover(leaves, px, py) == 1
      && Draw(v, last, before, leaves)[Base(v, px, py)]
         == Filled(v, last, leaves[i], px - leaves[i].x, py - leaves[i].y, before[Base(v, px, py)])
  {
    RowsTile(v, s, top, px, py);
    i := Decided(v, Rows(v, s, top).leaves, last, before, px, py);
  }

  lemma Decided(v: Video, leaves: seq<Leaf>, last: seq<Pixel>, before: seq<Pixel>, px: nat, py: nat) returns (i: nat)
    requires px < v.width && py < v.height && |before| == v.width * v.height
    requires AllValid(v, leaves) && Cover(leaves, px, py) == 1
    ensures 0 <= Base(v, px, py) < |before| && i < |leaves| && ValidLeaf(v, leaves[i]) && Inside(leaves[i], px, py)
    ensures Draw(v, last, before, leaves)[Base(v, px, py)]
            == Filled(v, last, leaves[i], px - leaves[i].x, py - leaves[i].y, before[Base(v, px, py)])
  {
    i := CoverFinds(leaves, px, py);
    DecidedByOne(v, last, before, leaves, i, px, py);
  }

  /** One block, sound or not, leaves everything outside its rectangle alone. */
  lemma BlockConfined(v: Video, s: Streams, x: nat, y: nat, last: seq<Pixel>, before: seq<Pixel>, px: nat, py: nat)
    requires Ready(v) && Fits(v, x, y, 3, 3) && |before| == v.width * v.height
    requires px < v.width && py < v.height && !InBlock(x, y, 3, 3, px, py)
    ensures 0 <= Base(v, px, py) < |before|
    ensures Draw(v, last, before, Block(v, s, x, y, 3, 3).leaves)[Base(v, px, py)] == before[Base(v, px, py)]
  {
    BlockTiles(v, s, x, y, 3, 3, px, py);
    Untouched(v, last, before, Block(v, s, x, y, 3, 3).leaves, px, py);
  }
}
