/**
 The recursive blocks of a 4XM P frame: block types are read from a prefix code chosen by the block's shape, blocks are
 halved until a leaf says how to fill its rectangle. Pixels are addressed linearly, as in the frame buffers.
 */
module PBlocks {

  type Pixel = p: int | 0 <= p < 0x1_0000

  /**
   Frame size, bitstream generation (version above 1), the 256 motion vectors as address offsets, and for each shape
   the block type and code length that every five-bit window stands for.
   */
  datatype Video = Video(width: nat, height: nat, newer: bool, mv: seq<int>, types: seq<seq<(nat, nat)>>)

  /** What is left of the bit stream, the byte stream and the word stream. */
  datatype Streams = Streams(bits: seq<bool>, bytes: seq<nat>, words: seq<nat>)

  datatype Action =
    | Skip
    | Pair(first: Pixel, second: Pixel)
    | Copy(src: int, scale: int, dc: Pixel)

  /** A filled rectangle: its corner, the logarithms of its sides, and how it is filled. */
  datatype Leaf = Leaf(x: nat, y: nat, log2w: nat, log2h: nat, action: Action)

  datatype Parsed = Parsed(ok: bool, leaves: seq<Leaf>, rest: Streams)

  // ----- block type codes

  /** Codeword value and length of a block type; length 0 marks a type the shape does not have. */
  function Entry(newer: bool, index: nat, code: nat): (nat, nat)
    requires index < 4 && code < 7
  {
    if newer then
      if index == 0 then [(0, 1), (2, 2), (6, 3), (14, 4), (30, 5), (31, 5), (0, 0)][code]
      else if index == 1 then [(0, 1), (0, 0), (2, 2), (6, 3), (14, 4), (15, 4), (0, 0)][code]
      else if index == 2 then [(0, 1), (2, 2), (0, 0), (6, 3), (14, 4), (15, 4), (0, 0)][code]
      else [(0, 1), (0, 0), (0, 0), (2, 2), (6, 3), (14, 4), (15, 4)][code]
    else
      if index == 0 then [(1, 2), (4, 3), (5, 3), (0, 2), (6, 3), (7, 3), (0, 0)][code]
      else if index == 1 then [(1, 2), (0, 0), (2, 2), (0, 2), (6, 3), (7, 3), (0, 0)][code]
      else if index == 2 then [(1, 2), (2, 2), (0, 0), (0, 2), (6, 3), (7, 3), (0, 0)][code]
      else [(1, 2), (0, 0), (0, 0), (0, 2), (2, 2), (6, 3), (7, 3)][code]
  }

  /** Table row for a shape; the unsigned table stores -1 for a single pixel as 255. */
  function SizeIndex(log2h: nat, log2w: nat): nat
    requires log2h < 4 && log2w < 4
  {
    [[255, 3, 1, 1], [3, 0, 0, 0], [2, 0, 0, 0], [2, 0, 0, 0]][log2h][log2w]
  }

  function Side(log2: nat): nat {
    if log2 == 0 then 1 else 2 * Side(log2 - 1)
  }

  /** The codeword of a type is a prefix of the five-bit window. */
  predicate Matches(newer: bool, index: nat, code: nat, window: nat)
    requires index < 4 && code < 7 && window < 32
  {
    var (value, len) := Entry(newer, index, code);
    0 < len <= 5 && value * Side(5 - len) <= window < (value + 1) * Side(5 - len)
  }

  /** The lowest matching type from code on. */
  function Search(newer: bool, index: nat, window: nat, code: nat): (r: nat)
    requires index < 4 && code < 7 && window < 32
    ensures r < 7
    decreases 7 - code
  {
    if code == 6 || Matches(newer, index, code, window) then code
    else Search(newer, index, window, code + 1)
  }

  function Bit(bits: seq<bool>, i: nat): nat {
    if i < |bits| && bits[i] then 1 else 0
  }

  /** The next five bits; past the end the padding reads as zero. */
  function Window(bits: seq<bool>): (w: nat)
    ensures w < 32
  {
    16 * Bit(bits, 0) + 8 * Bit(bits, 1) + 4 * Bit(bits, 2) + 2 * Bit(bits, 3) + Bit(bits, 4)
  }

  /** The lookup tables of one generation. */
  function VlcTables(newer: bool): (tables: seq<seq<(nat, nat)>>)
    ensures |tables| == 4
    ensures forall index, w :: 0 <= index < 4 && 0 <= w < 32 ==>
      |tables[index]| == 32
      && tables[index][w] == (Search(newer, index, w, 0), Entry(newer, index, Search(newer, index, w, 0)).1)
  {
    seq(4, index requires 0 <= index < 4 => seq(32, w requires 0 <= w < 32 =>
      (Search(newer, index, w, 0), Entry(newer, index, Search(newer, index, w, 0)).1)))
  }

  /** What the decoder needs of the tables: no split to a single pixel, pairs only in strips, every code has bits. */
  predicate Suits(index: nat, entry: (nat, nat)) {
    entry.0 < 7 && entry.1 > 0
    && (entry.0 == 1 ==> index in {0, 2}) && (entry.0 == 2 ==> index in {0, 1}) && (entry.0 == 6 ==> index != 0)
  }

  ghost predicate Ready(v: Video) {
    && |v.mv| == 256 && v.width > 0 && |v.types| == 4
    && (forall index :: 0 <= index < 4 ==> |v.types[index]| == 32)
    && (forall index, w :: 0 <= index < 4 && 0 <= w < 32 ==> Suits(index, v.types[index][w]))
  }

  function Skipped(bits: seq<bool>, n: nat): seq<bool> {
    if n <= |bits| then bits[n..] else []
  }

  lemma Sides()
    ensures Side(0) == 1 && Side(1) == 2 && Side(2) == 4 && Side(3) == 8 && Side(4) == 16
  {
  }

  lemma {:induction false} SearchFirst(newer: bool, index: nat, window: nat, code: nat, k: nat)
    requires index < 4 && code <= k < 7 && window < 32
    ensures k < Search(newer, index, window, code) ==> !Matches(newer, index, k, window)
    ensures var r := Search(newer, index, window, code); r == 6 || Matches(newer, index, r, window)
    decreases 7 - code
  {
    if code < 6 && !Matches(newer, index, code, window) {
      SearchFirst(newer, index, window, code + 1, if k == code then 6 else k);
    }
  }

  /** No window matches two types. */
  lemma CodesDisjoint(newer: bool, index: nat, window: nat, a: nat, b: nat)
    requires index < 4 && a < b < 7 && window < 32
    ensures !(Matches(newer, index, a, window) && Matches(newer, index, b, window))
  {
    Sides();
  }

  ghost predicate MatchesNone(newer: bool, index: nat, window: nat)
    requires index < 4 && window < 32
  {
    && !Matches(newer, index, 0, window) && !Matches(newer, index, 1, window) && !Matches(newer, index, 2, window)
    && !Matches(newer, index, 3, window) && !Matches(newer, index, 4, window) && !Matches(newer, index, 5, window)
  }

  lemma NewerCover(index: nat, window: nat)
    requires index < 4 && window < 32 && MatchesNone(true, index, window)
    ensures Matches(true, index, 6, window)
  {
    Sides();
  }

  lemma OlderCover(index: nat, window: nat)
    requires index < 4 && window < 32 && MatchesNone(false, index, window)
    ensures Matches(false, index, 6, window)
  {
    Sides();
  }

  lemma CodesCover(newer: bool, index: nat, window: nat)
    requires index < 4 && window < 32
    requires forall code :: 0 <= code < 6 ==> !Matches(newer, index, code, window)
    ensures Matches(newer, index, 6, window)
  {
    if newer {
      NewerCover(index, window);
    } else {
      OlderCover(index, window);
    }
  }

  /** Every table is a complete prefix code: each window matches the type that is read, and no other. */
  lemma CodeExactlyOne(newer: bool, index: nat, window: nat, code: nat)
    requires index < 4 && code < 7 && window < 32
    ensures Matches(newer, index, code, window) <==> code == Search(newer, index, window, 0)
  {
    var r := Search(newer, index, window, 0);
    SearchFirst(newer, index, window, 0, code);
    if r == 6 {
      forall k | 0 <= k < 6
        ensures !Matches(newer, index, k, window)
      {
        SearchFirst(newer, index, window, 0, k);
      }
      CodesCover(newer, index, window);
    }
    if code < r {
      CodesDisjoint(newer, index, window, code, r);
    } else if r < code {
      CodesDisjoint(newer, index, window, r, code);
    }
  }

  /** The tables built from the codes meet the decoder's needs. */
  lemma TablesReady(v: Video)
    requires |v.mv| == 256 && v.width > 0 && v.types == VlcTables(v.newer)
    ensures Ready(v)
  {
    forall index, w | 0 <= index < 4 && 0 <= w < 32
      ensures Suits(index, v.types[index][w])
    {
      CodeExactlyOne(v.newer, index, w, Search(v.newer, index, w, 0));
    }
  }

  /** The type and code length read for a block. */
  function BlockType(v: Video, s: Streams, log2w: nat, log2h: nat): (t: (nat, nat))
    requires Ready(v) && log2w < 4 && log2h < 4 && log2w + log2h > 0
    ensures t.1 > 0
    ensures t.0 == 1 ==> log2h > 0 && log2w + log2h > 1
    ensures t.0 == 2 ==> log2w > 0 && log2w + log2h > 1
    ensures t.0 == 6 ==> log2w == 0 || log2h == 0
  {
    assert Suits(SizeIndex(log2h, log2w), v.types[SizeIndex(log2h, log2w)][Window(s.bits)]);
    v.types[SizeIndex(log2h, log2w)][Window(s.bits)]
  }

  // ----- from streams to leaves

  /** Two bytes of the word stream, low byte first. */
  function Word(words: seq<nat>): Pixel
    requires |words| >= 2
  {
    (words[0] % 0x100) + 0x100 * (words[1] % 0x100)
  }

  function Base(v: Video, x: nat, y: nat): nat {
    y * v.width + x
  }

  /** May a rectangle of the last frame be read from this address? */
  predicate InPicture(v: Video, src: int, log2w: nat, log2h: nat) {
    0 <= src <= v.width * (v.height - Side(log2h) + 1) - Side(log2w)
  }

  /** A block is inside the frame. */
  predicate Fits(v: Video, x: nat, y: nat, log2w: nat, log2h: nat) {
    x + Side(log2w) <= v.width && y + Side(log2h) <= v.height
  }

  function Failed(s: Streams): Parsed {
    Parsed(false, [], s)
  }

  /** A motion copy, if the source stays in the picture. */
  function Checked(v: Video, s: Streams, x: nat, y: nat, log2w: nat, log2h: nat, copy: Action): Parsed
    requires copy.Copy?
  {
    if InPicture(v, copy.src, log2w, log2h) then Parsed(true, [Leaf(x, y, log2w, log2h, copy)], s) else Failed(s)
  }

  /** The arguments of a leaf of type 0, 3, 4, 5 or 6. */
  function LeafBlock(v: Video, s: Streams, x: nat, y: nat, log2w: nat, log2h: nat, code: nat): Parsed
    requires |v.mv| == 256
  {
    var base := Base(v, x, y);
    if code == 6 then
      if |s.words| < 4 then Failed(s)
      else
        var pair := Pair(Word(s.words), Word(s.words[2..]));
        Parsed(true, [Leaf(x, y, log2w, log2h, pair)], s.(words := s.words[4..]))
    else if code == 3 then
      if v.newer then Parsed(true, [Leaf(x, y, log2w, log2h, Skip)], s)
      else Checked(v, s, x, y, log2w, log2h, Copy(base, 1, 0))
    else if code == 5 then
      if |s.words| < 2 then Failed(s)
      else Checked(v, s.(words := s.words[2..]), x, y, log2w, log2h, Copy(base, 0, Word(s.words)))
    else if s.bytes == [] then Failed(s)
    else
      var src := base + v.mv[s.bytes[0] % 0x100];
      var t := s.(bytes := s.bytes[1..]);
      if code == 0 then Checked(v, t, x, y, log2w, log2h, Copy(src, 1, 0))
      else if |s.words| < 2 then Failed(t)
      else Checked(v, t.(words := t.words[2..]), x, y, log2w, log2h, Copy(src, 1, Word(s.words)))
  }

  function Block(v: Video, s: Streams, x: nat, y: nat, log2w: nat, log2h: nat): Parsed
    requires log2w < 4 && log2h < 4 && log2w + log2h > 0 && Ready(v)
    decreases log2w + log2h, 0, v.width
  {
    if s.bits == [] then Failed(s)
    else
      var (code, len) := BlockType(v, s, log2w, log2h);
      var t := s.(bits := Skipped(s.bits, len));
      if code == 1 then Halves(v, t, x, y, log2w, log2h - 1, false)
      else if code == 2 then Halves(v, t, x, y, log2w - 1, log2h, true)
      else LeafBlock(v, t, x, y, log2w, log2h, code)
  }

  /** Two blocks of one shape, side by side or one above the other, the second only if the first is sound. */
  function Halves(v: Video, s: Streams, x: nat, y: nat, log2w: nat, log2h: nat, across: bool): Parsed
    requires log2w < 4 && log2h < 4 && log2w + log2h > 0 && Ready(v)
    decreases log2w + log2h, 1, v.width
  {
    var first := Block(v, s, x, y, log2w, log2h);
    var x2 := if across then x + Side(log2w) else x;
    var y2 := if across then y else y + Side(log2h);
    if first.ok then Then(first, Block(v, first.rest, x2, y2, log2w, log2h)) else first
  }

  function Then(first: Parsed, second: Parsed): Parsed {
    Parsed(second.ok, first.leaves + second.leaves, second.rest)
  }

  /** The 8x8 blocks of the row at y, from column x on. */
  function Row(v: Video, s: Streams, x: nat, y: nat): Parsed
    requires Ready(v)
    decreases v.width - x
  {
    if x >= v.width then Parsed(true, [], s)
    else
      var first := Block(v, s, x, y, 3, 3);
      if first.ok then Then(first, Row(v, first.rest, x + 8, y)) else first
  }

  /** All rows from y on. */
  function Rows(v: Video, s: Streams, y: nat): Parsed
    requires Ready(v)
    decreases v.height - y
  {
    if y >= v.height then Parsed(true, [], s)
    else
      var first := Row(v, s, 0, y);
      if first.ok then Then(first, Rows(v, first.rest, y + 8)) else first
  }

  // ----- from leaves to pixels

  predicate Inside(leaf: Leaf, px: int, py: int) {
    leaf.x <= px < leaf.x + Side(leaf.log2w) && leaf.y <= py < leaf.y + Side(leaf.log2h)
  }

  predicate ValidLeaf(v: Video, leaf: Leaf) {
    && Fits(v, leaf.x, leaf.y, leaf.log2w, leaf.log2h)
    && leaf.log2w + leaf.log2h > 0
    && (leaf.action.Pair? ==> leaf.log2w == 0 || leaf.log2h == 0)
    && (leaf.action.Copy? ==> InPicture(v, leaf.action.src, leaf.log2w, leaf.log2h))
  }

  /** The pixel read for column i and row j of a copy; without scale nothing of it remains. */
  function Source(v: Video, last: seq<Pixel>, a: Action, i: nat, j: nat): Pixel
    requires a.Copy?
  {
    if a.scale == 0 || !(0 <= a.src + j * v.width + i < |last|) then 0 else last[a.src + j * v.width + i]
  }

  /** A brightness offset in 16 bits, and what it carries out of them. */
  function Sum(p: int, dc: Pixel): Pixel {
    (p + dc) % 0x1_0000
  }

  function Carry(p: int, dc: Pixel): int {
    (p + dc) / 0x1_0000
  }

  /** The pixel at column i and row j of a leaf: two columns are added as one word, so the left one carries over. */
  function Filled(v: Video, last: seq<Pixel>, leaf: Leaf, i: nat, j: nat, before: Pixel): Pixel {
    match leaf.action
    case Skip => before
    case Pair(first, second) =>
      if i == 0 && j == 0 then first
      else if (leaf.log2w > 0 && i == 1 && j == 0) || (leaf.log2w == 0 && j == 1) then second
      else before
    case Copy(_, _, dc) =>
      Sum(Source(v, last, leaf.action, i, j)
          + (if i % 2 == 0 then 0 else Carry(Source(v, last, leaf.action, i - 1, j), dc)), dc)
  }

  /** Two pixels loaded as one 32-bit word, scaled and offset without separating them. */
  function Packed(p0: Pixel, p1: Pixel, scale: nat, dc: Pixel): nat {
    var loaded: nat := (p0 as int) + 0x1_0000 * (p1 as int);
    (loaded * scale + (dc as int) * 0x1_0001) % 0x1_0000_0000
  }

  /** The frame once the leaf's rows above r, and the first c pixels of row r, are drawn. */
  function DrawnTo(v: Video, last: seq<Pixel>, before: seq<Pixel>, leaf: Leaf, r: nat, c: nat): (after: seq<Pixel>)
    requires v.width > 0
    ensures |after| == |before|
  {
    seq(|before|, k requires 0 <= k < |before| =>
      var px, py := k % v.width, k / v.width;
      if Inside(leaf, px, py) && (py < leaf.y + r || (py == leaf.y + r && px < leaf.x + c))
      then Filled(v, last, leaf, px - leaf.x, py - leaf.y, before[k]) else before[k])
  }

  function DrawLeaf(v: Video, last: seq<Pixel>, before: seq<Pixel>, leaf: Leaf): (after: seq<Pixel>)
    requires v.width > 0
    ensures |after| == |before|
  {
    DrawnTo(v, last, before, leaf, Side(leaf.log2h), 0)
  }

  function Draw(v: Video, last: seq<Pixel>, before: seq<Pixel>, leaves: seq<Leaf>): (after: seq<Pixel>)
    requires v.width > 0
    ensures |after| == |before|
  {
    if leaves == [] then before
    else DrawLeaf(v, last, Draw(v, last, before, leaves[..|leaves| - 1]), leaves[|leaves| - 1])
  }
}
