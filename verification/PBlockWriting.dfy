/**
 P frames written down: blocks as trees, what each shows pixel by pixel, and the three streams that stand for them. The
 decoder reads every such frame back and shows exactly that.
 */
module PBlockWriting {
  import opened BitStrings
  import opened PBlocks
  import opened PBlockProofs
  import opened PBlockCodes
  import Slices

  /** A block: halved, or a leaf with its motion vector, brightness offset, fill or pair of pixels. */
  datatype Tree =
    | Stacked(top: Tree, bottom: Tree)
    | Beside(left: Tree, right: Tree)
    | Still
    | Move(vector: nat)
    | Shade(vector: nat, offset: Pixel)
    | Fill(value: Pixel)
    | Dots(first: Pixel, second: Pixel)

  function TypeOf(t: Tree): nat {
    match t
    case Stacked(_, _) => 1
    case Beside(_, _) => 2
    case Still => 3
    case Move(_) => 0
    case Shade(_, _) => 4
    case Fill(_) => 5
    case Dots(_, _) => 6
  }

  /** The shape has the type, and a motion source lies within the last frame, from its first to its last pixel. */
  predicate ValidTree(v: Video, t: Tree, x: nat, y: nat, log2w: nat, log2h: nat)
    requires |v.mv| == 256
  {
    match t
    case Stacked(top, bottom) =>
      && log2h > 0 && log2w + log2h > 1 && ValidTree(v, top, x, y, log2w, log2h - 1)
      && ValidTree(v, bottom, x, y + Side(log2h - 1), log2w, log2h - 1)
    case Beside(left, right) =>
      && log2w > 0 && log2w + log2h > 1 && ValidTree(v, left, x, y, log2w - 1, log2h)
      && ValidTree(v, right, x + Side(log2w - 1), y, log2w - 1, log2h)
    case Still => true
    case Move(vector) => vector < 256 && InLast(v, y * v.width + x + v.mv[vector], log2w, log2h)
    case Shade(vector, _) => vector < 256 && InLast(v, y * v.width + x + v.mv[vector], log2w, log2h)
    case Fill(_) => true
    case Dots(_, _) => log2w + log2h == 1
  }

  predicate InLast(v: Video, src: int, log2w: nat, log2h: nat) {
    0 <= src && src + (Side(log2h) - 1) * v.width + Side(log2w) - 1 < v.width * v.height
  }

  // ----- what it shows

  function PixelAt(last: seq<Pixel>, i: int): int {
    if 0 <= i < |last| then last[i] else 0
  }

  /** A pixel raised by an offset in 16 bits, plus what the pixel to its left carries over if they share a word. */
  function Raised(pixel: int, left: int, offset: Pixel, shares: bool): int {
    (pixel + offset + if shares && left + offset >= 0x1_0000 then 1 else 0) % 0x1_0000
  }

  /** The pixel at (px, py) of a block at (x, y) over the last frame; before is what the frame held there. */
  function Shows(v: Video, last: seq<Pixel>, t: Tree, x: nat, y: nat, log2w: nat, log2h: nat, px: nat, py: nat, before: Pixel): int
  {
    var at := py * v.width + px;
    match t
    case Stacked(top, bottom) =>
      if log2h == 0 then before
      else if py < y + Side(log2h - 1) then Shows(v, last, top, x, y, log2w, log2h - 1, px, py, before)
      else Shows(v, last, bottom, x, y + Side(log2h - 1), log2w, log2h - 1, px, py, before)
    case Beside(left, right) =>
      if log2w == 0 then before
      else if px < x + Side(log2w - 1) then Shows(v, last, left, x, y, log2w - 1, log2h, px, py, before)
      else Shows(v, last, right, x + Side(log2w - 1), y, log2w - 1, log2h, px, py, before)
    case Still => if v.newer then before else PixelAt(last, at)
    case Move(vector) => if vector < |v.mv| then PixelAt(last, at + v.mv[vector]) else before
    case Shade(vector, offset) =>
      if vector < |v.mv| then
        Raised(PixelAt(last, at + v.mv[vector]), PixelAt(last, at + v.mv[vector] - 1), offset, (px - x) % 2 == 1)
      else before
    case Fill(value) => value
    case Dots(first, second) => if px == x && py == y then first else second
  }

  // ----- writing

  /** A 16-bit word, low byte first. */
  function WordBytes(p: Pixel): (r: seq<nat>)
    ensures |r| == 2
  {
    [p % 0x100, p / 0x100]
  }

  function Cat(a: Streams, b: Streams): Streams {
    Streams(a.bits + b.bits, a.bytes + b.bytes, a.words + b.words)
  }

  /** The bits of a type for blocks of a shape. */
  type Coder = (nat, nat, nat) -> seq<bool>

  function TypeCoder(newer: bool): Coder {
    (log2w: nat, log2h: nat, kind: nat) => TypeBits(newer, log2w, log2h, kind)
  }

  /** The type of the block, then what it needs: the vector from the byte stream, pixels from the word stream. */
  function Written(code: Coder, t: Tree, log2w: nat, log2h: nat): Streams {
    var bits := code(log2w, log2h, TypeOf(t));
    match t
    case Stacked(top, bottom) =>
      if log2h == 0 then Streams(bits, [], [])
      else Cat(Streams(bits, [], []), Cat(Written(code, top, log2w, log2h - 1), Written(code, bottom, log2w, log2h - 1)))
    case Beside(left, right) =>
      if log2w == 0 then Streams(bits, [], [])
      else Cat(Streams(bits, [], []), Cat(Written(code, left, log2w - 1, log2h), Written(code, right, log2w - 1, log2h)))
    case Still => Streams(bits, [], [])
    case Move(vector) => Streams(bits, [vector], [])
    case Shade(vector, offset) => Streams(bits, [vector], WordBytes(offset))
    case Fill(value) => Streams(bits, [], WordBytes(value))
    case Dots(first, second) => Streams(bits, [], WordBytes(first) + WordBytes(second))
  }

  // ----- the leaves of a tree

  function LeavesOf(v: Video, t: Tree, x: nat, y: nat, log2w: nat, log2h: nat): seq<Leaf>
    requires |v.mv| == 256
  {
    var base := Base(v, x, y);
    match t
    case Stacked(top, bottom) =>
      if log2h == 0 then []
      else LeavesOf(v, top, x, y, log2w, log2h - 1) + LeavesOf(v, bottom, x, y + Side(log2h - 1), log2w, log2h - 1)
    case Beside(left, right) =>
      if log2w == 0 then []
      else LeavesOf(v, left, x, y, log2w - 1, log2h) + LeavesOf(v, right, x + Side(log2w - 1), y, log2w - 1, log2h)
    case Still => [Leaf(x, y, log2w, log2h, if v.newer then Skip else Copy(base, 1, 0))]
    case Move(vector) => if vector < 256 then [Leaf(x, y, log2w, log2h, Copy(base + v.mv[vector], 1, 0))] else []
    case Shade(vector, offset) =>
      if vector < 256 then [Leaf(x, y, log2w, log2h, Copy(base + v.mv[vector], 1, offset))] else []
    case Fill(value) => [Leaf(x, y, log2w, log2h, Copy(base, 0, value))]
    case Dots(first, second) => [Leaf(x, y, log2w, log2h, Pair(first, second))]
  }

  lemma WordReadBack(p: Pixel, rest: seq<nat>)
    ensures Word(WordBytes(p) + rest) == p && (WordBytes(p) + rest)[2..] == rest && |WordBytes(p) + rest| >= 2
  {
    Slices.Front(WordBytes(p), rest);
  }

  lemma InLastIsInPicture(v: Video, src: int, log2w: nat, log2h: nat)
    requires v.width > 0
    ensures InLast(v, src, log2w, log2h) <==> InPicture(v, src, log2w, log2h)
  {
    SourceInside(v, src, log2w, log2h);
  }

  predicate IsLeaf(t: Tree) {
    !t.Stacked? && !t.Beside?
  }

  /** What a leaf's streams hold after its type, in front of what follows. */
  function Arguments(t: Tree, rest: Streams): Streams {
    match t
    case Move(vector) => rest.(bytes := [vector] + rest.bytes)
    case Shade(vector, offset) => rest.(bytes := [vector] + rest.bytes, words := WordBytes(offset) + rest.words)
    case Fill(value) => rest.(words := WordBytes(value) + rest.words)
    case Dots(first, second) => rest.(words := WordBytes(first) + (WordBytes(second) + rest.words))
    case _ => rest
  }

  /** A leaf's arguments are read back, and its rectangle is within the picture. */
  lemma LeafReadBack(v: Video, t: Tree, x: nat, y: nat, log2w: nat, log2h: nat, rest: Streams)
    requires v.width > 0 && |v.mv| == 256 && IsLeaf(t) && ValidTree(v, t, x, y, log2w, log2h)
    requires Fits(v, x, y, log2w, log2h)
    ensures LeafBlock(v, Arguments(t, rest), x, y, log2w, log2h, TypeOf(t))
      == Parsed(true, LeavesOf(v, t, x, y, log2w, log2h), rest)
  {
    OwnPlaceInPicture(v, x, y, log2w, log2h);
    match t
    case Still =>
    case Move(vector) =>
      Slices.Front([vector], rest.bytes);
      InLastIsInPicture(v, Base(v, x, y) + v.mv[vector], log2w, log2h);
    case Shade(vector, offset) =>
      Slices.Front([vector], rest.bytes);
      WordReadBack(offset, rest.words);
      InLastIsInPicture(v, Base(v, x, y) + v.mv[vector], log2w, log2h);
    case Fill(value) =>
      WordReadBack(value, rest.words);
    case Dots(first, second) =>
      WordReadBack(first, WordBytes(second) + rest.words);
      WordReadBack(second, rest.words);
      assert Arguments(t, rest).words[4..] == Arguments(t, rest).words[2..][2..];
  }

  // ----- streams that stand for something written

  /**
   The streams s go on as written and then with rest. Bits may be missing at the very end, fewer than the last code has:
   they are read as the zeros pad.
   */
  ghost predicate Stands(s: Streams, pad: Code, written: Streams, last: nat, rest: Streams) {
    && s.bits + pad == written.bits + rest.bits && Zeros(pad) && (pad != [] ==> rest.bits == [] && |pad| < last)
    && s.bytes == written.bytes + rest.bytes && s.words == written.words + rest.words
  }

  lemma StandsWhole(written: Streams, last: nat, rest: Streams)
    ensures Stands(Cat(written, rest), [], written, last, rest)
  {
    Slices.Nothing(written.bits + rest.bits);
  }

  lemma StandsForNothing(s: Streams)
    ensures Stands(s, [], Streams([], [], []), 0, s)
  {
    Slices.Nothing(s.bits);
    Slices.Nothing(s.bytes);
    Slices.Nothing(s.words);
  }

  lemma NothingLeft(s: Streams, pad: Code, rest: Streams)
    requires Stands(s, pad, Streams([], [], []), 0, rest)
    ensures s == rest && pad == []
  {
    StandsForNothing(s);
    Slices.Nothing(rest.bits);
    Slices.Nothing(rest.bytes);
    Slices.Nothing(rest.words);
  }

  /** The first of two written parts is there in full if all missing bits belong to the second. */
  lemma Peel(s: Streams, pad: Code, a: Streams, b: Streams, last: nat, rest: Streams) returns (later: Streams)
    requires Stands(s, pad, Cat(a, b), last, rest) && last <= |b.bits|
    ensures Stands(s, [], a, 0, later) && Stands(later, pad, b, last, rest)
    ensures b.bits != [] ==> later.bits != []
  {
    Slices.Assoc(a.bits, b.bits, rest.bits);
    Slices.Assoc(a.bytes, b.bytes, rest.bytes);
    Slices.Assoc(a.words, b.words, rest.words);
    Slices.Nothing(s.bits);
    var left := Parted(s.bits, pad, a.bits, b.bits + rest.bits);
    later := Streams(left, b.bytes + rest.bytes, b.words + rest.words);
  }

  /** What is left of x, z missing at its end, after a. */
  lemma Parted(x: seq<bool>, z: Code, a: Code, b: seq<bool>) returns (left: seq<bool>)
    requires x + z == a + b && |z| <= |b|
    ensures left + z == b && x == a + left && |left| == |b| - |z|
  {
    left := x[|a|..];
    assert x[..|a|] == (x + z)[..|a|] == a;
    assert b == (x + z)[|a|..];
  }

  lemma Join(s: Streams, later: Streams, a: Streams, b: Streams, first: nat, pad: Code, last: nat, rest: Streams)
    requires Stands(s, [], a, first, later) && Stands(later, pad, b, last, rest)
    ensures Stands(s, pad, Cat(a, b), last, rest)
  {
    Slices.Nothing(s.bits);
    Slices.Assoc(a.bits, later.bits, pad);
    Slices.Assoc(a.bits, b.bits, rest.bits);
    Slices.Assoc(a.bytes, b.bytes, rest.bytes);
    Slices.Assoc(a.words, b.words, rest.words);
  }

  lemma KindOfTree(v: Video, t: Tree, x: nat, y: nat, log2w: nat, log2h: nat)
    requires |v.mv| == 256 && ValidTree(v, t, x, y, log2w, log2h)
    ensures TypeOf(t) in Kinds(log2w, log2h)
  {
  }

  function TypeOnly(bits: Code): Streams {
    Streams(bits, [], [])
  }

  /** Length of the last type in a tree. */
  function LastCode(code: Coder, t: Tree, log2w: nat, log2h: nat): (r: nat)
    ensures r <= |Written(code, t, log2w, log2h).bits|
  {
    match t
    case Stacked(_, bottom) => if log2h == 0 then 0 else LastCode(code, bottom, log2w, log2h - 1)
    case Beside(_, right) => if log2w == 0 then 0 else LastCode(code, right, log2w - 1, log2h)
    case _ => |code(log2w, log2h, TypeOf(t))|
  }

  /** A leaf: its type's bits, then its arguments. */
  lemma LeafStands(code: Coder, s: Streams, pad: Code, t: Tree, log2w: nat, log2h: nat, rest: Streams, bits: Code)
    requires IsLeaf(t) && bits == code(log2w, log2h, TypeOf(t))
    ensures Stands(s, pad, Written(code, t, log2w, log2h), LastCode(code, t, log2w, log2h), rest)
      <==> Stands(s, pad, TypeOnly(bits), |bits|, Arguments(t, rest))
  {
    Slices.Nothing(rest.bytes);
    Slices.Nothing(rest.words);
    Slices.Nothing(Arguments(t, rest).bytes);
    Slices.Nothing(Arguments(t, rest).words);
    if t.Dots? {
      Slices.Assoc(WordBytes(t.first), WordBytes(t.second), rest.words);
    }
  }

  lemma TypeStands(s: Streams, pad: Code, bits: Code, last: nat, rest: Streams)
    ensures Stands(s, pad, TypeOnly(bits), |bits|, rest)
      <==> StartWith(s.bits, pad, bits, rest.bits) && s.bytes == rest.bytes && s.words == rest.words
  {
    Slices.Nothing(rest.bytes);
    Slices.Nothing(rest.words);
  }

  lemma TypeRead(v: Video, code: Coder, s: Streams, pad: Code, log2w: nat, log2h: nat, kind: nat, last: nat, rest: Streams)
    requires Ready(v) && v.types == VlcTables(v.newer) && code == TypeCoder(v.newer)
    requires log2w < 4 && log2h < 4 && log2w + log2h > 0 && kind in Kinds(log2w, log2h)
    requires Stands(s, pad, TypeOnly(code(log2w, log2h, kind)), last, rest) && last <= |code(log2w, log2h, kind)|
    ensures s.bits != [] && BlockType(v, s, log2w, log2h).0 == kind
    ensures s.(bits := Skipped(s.bits, BlockType(v, s, log2w, log2h).1)) == rest
  {
    TypeStands(s, pad, code(log2w, log2h, kind), last, rest);
    TypeReadBack(v, s, pad, log2w, log2h, kind, rest.bits);
  }

  /** t is halved into first and second, of shape w and h, the second at (x2, y2). */
  predicate HalvedInto(t: Tree, x: nat, y: nat, log2w: nat, log2h: nat, first: Tree, second: Tree, w: nat, h: nat,
      across: bool, x2: nat, y2: nat)
  {
    if across then t == Beside(first, second) && log2w == w + 1 && log2h == h && x2 == x + Side(w) && y2 == y
    else t == Stacked(first, second) && log2h == h + 1 && log2w == w && x2 == x && y2 == y + Side(h)
  }

  lemma StackedWritten(code: Coder, top: Tree, bottom: Tree, log2w: nat, log2h: nat, h: nat, bits: seq<bool>)
    requires log2h == h + 1 && bits == code(log2w, log2h, 1)
    ensures Written(code, Stacked(top, bottom), log2w, log2h)
      == Cat(Streams(bits, [], []), Cat(Written(code, top, log2w, h), Written(code, bottom, log2w, h)))
  {
  }

  lemma BesideWritten(code: Coder, left: Tree, right: Tree, log2w: nat, log2h: nat, w: nat, bits: seq<bool>)
    requires log2w == w + 1 && bits == code(log2w, log2h, 2)
    ensures Written(code, Beside(left, right), log2w, log2h)
      == Cat(Streams(bits, [], []), Cat(Written(code, left, w, log2h), Written(code, right, w, log2h)))
  {
  }

  /** A halved block: its type's bits, then one half and the other. */
  lemma HalvesWritten(code: Coder, t: Tree, x: nat, y: nat, log2w: nat, log2h: nat, first: Tree, second: Tree, w: nat, h: nat,
      across: bool, x2: nat, y2: nat, bits: seq<bool>)
    requires HalvedInto(t, x, y, log2w, log2h, first, second, w, h, across, x2, y2)
    requires bits == code(log2w, log2h, TypeOf(t))
    ensures Written(code, t, log2w, log2h)
      == Cat(Streams(bits, [], []), Cat(Written(code, first, w, h), Written(code, second, w, h)))
  {
    if across {
      BesideWritten(code, first, second, log2w, log2h, w, bits);
    } else {
      StackedWritten(code, first, second, log2w, log2h, h, bits);
    }
  }

  lemma HalvesFit(v: Video, t: Tree, x: nat, y: nat, log2w: nat, log2h: nat, first: Tree, second: Tree, w: nat, h: nat,
      across: bool, x2: nat, y2: nat)
    requires HalvedInto(t, x, y, log2w, log2h, first, second, w, h, across, x2, y2) && |v.mv| == 256
    requires Fits(v, x, y, log2w, log2h) && ValidTree(v, t, x, y, log2w, log2h)
    ensures w + h > 0 && Fits(v, x, y, w, h) && Fits(v, x2, y2, w, h)
    ensures ValidTree(v, first, x, y, w, h) && ValidTree(v, second, x2, y2, w, h)
    ensures LeavesOf(v, t, x, y, log2w, log2h) == LeavesOf(v, first, x, y, w, h) + LeavesOf(v, second, x2, y2, w, h)
  {
  }

  /** The two halves, read one after the other. */
  lemma HalvesReadBack(v: Video, s: Streams, x: nat, y: nat, w: nat, h: nat, across: bool, x2: nat, y2: nat,
      first: Parsed, second: Parsed)
    requires Ready(v) && w < 4 && h < 4 && w + h > 0
    requires x2 == (if across then x + Side(w) else x) && y2 == if across then y else y + Side(h)
    requires Block(v, s, x, y, w, h) == first && first.ok && Block(v, first.rest, x2, y2, w, h) == second
    ensures Halves(v, s, x, y, w, h, across) == Then(first, second)
  {
    HalvesAre(v, s, x, y, w, h, across, x2, y2);
  }

  // ----- reading back

  lemma LeafBlockReadBack(v: Video, code: Coder, s: Streams, pad: Code, t: Tree, x: nat, y: nat, log2w: nat, log2h: nat,
      rest: Streams)
    requires Ready(v) && v.types == VlcTables(v.newer) && code == TypeCoder(v.newer) && log2w < 4 && log2h < 4 && log2w + log2h > 0
    requires Fits(v, x, y, log2w, log2h) && ValidTree(v, t, x, y, log2w, log2h) && IsLeaf(t)
    requires Stands(s, pad, Written(code, t, log2w, log2h), LastCode(code, t, log2w, log2h), rest)
    ensures Block(v, s, x, y, log2w, log2h) == Parsed(true, LeavesOf(v, t, x, y, log2w, log2h), rest)
  {
    var bits := code(log2w, log2h, TypeOf(t));
    KindOfTree(v, t, x, y, log2w, log2h);
    LeafStands(code, s, pad, t, log2w, log2h, rest, bits);
    TypeRead(v, code, s, pad, log2w, log2h, TypeOf(t), |bits|, Arguments(t, rest));
    LeafReadBack(v, t, x, y, log2w, log2h, rest);
  }

  /** A written block is read as its leaves, and reading goes on where it ends. */
  lemma {:induction false} BlockReadBack(v: Video, code: Coder, s: Streams, pad: Code, t: Tree, x: nat, y: nat, log2w: nat,
      log2h: nat, rest: Streams)
    requires Ready(v) && v.types == VlcTables(v.newer) && code == TypeCoder(v.newer) && log2w < 4 && log2h < 4 && log2w + log2h > 0
    requires Fits(v, x, y, log2w, log2h) && ValidTree(v, t, x, y, log2w, log2h)
    requires Stands(s, pad, Written(code, t, log2w, log2h), LastCode(code, t, log2w, log2h), rest)
    ensures Block(v, s, x, y, log2w, log2h) == Parsed(true, LeavesOf(v, t, x, y, log2w, log2h), rest)
    decreases t, 1
  {
    if t.Stacked? {
      var h: nat := log2h - 1;
      SplitReadBack(v, code, s, pad, t, x, y, log2w, log2h, rest, t.top, t.bottom, log2w, h, false, x, y + Side(h));
    } else if t.Beside? {
      var w: nat := log2w - 1;
      SplitReadBack(v, code, s, pad, t, x, y, log2w, log2h, rest, t.left, t.right, w, log2h, true, x + Side(w), y);
    } else {
      LeafBlockReadBack(v, code, s, pad, t, x, y, log2w, log2h, rest);
    }
  }

  /** A split block's streams go on with the halves after the type. */
  lemma SplitRead(v: Video, code: Coder, t: Tree, x: nat, y: nat, log2w: nat, log2h: nat, first: Tree, second: Tree, w: nat,
      h: nat, across: bool, x2: nat, y2: nat, s: Streams, more: Streams)
    requires Ready(v) && v.types == VlcTables(v.newer) && code == TypeCoder(v.newer) && log2w < 4 && log2h < 4
    requires HalvedInto(t, x, y, log2w, log2h, first, second, w, h, across, x2, y2) && w + h > 0
    requires TypeOf(t) in Kinds(log2w, log2h)
    requires Stands(s, [], TypeOnly(code(log2w, log2h, TypeOf(t))), 0, more)
    ensures Block(v, s, x, y, log2w, log2h) == Halves(v, more, x, y, w, h, across)
  {
    TypeRead(v, code, s, [], log2w, log2h, TypeOf(t), 0, more);
    SplitCases(v, s, x, y, log2w, log2h, more);
  }

  lemma LastOfHalves(code: Coder, t: Tree, x: nat, y: nat, log2w: nat, log2h: nat, first: Tree, second: Tree, w: nat, h: nat,
      across: bool, x2: nat, y2: nat)
    requires HalvedInto(t, x, y, log2w, log2h, first, second, w, h, across, x2, y2)
    ensures LastCode(code, t, log2w, log2h) == LastCode(code, second, w, h)
  {
  }

  lemma SplitReadBack(v: Video, code: Coder, s: Streams, pad: Code, t: Tree, x: nat, y: nat, log2w: nat, log2h: nat, rest: Streams,
      first: Tree, second: Tree, w: nat, h: nat, across: bool, x2: nat, y2: nat)
    requires Ready(v) && v.types == VlcTables(v.newer) && code == TypeCoder(v.newer) && log2w < 4 && log2h < 4
    requires HalvedInto(t, x, y, log2w, log2h, first, second, w, h, across, x2, y2)
    requires Fits(v, x, y, log2w, log2h) && ValidTree(v, t, x, y, log2w, log2h)
    requires Stands(s, pad, Written(code, t, log2w, log2h), LastCode(code, t, log2w, log2h), rest)
    ensures Block(v, s, x, y, log2w, log2h) == Parsed(true, LeavesOf(v, t, x, y, log2w, log2h), rest)
    decreases t, 0
  {
    var bits, a, b := code(log2w, log2h, TypeOf(t)), Written(code, first, w, h), Written(code, second, w, h);
    KindOfTree(v, t, x, y, log2w, log2h);
    HalvesFit(v, t, x, y, log2w, log2h, first, second, w, h, across, x2, y2);
    HalvesWritten(code, t, x, y, log2w, log2h, first, second, w, h, across, x2, y2, bits);
    LastOfHalves(code, t, x, y, log2w, log2h, first, second, w, h, across, x2, y2);
    var more := Peel(s, pad, TypeOnly(bits), Cat(a, b), LastCode(code, second, w, h), rest);
    var later := Peel(more, pad, a, b, LastCode(code, second, w, h), rest);
    SplitRead(v, code, t, x, y, log2w, log2h, first, second, w, h, across, x2, y2, s, more);
    BlockReadBack(v, code, more, [], first, x, y, w, h, later);
    BlockReadBack(v, code, later, pad, second, x2, y2, w, h, rest);
    HalvesReadBack(v, more, x, y, w, h, across, x2, y2, Block(v, more, x, y, w, h), Block(v, later, x2, y2, w, h));
  }
}
