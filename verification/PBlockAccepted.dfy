/** Everything the decoder accepts is a frame that was written: its streams stand for a grid of trees. */
module PBlockAccepted {
  import opened BitStrings
  import opened PBlocks
  import opened PBlockProofs
  import opened PBlockCodes
  import opened PBlockWriting
  import opened PBlockPictures
  import Slices

  /** The byte and word streams hold bytes. */
  ghost predicate Bytes(s: Streams) {
    && (forall i :: 0 <= i < |s.bytes| ==> s.bytes[i] < 0x100)
    && (forall i :: 0 <= i < |s.words| ==> s.words[i] < 0x100)
  }

  lemma BytesAfter(s: Streams, pad: Code, written: Streams, last: nat, rest: Streams)
    requires Stands(s, pad, written, last, rest) && Bytes(s)
    ensures Bytes(rest)
  {
    Slices.Front(written.bytes, rest.bytes);
    Slices.Front(written.words, rest.words);
  }

  lemma WordWritten(words: seq<nat>)
    requires |words| >= 2 && words[0] < 0x100 && words[1] < 0x100
    ensures words == WordBytes(Word(words)) + words[2..]
  {
    assert words[..2] == WordBytes(Word(words));
  }

  lemma ByteWritten(bytes: seq<nat>)
    requires bytes != [] && bytes[0] < 0x100
    ensures bytes == [bytes[0]] + bytes[1..] && bytes[0] % 0x100 == bytes[0]
  {
  }

  /** What a leaf was made of. */
  lemma LeafFound(v: Video, s: Streams, x: nat, y: nat, log2w: nat, log2h: nat, kind: nat) returns (t: Tree)
    requires Ready(v) && log2w < 4 && log2h < 4 && log2w + log2h > 0 && Fits(v, x, y, log2w, log2h) && Bytes(s)
    requires kind in Kinds(log2w, log2h) && kind != 1 && kind != 2 && LeafBlock(v, s, x, y, log2w, log2h, kind).ok
    ensures IsLeaf(t) && TypeOf(t) == kind && ValidTree(v, t, x, y, log2w, log2h)
    ensures s == Arguments(t, LeafBlock(v, s, x, y, log2w, log2h, kind).rest)
  {
    if kind == 6 {
      t := Dots(Word(s.words), Word(s.words[2..]));
      WordWritten(s.words);
      WordWritten(s.words[2..]);
      assert s.words[2..][2..] == s.words[4..];
    } else if kind == 3 {
      t := Still;
    } else if kind == 5 {
      t := Fill(Word(s.words));
      WordWritten(s.words);
    } else {
      ByteWritten(s.bytes);
      InLastIsInPicture(v, Base(v, x, y) + v.mv[s.bytes[0]], log2w, log2h);
      if kind == 0 {
        t := Move(s.bytes[0]);
      } else {
        t := Shade(s.bytes[0], Word(s.words));
        WordWritten(s.words);
      }
    }
  }

  /** A block without bits is not accepted. */
  lemma NoBits(v: Video, s: Streams, x: nat, y: nat, log2w: nat, log2h: nat)
    requires Ready(v) && log2w < 4 && log2h < 4 && log2w + log2h > 0 && Block(v, s, x, y, log2w, log2h).ok
    ensures s.bits != []
  {
  }

  lemma LeafIs(v: Video, s: Streams, x: nat, y: nat, log2w: nat, log2h: nat, kind: nat, more: Streams)
    requires Ready(v) && log2w < 4 && log2h < 4 && log2w + log2h > 0 && s.bits != []
    requires kind == BlockType(v, s, log2w, log2h).0 && kind != 1 && kind != 2
    requires more == s.(bits := Skipped(s.bits, BlockType(v, s, log2w, log2h).1))
    ensures Block(v, s, x, y, log2w, log2h) == LeafBlock(v, more, x, y, log2w, log2h, kind)
  {
  }

  lemma TypeStood(v: Video, code: Coder, s: Streams, log2w: nat, log2h: nat, kind: nat, more: Streams) returns (pad: Code)
    requires Ready(v) && v.types == VlcTables(v.newer) && code == TypeCoder(v.newer)
    requires log2w < 4 && log2h < 4 && log2w + log2h > 0 && s.bits != []
    requires kind == BlockType(v, s, log2w, log2h).0
    requires more == s.(bits := Skipped(s.bits, BlockType(v, s, log2w, log2h).1))
    ensures kind in Kinds(log2w, log2h)
    ensures Stands(s, pad, TypeOnly(code(log2w, log2h, kind)), |code(log2w, log2h, kind)|, more)
    ensures more.bits != [] ==> pad == []
  {
    pad := TypeFound(v, s, log2w, log2h, kind);
    TypeStands(s, pad, code(log2w, log2h, kind), |code(log2w, log2h, kind)|, more);
  }

  /** The streams s stand for the tree t up to where p ends. */
  ghost predicate Found(v: Video, code: Coder, s: Streams, pad: Code, t: Tree, x: nat, y: nat, log2w: nat, log2h: nat, rest: Streams)
  {
    && |v.mv| == 256 && ValidTree(v, t, x, y, log2w, log2h)
    && Stands(s, pad, Written(code, t, log2w, log2h), LastCode(code, t, log2w, log2h), rest)
  }

  lemma LeafBlockFound(v: Video, code: Coder, s: Streams, pad: Code, more: Streams, x: nat, y: nat, log2w: nat, log2h: nat, kind: nat)
    returns (t: Tree)
    requires Ready(v) && log2w < 4 && log2h < 4 && log2w + log2h > 0 && Fits(v, x, y, log2w, log2h) && Bytes(more)
    requires kind in Kinds(log2w, log2h) && kind != 1 && kind != 2 && LeafBlock(v, more, x, y, log2w, log2h, kind).ok
    requires Stands(s, pad, TypeOnly(code(log2w, log2h, kind)), |code(log2w, log2h, kind)|, more)
    ensures Found(v, code, s, pad, t, x, y, log2w, log2h, LeafBlock(v, more, x, y, log2w, log2h, kind).rest)
  {
    t := LeafFound(v, more, x, y, log2w, log2h, kind);
    LeafStands(code, s, pad, t, log2w, log2h, LeafBlock(v, more, x, y, log2w, log2h, kind).rest, code(log2w, log2h, kind));
  }

  /** An accepted block is the writing of a tree. */
  lemma {:induction false} BlockFound(v: Video, code: Coder, s: Streams, x: nat, y: nat, log2w: nat, log2h: nat)
    returns (t: Tree, pad: Code)
    requires Ready(v) && v.types == VlcTables(v.newer) && code == TypeCoder(v.newer)
    requires log2w < 4 && log2h < 4 && log2w + log2h > 0 && Fits(v, x, y, log2w, log2h) && Bytes(s)
    requires Block(v, s, x, y, log2w, log2h).ok
    ensures Found(v, code, s, pad, t, x, y, log2w, log2h, Block(v, s, x, y, log2w, log2h).rest)
    decreases log2w + log2h, 1
  {
    NoBits(v, s, x, y, log2w, log2h);
    var kind := BlockType(v, s, log2w, log2h).0;
    var more := s.(bits := Skipped(s.bits, BlockType(v, s, log2w, log2h).1));
    pad := TypeStood(v, code, s, log2w, log2h, kind, more);
    SplitCases(v, s, x, y, log2w, log2h, more);
    SplitBlock(v, x, y, log2w, log2h, x, y);
    if kind == 1 {
      var h: nat := log2h - 1;
      t, pad := SplitFound(v, code, s, more, pad, x, y, log2w, log2h, log2w, h, false, x, y + Side(h));
    } else if kind == 2 {
      var w: nat := log2w - 1;
      t, pad := SplitFound(v, code, s, more, pad, x, y, log2w, log2h, w, log2h, true, x + Side(w), y);
    } else {
      LeafIs(v, s, x, y, log2w, log2h, kind, more);
      t := LeafBlockFound(v, code, s, pad, more, x, y, log2w, log2h, kind);
    }
  }

  lemma SplitFound(v: Video, code: Coder, s: Streams, more: Streams, start: Code, x: nat, y: nat, log2w: nat, log2h: nat,
      w: nat, h: nat, across: bool, x2: nat, y2: nat)
    returns (t: Tree, pad: Code)
    requires Ready(v) && v.types == VlcTables(v.newer) && code == TypeCoder(v.newer)
    requires w < 4 && h < 4 && w + h > 0 && log2w + log2h == w + h + 1
    requires if across then log2w == w + 1 && log2h == h else log2h == h + 1 && log2w == w
    requires x2 == (if across then x + Side(w) else x) && y2 == if across then y else y + Side(h)
    requires Fits(v, x, y, w, h) && Fits(v, x2, y2, w, h) && Bytes(more)
    requires var bits := code(log2w, log2h, if across then 2 else 1);
      Stands(s, start, TypeOnly(bits), |bits|, more) && (more.bits != [] ==> start == [])
    requires Halves(v, more, x, y, w, h, across).ok
    ensures Found(v, code, s, pad, t, x, y, log2w, log2h, Halves(v, more, x, y, w, h, across).rest)
    decreases log2w + log2h, 0
  {
    HalvesAre(v, more, x, y, w, h, across, x2, y2);
    var later := Block(v, more, x, y, w, h).rest;
    NoBits(v, more, x, y, w, h);
    NoBits(v, later, x2, y2, w, h);
    var t1, pad1 := BlockFound(v, code, more, x, y, w, h);
    BytesAfter(more, pad1, Written(code, t1, w, h), LastCode(code, t1, w, h), later);
    var t2, pad2 := BlockFound(v, code, later, x2, y2, w, h);
    t, pad := if across then Beside(t1, t2) else Stacked(t1, t2), pad2;
    HalvesFound(v, code, s, more, later, t, x, y, log2w, log2h, t1, pad1, t2, w, h, across, x2, y2, pad,
                Block(v, later, x2, y2, w, h).rest, code(log2w, log2h, TypeOf(t)));
  }

  lemma HalvesFound(v: Video, code: Coder, s: Streams, more: Streams, later: Streams, t: Tree, x: nat, y: nat, log2w: nat,
      log2h: nat, t1: Tree, pad1: Code, t2: Tree, w: nat, h: nat, across: bool, x2: nat, y2: nat, pad: Code, rest: Streams,
      bits: Code)
    requires HalvedInto(t, x, y, log2w, log2h, t1, t2, w, h, across, x2, y2) && bits == code(log2w, log2h, TypeOf(t))
    requires w + h > 0 && Stands(s, [], TypeOnly(bits), |bits|, more) && later.bits != []
    requires Found(v, code, more, pad1, t1, x, y, w, h, later) && Found(v, code, later, pad, t2, x2, y2, w, h, rest)
    ensures Found(v, code, s, pad, t, x, y, log2w, log2h, rest)
  {
    HalvesJoin(code, s, more, later, t, x, y, log2w, log2h, t1, t2, w, h, across, x2, y2, pad, rest, bits);
  }

  lemma HalvesJoin(code: Coder, s: Streams, more: Streams, later: Streams, t: Tree, x: nat, y: nat, log2w: nat, log2h: nat,
      t1: Tree, t2: Tree, w: nat, h: nat, across: bool, x2: nat, y2: nat, pad: Code, rest: Streams, bits: Code)
    requires HalvedInto(t, x, y, log2w, log2h, t1, t2, w, h, across, x2, y2) && bits == code(log2w, log2h, TypeOf(t))
    requires Stands(s, [], TypeOnly(bits), |bits|, more)
    requires Stands(more, [], Written(code, t1, w, h), LastCode(code, t1, w, h), later)
    requires Stands(later, pad, Written(code, t2, w, h), LastCode(code, t2, w, h), rest)
    ensures Stands(s, pad, Written(code, t, log2w, log2h), LastCode(code, t, log2w, log2h), rest)
  {
    var a, b := Written(code, t1, w, h), Written(code, t2, w, h);
    HalvesWritten(code, t, x, y, log2w, log2h, t1, t2, w, h, across, x2, y2, bits);
    LastOfHalves(code, t, x, y, log2w, log2h, t1, t2, w, h, across, x2, y2);
    Join(more, later, a, b, LastCode(code, t1, w, h), pad, LastCode(code, t2, w, h), rest);
    Join(s, more, TypeOnly(bits), Cat(a, b), |bits|, pad, LastCode(code, t2, w, h), rest);
  }

  // ----- rows and frames

  lemma NoBitsInRow(v: Video, s: Streams, x: nat, y: nat)
    requires Ready(v) && x < v.width && Row(v, s, x, y).ok
    ensures Block(v, s, x, y, 3, 3).ok && s.bits != []
  {
    NoBits(v, s, x, y, 3, 3);
  }

  ghost predicate RowFound(v: Video, code: Coder, s: Streams, pad: Code, row: seq<Tree>, x: nat, y: nat, rest: Streams) {
    && |v.mv| == 256 && ValidRow(v, row, x, y) && x + 8 * |row| == v.width
    && Stands(s, pad, RowWritten(code, row), LastOfRow(code, row), rest)
  }

  lemma MoreInFront(v: Video, code: Coder, s: Streams, later: Streams, t: Tree, first: Code, row: seq<Tree>, pad: Code, x: nat,
      x8: nat, y: nat, rest: Streams)
    requires x8 == x + 8 && Found(v, code, s, first, t, x, y, 3, 3, later) && RowFound(v, code, later, pad, row, x8, y, rest)
    requires row != [] && later.bits != []
    ensures RowFound(v, code, s, pad, [t] + row, x, y, rest)
  {
    var all := [t] + row;
    forall i | 0 <= i < |all|
      ensures ValidTree(v, all[i], x + 8 * i, y, 3, 3)
    {
      if i > 0 {
        assert ValidTree(v, row[i - 1], x8 + 8 * (i - 1), y, 3, 3);
      }
    }
    assert all[1..] == row;
    Join(s, later, Written(code, t, 3, 3), RowWritten(code, row), LastCode(code, t, 3, 3), pad, LastOfRow(code, row), rest);
  }

  lemma OneInFront(v: Video, code: Coder, s: Streams, t: Tree, pad: Code, x: nat, y: nat, rest: Streams)
    requires Found(v, code, s, pad, t, x, y, 3, 3, rest) && x + 8 == v.width
    ensures RowFound(v, code, s, pad, [t], x, y, rest)
  {
    LoneBlock(code, [t]);
  }

  lemma {:induction false} FindRow(v: Video, code: Coder, s: Streams, x: nat, y: nat, n: nat) returns (row: seq<Tree>, pad: Code)
    requires Ready(v) && v.types == VlcTables(v.newer) && code == TypeCoder(v.newer)
    requires x + 8 * n == v.width && n > 0 && y + 8 <= v.height && Bytes(s) && Row(v, s, x, y).ok
    ensures RowFound(v, code, s, pad, row, x, y, Row(v, s, x, y).rest)
    decreases n
  {
    var x8 := x + 8;
    RowStep(v, s, x, y, x8);
    NoBitsInRow(v, s, x, y);
    EightFit(v, x, y);
    var later := Block(v, s, x, y, 3, 3).rest;
    var t, first := BlockFound(v, code, s, x, y, 3, 3);
    if n == 1 {
      row, pad := [t], first;
      OneInFront(v, code, s, t, pad, x, y, later);
    } else {
      BytesAfter(s, first, Written(code, t, 3, 3), LastCode(code, t, 3, 3), later);
      NoBitsInRow(v, later, x8, y);
      row, pad := FindRow(v, code, later, x8, y, n - 1);
      MoreInFront(v, code, s, later, t, first, row, pad, x, x8, y, Row(v, s, x, y).rest);
      row := [t] + row;
    }
  }

  ghost predicate GridFound(v: Video, code: Coder, s: Streams, pad: Code, grid: seq<seq<Tree>>, y: nat, rest: Streams) {
    && |v.mv| == 256 && ValidGrid(v, grid, y) && y + 8 * |grid| == v.height
    && Stands(s, pad, GridWritten(code, grid), LastOfGrid(code, grid), rest)
  }

  lemma MoreAbove(v: Video, code: Coder, s: Streams, later: Streams, row: seq<Tree>, first: Code, grid: seq<seq<Tree>>, pad: Code,
      y: nat, y8: nat, rest: Streams)
    requires y8 == y + 8 && RowFound(v, code, s, first, row, 0, y, later) && GridFound(v, code, later, pad, grid, y8, rest)
    requires grid != [] && later.bits != []
    ensures GridFound(v, code, s, pad, [row] + grid, y, rest)
  {
    var all := [row] + grid;
    forall j | 0 <= j < |all|
      ensures WholeRow(v, all[j], y + 8 * j)
    {
      if j > 0 {
        assert WholeRow(v, grid[j - 1], y8 + 8 * (j - 1));
      }
    }
    assert all[1..] == grid;
    Join(s, later, RowWritten(code, row), GridWritten(code, grid), LastOfRow(code, row), pad, LastOfGrid(code, grid), rest);
  }

  lemma OneAbove(v: Video, code: Coder, s: Streams, row: seq<Tree>, pad: Code, y: nat, rest: Streams)
    requires RowFound(v, code, s, pad, row, 0, y, rest) && y + 8 == v.height
    ensures GridFound(v, code, s, pad, [row], y, rest)
  {
    LoneRow(code, [row]);
    assert WholeRow(v, row, y);
  }

  lemma NoBitsBelow(v: Video, s: Streams, y: nat)
    requires Ready(v) && y < v.height && Rows(v, s, y).ok
    ensures Row(v, s, 0, y).ok && s.bits != []
  {
    NoBitsInRow(v, s, 0, y);
  }

  lemma {:induction false} FindGrid(v: Video, code: Coder, s: Streams, y: nat, n: nat) returns (grid: seq<seq<Tree>>, pad: Code)
    requires Ready(v) && v.types == VlcTables(v.newer) && code == TypeCoder(v.newer) && v.width % 8 == 0
    requires y + 8 * n == v.height && Bytes(s) && Rows(v, s, y).ok
    ensures GridFound(v, code, s, pad, grid, y, Rows(v, s, y).rest)
    decreases n
  {
    if n == 0 {
      grid, pad := [], [];
      StandsForNothing(s);
    } else {
      var y8 := y + 8;
      RowsStep(v, s, y, y8);
      NoBitsBelow(v, s, y);
      var later := Row(v, s, 0, y).rest;
      var row, first := FindRow(v, code, s, 0, y, v.width / 8);
      if n == 1 {
        grid, pad := [row], first;
        OneAbove(v, code, s, row, pad, y, later);
      } else {
        BytesAfter(s, first, RowWritten(code, row), LastOfRow(code, row), later);
        NoBitsBelow(v, later, y8);
        grid, pad := FindGrid(v, code, later, y8, n - 1);
        MoreAbove(v, code, s, later, row, first, grid, pad, y, y8, Rows(v, s, y).rest);
        grid := [row] + grid;
      }
    }
  }

  /** The streams are those of a frame, with rest left over. */
  ghost predicate IsFrame(v: Video, s: Streams, pad: Code, grid: seq<seq<Tree>>, rest: Streams) {
    && |v.mv| == 256 && ValidFrame(v, grid)
    && Stands(s, pad, GridWritten(TypeCoder(v.newer), grid), LastOfGrid(TypeCoder(v.newer), grid), rest)
  }

  lemma WrittenAccepted(v: Video, s: Streams, pad: Code, grid: seq<seq<Tree>>, rest: Streams)
    requires Ready(v) && v.types == VlcTables(v.newer) && IsFrame(v, s, pad, grid, rest)
    ensures Rows(v, s, 0).ok && Rows(v, s, 0).rest == rest
  {
    GridReadBack(v, TypeCoder(v.newer), s, pad, grid, 0, rest);
  }

  lemma AcceptedWritten(v: Video, s: Streams) returns (pad: Code, grid: seq<seq<Tree>>)
    requires Ready(v) && v.types == VlcTables(v.newer) && v.width % 8 == 0 && v.height % 8 == 0
    requires Bytes(s) && Rows(v, s, 0).ok
    ensures IsFrame(v, s, pad, grid, Rows(v, s, 0).rest)
  {
    grid, pad := FindGrid(v, TypeCoder(v.newer), s, 0, v.height / 8);
  }

  /** A frame is decoded without error exactly if its streams were written for some grid of blocks. */
  lemma AcceptedExactly(v: Video, s: Streams)
    requires |v.mv| == 256 && v.width > 0 && v.types == VlcTables(v.newer) && v.width % 8 == 0 && v.height % 8 == 0 && Bytes(s)
    ensures Ready(v)
    ensures Rows(v, s, 0).ok <==> exists pad, grid, rest :: IsFrame(v, s, pad, grid, rest)
  {
    TablesReady(v);
    if Rows(v, s, 0).ok {
      var pad, grid := AcceptedWritten(v, s);
      assert IsFrame(v, s, pad, grid, Rows(v, s, 0).rest);
    }
    if exists pad, grid, rest :: IsFrame(v, s, pad, grid, rest) {
      var pad, grid, rest :| IsFrame(v, s, pad, grid, rest);
      WrittenAccepted(v, s, pad, grid, rest);
    }
  }
}
