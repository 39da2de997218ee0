/** What a written P frame is decoded to, pixel by pixel. */
module PBlockPictures {
  import opened BitStrings
  import opened PBlocks
  import opened PBlockProofs
  import opened PBlockCodes
  import opened PBlockWriting
  import Slices

  // ----- leaves

  /** The pixel of the last frame that a copy reads for (px, py). */
  lemma SourceAt(v: Video, last: seq<Pixel>, a: Action, x: nat, y: nat, offset: int, px: nat, py: nat, at: int)
    requires a.Copy? && a.scale == 1 && a.src == y * v.width + x + offset && x <= px && y <= py && at == py * v.width + px
    ensures Source(v, last, a, px - x, py - y) == PixelAt(last, at + offset)
    ensures px > x ==> Source(v, last, a, px - x - 1, py - y) == PixelAt(last, at + offset - 1)
  {
    SumOfProducts(y, py - y, v.width);
  }

  lemma CarryIs(p: Pixel, dc: Pixel)
    ensures Carry(p, dc) == if p + dc >= 0x1_0000 then 1 else 0
  {
  }

  lemma CopyShows(v: Video, last: seq<Pixel>, leaf: Leaf, offset: int, px: nat, py: nat, before: Pixel, at: int)
    requires leaf.action.Copy? && leaf.action.scale == 1 && leaf.action.src == leaf.y * v.width + leaf.x + offset
    requires leaf.x <= px && leaf.y <= py && at == py * v.width + px
    ensures Filled(v, last, leaf, px - leaf.x, py - leaf.y, before)
      == Raised(PixelAt(last, at + offset), PixelAt(last, at + offset - 1), leaf.action.dc, (px - leaf.x) % 2 == 1)
  {
    SourceAt(v, last, leaf.action, leaf.x, leaf.y, offset, px, py, at);
    if px > leaf.x {
      CarryIs(Source(v, last, leaf.action, px - leaf.x - 1, py - leaf.y), leaf.action.dc);
    }
  }

  /** Nothing is added by an offset of zero. */
  lemma RaisedByZero(pixel: Pixel, left: Pixel, shares: bool)
    ensures Raised(pixel, left, 0, shares) == pixel
  {
  }

  lemma FillShows(v: Video, last: seq<Pixel>, leaf: Leaf, i: nat, j: nat, before: Pixel)
    requires leaf.action.Copy? && leaf.action.scale == 0
    ensures Filled(v, last, leaf, i, j, before) == leaf.action.dc
  {
  }

  /** Within its rectangle a leaf makes each pixel what the tree shows there. */
  lemma LeafShows(v: Video, last: seq<Pixel>, t: Tree, x: nat, y: nat, log2w: nat, log2h: nat, px: nat, py: nat,
      before: Pixel)
    requires |v.mv| == 256 && IsLeaf(t) && ValidTree(v, t, x, y, log2w, log2h) && InBlock(x, y, log2w, log2h, px, py)
    ensures var leaves := LeavesOf(v, t, x, y, log2w, log2h);
      && |leaves| == 1 && leaves[0] == Leaf(x, y, log2w, log2h, leaves[0].action)
      && Filled(v, last, leaves[0], px - x, py - y, before) == Shows(v, last, t, x, y, log2w, log2h, px, py, before)
  {
    var leaf := LeavesOf(v, t, x, y, log2w, log2h)[0];
    var at := py * v.width + px;
    match t
    case Still =>
      if !v.newer {
        CopyShows(v, last, leaf, 0, px, py, before, at);
        RaisedByZero(PixelAt(last, at), PixelAt(last, at - 1), (px - x) % 2 == 1);
      }
    case Move(vector) =>
      CopyShows(v, last, leaf, v.mv[vector], px, py, before, at);
      RaisedByZero(PixelAt(last, at + v.mv[vector]), PixelAt(last, at + v.mv[vector] - 1), (px - x) % 2 == 1);
    case Shade(vector, offset) =>
      CopyShows(v, last, leaf, v.mv[vector], px, py, before, at);
    case Fill(value) =>
      FillShows(v, last, leaf, px - x, py - y, before);
    case Dots(first, second) =>
  }

  // ----- blocks

  /** A pixel of a block that has been drawn. */
  ghost predicate Drawn(v: Video, last: seq<Pixel>, before: seq<Pixel>, t: Tree, x: nat, y: nat, log2w: nat, log2h: nat,
      px: nat, py: nat, k: nat)
    requires Ready(v)
  {
    && k < |before|
    && Draw(v, last, before, LeavesOf(v, t, x, y, log2w, log2h))[k]
       == if InBlock(x, y, log2w, log2h, px, py) then Shows(v, last, t, x, y, log2w, log2h, px, py, before[k]) else before[k]
  }

  lemma LeafDrawn(v: Video, last: seq<Pixel>, before: seq<Pixel>, t: Tree, x: nat, y: nat, log2w: nat, log2h: nat,
      px: nat, py: nat, k: nat)
    requires Ready(v) && |before| == v.width * v.height && px < v.width && py < v.height && k == py * v.width + px
    requires IsLeaf(t) && ValidTree(v, t, x, y, log2w, log2h)
    ensures Drawn(v, last, before, t, x, y, log2w, log2h, px, py, k)
  {
    var leaf := LeavesOf(v, t, x, y, log2w, log2h)[0];
    LastRow(v, px, py);
    DrawOne(v, last, before, leaf);
    DrawLeafAt(v, last, before, leaf, px, py);
    if InBlock(x, y, log2w, log2h, px, py) {
      LeafShows(v, last, t, x, y, log2w, log2h, px, py, before[k]);
    }
  }

  /** What the halves show is what the block shows. */
  lemma HalvesShow(v: Video, last: seq<Pixel>, t: Tree, x: nat, y: nat, log2w: nat, log2h: nat, first: Tree, second: Tree,
      w: nat, h: nat, across: bool, x2: nat, y2: nat, px: nat, py: nat, before: Pixel)
    requires HalvedInto(t, x, y, log2w, log2h, first, second, w, h, across, x2, y2)
    ensures InBlock(x, y, log2w, log2h, px, py) <==> InBlock(x, y, w, h, px, py) || InBlock(x2, y2, w, h, px, py)
    ensures InBlock(x, y, w, h, px, py) ==> !InBlock(x2, y2, w, h, px, py)
    ensures InBlock(x, y, w, h, px, py) ==>
      Shows(v, last, t, x, y, log2w, log2h, px, py, before) == Shows(v, last, first, x, y, w, h, px, py, before)
    ensures InBlock(x2, y2, w, h, px, py) ==>
      Shows(v, last, t, x, y, log2w, log2h, px, py, before) == Shows(v, last, second, x2, y2, w, h, px, py, before)
  {
  }

  lemma {:induction false} BlockDrawn(v: Video, last: seq<Pixel>, before: seq<Pixel>, t: Tree, x: nat, y: nat, log2w: nat,
      log2h: nat, px: nat, py: nat, k: nat)
    requires Ready(v) && |before| == v.width * v.height && px < v.width && py < v.height && k == py * v.width + px
    requires Fits(v, x, y, log2w, log2h) && ValidTree(v, t, x, y, log2w, log2h)
    ensures Drawn(v, last, before, t, x, y, log2w, log2h, px, py, k)
    decreases t, 1
  {
    if t.Stacked? {
      var h: nat := log2h - 1;
      SplitDrawn(v, last, before, t, x, y, log2w, log2h, t.top, t.bottom, log2w, h, false, x, y + Side(h), px, py, k);
    } else if t.Beside? {
      var w: nat := log2w - 1;
      SplitDrawn(v, last, before, t, x, y, log2w, log2h, t.left, t.right, w, log2h, true, x + Side(w), y, px, py, k);
    } else {
      LeafDrawn(v, last, before, t, x, y, log2w, log2h, px, py, k);
    }
  }

  lemma SplitDrawn(v: Video, last: seq<Pixel>, before: seq<Pixel>, t: Tree, x: nat, y: nat, log2w: nat, log2h: nat,
      first: Tree, second: Tree, w: nat, h: nat, across: bool, x2: nat, y2: nat, px: nat, py: nat, k: nat)
    requires Ready(v) && |before| == v.width * v.height && px < v.width && py < v.height && k == py * v.width + px
    requires HalvedInto(t, x, y, log2w, log2h, first, second, w, h, across, x2, y2)
    requires Fits(v, x, y, log2w, log2h) && ValidTree(v, t, x, y, log2w, log2h)
    ensures Drawn(v, last, before, t, x, y, log2w, log2h, px, py, k)
    decreases t, 0
  {
    HalvesFit(v, t, x, y, log2w, log2h, first, second, w, h, across, x2, y2);
    var between := Draw(v, last, before, LeavesOf(v, first, x, y, w, h));
    BlockDrawn(v, last, before, first, x, y, w, h, px, py, k);
    BlockDrawn(v, last, between, second, x2, y2, w, h, px, py, k);
    DrawAppend(v, last, before, LeavesOf(v, first, x, y, w, h), LeavesOf(v, second, x2, y2, w, h));
    HalvesDrawn(v, last, before, between, t, x, y, log2w, log2h, first, second, w, h, across, x2, y2, px, py, k);
  }

  /** Drawing the halves one after the other draws the block. */
  lemma HalvesDrawn(v: Video, last: seq<Pixel>, before: seq<Pixel>, between: seq<Pixel>, t: Tree, x: nat, y: nat, log2w: nat,
      log2h: nat, first: Tree, second: Tree, w: nat, h: nat, across: bool, x2: nat, y2: nat, px: nat, py: nat, k: nat)
    requires Ready(v) && |before| == |between|
    requires HalvedInto(t, x, y, log2w, log2h, first, second, w, h, across, x2, y2)
    requires between == Draw(v, last, before, LeavesOf(v, first, x, y, w, h))
    requires Draw(v, last, before, LeavesOf(v, t, x, y, log2w, log2h)) == Draw(v, last, between, LeavesOf(v, second, x2, y2, w, h))
    requires Drawn(v, last, before, first, x, y, w, h, px, py, k) && Drawn(v, last, between, second, x2, y2, w, h, px, py, k)
    ensures Drawn(v, last, before, t, x, y, log2w, log2h, px, py, k)
  {
    HalvesShow(v, last, t, x, y, log2w, log2h, first, second, w, h, across, x2, y2, px, py, before[k]);
  }

  // ----- rows and frames

  /** A row of 8x8 blocks from column x on. */
  ghost predicate ValidRow(v: Video, row: seq<Tree>, x: nat, y: nat)
    requires |v.mv| == 256
  {
    forall i :: 0 <= i < |row| ==> ValidTree(v, row[i], x + 8 * i, y, 3, 3)
  }

  function RowWritten(code: Coder, row: seq<Tree>): Streams {
    if row == [] then Streams([], [], []) else Cat(Written(code, row[0], 3, 3), RowWritten(code, row[1..]))
  }

  function RowLeaves(v: Video, row: seq<Tree>, x: nat, y: nat): seq<Leaf>
    requires |v.mv| == 256
  {
    if row == [] then [] else LeavesOf(v, row[0], x, y, 3, 3) + RowLeaves(v, row[1..], x + 8, y)
  }

  lemma RowTail(v: Video, row: seq<Tree>, x: nat, y: nat, x8: nat)
    requires |v.mv| == 256 && row != [] && ValidRow(v, row, x, y) && x8 == x + 8
    ensures ValidTree(v, row[0], x, y, 3, 3) && ValidRow(v, row[1..], x8, y)
    ensures RowLeaves(v, row, x, y) == LeavesOf(v, row[0], x, y, 3, 3) + RowLeaves(v, row[1..], x8, y)
  {
    assert ValidTree(v, row[0], x + 8 * 0, y, 3, 3);
    forall i | 0 <= i < |row[1..]|
      ensures ValidTree(v, row[1..][i], x8 + 8 * i, y, 3, 3)
    {
      assert ValidTree(v, row[i + 1], x + 8 * (i + 1), y, 3, 3);
    }
  }

  /** Length of the last type in a row. */
  function LastOfRow(code: Coder, row: seq<Tree>): (r: nat)
    ensures r <= |RowWritten(code, row).bits|
  {
    if row == [] then 0 else if |row| == 1 then LastCode(code, row[0], 3, 3) else LastOfRow(code, row[1..])
  }

  lemma LoneBlock(code: Coder, row: seq<Tree>)
    requires |row| == 1
    ensures row[1..] == [] && RowWritten(code, row) == Written(code, row[0], 3, 3)
  {
    var w := Written(code, row[0], 3, 3);
    Slices.Nothing(w.bits);
    Slices.Nothing(w.bytes);
    Slices.Nothing(w.words);
  }

  /** A written row is read as its leaves. */
  lemma {:induction false} RowReadBack(v: Video, code: Coder, s: Streams, pad: Code, row: seq<Tree>, x: nat, y: nat, rest: Streams)
    requires Ready(v) && v.types == VlcTables(v.newer) && code == TypeCoder(v.newer)
    requires x + 8 * |row| == v.width && y + 8 <= v.height && ValidRow(v, row, x, y)
    requires Stands(s, pad, RowWritten(code, row), LastOfRow(code, row), rest)
    ensures Row(v, s, x, y) == Parsed(true, RowLeaves(v, row, x, y), rest)
    decreases |row|
  {
    var x8 := x + 8;
    if row == [] {
      NothingLeft(s, pad, rest);
    } else if |row| == 1 {
      RowTail(v, row, x, y, x8);
      LoneBlock(code, row);
      RowStep(v, s, x, y, x8);
      EightFit(v, x, y);
      BlockReadBack(v, code, s, pad, row[0], x, y, 3, 3, rest);
    } else {
      RowTail(v, row, x, y, x8);
      RowStep(v, s, x, y, x8);
      EightFit(v, x, y);
      var later := Peel(s, pad, Written(code, row[0], 3, 3), RowWritten(code, row[1..]), LastOfRow(code, row), rest);
      BlockReadBack(v, code, s, [], row[0], x, y, 3, 3, later);
      RowReadBack(v, code, later, pad, row[1..], x8, y, rest);
    }
  }

  lemma EightFit(v: Video, x: nat, y: nat)
    requires x + 8 <= v.width && y + 8 <= v.height
    ensures Fits(v, x, y, 3, 3)
  {
  }

  ghost predicate WholeRow(v: Video, row: seq<Tree>, y: nat)
    requires |v.mv| == 256
  {
    8 * |row| == v.width && ValidRow(v, row, 0, y)
  }

  /** A frame's rows of blocks from line y on. */
  ghost predicate ValidGrid(v: Video, grid: seq<seq<Tree>>, y: nat)
    requires |v.mv| == 256
  {
    forall j :: 0 <= j < |grid| ==> WholeRow(v, grid[j], y + 8 * j)
  }

  function GridWritten(code: Coder, grid: seq<seq<Tree>>): Streams {
    if grid == [] then Streams([], [], []) else Cat(RowWritten(code, grid[0]), GridWritten(code, grid[1..]))
  }

  function GridLeaves(v: Video, grid: seq<seq<Tree>>, y: nat): seq<Leaf>
    requires |v.mv| == 256
  {
    if grid == [] then [] else RowLeaves(v, grid[0], 0, y) + GridLeaves(v, grid[1..], y + 8)
  }

  lemma GridTail(v: Video, grid: seq<seq<Tree>>, y: nat, y8: nat)
    requires |v.mv| == 256 && grid != [] && ValidGrid(v, grid, y) && y8 == y + 8
    ensures WholeRow(v, grid[0], y) && ValidGrid(v, grid[1..], y8)
    ensures GridLeaves(v, grid, y) == RowLeaves(v, grid[0], 0, y) + GridLeaves(v, grid[1..], y8)
  {
    assert WholeRow(v, grid[0], y + 8 * 0);
    forall j | 0 <= j < |grid[1..]|
      ensures WholeRow(v, grid[1..][j], y8 + 8 * j)
    {
      assert WholeRow(v, grid[j + 1], y + 8 * (j + 1));
    }
  }

  /** Length of the last type in a frame. */
  function LastOfGrid(code: Coder, grid: seq<seq<Tree>>): (r: nat)
    ensures r <= |GridWritten(code, grid).bits|
  {
    if grid == [] then 0 else if |grid| == 1 then LastOfRow(code, grid[0]) else LastOfGrid(code, grid[1..])
  }

  lemma LoneRow(code: Coder, grid: seq<seq<Tree>>)
    requires |grid| == 1
    ensures grid[1..] == [] && GridWritten(code, grid) == RowWritten(code, grid[0])
  {
    var w := RowWritten(code, grid[0]);
    Slices.Nothing(w.bits);
    Slices.Nothing(w.bytes);
    Slices.Nothing(w.words);
  }

  lemma {:induction false} GridReadBack(v: Video, code: Coder, s: Streams, pad: Code, grid: seq<seq<Tree>>, y: nat, rest: Streams)
    requires Ready(v) && v.types == VlcTables(v.newer) && code == TypeCoder(v.newer)
    requires y + 8 * |grid| == v.height && ValidGrid(v, grid, y)
    requires Stands(s, pad, GridWritten(code, grid), LastOfGrid(code, grid), rest)
    ensures Rows(v, s, y) == Parsed(true, GridLeaves(v, grid, y), rest)
    decreases |grid|
  {
    var y8 := y + 8;
    if grid == [] {
      NothingLeft(s, pad, rest);
    } else if |grid| == 1 {
      GridTail(v, grid, y, y8);
      LoneRow(code, grid);
      RowsStep(v, s, y, y8);
      RowReadBack(v, code, s, pad, grid[0], 0, y, rest);
    } else {
      GridTail(v, grid, y, y8);
      RowsStep(v, s, y, y8);
      var later := Peel(s, pad, RowWritten(code, grid[0]), GridWritten(code, grid[1..]), LastOfGrid(code, grid), rest);
      RowReadBack(v, code, s, [], grid[0], 0, y, later);
      GridReadBack(v, code, later, pad, grid[1..], y8, rest);
    }
  }

  // ----- the picture

  lemma {:induction false} RowUntouched(v: Video, last: seq<Pixel>, before: seq<Pixel>, row: seq<Tree>, x: nat, y: nat,
      px: nat, py: nat, k: nat)
    requires Ready(v) && |before| == v.width * v.height && px < v.width && py < v.height && k == py * v.width + px < |before|
    requires x + 8 * |row| == v.width && y + 8 <= v.height && ValidRow(v, row, x, y)
    requires px < x || !(y <= py < y + 8)
    ensures Draw(v, last, before, RowLeaves(v, row, x, y))[k] == before[k]
    decreases |row|
  {
    if row != [] {
      var x8 := x + 8;
      RowTail(v, row, x, y, x8);
      EightFit(v, x, y);
      var between := Draw(v, last, before, LeavesOf(v, row[0], x, y, 3, 3));
      BlockDrawn(v, last, before, row[0], x, y, 3, 3, px, py, k);
      OutsideEight(x, y, px, py);
      RowUntouched(v, last, between, row[1..], x8, y, px, py, k);
      DrawAppend(v, last, before, LeavesOf(v, row[0], x, y, 3, 3), RowLeaves(v, row[1..], x8, y));
    }
  }

  lemma OutsideEight(x: nat, y: nat, px: nat, py: nat)
    ensures InBlock(x, y, 3, 3, px, py) <==> x <= px < x + 8 && y <= py < y + 8
  {
  }

  lemma {:induction false} RowDrawn(v: Video, last: seq<Pixel>, before: seq<Pixel>, row: seq<Tree>, x: nat, y: nat, i: nat,
      xi: nat, px: nat, py: nat, k: nat)
    requires Ready(v) && |before| == v.width * v.height && px < v.width && py < v.height && k == py * v.width + px < |before|
    requires x + 8 * |row| == v.width && y + 8 <= v.height && ValidRow(v, row, x, y)
    requires i < |row| && xi == x + 8 * i && xi <= px < xi + 8 && y <= py < y + 8
    ensures Draw(v, last, before, RowLeaves(v, row, x, y))[k]
      == Shows(v, last, row[i], xi, y, 3, 3, px, py, before[k])
    decreases |row|
  {
    var x8 := x + 8;
    RowTail(v, row, x, y, x8);
    EightFit(v, x, y);
    var between := Draw(v, last, before, LeavesOf(v, row[0], x, y, 3, 3));
    BlockDrawn(v, last, before, row[0], x, y, 3, 3, px, py, k);
    OutsideEight(x, y, px, py);
    DrawAppend(v, last, before, LeavesOf(v, row[0], x, y, 3, 3), RowLeaves(v, row[1..], x8, y));
    if i == 0 {
      RowUntouched(v, last, between, row[1..], x8, y, px, py, k);
    } else {
      RowDrawn(v, last, between, row[1..], x8, y, i - 1, xi, px, py, k);
    }
  }

  lemma {:induction false} GridUntouched(v: Video, last: seq<Pixel>, before: seq<Pixel>, grid: seq<seq<Tree>>, y: nat,
      px: nat, py: nat, k: nat)
    requires Ready(v) && |before| == v.width * v.height && px < v.width && py < v.height && k == py * v.width + px < |before|
    requires y + 8 * |grid| == v.height && ValidGrid(v, grid, y) && py < y
    ensures Draw(v, last, before, GridLeaves(v, grid, y))[k] == before[k]
    decreases |grid|
  {
    if grid != [] {
      var y8 := y + 8;
      GridTail(v, grid, y, y8);
      var between := Draw(v, last, before, RowLeaves(v, grid[0], 0, y));
      RowUntouched(v, last, before, grid[0], 0, y, px, py, k);
      GridUntouched(v, last, between, grid[1..], y8, px, py, k);
      DrawAppend(v, last, before, RowLeaves(v, grid[0], 0, y), GridLeaves(v, grid[1..], y8));
    }
  }

  lemma {:induction false} GridDrawn(v: Video, last: seq<Pixel>, before: seq<Pixel>, grid: seq<seq<Tree>>, y: nat, j: nat,
      yj: nat, i: nat, xi: nat, px: nat, py: nat, k: nat)
    requires Ready(v) && |before| == v.width * v.height && px < v.width && py < v.height && k == py * v.width + px < |before|
    requires y + 8 * |grid| == v.height && ValidGrid(v, grid, y)
    requires j < |grid| && yj == y + 8 * j && yj <= py < yj + 8 && i < |grid[j]| && xi == 8 * i && xi <= px < xi + 8
    ensures Draw(v, last, before, GridLeaves(v, grid, y))[k]
      == Shows(v, last, grid[j][i], xi, yj, 3, 3, px, py, before[k])
    decreases |grid|
  {
    var y8 := y + 8;
    GridTail(v, grid, y, y8);
    var between := Draw(v, last, before, RowLeaves(v, grid[0], 0, y));
    DrawAppend(v, last, before, RowLeaves(v, grid[0], 0, y), GridLeaves(v, grid[1..], y8));
    if j == 0 {
      RowDrawn(v, last, before, grid[0], 0, y, i, xi, px, py, k);
      GridUntouched(v, last, between, grid[1..], y8, px, py, k);
    } else {
      RowUntouched(v, last, before, grid[0], 0, y, px, py, k);
      GridDrawn(v, last, between, grid[1..], y8, j - 1, yj, i, xi, px, py, k);
    }
  }

  /** A grid of blocks for the whole frame. */
  ghost predicate ValidFrame(v: Video, grid: seq<seq<Tree>>)
    requires |v.mv| == 256
  {
    8 * |grid| == v.height && ValidGrid(v, grid, 0)
  }

  /** The picture after these leaves holds, at k, what t at (x, y) shows at (px, py). */
  ghost predicate ShownAt(v: Video, last: seq<Pixel>, before: seq<Pixel>, leaves: seq<Leaf>, k: nat, t: Tree, x: nat, y: nat,
      px: nat, py: nat)
    requires v.width > 0
  {
    k < |before| && Draw(v, last, before, leaves)[k] == Shows(v, last, t, x, y, 3, 3, px, py, before[k])
  }

  /**
   Streams that stand for a frame are decoded, whatever follows in them: they are read up to where the frame's parts end,
   and each pixel becomes what the block over it shows.
   */
  lemma FrameReadBack(v: Video, s: Streams, pad: Code, grid: seq<seq<Tree>>, rest: Streams, last: seq<Pixel>, before: seq<Pixel>,
      px: nat, py: nat, k: nat, i: nat, j: nat, left: nat, top: nat)
    requires |v.mv| == 256 && v.width > 0 && v.types == VlcTables(v.newer) && ValidFrame(v, grid)
    requires var code := TypeCoder(v.newer); Stands(s, pad, GridWritten(code, grid), LastOfGrid(code, grid), rest)
    requires |before| == v.width * v.height && px < v.width && py < v.height && k == py * v.width + px
    requires left == 8 * i && left <= px < left + 8 && top == 8 * j && top <= py < top + 8
    ensures Ready(v) && j < |grid| && i < |grid[j]|
    ensures var p := Rows(v, s, 0);
      p.ok && p.rest == rest && ShownAt(v, last, before, p.leaves, k, grid[j][i], left, top, px, py)
  {
    TablesReady(v);
    LastRow(v, px, py);
    GridReadBack(v, TypeCoder(v.newer), s, pad, grid, 0, rest);
    assert WholeRow(v, grid[j], top);
    GridDrawn(v, last, before, grid, 0, j, top, i, left, px, py, k);
  }
}
