/** decode_p_block and mcdc over the two frame buffers and the three input streams. */
module PBlockDecoder {
  import opened PBlocks
  import opened PBlockProofs
  import Slices

  class Decoder {
    const video: Video
    const frame: array<Pixel>
    const last: array<Pixel>
    var bits: seq<bool>
    var bytes: seq<nat>
    var words: seq<nat>

    ghost predicate Valid() {
      && Ready(video) && frame != last
      && frame.Length == last.Length == video.width * video.height
    }

    function Input(): Streams
      reads this
    {
      Streams(bits, bytes, words)
    }

    constructor (video: Video, frame: array<Pixel>, last: array<Pixel>, s: Streams)
      requires Ready(video) && frame != last
      requires frame.Length == last.Length == video.width * video.height
      ensures Valid() && Input() == s && this.video == video && this.frame == frame && this.last == last
    {
      this.video, this.frame, this.last := video, frame, last;
      bits, bytes, words := s.bits, s.bytes, s.words;
    }

    /** Two pixels of a motion copy at once, as one 32-bit word with the left pixel in the low half. */
    method McDcPair(to: nat, from: nat, scale: nat, dc: Pixel, ghost leaf: Leaf, ghost r: nat, ghost k: nat,
                    ghost c: nat, ghost c2: nat, ghost before: seq<Pixel>)
      requires Valid() && ValidLeaf(video, leaf) && r < Side(leaf.log2h) && c2 <= Side(leaf.log2w)
      requires leaf.action.Copy? && leaf.action == Copy(leaf.action.src, scale, dc) && scale <= 1
      requires c == 2 * k && c2 == c + 2 && to == Base(video, leaf.x, leaf.y) + r * video.width + c
      requires from == leaf.action.src + (if scale == 0 then 0 else r * video.width) + c
      requires |before| == frame.Length && frame[..] == DrawnTo(video, last[..], before, leaf, r, c)
      modifies frame
      ensures frame[..] == DrawnTo(video, last[..], before, leaf, r, c2)
    {
      TwoPixels(video, last[..], before, leaf, r, k, c, c2);
      var packed := Packed(last[from], last[from + 1], scale, dc);
      frame[to], frame[to + 1] := packed % 0x1_0000, packed / 0x1_0000 % 0x1_0000;
    }

    /** One row of a motion copy two or more pixels wide; the words are added without separating their pixels. */
    method McDcRow(to: nat, from: nat, log2w: nat, scale: nat, dc: Pixel, ghost r: nat, ghost r1: nat,
                   ghost leaf: Leaf, ghost before: seq<Pixel>)
      requires Valid() && scale <= 1 && ValidLeaf(video, leaf) && r < Side(leaf.log2h) && r1 == r + 1
      requires leaf.log2w == log2w > 0 && leaf.action.Copy? && leaf.action == Copy(leaf.action.src, scale, dc)
      requires from == leaf.action.src + (if scale == 0 then 0 else r * video.width)
      requires to == Base(video, leaf.x, leaf.y) + r * video.width
      requires |before| == frame.Length && frame[..] == DrawnTo(video, last[..], before, leaf, r, 0)
      modifies frame
      ensures frame[..] == DrawnTo(video, last[..], before, leaf, r1, 0)
    {
      ghost var reference, pairs, k: nat := last[..], Side(log2w - 1), 0;
      var c, w: nat := 0, Side(log2w);
      while c < w
        invariant c == 2 * k && k <= pairs && w == 2 * pairs
        invariant frame[..] == DrawnTo(video, reference, before, leaf, r, c)
      {
        k := k + 1;
        McDcPair(to + c, from + c, scale, dc, leaf, r, k - 1, c, 2 * k, before);
        c := c + 2;
      }
      NextRow(video, reference, before, leaf, r, r1, c);
    }

    /** One row of a motion copy one pixel wide. */
    method McDcPixel(to: nat, from: nat, scale: nat, dc: Pixel, ghost r: nat, ghost r1: nat,
                     ghost leaf: Leaf, ghost before: seq<Pixel>)
      requires Valid() && scale <= 1 && ValidLeaf(video, leaf) && r < Side(leaf.log2h) && r1 == r + 1
      requires leaf.log2w == 0 && leaf.action.Copy? && leaf.action == Copy(leaf.action.src, scale, dc)
      requires from == leaf.action.src + (if scale == 0 then 0 else r * video.width)
      requires to == Base(video, leaf.x, leaf.y) + r * video.width
      requires |before| == frame.Length && frame[..] == DrawnTo(video, last[..], before, leaf, r, 0)
      modifies frame
      ensures frame[..] == DrawnTo(video, last[..], before, leaf, r1, 0)
    {
      NarrowRow(video, last[..], before, leaf, r, r1);
      frame[to] := (scale * last[from] + dc) % 0x1_0000;
    }

    /** Motion copy with brightness offset. */
    method McDc(dst: nat, src: nat, log2w: nat, log2h: nat, scale: nat, dc: Pixel, ghost leaf: Leaf)
      requires Valid() && scale <= 1 && ValidLeaf(video, leaf)
      requires leaf == Leaf(leaf.x, leaf.y, log2w, log2h, Copy(src, scale, dc))
      requires dst == Base(video, leaf.x, leaf.y)
      modifies frame
      ensures frame[..] == DrawLeaf(video, last[..], old(frame[..]), leaf)
    {
      ghost var before := frame[..];
      var from, to := src, dst;
      var r: nat := 0;
      StartDrawing(video, last[..], before, leaf);
      while r < Side(log2h)
        invariant r <= Side(log2h)
        invariant from == src + if scale == 0 then 0 else r * video.width
        invariant to == dst + r * video.width
        invariant frame[..] == DrawnTo(video, last[..], before, leaf, r, 0)
      {
        ghost var r1 := r + 1;
        if log2w == 0 {
          McDcPixel(to, from, scale, dc, r, r1, leaf, before);
        } else {
          McDcRow(to, from, log2w, scale, dc, r, r1, leaf, before);
        }
        SumOfProducts(r, 1, video.width);
        if scale != 0 {
          from := from + video.width;
        }
        to := to + video.width;
        r := r + 1;
      }
    }

    /** The part of decode_p_block for types that end the recursion. */
    method DecodeLeaf(dst: nat, src: nat, log2w: nat, log2h: nat, code: nat, ghost x: nat, ghost y: nat)
      returns (ok: bool)
      requires Valid() && Fits(video, x, y, log2w, log2h) && log2w + log2h > 0
      requires code in {0, 3, 4, 5, 6} && (code == 6 ==> log2w == 0 || log2h == 0)
      requires dst == src == Base(video, x, y)
      modifies this`bytes, this`words, frame
      ensures var p := LeafBlock(video, old(Input()), x, y, log2w, log2h, code);
        ok == p.ok && Input() == p.rest && frame[..] == Draw(video, last[..], old(frame[..]), p.leaves)
    {
      ghost var s := Input();
      ghost var before := frame[..];
      ghost var p := LeafBlock(video, s, x, y, log2w, log2h, code);
      LeafFits(video, s, x, y, log2w, log2h, code);
      if p.ok {
        assert p.leaves == [p.leaves[0]];
        DrawOne(video, last[..], before, p.leaves[0]);
      }
      if code == 6 {
        if |words| < 4 {
          return false;
        }
        PairDrawn(video, last[..], before, p.leaves[0]);
        frame[dst] := Word(words);
        frame[if log2w > 0 then dst + 1 else dst + video.width] := Word(words[2..]);
        words := words[4..];
        return true;
      }
      if code % 4 == 0 && bytes == [] {
        return false;
      }
      var from: int, scale, dc: Pixel := src, 1, 0;
      if code == 0 {
        from := from + video.mv[bytes[0] % 0x100];
        bytes := bytes[1..];
      } else if code == 3 && video.newer {
        SkipDrawn(video, last[..], before, p.leaves[0]);
        return true;
      } else if code == 4 {
        from := from + video.mv[bytes[0] % 0x100];
        bytes := bytes[1..];
        if |words| < 2 {
          return false;
        }
        dc := Word(words);
        words := words[2..];
      } else if code == 5 {
        if |words| < 2 {
          return false;
        }
        OwnPlaceInPicture(video, x, y, log2w, log2h);
        assert InPicture(video, from, log2w, log2h);
        scale := 0;
        dc := Word(words);
        words := words[2..];
      }
      if !InPicture(video, from, log2w, log2h) {
        return false;
      }
      McDc(dst, from, log2w, log2h, scale, dc, p.leaves[0]);
      return true;
    }

    method DecodePBlock(dst: nat, src: nat, log2w: nat, log2h: nat, ghost x: nat, ghost y: nat) returns (ok: bool)
      requires Valid() && log2w < 4 && log2h < 4 && log2w + log2h > 0
      requires Fits(video, x, y, log2w, log2h) && dst == src == Base(video, x, y)
      modifies this`bits, this`bytes, this`words, frame
      ensures var p := Block(video, old(Input()), x, y, log2w, log2h);
        ok == p.ok && Input() == p.rest && frame[..] == Draw(video, last[..], old(frame[..]), p.leaves)
      decreases log2w + log2h, 0
    {
      if bits == [] {
        return false;
      }
      ghost var s := Input();
      var (code, len) := BlockType(video, Input(), log2w, log2h);
      bits := Skipped(bits, len);
      SplitCases(video, s, x, y, log2w, log2h, Input());
      SplitBlock(video, x, y, log2w, log2h, x, y);
      if code == 1 {
        ok := DecodeHalves(dst, src, log2w, log2h - 1, false, x, y);
      } else if code == 2 {
        ok := DecodeHalves(dst, src, log2w - 1, log2h, true, x, y);
      } else {
        ok := DecodeLeaf(dst, src, log2w, log2h, code, x, y);
      }
    }

    method DecodeHalves(dst: nat, src: nat, log2w: nat, log2h: nat, across: bool, ghost x: nat, ghost y: nat)
      returns (ok: bool)
      requires Valid() && log2w < 4 && log2h < 4 && log2w + log2h > 0
      requires BothFit(video, x, y, log2w, log2h, across) && dst == src == Base(video, x, y)
      modifies this`bits, this`bytes, this`words, frame
      ensures var p := Halves(video, old(Input()), x, y, log2w, log2h, across);
        ok == p.ok && Input() == p.rest && frame[..] == Draw(video, last[..], old(frame[..]), p.leaves)
      decreases log2w + log2h, 1
    {
      ghost var before, reference, v := frame[..], last[..], video;
      ghost var x2 := if across then x + Side(log2w) else x;
      ghost var y2 := if across then y else y + Side(log2h);
      SecondHalf(v, x, y, log2w, log2h, across, x2, y2);
      HalvesAre(v, Input(), x, y, log2w, log2h, across, x2, y2);
      ghost var first := Block(v, Input(), x, y, log2w, log2h);
      ok := DecodePBlock(dst, src, log2w, log2h, x, y);
      if ok {
        var step := if across then Side(log2w) else Side(log2h) * video.width;
        ok := DecodePBlock(dst + step, src + step, log2w, log2h, x2, y2);
        DrawAppend(v, reference, before, first.leaves, Block(v, first.rest, x2, y2, log2w, log2h).leaves);
      }
    }

    /** One 8x8 block after others of its row: what is drawn and what is still to come. */
    method DecodeTile(dst: nat, src: nat, ghost x: nat, ghost x8: nat, ghost y: nat, ghost drawn: seq<Leaf>,
                      ghost before: seq<Pixel>)
      returns (ok: bool, ghost more: seq<Leaf>)
      requires Valid() && x8 == x + 8 <= video.width && y + 8 <= video.height && dst == src == Base(video, x, y)
      requires |before| == frame.Length && frame[..] == Draw(video, last[..], before, drawn)
      modifies this`bits, this`bytes, this`words, frame
      ensures frame[..] == Draw(video, last[..], before, more)
      ensures Then(Parsed(true, drawn, old(Input())), Row(video, old(Input()), x, y))
              == if ok then Then(Parsed(true, more, Input()), Row(video, Input(), x8, y))
                 else Parsed(false, more, Input())
    {
      ghost var first := Block(video, Input(), x, y, 3, 3);
      RowStep(video, Input(), x, y, x8);
      Advance(video, last[..], before, drawn, Input(), first, Row(video, first.rest, x8, y));
      ok := DecodePBlock(dst, src, 3, 3, x, y);
      more := drawn + first.leaves;
    }

    /** The inner loop of decode_p_frame. */
    method DecodeRow(dst: nat, src: nat, ghost y: nat) returns (ok: bool)
      requires Valid() && video.width % 8 == 0 && y + 8 <= video.height && dst == src == Base(video, 0, y)
      modifies this`bits, this`bytes, this`words, frame
      ensures var p := Row(video, old(Input()), 0, y);
        ok == p.ok && Input() == p.rest && frame[..] == Draw(video, last[..], old(frame[..]), p.leaves)
    {
      ghost var s, before, reference, v := Input(), frame[..], last[..], video;
      ghost var drawn: seq<Leaf> := [];
      ghost var n, c: nat := v.width / 8, 0;
      var x: nat := 0;
      ghost var whole := Row(v, s, 0, y);
      ThenNothing(whole, s);
      while x < video.width
        invariant x == 8 * c && c <= n
        invariant whole == Then(Parsed(true, drawn, Input()), Row(v, Input(), x, y))
        invariant frame[..] == Draw(v, reference, before, drawn)
      {
        c := c + 1;
        ok, drawn := DecodeTile(dst + x, src + x, x, 8 * c, y, drawn, before);
        if !ok {
          return;
        }
        x := x + 8;
      }
      Slices.Nothing(drawn);
      return true;
    }

    /** One row of blocks after others of the frame. */
    method DecodeNextRow(dst: nat, src: nat, ghost y: nat, ghost y8: nat, ghost drawn: seq<Leaf>,
                         ghost before: seq<Pixel>)
      returns (ok: bool, ghost more: seq<Leaf>)
      requires Valid() && video.width % 8 == 0 && y8 == y + 8 <= video.height && dst == src == Base(video, 0, y)
      requires |before| == frame.Length && frame[..] == Draw(video, last[..], before, drawn)
      modifies this`bits, this`bytes, this`words, frame
      ensures frame[..] == Draw(video, last[..], before, more)
      ensures Then(Parsed(true, drawn, old(Input())), Rows(video, old(Input()), y))
              == if ok then Then(Parsed(true, more, Input()), Rows(video, Input(), y8))
                 else Parsed(false, more, Input())
    {
      ghost var first := Row(video, Input(), 0, y);
      RowsStep(video, Input(), y, y8);
      Advance(video, last[..], before, drawn, Input(), first, Rows(video, first.rest, y8));
      ok := DecodeRow(dst, src, y);
      more := drawn + first.leaves;
    }

    /** decode_p_frame from the point where the three streams are set up. */
    method DecodePFrame() returns (ok: bool)
      requires Valid() && video.width % 8 == 0 && video.height % 8 == 0
      modifies this`bits, this`bytes, this`words, frame
      ensures var p := Rows(video, old(Input()), 0);
        ok == p.ok && Input() == p.rest && frame[..] == Draw(video, last[..], old(frame[..]), p.leaves)
    {
      ghost var s, before, reference, v := Input(), frame[..], last[..], video;
      ghost var drawn: seq<Leaf> := [];
      ghost var n, c: nat := v.height / 8, 0;
      var y, dst, src: nat := 0, 0, 0;
      ghost var whole := Rows(v, s, 0);
      ThenNothing(whole, s);
      while y < video.height
        invariant y == 8 * c && c <= n && dst == src == y * v.width
        invariant whole == Then(Parsed(true, drawn, Input()), Rows(v, Input(), y))
        invariant frame[..] == Draw(v, reference, before, drawn)
      {
        SumOfProducts(y, 8, v.width);
        c := c + 1;
        ok, drawn := DecodeNextRow(dst, src, y, 8 * c, drawn, before);
        if !ok {
          return;
        }
        dst, src, y := dst + 8 * video.width, src + 8 * video.width, y + 8;
      }
      Slices.Nothing(drawn);
      return true;
    }
  }
}
