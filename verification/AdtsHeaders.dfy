/**
 The ADTS header bit by bit (section 1.A.2.2 of ISO/IEC 14496-3): which bits the splitter reads, frames written field
 by field, and what comes out of a stream of them.
 */
module AdtsHeaders {
  import opened Sums
  import opened BitStrings
  import opened AdtsStream
  import AdtsChunks
  import Slices

  /** The bits of some bytes, most significant first. */
  function Bits(bytes: seq<Byte>): (c: Code)
    ensures |c| == 8 * |bytes|
  {
    if bytes == [] then [] else Codeword(bytes[0], 8) + Bits(bytes[1..])
  }

  // ----- numbers within bit strings

  /** A bit string in three parts. */
  lemma ThreeParts(front: Code, field: Code, back: Code, a: nat, b: nat)
    requires a == Pow2(|back|) && b == Pow2(|field|)
    ensures Value(front + (field + back)) == Value(front) * (b * a) + (Value(field) * a + Value(back))
    ensures Value(field) < b && Value(back) < a
  {
    ValueAppend(front, field + back);
    ValueAppend(field, back);
    ValueBelow(field);
    ValueBelow(back);
    Pow2Add(|field|, |back|);
  }

  /** A byte of which the first i bits are cut off and the next n are read. */
  lemma ByteField(h: Byte, i: nat, n: nat, a: nat, b: nat)
    requires i + n <= 8 && a == Pow2(8 - i - n) && b == Pow2(n)
    ensures Value(Codeword(h, 8)[i..i + n]) == (h as int) / a % b
  {
    var c, k := Codeword(h, 8), i + n;
    Slices.InThree(c, i, k);
    ThreeParts(c[..i], c[i..k], c[k..], a, b);
    Pow2Eight();
    ValueCodeword(h, 8);
    Cut(Value(c[..i]), Value(c[i..k]), Value(c[k..]), a, b);
  }

  lemma Cut(x: nat, y: nat, z: nat, a: nat, b: nat)
    requires y < b && z < a
    ensures (x * (b * a) + (y * a + z)) / a % b == y
  {
    var q := x * b + y;
    assert x * (b * a) + (y * a + z) == q * a + z;
    DivMod(q, a, z);
    DivMod(x, b, y);
  }

  lemma Pow2Eight()
    ensures Pow2(0) == 1 && Pow2(1) == 2 && Pow2(2) == 4 && Pow2(3) == 8 && Pow2(4) == 16
    ensures Pow2(5) == 32 && Pow2(6) == 64 && Pow2(7) == 128 && Pow2(8) == 256
  {
  }

  // ----- what the splitter reads

  lemma {:induction false} BitsOf(bytes: seq<Byte>, k: nat)
    requires k < |bytes|
    ensures Bits(bytes)[8 * k..8 * k + 8] == Codeword(bytes[k], 8)
  {
    if k > 0 {
      var n := k - 1;
      BitsOf(bytes[1..], n);
      Slices.CutLater(Codeword(bytes[0], 8), Bits(bytes[1..]), 8 * n, 8 * n + 8);
    }
  }

  lemma {:induction false} AllOnes(c: Code)
    ensures Value(c) == Pow2(|c|) - 1 <==> forall i :: 0 <= i < |c| ==> c[i]
  {
    if c != [] {
      var n := |c| - 1;
      AllOnes(c[..n]);
      ValueBelow(c[..n]);
      assert c == c[..n] + [c[n]];
    }
  }

  /** n bits from bit i of byte k on. */
  lemma Field(bytes: seq<Byte>, k: nat, i: nat, n: nat, lo: nat, hi: nat, a: nat, b: nat)
    requires k < |bytes| && i + n <= 8 && lo == 8 * k + i && hi == lo + n && a == Pow2(8 - i - n) && b == Pow2(n)
    ensures hi <= 8 * |bytes| && Value(Bits(bytes)[lo..hi]) == (bytes[k] as int) / a % b
  {
    var c := Bits(bytes);
    BitsOf(bytes, k);
    Slices.Inner(c, 8 * k, 8 * k + 8, i, i + n);
    ByteField(bytes[k], i, n, a, b);
  }

  lemma ValueSplit(c: Code, lo: nat, mid: nat, hi: nat, b: nat)
    requires lo <= mid <= hi <= |c| && b == Pow2(hi - mid)
    ensures Value(c[lo..hi]) == Value(c[lo..mid]) * b + Value(c[mid..hi])
  {
    assert c[lo..hi] == c[lo..mid] + c[mid..hi];
    ValueAppend(c[lo..mid], c[mid..hi]);
  }

  lemma WholeByte(bytes: seq<Byte>, k: nat, lo: nat, hi: nat)
    requires k < |bytes| && lo == 8 * k && hi == lo + 8
    ensures hi <= 8 * |bytes| && Value(Bits(bytes)[lo..hi]) == bytes[k]
  {
    BitsOf(bytes, k);
    Pow2Eight();
    ValueCodeword(bytes[k], 8);
  }

  /** The first n bits of byte k. */
  lemma TopField(bytes: seq<Byte>, k: nat, n: nat, lo: nat, hi: nat, a: nat)
    requires k < |bytes| && n <= 8 && lo == 8 * k && hi == lo + n && a == Pow2(8 - n)
    ensures hi <= 8 * |bytes| && Value(Bits(bytes)[lo..hi]) == (bytes[k] as int) / a
  {
    var h: int := bytes[k];
    Field(bytes, k, 0, n, lo, hi, a, Pow2(n));
    Pow2Eight();
    Pow2Add(n, 8 - n);
    Fits(h, a, Pow2(n));
  }

  lemma Fits(h: nat, a: nat, b: nat)
    requires h < b * a && a > 0 && b > 0
    ensures h / a % b == h / a
  {
    var q := h / a;
    assert q * a <= h;
    Below(q, b, a);
    DivMod(0, b, q);
  }

  lemma Below(q: nat, b: nat, a: nat)
    requires q * a < b * a
    ensures q < b
  {
    assert q >= b ==> q * a >= b * a;
  }

  lemma TwelveBits(h: seq<Byte>)
    requires |h| == HEADER_SIZE
    ensures Value(Bits(h)[0..12]) == (h[0] as int) * 16 + (h[1] as int) / 16
  {
    Pow2Eight();
    WholeByte(h, 0, 0, 8);
    TopField(h, 1, 4, 8, 12, 16);
    ValueSplit(Bits(h), 0, 8, 12, 16);
  }

  /** The syncword: twelve ones. */
  lemma Syncword(h: seq<Byte>)
    requires |h| == HEADER_SIZE
    ensures (forall i :: 0 <= i < 12 ==> Bits(h)[i]) <==> h[0] == 0xff && h[1] / 16 == 0xf
  {
    TwelveBits(h);
    var c := Bits(h)[0..12];
    AllOnes(c);
    Pow2Twelve();
    assert (forall i :: 0 <= i < 12 ==> Bits(h)[i]) <==> forall i :: 0 <= i < |c| ==> c[i];
  }

  lemma Pow2Twelve()
    ensures Pow2(11) == 2048 && Pow2(12) == 4096 && Pow2(13) == 8192
  {
    Pow2Eight();
    assert Pow2(9) == 512 && Pow2(10) == 1024;
  }

  /** The sampling frequency index. */
  lemma RateBits(h: seq<Byte>)
    requires |h| == HEADER_SIZE
    ensures Value(Bits(h)[18..22]) == (h[2] as int) / 4 % 16
  {
    Pow2Eight();
    Field(h, 2, 2, 4, 18, 22, 4, 16);
  }

  /** aac_frame_length. */
  lemma LengthBits(h: seq<Byte>)
    requires |h| == HEADER_SIZE
    ensures Value(Bits(h)[30..43]) == (h[3] as int) % 4 * 2048 + (h[4] as int) * 8 + h[5] / 32
  {
    var c, x: int := Bits(h), h[3];
    Pow2Eight();
    Pow2Twelve();
    Field(h, 3, 6, 2, 30, 32, 1, 4);
    assert x / 1 == x;
    WholeByte(h, 4, 32, 40);
    TopField(h, 5, 3, 40, 43, 32);
    ValueSplit(c, 32, 40, 43, 8);
    ValueSplit(c, 30, 32, 43, 2048);
  }

  /** The announced length, told from the bits: syncword, a frequency index with a rate, and a length that holds a header. */
  lemma LengthFromBits(h: seq<Byte>)
    requires |h| == HEADER_SIZE
    ensures var b := Bits(h); var length := Value(b[30..43]);
      FrameLength(h[0], h[1], h[2], h[3], h[4], h[5]) ==
      if (forall i :: 0 <= i < 12 ==> b[i]) && Value(b[18..22]) < 13 && length >= 7 then length else 0
  {
    Syncword(h);
    RateBits(h);
    LengthBits(h);
  }

  // ----- frames written field by field

  /**
   A frame: version, layer and protection bits; profile; sampling frequency index; the flags and channels up to the
   length; the buffer fullness and block count after it; the data.
   */
  datatype Frame = Frame(version: nat, profile: nat, rate: nat, channels: nat, fullness: nat, payload: seq<Byte>)

  predicate ValidFrame(f: Frame) {
    && f.version < 16 && f.profile < 4 && f.rate < 13 && f.channels < 256 && f.fullness < 8192
    && |f.payload| + HEADER_SIZE < 8192
  }

  function HeaderCode(f: Frame): (c: Code)
    ensures |c| == 56
  {
    Codeword(0xfff, 12) + Codeword(f.version, 4) + Codeword(f.profile, 2) + Codeword(f.rate, 4) + Codeword(f.channels, 8)
    + Codeword(|f.payload| + HEADER_SIZE, 13) + Codeword(f.fullness, 13)
  }

  /** Bytes, eight bits each. */
  function Bytes(c: Code): (r: seq<Byte>)
    requires |c| % 8 == 0
    ensures |r| == |c| / 8
  {
    if c == [] then []
    else
      ValueBelow(c[..8]);
      Pow2Eight();
      [Value(c[..8])] + Bytes(c[8..])
  }

  lemma {:induction false} BitsOfBytes(c: Code)
    requires |c| % 8 == 0
    ensures Bits(Bytes(c)) == c
    decreases |c|
  {
    if c != [] {
      ValueBelow(c[..8]);
      Pow2Eight();
      BitsOfBytes(c[8..]);
      CodewordValue(c[..8]);
      assert Bytes(c)[1..] == Bytes(c[8..]);
    }
  }

  function FrameBytes(f: Frame): (r: seq<Byte>)
    ensures |r| == HEADER_SIZE + |f.payload|
  {
    Bytes(HeaderCode(f)) + f.payload
  }

  lemma HeaderFields(f: Frame)
    requires ValidFrame(f)
    ensures var c := HeaderCode(f);
      && (forall i :: 0 <= i < 12 ==> c[i]) && Value(c[18..22]) == f.rate && Value(c[30..43]) == |f.payload| + HEADER_SIZE
  {
    var c := HeaderCode(f);
    var length := |f.payload| + HEADER_SIZE;
    assert c[0..12] == Codeword(0xfff, 12) && c[18..22] == Codeword(f.rate, 4) && c[30..43] == Codeword(length, 13);
    Pow2Eight();
    Pow2Twelve();
    ValueCodeword(0xfff, 12);
    ValueCodeword(f.rate, 4);
    ValueCodeword(length, 13);
    AllOnes(c[0..12]);
    assert forall i :: 0 <= i < 12 ==> c[i] == c[0..12][i];
  }

  /** Whatever its fields, a frame is well formed: the splitter reads its length off the header. */
  lemma FrameWellFormed(f: Frame)
    requires ValidFrame(f)
    ensures WellFormedFrame(FrameBytes(f))
  {
    var h := Bytes(HeaderCode(f));
    BitsOfBytes(HeaderCode(f));
    HeaderFields(f);
    LengthFromBits(h);
    assert FrameBytes(f)[..HEADER_SIZE] == h;
  }

  function AllBytes(frames: seq<Frame>): (r: seq<seq<Byte>>)
    ensures |r| == |frames| && forall i :: 0 <= i < |r| ==> r[i] == FrameBytes(frames[i])
  {
    seq(|frames|, i requires 0 <= i < |frames| => FrameBytes(frames[i]))
  }

  /** Fed in any chunks, a stream of frames comes out as exactly those frames. */
  lemma FramesReadBack(chunks: seq<seq<Byte>>, frames: seq<Frame>)
    requires forall i :: 0 <= i < |frames| ==> ValidFrame(frames[i])
    requires Concat(chunks) == Concat(AllBytes(frames))
    ensures AdtsChunks.Fed(chunks) == (AllBytes(frames), [])
  {
    forall i | 0 <= i < |frames|
      ensures WellFormedFrame(AllBytes(frames)[i])
    {
      FrameWellFormed(frames[i]);
    }
    AdtsChunks.FramesComeOut(chunks, AllBytes(frames));
  }

  /**
   Fed in any chunks, a stream of bytes without a header, frames and the beginning of one more comes out as those bytes
   in one unit, then the frames, and leaves the beginning over.
   */
  lemma StreamReadBack(chunks: seq<seq<Byte>>, lead: seq<Byte>, frames: seq<Frame>, last: Frame, n: nat, rest: seq<Byte>)
    requires frames != [] && (forall i :: 0 <= i < |frames| ==> ValidFrame(frames[i])) && ValidFrame(last)
    requires n < |FrameBytes(last)| && rest == Concat(AllBytes(frames)) + FrameBytes(last)[..n]
    requires FirstHeaderAfter(lead, rest) && Concat(chunks) == lead + rest
    ensures AdtsChunks.Fed(chunks) == ((if lead == [] then [] else [lead]) + AllBytes(frames), FrameBytes(last)[..n])
  {
    var all, part := AllBytes(frames), FrameBytes(last)[..n];
    forall i | 0 <= i < |frames|
      ensures WellFormedFrame(all[i])
    {
      FrameWellFormed(frames[i]);
    }
    FrameWellFormed(last);
    AdtsChunks.FedIsSplit(chunks);
    SplitFramesThen(all, part);
    PartialFrame(FrameBytes(last), n);
    Slices.Nothing(all);
    Slices.Nothing(rest);
    if lead != [] {
      Slices.Assoc(all[0], Concat(all[1..]), part);
      LeadingUnit(lead, rest, |all[0]|);
    }
  }
}
