/**
 ADTS streams (section 1.A.2.2 of ISO/IEC 14496-3): the header test on the 64-bit sliding state, and
 the reference splitting of a whole stream into units, which knows nothing of chunks.
 */
module AdtsStream {
  import opened Wrappers
  import Slices

  type Byte = x: int | 0 <= x < 256 witness 0

  const HEADER_SIZE: nat := 7

  /**
   ff_adts_header_parse on the first six of the seven header bytes: the announced frame length, or zero
   if they are no header.
   */
  function FrameLength(h0: Byte, h1: Byte, h2: Byte, h3: Byte, h4: Byte, h5: Byte): (size: nat)
    ensures size == 0 || size >= HEADER_SIZE
  {
    var size := h3 % 4 * 2048 + h4 * 8 + h5 / 32;
    if h0 != 0xff || h1 / 16 != 0xf then 0       // syncword
    else if h2 / 4 % 16 >= 13 then 0             // sampling frequency index without a rate
    else if size < HEADER_SIZE then 0
    else size
  }

  // ----- the sliding state

  /** The 64-bit state as its eight bytes, most significant first. */
  type State = s: seq<Byte> | |s| == 8 witness [0, 0, 0, 0, 0, 0, 0, 0]

  const RESET: State := [0, 0, 0, 0, 0, 0, 0, 0]

  /** (state << 8) + b in 64 bits. */
  function Shift(state: State, b: Byte): State {
    state[1..] + [b]
  }

  /** aac_sync: the header test on the low 56 bits. */
  function Sync(state: State): nat {
    FrameLength(state[1], state[2], state[3], state[4], state[5], state[6])
  }

  /** The state after scanning bytes from a reset. */
  function StateAfter(bytes: seq<Byte>): State {
    (RESET + bytes)[|bytes|..]
  }

  /** The frame length announced by the seven bytes that end after n bytes of s. */
  function Announced(s: seq<Byte>, n: nat): (size: nat)
    requires n <= |s|
    ensures size > 0 ==> size >= HEADER_SIZE && n >= HEADER_SIZE
  {
    if n < HEADER_SIZE then 0 else FrameLength(s[n - 7], s[n - 6], s[n - 5], s[n - 4], s[n - 3], s[n - 2])
  }

  /** Shifting byte after byte shows exactly the announcement of the last seven; fewer never are a header. */
  lemma SyncSeesAnnounced(s: seq<Byte>, n: nat)
    requires n < |s|
    ensures Shift(StateAfter(s[..n]), s[n]) == StateAfter(s[..n + 1])
    ensures Sync(StateAfter(s[..n + 1])) == Announced(s, n + 1)
  {
    var t := s[..n + 1];
    assert RESET + t == RESET + s[..n] + [s[n]];
    if n + 1 < HEADER_SIZE {
      assert StateAfter(t)[1] == 0;
    }
  }

  /** The shortest prefix of length at least n that ends a header. */
  function FirstSync(s: seq<Byte>, n: nat): (r: Option<nat>)
    ensures r.Some? ==> n <= r.value <= |s| && Announced(s, r.value) > 0
    ensures r.Some? ==> forall k :: n <= k < r.value ==> Announced(s, k) == 0
    ensures r.None? ==> forall k :: n <= k <= |s| ==> Announced(s, k) == 0
    decreases |s| + 1 - n
  {
    if n > |s| then None
    else if Announced(s, n) > 0 then Some(n)
    else FirstSync(s, n + 1)
  }

  lemma FirstSyncIs(s: seq<Byte>, n: nat)
    requires 1 <= n <= |s| && Announced(s, n) > 0
    requires forall k :: 1 <= k < n ==> Announced(s, k) == 0
    ensures FirstSync(s, 1) == Some(n)
  {
    var r := FirstSync(s, 1);
    assert r.Some?;
    assert r.value <= n;
  }

  // ----- the reference

  /** s starts with a header announcing len bytes. */
  predicate HeaderAt(s: seq<Byte>, len: nat) {
    |s| >= HEADER_SIZE && len > 0 && Announced(s, HEADER_SIZE) == len
  }

  lemma HeaderFirst(s: seq<Byte>, len: nat)
    requires HeaderAt(s, len)
    ensures FirstSync(s, 1) == Some(HEADER_SIZE)
  {
    FirstSyncIs(s, HEADER_SIZE);
  }

  /** Length of the first complete unit: the bytes before a header, or a whole frame. */
  function NextUnit(s: seq<Byte>): (r: Option<nat>)
    ensures r.Some? ==> 0 < r.value <= |s|
  {
    var r := FirstSync(s, 1);
    if r.None? then None
    else
      var start := r.value - HEADER_SIZE;
      var len := Announced(s, r.value);
      if start > 0 then Some(start)
      else if len <= |s| then Some(len)
      else None
  }

  /** Units of a stream, and what is left once no further unit is complete. */
  function Split(s: seq<Byte>): (seq<seq<Byte>>, seq<Byte>)
    decreases |s|
  {
    var r := NextUnit(s);
    if r.None? then ([], s)
    else
      var more := Split(s[r.value..]);
      ([s[..r.value]] + more.0, more.1)
  }

  function Concat(units: seq<seq<Byte>>): seq<Byte> {
    if units == [] then [] else units[0] + Concat(units[1..])
  }

  lemma SplitOne(s: seq<Byte>, u: seq<Byte>, t: seq<Byte>)
    requires s == u + t && NextUnit(s) == Some(|u|)
    ensures Split(s) == ([u] + Split(t).0, Split(t).1)
  {
    Slices.Front(u, t);
  }

  lemma ConcatCons(u: seq<Byte>, units: seq<seq<Byte>>)
    ensures Concat([u] + units) == u + Concat(units)
  {
    assert ([u] + units)[1..] == units;
  }

  /** Units and rest put together are s. */
  ghost predicate Makes(units: seq<seq<Byte>>, rest: seq<Byte>, s: seq<Byte>) {
    Concat(units) + rest == s
  }

  lemma MakesMore(u: seq<Byte>, units: seq<seq<Byte>>, rest: seq<Byte>, t: seq<Byte>)
    requires Makes(units, rest, t)
    ensures Makes([u] + units, rest, u + t)
  {
    ConcatCons(u, units);
    Slices.Assoc(u, Concat(units), rest);
  }

  /** Splitting loses nothing. */
  lemma {:induction false} SplitConserves(s: seq<Byte>)
    ensures Makes(Split(s).0, Split(s).1, s)
    decreases |s|
  {
    var r := NextUnit(s);
    if r.Some? {
      var u, t := s[..r.value], s[r.value..];
      assert s == u + t;
      SplitOne(s, u, t);
      SplitConserves(t);
      MakesMore(u, Split(t).0, Split(t).1, t);
    } else {
      Slices.Nothing(s);
    }
  }

  predicate WellFormedFrame(f: seq<Byte>) {
    HeaderAt(f, |f|)
  }

  lemma FrameUnit(f: seq<Byte>, rest: seq<Byte>)
    requires WellFormedFrame(f)
    ensures NextUnit(f + rest) == Some(|f|)
  {
    HeaderFirst(f + rest, |f|);
  }

  /** A concatenation of well-formed frames splits into exactly those frames. */
  lemma {:induction false} SplitFrames(frames: seq<seq<Byte>>)
    requires forall i :: 0 <= i < |frames| ==> WellFormedFrame(frames[i])
    ensures Split(Concat(frames)) == (frames, [])
  {
    if frames != [] {
      var f, rest := frames[0], Concat(frames[1..]);
      FrameUnit(f, rest);
      Slices.Front(f, rest);
      SplitFrames(frames[1..]);
      assert frames == [f] + frames[1..];
    } else {
      assert NextUnit([]).None?;
    }
  }

  // ----- streams that do not begin or end with a frame

  lemma {:induction false} SplitFramesThen(frames: seq<seq<Byte>>, rest: seq<Byte>)
    requires forall i :: 0 <= i < |frames| ==> WellFormedFrame(frames[i])
    ensures Split(Concat(frames) + rest) == (frames + Split(rest).0, Split(rest).1)
  {
    if frames == [] {
      Slices.Nothing(rest);
      Slices.Nothing(Split(rest).0);
    } else {
      var f, more := frames[0], Concat(frames[1..]) + rest;
      Slices.Assoc(f, Concat(frames[1..]), rest);
      FrameUnit(f, more);
      SplitOne(Concat(frames) + rest, f, more);
      SplitFramesThen(frames[1..], rest);
      Slices.FirstOver(frames, Split(rest).0);
    }
  }

  /** The beginning of a frame is no unit yet. */
  lemma PartialFrame(f: seq<Byte>, n: nat)
    requires WellFormedFrame(f) && n < |f|
    ensures Split(f[..n]) == ([], f[..n])
  {
    var s := f[..n];
    if n >= HEADER_SIZE {
      HeaderFirst(s, |f|);
    }
  }

  /** Without a header nothing is. */
  lemma HeaderlessKept(s: seq<Byte>)
    requires forall k :: 1 <= k <= |s| ==> Announced(s, k) == 0
    ensures Split(s) == ([], s)
  {
    assert FirstSync(s, 1).None?;
  }

  /** No header ends before the one that starts after g. */
  predicate FirstHeaderAfter(g: seq<Byte>, s: seq<Byte>) {
    |s| >= HEADER_SIZE && forall k :: 1 <= k < |g| + HEADER_SIZE ==> Announced(g + s, k) == 0
  }

  /** Bytes before the first header are a unit of their own. */
  lemma LeadingUnit(g: seq<Byte>, s: seq<Byte>, len: nat)
    requires g != [] && HeaderAt(s, len) && FirstHeaderAfter(g, s)
    ensures Split(g + s) == ([g] + Split(s).0, Split(s).1)
  {
    FirstSyncIs(g + s, |g| + HEADER_SIZE);
    SplitOne(g + s, g, s);
  }
}
