/** Feeding a stream in chunks: the units that come out depend on the stream alone. */
module AdtsChunks {
  import opened Wrappers
  import opened AdtsStream
  import opened AdtsParser
  import Slices

  /** What one call does to a waiting parser. */
  function CallOutcome(w: Waiting, buf: seq<Byte>): Outcome {
    if w.remaining == 0 then SearchOutcome(w.pending, buf) else BodyOutcome(w.pending, w.remaining, buf)
  }

  /** How far the caller moves: a negative index consumes nothing. */
  function Consumed(step: Step): nat {
    if step.index < 0 then 0 else step.index
  }

  /**
   The parser waits for `rest`: either no header has shown up in the pending bytes, or they start a
   frame, and pending plus remaining is its announced length.
   */
  ghost predicate Awaits(w: Waiting, rest: seq<Byte>) {
    if w.remaining == 0 then Searching(w.pending, w.state)
    else w.state == RESET && HeaderAt(w.pending + rest, |w.pending| + w.remaining)
  }

  /** A step that emits `unit` from stream t and leaves stream t' is a step of the reference. */
  ghost predicate ReferenceStep(t: seq<Byte>, unit: Option<seq<Byte>>, t': seq<Byte>) {
    if unit.None? then t' == t else t == unit.value + t' && NextUnit(t) == Some(|unit.value|)
  }

  // ----- one call, case by case

  lemma NothingSearched()
    ensures Searching([], RESET)
  {
  }

  lemma FrameIsNext(t: seq<Byte>, len: nat)
    requires HeaderAt(t, len)
    ensures NextUnit(t) == if len <= |t| then Some(len) else None
  {
    HeaderFirst(t, len);
  }

  /** Inside a frame, all of it within reach. */
  lemma BodyDone(p: seq<Byte>, remaining: nat, buf: seq<Byte>, later: seq<Byte>)
    requires 0 < remaining <= |buf| && HeaderAt(p + (buf + later), |p| + remaining)
    ensures ReferenceStep(p + (buf + later), Some(p + buf[..remaining]), [] + (buf[remaining..] + later))
  {
    Slices.CutSecond(p, buf, later, remaining);
    Slices.Nothing(buf[remaining..] + later);
    FrameIsNext(p + (buf + later), |p| + remaining);
  }

  /** Keeping everything. */
  lemma Kept(p: seq<Byte>, buf: seq<Byte>, later: seq<Byte>)
    ensures (p + buf) + (buf[|buf|..] + later) == p + (buf + later)
  {
    Slices.Assoc(p, buf, later);
    Slices.Nothing(later);
    assert buf[|buf|..] == [];
  }

  lemma FirstSyncPrefix(all: seq<Byte>, later: seq<Byte>, k: nat)
    requires FirstSync(all, 1) == Some(k)
    ensures FirstSync(all + later, 1) == Some(k) && Announced(all + later, k) == Announced(all, k)
  {
    forall i | 1 <= i <= k ensures Announced(all + later, i) == Announced(all, i) {
    }
    FirstSyncIs(all + later, k);
  }

  lemma HeaderBeyond(p: seq<Byte>, buf: seq<Byte>, state: State)
    requires Searching(p, state) && FirstSync(p + buf, 1).Some?
    ensures FirstSync(p + buf, 1).value > |p|
  {
    SearchContinues(p, buf, state);
  }

  /** The first header of t starts after `lead` bytes: they are the next unit, and the rest is a frame. */
  lemma LeadIsNext(t: seq<Byte>, n: nat)
    requires FirstSync(t, 1) == Some(n) && n > HEADER_SIZE
    ensures NextUnit(t) == Some(n - HEADER_SIZE)
    ensures HeaderAt(t[n - HEADER_SIZE..], Announced(t, n))
  {
  }

  /** A header of t = lead + rest right after `lead`. */
  lemma LeadSplits(t: seq<Byte>, lead: seq<Byte>, rest: seq<Byte>, n: nat)
    requires t == lead + rest && FirstSync(t, 1) == Some(n) && n > HEADER_SIZE && |lead| == n - HEADER_SIZE
    ensures ReferenceStep(t, Some(lead), rest) && HeaderAt(rest, Announced(t, n))
  {
    LeadIsNext(t, n);
    Slices.Front(lead, rest);
  }

  /** The first header found so far is the first header of the stream. */
  lemma SyncCarries(p: seq<Byte>, buf: seq<Byte>, later: seq<Byte>, n: nat)
    requires FirstSync(p + buf, 1) == Some(n)
    ensures FirstSync(p + (buf + later), 1) == Some(n) && Announced(p + (buf + later), n) == Announced(p + buf, n)
  {
    Slices.Assoc(p, buf, later);
    FirstSyncPrefix(p + buf, later, n);
  }

  /** A header after other bytes: they are cut off in front of it. */
  lemma LeadCut(p: seq<Byte>, buf: seq<Byte>, later: seq<Byte>, n: nat, lead: seq<Byte>, rest: seq<Byte>)
    requires FirstSync(p + buf, 1) == Some(n) && n == |lead| + HEADER_SIZE && lead != []
    requires p + (buf + later) == lead + rest
    ensures ReferenceStep(p + (buf + later), Some(lead), rest) && HeaderAt(rest, Announced(p + buf, n))
  {
    SyncCarries(p, buf, later, n);
    LeadSplits(p + (buf + later), lead, rest, n);
  }

  /** A header that begins in this chunk. */
  lemma LeadInChunk(p: seq<Byte>, buf: seq<Byte>, later: seq<Byte>, n: nat, k: nat)
    requires FirstSync(p + buf, 1) == Some(n) && k <= |buf| && n == |p| + k + HEADER_SIZE && |p| + k > 0
    ensures var rest := [] + (buf[k..] + later);
      ReferenceStep(p + (buf + later), Some((p + buf)[..|p| + k]), rest) && HeaderAt(rest, Announced(p + buf, n))
  {
    Slices.CutSecond(p, buf, later, k);
    Slices.Nothing(buf[k..] + later);
    LeadCut(p, buf, later, n, p + buf[..k], buf[k..] + later);
  }

  /** A header begun in an earlier chunk: its first bytes stay pending. */
  lemma LeadInPending(p: seq<Byte>, buf: seq<Byte>, later: seq<Byte>, n: nat, lead: nat)
    requires FirstSync(p + buf, 1) == Some(n) && n == lead + HEADER_SIZE && 0 < lead < |p|
    ensures var rest := p[lead..] + (buf + later);
      ReferenceStep(p + (buf + later), Some((p + buf)[..lead]), rest) && HeaderAt(rest, Announced(p + buf, n))
  {
    Slices.CutFirst(p, buf, later, lead);
    LeadCut(p, buf, later, n, p[..lead], p[lead..] + (buf + later));
  }

  lemma SearchedAll(p: seq<Byte>)
    requires FirstSync(p, 1).None?
    ensures Searching(p, StateAfter(p))
  {
  }

  /** A header at the start of the pending bytes: from here on it is a frame. */
  lemma FrameStarts(p: seq<Byte>, buf: seq<Byte>, later: seq<Byte>)
    requires FirstSync(p + buf, 1) == Some(HEADER_SIZE) && |p| < HEADER_SIZE
    ensures var len := Announced(p + buf, HEADER_SIZE);
      && SearchOutcome(p, buf) == BodyOutcome(p, len - |p|, buf)
      && HeaderAt(p + (buf + later), len) && len > |p|
  {
    FrameOutcome(p, buf, Announced(p + buf, HEADER_SIZE));
    Slices.Assoc(p, buf, later);
    FirstSyncPrefix(p + buf, later, HEADER_SIZE);
  }

  // ----- one call is one step of the reference, whatever the chunk

  /** What is left to do after a call. */
  function LeftOver(w: Waiting, rest: seq<Byte>): seq<Byte> {
    w.pending + rest
  }

  lemma BodyStep(p: seq<Byte>, remaining: nat, buf: seq<Byte>, later: seq<Byte>) returns (w': Waiting, rest': seq<Byte>)
    requires remaining > 0 && HeaderAt(p + (buf + later), |p| + remaining)
    ensures var o := BodyOutcome(p, remaining, buf);
      && w' == o.after && Consumed(o.step) <= |buf| && rest' == buf[Consumed(o.step)..] + later
      && ReferenceStep(p + (buf + later), o.step.unit, LeftOver(w', rest'))
    ensures Awaits(w', rest')
  {
    if remaining <= |buf| {
      w', rest' := Waiting([], 0, RESET), buf[remaining..] + later;
      BodyDone(p, remaining, buf, later);
      NothingSearched();
    } else {
      w', rest' := Waiting(p + buf, remaining - |buf|, RESET), buf[|buf|..] + later;
      Kept(p, buf, later);
    }
  }

  /** The outcome o leads from stream p + (buf + later) to waiting state w' with rest' to come. */
  ghost predicate LeadsOn(p: seq<Byte>, buf: seq<Byte>, later: seq<Byte>, o: Outcome, w': Waiting, rest': seq<Byte>) {
    && w' == o.after && Consumed(o.step) <= |buf| && rest' == buf[Consumed(o.step)..] + later
    && ReferenceStep(p + (buf + later), o.step.unit, LeftOver(w', rest')) && Awaits(w', rest')
  }

  lemma LeadPendingStep(p: seq<Byte>, buf: seq<Byte>, later: seq<Byte>, n: nat, lead: nat, len: nat)
    requires FirstSync(p + buf, 1) == Some(n) && n == lead + HEADER_SIZE && n > |p| && 0 < lead < |p|
    requires len == Announced(p + buf, n)
    ensures LeadsOn(p, buf, later, SearchOutcome(p, buf), Waiting(p[lead..], len - (|p| - lead), RESET), buf + later)
  {
    LeadingOutcome(p, buf, lead, len);
    LeadInPending(p, buf, later, n, lead);
    assert buf[0..] == buf;
  }

  lemma LeadChunkStep(p: seq<Byte>, buf: seq<Byte>, later: seq<Byte>, n: nat, lead: nat, k: nat, len: nat)
    requires FirstSync(p + buf, 1) == Some(n) && n == lead + HEADER_SIZE && lead == |p| + k && lead > 0
    requires len == Announced(p + buf, n)
    ensures k <= |buf| && LeadsOn(p, buf, later, SearchOutcome(p, buf), Waiting([], len, RESET), buf[k..] + later)
  {
    LeadingOutcome(p, buf, lead, len);
    LeadInChunk(p, buf, later, n, k);
  }

  lemma LeadStep(p: seq<Byte>, buf: seq<Byte>, later: seq<Byte>, n: nat) returns (w': Waiting, rest': seq<Byte>)
    requires FirstSync(p + buf, 1) == Some(n) && n > HEADER_SIZE && n > |p|
    ensures LeadsOn(p, buf, later, SearchOutcome(p, buf), w', rest')
  {
    var lead, len := n - HEADER_SIZE, Announced(p + buf, n);
    if lead < |p| {
      LeadPendingStep(p, buf, later, n, lead, len);
      w', rest' := Waiting(p[lead..], len - (|p| - lead), RESET), buf + later;
    } else {
      var k := lead - |p|;
      LeadChunkStep(p, buf, later, n, lead, k, len);
      w', rest' := Waiting([], len, RESET), buf[k..] + later;
    }
  }

  lemma CallIsReferenceStep(w: Waiting, buf: seq<Byte>, later: seq<Byte>) returns (w': Waiting, rest': seq<Byte>)
    requires Awaits(w, buf + later)
    ensures var o := CallOutcome(w, buf);
      && w' == o.after && Consumed(o.step) <= |buf| && rest' == buf[Consumed(o.step)..] + later
      && ReferenceStep(w.pending + (buf + later), o.step.unit, LeftOver(w', rest'))
    ensures Awaits(w', rest')
  {
    var p := w.pending;
    if w.remaining > 0 {
      w', rest' := BodyStep(p, w.remaining, buf, later);
    } else if FirstSync(p + buf, 1).None? {
      SearchedAll(p + buf);
      Kept(p, buf, later);
      w', rest' := Waiting(p + buf, 0, StateAfter(p + buf)), buf[|buf|..] + later;
    } else {
      var n := FirstSync(p + buf, 1).value;
      HeaderBeyond(p, buf, w.state);
      if n > HEADER_SIZE {
        w', rest' := LeadStep(p, buf, later, n);
      } else {
        FrameStarts(p, buf, later);
        w', rest' := BodyStep(p, Announced(p + buf, HEADER_SIZE) - |p|, buf, later);
      }
    }
  }

  /** A waiting parser can be called: outside a frame no header has shown up, inside one the state is reset. */
  ghost predicate Callable(w: Waiting) {
    if w.remaining == 0 then Searching(w.pending, w.state) else w.state == RESET
  }

  /** Every call on a nonempty buffer makes progress: it consumes, or it starts a frame. */
  lemma CallProgress(w: Waiting, buf: seq<Byte>)
    requires Callable(w)
    ensures var o := CallOutcome(w, buf);
      && Consumed(o.step) <= |buf| && Callable(o.after)
      && (Consumed(o.step) == 0 && buf != [] ==> w.remaining == 0 && o.after.remaining > 0)
  {
    NothingSearched();
    if w.remaining == 0 {
      if FirstSync(w.pending + buf, 1).Some? {
        HeaderBeyond(w.pending, buf, w.state);
      } else {
        SearchedAll(w.pending + buf);
      }
    }
  }

  // ----- a whole stream

  /** What splitting yields when `units` are out and t is still to be split. */
  function SplitFrom(units: seq<seq<Byte>>, t: seq<Byte>): (seq<seq<Byte>>, seq<Byte>) {
    (units + Split(t).0, Split(t).1)
  }

  function Collect(units: seq<seq<Byte>>, unit: Option<seq<Byte>>): seq<seq<Byte>> {
    if unit.Some? then units + [unit.value] else units
  }

  lemma SplitStep(units: seq<seq<Byte>>, t: seq<Byte>, unit: Option<seq<Byte>>, t': seq<Byte>)
    requires ReferenceStep(t, unit, t')
    ensures SplitFrom(units, t) == SplitFrom(Collect(units, unit), t')
  {
    if unit.Some? {
      Slices.Front(unit.value, t');
      Slices.Assoc(units, [unit.value], Split(t').0);
    }
  }

  lemma NoUnitLeft(w: Waiting)
    requires Awaits(w, [])
    ensures NextUnit(w.pending).None?
  {
    Slices.Nothing(w.pending);
    if w.remaining == 0 {
      assert FirstSync(w.pending, 1).None?;
    } else {
      FrameIsNext(w.pending, |w.pending| + w.remaining);
    }
  }

  lemma Finished(units: seq<seq<Byte>>, w: Waiting)
    requires Awaits(w, [])
    ensures SplitFrom(units, w.pending) == (units, w.pending)
  {
    NoUnitLeft(w);
    Slices.Nothing(units);
  }

  // ----- feeding, call by call

  /** Hand over one chunk, moving on by what each call consumed, until it is used up. */
  function FedChunk(w: Waiting, buf: seq<Byte>, units: seq<seq<Byte>>): (r: (seq<seq<Byte>>, Waiting))
    requires Callable(w)
    ensures Callable(r.1)
    decreases |buf|, if w.remaining == 0 then 1 else 0
  {
    if buf == [] then (units, w)
    else
      var o := CallOutcome(w, buf);
      CallProgress(w, buf);
      FedChunk(o.after, buf[Consumed(o.step)..], Collect(units, o.step.unit))
  }

  function FedChunks(w: Waiting, chunks: seq<seq<Byte>>, units: seq<seq<Byte>>): (seq<seq<Byte>>, Waiting)
    requires Callable(w)
    decreases |chunks|
  {
    if chunks == [] then (units, w)
    else
      var r := FedChunk(w, chunks[0], units);
      FedChunks(r.1, chunks[1..], r.0)
  }

  const START: Waiting := Waiting([], 0, RESET)

  /** What the caller gets out of a new parser: the units, and what the final flush returns. */
  function Fed(chunks: seq<seq<Byte>>): (seq<seq<Byte>>, seq<Byte>) {
    NothingSearched();
    var r := FedChunks(START, chunks, []);
    (r.0, r.1.pending)
  }

  /** The parser may be handed its next chunk. */
  ghost predicate Ready(parser: Parser)
    reads parser
  {
    parser.Valid() && (parser.remainingSize == 0 ==> parser.overread == 0) && Callable(parser.Now())
  }

  method FeedChunk(parser: Parser, chunk: seq<Byte>, units: seq<seq<Byte>>) returns (out: seq<seq<Byte>>)
    requires Ready(parser)
    modifies parser
    ensures Ready(parser) && (out, parser.Now()) == FedChunk(old(parser.Now()), chunk, units)
  {
    out := units;
    var buf := chunk;
    while buf != []
      invariant Ready(parser)
      invariant FedChunk(parser.Now(), buf, out) == FedChunk(old(parser.Now()), chunk, units)
      decreases |buf|, if parser.remainingSize == 0 then 1 else 0
    {
      CallProgress(parser.Now(), buf);
      var r := parser.Parse(buf);
      out := Collect(out, r.unit);
      buf := buf[Consumed(r)..];
    }
  }

  /** The caller: all chunks, then the empty buffer that ends the stream. */
  method Feed(chunks: seq<seq<Byte>>) returns (units: seq<seq<Byte>>, rest: seq<Byte>)
    ensures (units, rest) == Fed(chunks)
  {
    var parser := new Parser();
    units := [];
    NothingSearched();
    assert chunks[0..] == chunks;
    var k := 0;
    while k < |chunks|
      invariant k <= |chunks| && fresh(parser) && Ready(parser)
      invariant FedChunks(parser.Now(), chunks[k..], units) == FedChunks(START, chunks, [])
    {
      assert chunks[k..][1..] == chunks[k + 1..];
      units := FeedChunk(parser, chunks[k], units);
      k := k + 1;
    }
    rest := parser.Flush();
  }

  // ----- what comes out is the splitting of the whole stream

  lemma {:induction false} FedChunkSplits(w: Waiting, buf: seq<Byte>, later: seq<Byte>, units: seq<seq<Byte>>)
    requires Awaits(w, buf + later) && Callable(w)
    ensures var r := FedChunk(w, buf, units);
      Awaits(r.1, later) && SplitFrom(r.0, r.1.pending + later) == SplitFrom(units, w.pending + (buf + later))
    decreases |buf|, if w.remaining == 0 then 1 else 0
  {
    if buf == [] {
      Slices.Nothing(later);
    } else {
      var o := CallOutcome(w, buf);
      CallProgress(w, buf);
      var after, rest := CallIsReferenceStep(w, buf, later);
      SplitStep(units, w.pending + (buf + later), o.step.unit, LeftOver(after, rest));
      FedChunkSplits(after, buf[Consumed(o.step)..], later, Collect(units, o.step.unit));
    }
  }

  lemma {:induction false} FedChunksSplit(w: Waiting, chunks: seq<seq<Byte>>, units: seq<seq<Byte>>)
    requires Awaits(w, Concat(chunks)) && Callable(w)
    ensures var r := FedChunks(w, chunks, units);
      (r.0, r.1.pending) == SplitFrom(units, w.pending + Concat(chunks))
    decreases |chunks|
  {
    if chunks == [] {
      Slices.Nothing(w.pending);
      Finished(units, w);
    } else {
      FedChunkSplits(w, chunks[0], Concat(chunks[1..]), units);
      var r := FedChunk(w, chunks[0], units);
      FedChunksSplit(r.1, chunks[1..], r.0);
    }
  }

  /** However a stream is cut into chunks, feeding them yields the units of the unchunked stream. */
  lemma FedIsSplit(chunks: seq<seq<Byte>>)
    ensures Fed(chunks) == Split(Concat(chunks))
  {
    NothingSearched();
    FedChunksSplit(START, chunks, []);
    Slices.Nothing(Concat(chunks));
    Slices.Nothing(Split(Concat(chunks)).0);
  }

  /** Two ways to cut a stream into chunks give the parser's caller the same units and the same rest. */
  lemma ChunkingIrrelevant(a: seq<seq<Byte>>, b: seq<seq<Byte>>)
    requires Concat(a) == Concat(b)
    ensures Fed(a) == Fed(b)
  {
    FedIsSplit(a);
    FedIsSplit(b);
  }

  /** Fed in any chunks, a stream of well-formed frames comes out as exactly those frames. */
  lemma FramesComeOut(chunks: seq<seq<Byte>>, frames: seq<seq<Byte>>)
    requires forall i :: 0 <= i < |frames| ==> WellFormedFrame(frames[i])
    requires Concat(chunks) == Concat(frames)
    ensures Fed(chunks) == (frames, [])
  {
    FedIsSplit(chunks);
    SplitFrames(frames);
  }
}
