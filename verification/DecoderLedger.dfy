/** Nothing put since the last seek is lost or reordered on its way to the codec. */
module DecoderLedger {
  import opened PacketQueue
  import opened DecoderSerials
  import opened Wrappers
  import Slices

  /**
   Kept along a run: flush packets put, packets put since the last of them, packets sent to the codec since it was last
   flushed, and of those the ones it is done with.
   */
  datatype Book = Book(flushes: nat, arrived: seq<Packet>, sent: seq<Packet>, done: seq<Packet>)

  function Entered(s: State, step: Step, b: Book): Book {
    match step
    case ReaderPut(pkt) => if s.queue.abort then b else b.(arrived := b.arrived + [pkt])
    case SeekPut(_) => if s.queue.abort then b else b.(flushes := b.flushes + 1, arrived := [])
    case FlushCodec => b.(sent := [], done := [])
    case Accept => if s.pc.Dispatch? then b.(sent := b.sent + [s.pc.pkt], done := b.done + [s.pc.pkt]) else b
    case AcceptAndKeep => if s.pc.Dispatch? then b.(sent := b.sent + [s.pc.pkt]) else b
    case _ => b
  }

  ghost predicate BooksRun(s: State, b: Book, steps: seq<Step>, s': State, b': Book)
    decreases |steps|
  {
    if steps == [] then s' == s && b' == b
    else Enabled(s, steps[0]) && BooksRun(Apply(s, steps[0]), Entered(s, steps[0], b), steps[1..], s', b')
  }

  /** The packets of a serial among the entries. */
  function Waiting(entries: seq<Entry>, serial: int): seq<Packet> {
    if entries == [] then []
    else
      var n := |entries| - 1;
      Waiting(entries[..n], serial) + if entries[n].serial == serial && !entries[n].pkt.flush then [entries[n].pkt] else []
  }

  lemma WaitingLast(entries: seq<Entry>, e: Entry, serial: int)
    ensures Waiting(entries + [e], serial)
      == Waiting(entries, serial) + if e.serial == serial && !e.pkt.flush then [e.pkt] else []
  {
    Slices.Front(entries, [e]);
  }

  lemma {:induction false} WaitingFirst(entries: seq<Entry>, serial: int)
    requires entries != []
    ensures Waiting(entries, serial)
      == (if entries[0].serial == serial && !entries[0].pkt.flush then [entries[0].pkt] else []) + Waiting(entries[1..], serial)
  {
    var n := |entries| - 1;
    var head := if entries[0].serial == serial && !entries[0].pkt.flush then [entries[0].pkt] else [];
    if n > 0 {
      var last := if entries[n].serial == serial && !entries[n].pkt.flush then [entries[n].pkt] else [];
      WaitingFirst(entries[..n], serial);
      assert entries[1..][..n - 1] == entries[..n][1..];
      Slices.Assoc(head, Waiting(entries[..n][1..], serial), last);
    } else {
      assert entries[..0] == [] && entries[1..] == [];
      Slices.Nothing(head);
    }
  }

  lemma {:induction false} NoneWaiting(entries: seq<Entry>, serial: int)
    requires forall k :: 0 <= k < |entries| ==> entries[k].serial < serial
    ensures Waiting(entries, serial) == []
  {
    if entries != [] {
      NoneWaiting(entries[..|entries| - 1], serial);
    }
  }

  /** The packet the decoder has in hand. */
  function InHand(s: State): seq<Packet> {
    if s.pending.Some? then [s.pending.value]
    else if s.pc.Check? || s.pc.Dispatch? then [s.pc.pkt]
    else []
  }

  /** The packets sent since the codec was last flushed, by its own record. */
  function SentSince(log: seq<Event>): seq<Packet> {
    if log == [] || log[|log| - 1].Flushed? then []
    else
      var n := |log| - 1;
      SentSince(log[..n]) + if log[n].Sent? then [log[n].pkt] else []
  }

  lemma SentMore(log: seq<Event>, e: Event)
    ensures SentSince(log + [e])
      == if e.Flushed? then [] else SentSince(log) + if e.Sent? then [e.pkt] else []
  {
    Slices.Front(log, [e]);
  }

  /** Not both at once, and no packet of an older serial with the codec up to date. */
  ghost predicate OneInHand(s: State) {
    s.pending.Some? ==> !s.pc.Check? && !s.pc.Dispatch?
  }

  /** While no seek is under way: what has arrived is done with, in hand or waiting. */
  ghost predicate Balanced(s: State, b: Book) {
    && OneInHand(s) && (CurrentSerial(s.log) < s.pktSerial ==> s.pending.None?)
    && b.sent == SentSince(s.log)
    && (!s.seeking && !s.queue.abort ==>
          && b.arrived == (if CurrentSerial(s.log) == s.queue.serial then b.done + InHand(s) else [])
                          + Waiting(s.queue.entries, s.queue.serial))
    && (s.seeking ==> s.queue.entries == [])
    && (!s.queue.abort ==> b.flushes == s.queue.serial)
  }

  /** What is done with or in hand, if the codec was flushed for the queue's serial. */
  function Received(s: State, b: Book): seq<Packet> {
    if CurrentSerial(s.log) == s.queue.serial then b.done + InHand(s) else []
  }

  lemma PutBalanced(s: State, b: Book, pkt: Packet)
    requires Inv(s) && Balanced(s, b) && Enabled(s, ReaderPut(pkt))
    ensures Balanced(Apply(s, ReaderPut(pkt)), Entered(s, ReaderPut(pkt), b))
  {
    WaitingLast(s.queue.entries, Entry(pkt, s.queue.serial), s.queue.serial);
    Slices.Assoc(Received(s, b), Waiting(s.queue.entries, s.queue.serial), [pkt]);
  }

  lemma SeekBalanced(s: State, b: Book, pkt: Packet, serial: int)
    requires Inv(s) && Balanced(s, b) && Enabled(s, SeekPut(pkt)) && serial == s.queue.serial + 1
    ensures Balanced(Apply(s, SeekPut(pkt)), Entered(s, SeekPut(pkt), b))
  {
    WaitingLast(s.queue.entries, Entry(pkt, serial), serial);
    NoneWaiting(s.queue.entries, serial);
  }

  lemma GetBalanced(s: State, b: Book)
    requires Inv(s) && Balanced(s, b) && Enabled(s, GetPacket)
    ensures Balanced(Apply(s, GetPacket), b)
  {
    var e := s.queue.entries[0];
    TakeKeeps(s);
    WaitingFirst(s.queue.entries, s.queue.serial);
    if CurrentSerial(s.log) == s.queue.serial {
      assert e.serial == s.queue.serial && !e.pkt.flush;
      Slices.Nothing(b.done);
      Slices.Assoc(b.done, [e.pkt], Waiting(s.queue.entries[1..], s.queue.serial));
    }
  }

  lemma LogBalanced(s: State, b: Book, e: Event)
    ensures SentSince(s.log + [e]) == if e.Flushed? then [] else SentSince(s.log) + if e.Sent? then [e.pkt] else []
    ensures CurrentSerial(s.log + [e]) == if e.Flushed? then e.serial else CurrentSerial(s.log)
  {
    SentMore(s.log, e);
    Slices.Front(s.log, [e]);
    Slices.Nothing(SentSince(s.log));
  }

  lemma AcceptBalanced(s: State, b: Book, step: Step)
    requires Inv(s) && Balanced(s, b) && Enabled(s, step) && (step.Accept? || step.AcceptAndKeep?)
    ensures Balanced(Apply(s, step), Entered(s, step, b))
  {
    LogBalanced(s, b, Sent(s.pc.pkt, s.pktSerial));
    Slices.Nothing(b.done + [s.pc.pkt]);
  }

  lemma FlushBalanced(s: State, b: Book)
    requires Inv(s) && Balanced(s, b) && Enabled(s, FlushCodec)
    ensures Balanced(Apply(s, FlushCodec), Entered(s, FlushCodec, b))
  {
    LogBalanced(s, b, Flushed(s.pktSerial));
  }

  /** Steps that move a packet between the decoder's hands, or drop one of an older serial. */
  lemma HandsBalanced(s: State, b: Book, step: Step)
    requires Inv(s) && Balanced(s, b) && Enabled(s, step)
    requires step.TakePending? || step.CheckSerial? || step.Refuse?
    ensures Balanced(Apply(s, step), b)
  {
  }

  lemma LoggedBalanced(s: State, b: Book, step: Step)
    requires Inv(s) && Balanced(s, b) && Enabled(s, step) && (step.GiveFrame? || step.CodecEof?)
    ensures Balanced(Apply(s, step), b)
  {
    LogBalanced(s, b, if step.GiveFrame? then Output(s.pktSerial) else Drained);
  }

  /** Steps that move no packet. */
  lemma QuietBalanced(s: State, b: Book, step: Step)
    requires Inv(s) && Balanced(s, b) && Enabled(s, step)
    requires step.SeekClear? || step.RequestAbort? || step.CompareSerial? || step.TestAbort? || step.CodecEmpty?
      || step.CodecError? || step.GetAborted?
    ensures Balanced(Apply(s, step), b)
  {
  }

  lemma StepBalanced(s: State, b: Book, step: Step)
    requires Inv(s) && Balanced(s, b) && Enabled(s, step)
    ensures Balanced(Apply(s, step), Entered(s, step, b))
  {
    match step
    case ReaderPut(pkt) => PutBalanced(s, b, pkt);
    case SeekPut(pkt) => SeekBalanced(s, b, pkt, s.queue.serial + 1);
    case GetPacket => GetBalanced(s, b);
    case FlushCodec => FlushBalanced(s, b);
    case Accept => AcceptBalanced(s, b, step);
    case AcceptAndKeep => AcceptBalanced(s, b, step);
    case GiveFrame => LoggedBalanced(s, b, step);
    case CodecEof => LoggedBalanced(s, b, step);
    case TakePending => HandsBalanced(s, b, step);
    case CheckSerial => HandsBalanced(s, b, step);
    case Refuse => HandsBalanced(s, b, step);
    case _ => QuietBalanced(s, b, step);
  }

  lemma {:induction false} RunBalanced(s: State, b: Book, steps: seq<Step>, s': State, b': Book)
    requires Inv(s) && Balanced(s, b) && BooksRun(s, b, steps, s', b')
    ensures Inv(s') && Balanced(s', b')
    decreases |steps|
  {
    if steps != [] {
      StepKeepsQueue(s, steps[0]);
      StepKeepsDecoder(s, steps[0]);
      StepBalanced(s, b, steps[0]);
      RunBalanced(Apply(s, steps[0]), Entered(s, steps[0], b), steps[1..], s', b');
    }
  }

  lemma StartBalanced(flushPkt: Packet, b: Book)
    requires flushPkt.flush && b == Book(1, [], [], [])
    ensures Inv(Init(flushPkt)) && Balanced(Init(flushPkt), b)
  {
    InitInv(flushPkt);
    WaitingLast([], Entry(flushPkt, 1), 1);
    Slices.Nothing([Entry(flushPkt, 1)]);
  }

  /**
   On every interleaving, unless a seek is under way: the serial is the number of flush packets put; and of the packets put
   since the last one, in order, the codec is done with the first, then comes the one in hand, then those that wait. Before
   the codec is flushed for the serial all of them wait. Its log has what was sent since it was flushed.
   */
  lemma NothingLost(flushPkt: Packet, steps: seq<Step>, s: State, b: Book)
    requires flushPkt.flush && BooksRun(Init(flushPkt), Book(1, [], [], []), steps, s, b)
    requires !s.queue.abort && !s.seeking
    ensures s.queue.serial == b.flushes && b.sent == SentSince(s.log)
    ensures CurrentSerial(s.log) == s.queue.serial ==>
      b.arrived == b.done + InHand(s) + Waiting(s.queue.entries, s.queue.serial)
    ensures CurrentSerial(s.log) != s.queue.serial ==> b.arrived == Waiting(s.queue.entries, s.queue.serial)
  {
    StartBalanced(flushPkt, Book(1, [], [], []));
    RunBalanced(Init(flushPkt), Book(1, [], [], []), steps, s, b);
    Slices.Nothing(Waiting(s.queue.entries, s.queue.serial));
  }
}
