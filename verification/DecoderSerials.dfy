/**
 Reader and decoder threads around one packet queue, one atomic step at a time. The reader's seek empties
 the queue and then puts a flush packet; the decoder compares serials without holding the lock. Whatever the
 interleaving, what reaches the codec belongs to the serial the codec was last flushed for.
 */
module DecoderSerials {
  import opened Wrappers
  import opened PacketQueue

  /** Everything the codec sees, and the frames it gives back, labelled with the decoder's pkt_serial. */
  datatype Event = Flushed(serial: int) | Drained | Sent(pkt: Packet, serial: int) | Output(serial: int)

  /** Top and AbortTest are the two tests before a frame is asked for; Check re-reads the queue's serial. */
  datatype DecoderPc = Top | AbortTest | Receive | Fetch | Check(pkt: Packet) | Dispatch(pkt: Packet) | Stopped

  datatype State = State(
    queue: Queue,
    seeking: bool,              // the reader has emptied the queue and not yet put the flush packet
    pc: DecoderPc,
    pktSerial: int,
    pending: Option<Packet>,
    log: seq<Event>)

  datatype Step =
    | ReaderPut(pkt: Packet) | SeekClear | SeekPut(pkt: Packet) | RequestAbort
    | CompareSerial                                        // Top
    | TestAbort                                            // AbortTest
    | GiveFrame | CodecEof | CodecEmpty | CodecError       // Receive
    | TakePending | GetPacket | GetAborted                 // Fetch
    | CheckSerial                                          // Check
    | FlushCodec | Accept | Refuse | AcceptAndKeep         // Dispatch

  predicate Enabled(s: State, step: Step) {
    match step
    case ReaderPut(pkt) => !s.seeking && !pkt.flush
    case SeekClear => !s.seeking
    case SeekPut(pkt) => s.seeking && pkt.flush
    case RequestAbort => true
    case CompareSerial => s.pc.Top?
    case TestAbort => s.pc.AbortTest?
    case GiveFrame => s.pc.Receive?
    case CodecEof => s.pc.Receive?
    case CodecEmpty => s.pc.Receive?
    case CodecError => s.pc.Receive?
    case TakePending => s.pc.Fetch? && s.pending.Some?
    case GetPacket => s.pc.Fetch? && s.pending.None? && !s.queue.abort && s.queue.entries != []
    case GetAborted => s.pc.Fetch? && s.pending.None? && s.queue.abort
    case CheckSerial => s.pc.Check?
    case FlushCodec => s.pc.Dispatch? && s.pc.pkt.flush
    case Accept => s.pc.Dispatch? && !s.pc.pkt.flush
    case Refuse => s.pc.Dispatch? && !s.pc.pkt.flush
    case AcceptAndKeep => s.pc.Dispatch? && !s.pc.pkt.flush
  }

  function Apply(s: State, step: Step): State
    requires Enabled(s, step)
  {
    match step
    case ReaderPut(pkt) => s.(queue := Put(s.queue, pkt))
    case SeekClear => s.(queue := Cleared(s.queue), seeking := true)
    case SeekPut(pkt) => s.(queue := Put(s.queue, pkt), seeking := false)
    case RequestAbort => s.(queue := s.queue.(abort := true))
    case CompareSerial => s.(pc := if s.queue.serial == s.pktSerial then AbortTest else Fetch)
    case TestAbort => s.(pc := if s.queue.abort then Stopped else Receive)
    case GiveFrame => s.(pc := Top, log := s.log + [Output(s.pktSerial)])
    case CodecEof => s.(pc := Top, log := s.log + [Drained])
    case CodecEmpty => s.(pc := Fetch)
    case CodecError => s.(pc := AbortTest)
    case TakePending => s.(pc := Check(s.pending.value), pending := None)
    case GetPacket =>
      var e := s.queue.entries[0];
      s.(pc := Check(e.pkt), pktSerial := e.serial, queue := s.queue.(entries := s.queue.entries[1..]))
    case GetAborted => s.(pc := Stopped)
    case CheckSerial => s.(pc := if s.queue.serial != s.pktSerial then Fetch else Dispatch(s.pc.pkt))
    case FlushCodec => s.(pc := Top, log := s.log + [Flushed(s.pktSerial)])
    case Accept => s.(pc := Top, log := s.log + [Sent(s.pc.pkt, s.pktSerial)])
    case Refuse => s.(pc := Top, pending := Some(s.pc.pkt))
    case AcceptAndKeep => s.(pc := Top, pending := Some(s.pc.pkt), log := s.log + [Sent(s.pc.pkt, s.pktSerial)])
  }

  /** packet_queue_start on a fresh queue, then the decoder thread starts. */
  function Init(flushPkt: Packet): State
    requires flushPkt.flush
  {
    State(Put(Queue([], 0, false), flushPkt), false, Top, -1, None, [])
  }

  // ----- what holds of the log

  /** The serial the codec was last flushed for; -1 before the first flush packet. */
  function CurrentSerial(log: seq<Event>): int {
    if log == [] then -1
    else
      var last := log[|log| - 1];
      if last.Flushed? then last.serial else CurrentSerial(log[..|log| - 1])
  }

  /** Event i fits what the codec was last flushed for. */
  ghost predicate Fits(log: seq<Event>, i: nat)
    requires i < |log|
  {
    match log[i]
    case Flushed(serial) => CurrentSerial(log[..i]) < serial
    case Drained => true
    case Sent(pkt, serial) => !pkt.flush && CurrentSerial(log[..i]) == serial >= 1
    case Output(serial) => CurrentSerial(log[..i]) == serial >= 1
  }

  ghost predicate WellSerialised(log: seq<Event>) {
    forall i :: 0 <= i < |log| ==> Fits(log, i)
  }

  lemma LogGrows(log: seq<Event>, e: Event)
    requires WellSerialised(log)
    requires match e
      case Flushed(serial) => CurrentSerial(log) < serial
      case Drained => true
      case Sent(pkt, serial) => !pkt.flush && CurrentSerial(log) == serial >= 1
      case Output(serial) => CurrentSerial(log) == serial >= 1
    ensures WellSerialised(log + [e])
    ensures CurrentSerial(log + [e]) == if e.Flushed? then e.serial else CurrentSerial(log)
  {
    var l := log + [e];
    assert l[..|log|] == log;
    forall i | 0 <= i < |l| ensures Fits(l, i) {
      if i < |log| {
        assert Fits(log, i);
        assert l[..i] == log[..i];
      }
    }
  }

  // ----- invariant

  /** Is there a flush packet of this serial among the first n entries? */
  ghost predicate FlushBefore(entries: seq<Entry>, n: nat, serial: int)
    requires n <= |entries|
  {
    exists k :: 0 <= k < n && entries[k].serial == serial && entries[k].pkt.flush
  }

  /** Entries come in serial order, none older than the last one taken, and a flush packet opens its serial. */
  ghost predicate Ordered(entries: seq<Entry>, taken: int) {
    && (forall k :: 0 <= k < |entries| ==> taken <= entries[k].serial)
    && (forall j, k :: 0 <= j < k < |entries| ==> entries[j].serial <= entries[k].serial)
    && (forall j, k :: 0 <= j < k < |entries| && entries[k].pkt.flush ==> entries[j].serial < entries[k].serial)
    && (forall k :: 0 <= k < |entries| && entries[k].pkt.flush ==> taken < entries[k].serial)
  }

  /** A packet of a newer serial than the last one taken is preceded by that serial's flush packet. */
  ghost predicate Opened(entries: seq<Entry>, taken: int) {
    forall k :: 0 <= k < |entries| && !entries[k].pkt.flush && taken < entries[k].serial ==>
      FlushBefore(entries, k, entries[k].serial)
  }

  /** Packets put now belong to a serial whose flush packet is taken or queued. */
  ghost predicate SerialOpen(s: State) {
    s.pktSerial == s.queue.serial || FlushBefore(s.queue.entries, |s.queue.entries|, s.queue.serial)
  }

  ghost predicate QueueInv(s: State) {
    && s.pktSerial <= s.queue.serial && s.queue.serial >= 1
    && Ordered(s.queue.entries, s.pktSerial) && Opened(s.queue.entries, s.pktSerial)
    && (forall k :: 0 <= k < |s.queue.entries| ==> s.queue.entries[k].serial <= s.queue.serial)
    && (!s.seeking && !s.queue.abort ==> SerialOpen(s))
  }

  /** The codec lags behind the last packet taken only where the serial check is going to fail. */
  ghost predicate DecoderInv(s: State) {
    var current := CurrentSerial(s.log);
    && current <= s.pktSerial
    && (s.pending.Some? ==> !s.pending.value.flush)
    && (s.pc.AbortTest? || s.pc.Receive? || s.pc.Dispatch? ==> s.pktSerial >= 1)
    && match s.pc
       case Top => current == s.pktSerial
       case AbortTest => current == s.pktSerial
       case Receive => current == s.pktSerial
       case Fetch => current < s.pktSerial ==> s.pktSerial < s.queue.serial
       case Check(pkt) =>
         if pkt.flush then current < s.pktSerial
         else current < s.pktSerial ==> s.pktSerial < s.queue.serial
       case Dispatch(pkt) => if pkt.flush then current < s.pktSerial else current == s.pktSerial
       case Stopped => true
  }

  ghost predicate Inv(s: State) {
    QueueInv(s) && DecoderInv(s) && WellSerialised(s.log)
  }

  lemma InitInv(flushPkt: Packet)
    requires flushPkt.flush
    ensures Inv(Init(flushPkt))
  {
    var entries := Init(flushPkt).queue.entries;
    assert entries == [Entry(flushPkt, 1)];
    assert entries[0].serial == 1;
  }

  lemma FlushStays(was: seq<Entry>, n: nat, more: seq<Entry>, serial: int)
    requires n <= |was| && FlushBefore(was, n, serial)
    ensures FlushBefore(was + more, n, serial)
  {
    var h :| 0 <= h < n && was[h].serial == serial && was[h].pkt.flush;
    assert (was + more)[h] == was[h];
  }

  lemma PutOpened(s: State, e: Entry)
    requires Opened(s.queue.entries, s.pktSerial)
    requires !e.pkt.flush ==> e.serial == s.queue.serial && SerialOpen(s)
    ensures Opened(s.queue.entries + [e], s.pktSerial)
  {
    var was := s.queue.entries;
    var now := was + [e];
    forall k | 0 <= k < |now| && !now[k].pkt.flush && s.pktSerial < now[k].serial
      ensures FlushBefore(now, k, now[k].serial)
    {
      if k < |was| {
        assert now[k] == was[k];
      }
      FlushStays(was, k, [e], now[k].serial);
    }
  }

  lemma PutKeeps(s: State, pkt: Packet)
    requires QueueInv(s) && (if pkt.flush then s.seeking else !s.seeking)
    ensures QueueInv(s.(queue := Put(s.queue, pkt), seeking := false))
  {
    if !s.queue.abort {
      var q := Put(s.queue, pkt);
      var e := Entry(pkt, q.serial);
      PutOpened(s, e);
      PutOrdered(s.queue.entries, s.pktSerial, e);
      PutSerialOpen(s, e);
    }
  }

  lemma PutOrdered(was: seq<Entry>, taken: int, e: Entry)
    requires Ordered(was, taken) && taken <= e.serial && forall k :: 0 <= k < |was| ==> was[k].serial <= e.serial
    requires e.pkt.flush ==> taken < e.serial && forall k :: 0 <= k < |was| ==> was[k].serial < e.serial
    ensures Ordered(was + [e], taken)
  {
  }

  /** After a put the serial's flush packet is taken or queued. */
  lemma PutSerialOpen(s: State, e: Entry)
    requires e.pkt.flush || SerialOpen(s)
    requires e.pkt.flush || e.serial == s.queue.serial
    ensures s.pktSerial == e.serial || FlushBefore(s.queue.entries + [e], |s.queue.entries + [e]|, e.serial)
  {
    var was := s.queue.entries;
    var now := was + [e];
    if e.pkt.flush {
      assert now[|was|].pkt.flush;
    } else if FlushBefore(was, |was|, e.serial) {
      var h :| 0 <= h < |was| && was[h].serial == e.serial && was[h].pkt.flush;
      assert now[h] == was[h];
    }
  }

  lemma FlushAhead(was: seq<Entry>, n: nat, serial: int)
    requires 0 < n <= |was| && FlushBefore(was, n, serial) && was[0].serial != serial
    ensures FlushBefore(was[1..], n - 1, serial)
  {
    var h :| 0 <= h < n && was[h].serial == serial && was[h].pkt.flush;
    assert was[1..][h - 1] == was[h];
  }

  lemma TakeOpened(was: seq<Entry>, taken: int)
    requires Ordered(was, taken) && Opened(was, taken) && was != []
    ensures Ordered(was[1..], was[0].serial) && Opened(was[1..], was[0].serial)
    ensures if was[0].pkt.flush then taken < was[0].serial else taken == was[0].serial
  {
    var e, rest := was[0], was[1..];
    assert !FlushBefore(was, 0, e.serial);
    forall k | 0 <= k < |rest| && !rest[k].pkt.flush && e.serial < rest[k].serial
      ensures FlushBefore(rest, k, rest[k].serial)
    {
      assert was[k + 1] == rest[k];
      FlushAhead(was, k + 1, rest[k].serial);
    }
  }

  /** Taking the first entry: a packet of the serial at hand, or the flush packet of a newer one. */
  lemma TakeKeeps(s: State)
    requires QueueInv(s) && s.queue.entries != []
    ensures var e := s.queue.entries[0];
      && QueueInv(s.(queue := s.queue.(entries := s.queue.entries[1..]), pktSerial := e.serial))
      && (if e.pkt.flush then s.pktSerial < e.serial else s.pktSerial == e.serial)
  {
    var was := s.queue.entries;
    TakeOpened(was, s.pktSerial);
    if FlushBefore(was, |was|, s.queue.serial) && was[0].serial != s.queue.serial {
      FlushAhead(was, |was|, s.queue.serial);
    }
  }

  lemma StepKeepsQueue(s: State, step: Step)
    requires Inv(s) && Enabled(s, step)
    ensures QueueInv(Apply(s, step))
  {
    match step
    case ReaderPut(pkt) => PutKeeps(s, pkt);
    case SeekPut(pkt) => PutKeeps(s, pkt);
    case GetPacket => TakeKeeps(s);
    case _ =>
  }

  lemma StepKeepsDecoder(s: State, step: Step)
    requires Inv(s) && Enabled(s, step)
    ensures DecoderInv(Apply(s, step)) && WellSerialised(Apply(s, step).log)
  {
    match step
    case GetPacket => TakeKeeps(s);
    case GiveFrame => LogGrows(s.log, Output(s.pktSerial));
    case CodecEof => LogGrows(s.log, Drained);
    case FlushCodec => LogGrows(s.log, Flushed(s.pktSerial));
    case Accept => LogGrows(s.log, Sent(s.pc.pkt, s.pktSerial));
    case AcceptAndKeep => LogGrows(s.log, Sent(s.pc.pkt, s.pktSerial));
    case _ =>
  }

  // ----- every run

  ghost predicate Runs(s: State, steps: seq<Step>, s': State)
    decreases |steps|
  {
    if steps == [] then s' == s
    else Enabled(s, steps[0]) && Runs(Apply(s, steps[0]), steps[1..], s')
  }

  lemma {:induction false} RunInv(s: State, steps: seq<Step>, s': State)
    requires Inv(s) && Runs(s, steps, s')
    ensures Inv(s')
    decreases |steps|
  {
    if steps != [] {
      StepKeepsQueue(s, steps[0]);
      StepKeepsDecoder(s, steps[0]);
      RunInv(Apply(s, steps[0]), steps[1..], s');
    }
  }

  /** Along every interleaving the codec only ever holds packets of the serial it was last flushed for. */
  lemma EveryRunWellSerialised(flushPkt: Packet, steps: seq<Step>, s: State)
    requires flushPkt.flush && Runs(Init(flushPkt), steps, s)
    ensures WellSerialised(s.log)
    ensures s.pc.Top? || s.pc.AbortTest? || s.pc.Receive? ==> CurrentSerial(s.log) == s.pktSerial
  {
    InitInv(flushPkt);
    RunInv(Init(flushPkt), steps, s);
  }

  /** Where the codec was last flushed before event i, it was flushed for CurrentSerial. */
  lemma {:induction false} LastFlush(log: seq<Event>, i: nat) returns (k: nat)
    requires i <= |log| && CurrentSerial(log[..i]) != -1
    ensures k < i && log[k] == Flushed(CurrentSerial(log[..i]))
    ensures forall j :: k < j < i ==> !log[j].Flushed?
  {
    assert i > 0;
    assert log[..i][..i - 1] == log[..i - 1];
    if log[i - 1].Flushed? {
      k := i - 1;
    } else {
      k := LastFlush(log, i - 1);
    }
  }

  /** No packet of a serial reaches the codec, or comes out of it, before that serial's flush packet. */
  lemma FlushedFirst(flushPkt: Packet, steps: seq<Step>, s: State, i: nat) returns (k: nat)
    requires flushPkt.flush && Runs(Init(flushPkt), steps, s)
    requires i < |s.log| && (s.log[i].Sent? || s.log[i].Output?)
    ensures k < i && s.log[k] == Flushed(s.log[i].serial)
    ensures forall j :: k < j < i && (s.log[j].Sent? || s.log[j].Output?) ==> s.log[j].serial == s.log[i].serial
  {
    EveryRunWellSerialised(flushPkt, steps, s);
    assert Fits(s.log, i);
    k := LastFlush(s.log, i);
    forall j | k < j < i && (s.log[j].Sent? || s.log[j].Output?) ensures s.log[j].serial == s.log[i].serial {
      assert Fits(s.log, j);
      SameFlush(s.log, j, i);
    }
  }

  lemma {:induction false} SameFlush(log: seq<Event>, j: nat, i: nat)
    requires j <= i <= |log| && forall h :: j <= h < i ==> !log[h].Flushed?
    ensures CurrentSerial(log[..j]) == CurrentSerial(log[..i])
  {
    if j < i {
      assert log[..i][..i - 1] == log[..i - 1];
      SameFlush(log, j, i - 1);
    }
  }
}
