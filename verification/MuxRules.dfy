/** What becomes of each accepted packet, in the stamps it came with and the DTS before it; when the queue is too full. */
module MuxRules {
  import opened Medians
  import opened MuxWriter
  import opened MuxProperties
  import Slices

  // ----- one packet

  /** q is p in the muxer's time base, or without stamps. */
  predicate Arrives(c: Config, p: MuxWriter.Packet, q: MuxWriter.Packet) {
    && q.id == p.id
    && if c.dropTimestamps then q.pts == NOPTS && q.dts == NOPTS
       else q.pts == (if p.pts == NOPTS then NOPTS else c.rescale(p.pts))
            && q.dts == if p.dts == NOPTS then NOPTS else c.rescale(p.dts)
  }

  /** Both stamps of a packet that would be decoded after it is shown give way to the middle one of the three at hand. */
  predicate Mended(c: Config, last: int, q: MuxWriter.Packet, m: MuxWriter.Packet) {
    if !c.noTimestamps && q.dts != NOPTS && q.pts != NOPTS && q.dts > q.pts
    then m.id == q.id && m.pts == m.dts && IsMedian(m.dts, q.pts, q.dts, last + 1)
    else m == q
  }

  /** An audio, video or subtitle packet, not a copied VP9 one, must not come before least. */
  predicate Late(c: Config, last: int, m: MuxWriter.Packet, least: int) {
    && !c.noTimestamps && (c.kind.Video? || c.kind.Audio? || c.kind.Subtitle?) && !c.vp9Copy
    && last != NOPTS && m.dts != NOPTS && m.dts < least
  }

  /** r is m moved up to least if it comes before it; a PTS not before the DTS is moved up only as far as it must. */
  predicate Raised(c: Config, last: int, m: MuxWriter.Packet, least: int, r: MuxWriter.Packet) {
    if Late(c, last, m, least) then r.id == m.id && r.dts == least && r.pts == if m.pts < m.dts || m.pts > least then m.pts else least
    else r == m
  }

  /** The muxer receives r for p, whose predecessor had the DTS last. */
  ghost predicate Becomes(c: Config, last: int, p: MuxWriter.Packet, r: MuxWriter.Packet) {
    exists q, m :: Arrives(c, p, q) && Mended(c, last, q, m) && Raised(c, last, m, if c.nonStrict then last else last + 1, r)
  }

  lemma ArrivesPrepared(c: Config, p: MuxWriter.Packet, q: MuxWriter.Packet)
    ensures Arrives(c, p, q) <==> q == Prepared(c, p)
  {
  }

  lemma MendedSwapped(c: Config, last: int, q: MuxWriter.Packet, m: MuxWriter.Packet)
    ensures Mended(c, last, q, m) <==> m == if c.noTimestamps then q else Swapped(last, q)
  {
    GuessIsMedian(q.pts, q.dts, last);
  }

  lemma RaisedRepair(c: Config, last: int, q: MuxWriter.Packet, m: MuxWriter.Packet, least: int, r: MuxWriter.Packet)
    requires Mended(c, last, q, m) && least == if c.nonStrict then last else last + 1
    ensures Raised(c, last, m, least, r) <==> r == Repair(c, last, q)
    ensures Late(c, last, m, least) <==> Complains(c, last, q)
  {
    MendedSwapped(c, last, q, m);
  }

  /** The repair does that and nothing else. */
  lemma RepairIs(c: Config, last: int, p: MuxWriter.Packet, r: MuxWriter.Packet)
    ensures Becomes(c, last, p, r) <==> r == Repair(c, last, Prepared(c, p))
  {
    var q := Prepared(c, p);
    var m := if c.noTimestamps then q else Swapped(last, q);
    var least := if c.nonStrict then last else last + 1;
    ArrivesPrepared(c, p, q);
    MendedSwapped(c, last, q, m);
    RaisedRepair(c, last, q, m, least, r);
    if Becomes(c, last, p, r) {
      var q1, m1 :| Arrives(c, p, q1) && Mended(c, last, q1, m1) && Raised(c, last, m1, least, r);
      ArrivesPrepared(c, p, q1);
      MendedSwapped(c, last, q1, m1);
    }
  }

  /** Handing one packet over: it stops the program exactly if it is late and errors are fatal. */
  lemma MuxedIs(c: Config, s: Stream, p: MuxWriter.Packet, t: Stream, q: MuxWriter.Packet, m: MuxWriter.Packet, least: int)
    requires t == Muxed(c, s, p) && Arrives(c, p, q) && Mended(c, s.lastMuxDts, q, m)
    requires least == if c.nonStrict then s.lastMuxDts else s.lastMuxDts + 1
    ensures Late(c, s.lastMuxDts, m, least) && c.exitOnError ==> t == s.(exited := true)
    ensures !(Late(c, s.lastMuxDts, m, least) && c.exitOnError) ==>
      |t.muxed| == |s.muxed| + 1 && Becomes(c, s.lastMuxDts, p, t.muxed[|s.muxed|])
      && t == s.(muxed := s.muxed + [t.muxed[|s.muxed|]], lastMuxDts := t.muxed[|s.muxed|].dts)
  {
    ArrivesPrepared(c, p, q);
    RaisedRepair(c, s.lastMuxDts, q, m, least, Repair(c, s.lastMuxDts, q));
    RepairIs(c, s.lastMuxDts, p, Repair(c, s.lastMuxDts, q));
  }

  // ----- runs

  /** The packets that arrived. */
  function Packets(events: seq<Event>): seq<MuxWriter.Packet> {
    if events == [] then []
    else Packets(events[..|events| - 1]) + if events[|events| - 1].Packet? then [events[|events| - 1].pkt] else []
  }

  /** Those within the frame limit, which counts all streams but encoded video. */
  function WithinLimit(c: Config, all: seq<MuxWriter.Packet>): (r: seq<MuxWriter.Packet>)
    ensures |r| <= |all| && r == all[..|r|]
    ensures |r| == |all| || (!(c.kind.Video? && c.encodingNeeded) && |r| >= c.maxFrames)
    ensures !(c.kind.Video? && c.encodingNeeded) ==> |r| <= Max(0, c.maxFrames)
  {
    if (c.kind.Video? && c.encodingNeeded) || |all| <= c.maxFrames then all else all[..Max(0, c.maxFrames)]
  }

  function DtsBefore(muxed: seq<MuxWriter.Packet>, i: int): int {
    if 0 < i <= |muxed| then muxed[i - 1].dts else NOPTS
  }

  ghost predicate BecomesAt(c: Config, from: seq<MuxWriter.Packet>, muxed: seq<MuxWriter.Packet>, i: nat)
    requires i < |from| && i < |muxed|
  {
    Becomes(c, DtsBefore(muxed, i), from[i], muxed[i])
  }

  /** What reached the muxer, then what is queued, are the accepted packets. */
  ghost predicate Delivers(c: Config, from: seq<MuxWriter.Packet>, s: Stream) {
    && |s.muxed| + |s.queue| == |from| && from[|s.muxed|..] == s.queue
    && s.lastMuxDts == DtsBefore(s.muxed, |s.muxed|)
    && forall i :: 0 <= i < |s.muxed| ==> BecomesAt(c, from, s.muxed, i)
  }

  lemma DeliversOne(c: Config, from: seq<MuxWriter.Packet>, s: Stream, t: Stream, p: MuxWriter.Packet, more: seq<MuxWriter.Packet>)
    requires Delivers(c, from, s) && s.queue == [] && t == Muxed(c, s, p) && !t.exited && more == from + [p]
    ensures Delivers(c, more, t)
  {
    RepairIs(c, s.lastMuxDts, p, Repair(c, s.lastMuxDts, Prepared(c, p)));
    forall i | 0 <= i < |t.muxed|
      ensures BecomesAt(c, more, t.muxed, i)
    {
      assert i < |s.muxed| ==> BecomesAt(c, from, s.muxed, i);
    }
  }

  lemma DeliversFirst(c: Config, from: seq<MuxWriter.Packet>, s: Stream, t: Stream)
    requires Delivers(c, from, s) && s.queue != [] && t == Muxed(c, s.(queue := s.queue[1..]), s.queue[0]) && !t.exited
    ensures Delivers(c, from, t)
  {
    var p := s.queue[0];
    RepairIs(c, s.lastMuxDts, p, Repair(c, s.lastMuxDts, Prepared(c, p)));
    assert from[|s.muxed|] == from[|s.muxed|..][0];
    assert from[|t.muxed|..] == from[|s.muxed|..][1..];
    forall i | 0 <= i < |t.muxed|
      ensures BecomesAt(c, from, t.muxed, i)
    {
      assert i < |s.muxed| ==> BecomesAt(c, from, s.muxed, i);
    }
  }

  lemma {:induction false} DeliversAll(c: Config, from: seq<MuxWriter.Packet>, s: Stream)
    requires Delivers(c, from, s) && !Emptied(c, s).exited
    ensures Delivers(c, from, Emptied(c, s))
    decreases |s.queue|
  {
    if s.queue != [] && !s.exited {
      var t := Muxed(c, s.(queue := s.queue[1..]), s.queue[0]);
      if !t.exited {
        DeliversFirst(c, from, s, t);
        DeliversAll(c, from, t);
      }
    }
  }

  lemma DeliversQueued(c: Config, from: seq<MuxWriter.Packet>, s: Stream, t: Stream, p: MuxWriter.Packet, more: seq<MuxWriter.Packet>)
    requires Delivers(c, from, s) && t == Queued(c, s, p) && !t.exited && more == from + [p]
    ensures Delivers(c, more, t)
  {
    assert more[|s.muxed|..] == from[|s.muxed|..] + [p];
    forall i | 0 <= i < |t.muxed|
      ensures BecomesAt(c, more, t.muxed, i)
    {
      assert BecomesAt(c, from, s.muxed, i);
    }
  }

  lemma LimitMore(c: Config, all: seq<MuxWriter.Packet>, p: MuxWriter.Packet)
    ensures WithinLimit(c, all + [p])
      == if Limited(c) && |WithinLimit(c, all)| >= c.maxFrames then WithinLimit(c, all) else WithinLimit(c, all) + [p]
  {
    if Limited(c) && 0 <= c.maxFrames < |all| + 1 {
      assert (all + [p])[..c.maxFrames] == all[..c.maxFrames];
      assert all[..|all|] == all;
    }
  }

  lemma WriteDelivers(c: Config, from: seq<MuxWriter.Packet>, s: Stream, p: MuxWriter.Packet)
    requires Delivers(c, from, s) && !Write(c, s, p).exited && (s.headerWritten ==> s.queue == [])
    requires Limited(c) ==> s.frameNumber == |from|
    ensures Delivers(c, if Limited(c) && |from| >= c.maxFrames then from else from + [p], Write(c, s, p))
    ensures Limited(c) ==> Write(c, s, p).frameNumber == |from| + if |from| >= c.maxFrames then 0 else 1
  {
    if !(Limited(c) && s.frameNumber >= c.maxFrames) {
      var t := if Limited(c) then s.(frameNumber := s.frameNumber + 1) else s;
      if s.headerWritten {
        DeliversOne(c, from, t, Muxed(c, t, p), p, from + [p]);
      } else {
        DeliversQueued(c, from, t, Queued(c, t, p), p, from + [p]);
      }
    }
  }

  lemma {:induction false} RunDelivers(c: Config, events: seq<Event>)
    requires !Run(c, events).exited
    ensures Delivers(c, WithinLimit(c, Packets(events)), Run(c, events))
    ensures Run(c, events).headerWritten ==> Run(c, events).queue == []
    ensures Limited(c) ==> Run(c, events).frameNumber == |WithinLimit(c, Packets(events))|
  {
    if events != [] {
      var n := |events| - 1;
      ExitedStays(c, events);
      RunDelivers(c, events[..n]);
      RunThrough(c, events);
      var s := Run(c, events[..n]);
      match events[n]
      case Packet(pkt) =>
        WriteDelivers(c, WithinLimit(c, Packets(events[..n])), s, pkt);
        LimitMore(c, Packets(events[..n]), pkt);
      case Header =>
        Slices.Nothing(Packets(events[..n]));
        if !s.exited && !s.headerWritten {
          DeliversAll(c, WithinLimit(c, Packets(events[..n])), s.(headerWritten := true));
          EmptiedIds(c, s.(headerWritten := true));
        }
    }
  }

  /**
   Whenever the header is written, the muxer receives the packets within the limit, each become what its own stamps and the
   DTS before it make of it.
   */
  lemma EachBecomes(c: Config, events: seq<Event>, i: nat)
    requires !Run(c, events).exited && Run(c, events).headerWritten
    requires i < |WithinLimit(c, Packets(events))|
    ensures |Run(c, events).muxed| == |WithinLimit(c, Packets(events))|
    ensures Becomes(c, DtsBefore(Run(c, events).muxed, i), WithinLimit(c, Packets(events))[i], Run(c, events).muxed[i])
  {
    RunDelivers(c, events);
    assert BecomesAt(c, WithinLimit(c, Packets(events)), Run(c, events).muxed, i);
  }

  // ----- the queue

  /** Packets the queue takes before the header. */
  function Room(c: Config): nat {
    Max(8, c.maxQueue)
  }

  ghost predicate Waiting(c: Config, s: Stream, n: nat) {
    && !s.headerWritten && s.capacity <= Room(c) && 8 <= s.capacity
    && (s.exited <==> n > Room(c))
    && (!s.exited ==> |s.queue| == n && (Limited(c) ==> s.frameNumber == n))
  }

  lemma QueuedWaits(c: Config, s: Stream, p: MuxWriter.Packet, n: nat, n1: nat)
    requires Waiting(c, s, n) && !s.exited && n1 == n + 1
    ensures var t := if Limited(c) then s.(frameNumber := n1) else s; Waiting(c, Queued(c, t, p), n1)
  {
  }

  lemma {:induction false} RunWaits(c: Config, events: seq<Event>)
    requires forall i :: 0 <= i < |events| ==> events[i].Packet?
    ensures Waiting(c, Run(c, events), |WithinLimit(c, Packets(events))|)
  {
    if events != [] {
      var n := |events| - 1;
      RunWaits(c, events[..n]);
      var s, p := Run(c, events[..n]), events[n].pkt;
      var k := |WithinLimit(c, Packets(events[..n]))|;
      LimitMore(c, Packets(events[..n]), p);
      if !s.exited && !(Limited(c) && s.frameNumber >= c.maxFrames) {
        QueuedWaits(c, s, p, k, k + 1);
      }
    }
  }

  /** Before the header the program stops exactly when more packets are accepted than the queue may grow to. */
  lemma QueueOverflowsExactly(c: Config, events: seq<Event>)
    requires forall i :: 0 <= i < |events| ==> events[i].Packet?
    ensures Run(c, events).exited <==> |WithinLimit(c, Packets(events))| > Max(8, c.maxQueue)
  {
    RunWaits(c, events);
  }
}
