/** What the muxer receives over whole runs of writes before and after the header. */
module MuxProperties {
  import opened MuxWriter
  import Slices

  // ----- timestamps

  /** Stamps in order within a packet. */
  predicate StampsOrdered(p: Packet) {
    p.dts != NOPTS && p.pts != NOPTS ==> p.dts <= p.pts
  }

  /** q may follow p: where both have a DTS it rises, or with the nonstrict flag does not fall. */
  predicate Follows(c: Config, p: Packet, q: Packet) {
    p.dts != NOPTS && q.dts != NOPTS ==> Floor(c, p.dts) <= q.dts
  }

  ghost predicate Timeline(c: Config, ps: seq<Packet>) {
    && (forall i :: 0 <= i < |ps| ==> StampsOrdered(ps[i]))
    && (Checked(c) ==> forall i :: 0 < i < |ps| ==> Follows(c, ps[i - 1], ps[i]))
  }

  /** The repair makes both comparisons hold, whatever the packet was. */
  lemma RepairOrders(c: Config, last: int, p: Packet)
    requires !c.noTimestamps && ValidStamps(p) && last >= NOPTS
    ensures var r := Repair(c, last, p);
      && ValidStamps(r) && StampsOrdered(r) && r.id == p.id
      && (r.dts == NOPTS <==> p.dts == NOPTS) && (r.pts == NOPTS <==> p.pts == NOPTS)
      && (Checked(c) && r.dts != NOPTS && last != NOPTS ==> Floor(c, last) <= r.dts)
  {
  }

  /** A packet that is already in order passes unchanged; on an unchecked stream only DTS > PTS is repaired. */
  lemma RepairOnlyWhatIsBroken(c: Config, last: int, p: Packet)
    requires p.dts == NOPTS || p.pts == NOPTS || p.dts <= p.pts
    requires Checked(c) && p.dts != NOPTS && last != NOPTS ==> Floor(c, last) <= p.dts
    ensures Repair(c, last, p) == p && !Complains(c, last, p)
  {
  }

  ghost predicate StreamInv(c: Config, s: Stream) {
    && s.lastMuxDts == (if s.muxed == [] then NOPTS else s.muxed[|s.muxed| - 1].dts)
    && s.lastMuxDts >= NOPTS
    && (!c.noTimestamps ==> Timeline(c, s.muxed))
    && (forall i :: 0 <= i < |s.queue| ==> ValidStamps(s.queue[i]))
    && (s.headerWritten && !s.exited ==> s.queue == [])
    && (!s.headerWritten ==> s.muxed == [])
  }

  lemma PreparedValid(c: Config, p: Packet)
    requires ValidConfig(c) && ValidStamps(p)
    ensures ValidStamps(Prepared(c, p)) && Prepared(c, p).id == p.id
  {
  }

  lemma MuxedTimeline(c: Config, s: Stream, p: Packet)
    requires ValidConfig(c) && ValidStamps(p) && s.lastMuxDts >= NOPTS
    requires s.lastMuxDts == (if s.muxed == [] then NOPTS else s.muxed[|s.muxed| - 1].dts)
    requires !c.noTimestamps ==> Timeline(c, s.muxed)
    ensures var t := Muxed(c, s, p);
      && t.lastMuxDts == (if t.muxed == [] then NOPTS else t.muxed[|t.muxed| - 1].dts)
      && t.lastMuxDts >= NOPTS && (!c.noTimestamps ==> Timeline(c, t.muxed))
  {
    PreparedValid(c, p);
    if !c.noTimestamps {
      RepairOrders(c, s.lastMuxDts, Prepared(c, p));
    }
  }

  lemma WriteKeeps(c: Config, s: Stream, p: Packet)
    requires ValidConfig(c) && ValidStamps(p) && StreamInv(c, s)
    ensures StreamInv(c, Write(c, s, p))
  {
    MuxedTimeline(c, s.(frameNumber := s.frameNumber + 1), p);
    MuxedTimeline(c, s, p);
  }

  ghost predicate FlushInv(c: Config, s: Stream) {
    && s.headerWritten
    && s.lastMuxDts == (if s.muxed == [] then NOPTS else s.muxed[|s.muxed| - 1].dts)
    && s.lastMuxDts >= NOPTS
    && (!c.noTimestamps ==> Timeline(c, s.muxed))
    && (forall i :: 0 <= i < |s.queue| ==> ValidStamps(s.queue[i]))
  }

  lemma {:induction false} EmptiedKeeps(c: Config, s: Stream)
    requires ValidConfig(c) && FlushInv(c, s)
    ensures StreamInv(c, Emptied(c, s))
    decreases |s.queue|
  {
    if s.queue != [] && !s.exited {
      MuxedTimeline(c, s.(queue := s.queue[1..]), s.queue[0]);
      EmptiedKeeps(c, Muxed(c, s.(queue := s.queue[1..]), s.queue[0]));
    }
  }

  // ----- runs

  datatype Event = Packet(pkt: MuxWriter.Packet) | Header

  function Step(c: Config, s: Stream, e: Event): Stream {
    match e
    case Packet(pkt) => Write(c, s, pkt)
    case Header => WriteHeader(c, s)
  }

  function Run(c: Config, events: seq<Event>): Stream {
    if events == [] then Init() else Step(c, Run(c, events[..|events| - 1]), events[|events| - 1])
  }

  ghost predicate ValidEvents(events: seq<Event>) {
    forall i :: 0 <= i < |events| && events[i].Packet? ==> ValidStamps(events[i].pkt)
  }

  lemma {:induction false} RunKeeps(c: Config, events: seq<Event>)
    requires ValidConfig(c) && ValidEvents(events)
    ensures StreamInv(c, Run(c, events))
  {
    if events != [] {
      var n := |events| - 1;
      RunKeeps(c, events[..n]);
      var s := Run(c, events[..n]);
      match events[n]
      case Packet(pkt) => WriteKeeps(c, s, pkt);
      case Header =>
        if !s.exited && !s.headerWritten {
          EmptiedKeeps(c, s.(headerWritten := true));
        }
    }
  }

  /** On a muxer with timestamps every packet has DTS <= PTS, and on checked streams neighbouring DTS rise. */
  lemma MuxerTimeline(c: Config, events: seq<Event>, i: nat)
    requires ValidConfig(c) && ValidEvents(events) && !c.noTimestamps && i < |Run(c, events).muxed|
    ensures StampsOrdered(Run(c, events).muxed[i])
    ensures Checked(c) && i > 0 ==> Follows(c, Run(c, events).muxed[i - 1], Run(c, events).muxed[i])
  {
    RunKeeps(c, events);
  }

  /** Where every packet has a DTS the whole sequence rises, strictly unless the muxer is nonstrict. */
  lemma {:induction false} DtsRises(c: Config, events: seq<Event>, i: nat, j: nat)
    requires ValidConfig(c) && ValidEvents(events) && Checked(c)
    requires i < j < |Run(c, events).muxed|
    requires forall k :: i <= k <= j ==> Run(c, events).muxed[k].dts != NOPTS
    ensures Floor(c, Run(c, events).muxed[i].dts) <= Run(c, events).muxed[j].dts
    decreases j - i
  {
    MuxerTimeline(c, events, j);
    if i < j - 1 {
      DtsRises(c, events, i, j - 1);
    }
  }

  /** A packet whose DTS was undefined resets the floor: the next one passes, cut to its PTS if it lies after it. */
  lemma UndefinedResets(c: Config, s: Stream, p: MuxWriter.Packet)
    requires ValidConfig(c) && ValidStamps(p) && s.lastMuxDts == NOPTS
    ensures var q := Prepared(c, p); var t := Muxed(c, s, p);
      && t.exited == s.exited
      && t.muxed == s.muxed + [if !c.noTimestamps && q.dts != NOPTS && q.pts != NOPTS && q.dts > q.pts
                               then q.(dts := q.pts) else q]
  {
    PreparedValid(c, p);
  }

  /** Room for two more packets, whether or not they count against the limit. */
  predicate TakesTwo(c: Config, s: Stream) {
    s.headerWritten && !s.exited && (Limited(c) ==> s.frameNumber + 2 <= c.maxFrames)
  }

  /** So across an undefined DTS nothing is promised: after it, any DTS reaches the muxer as it is. */
  lemma GapForgets(c: Config, s: Stream, gap: MuxWriter.Packet, p: MuxWriter.Packet)
    requires ValidConfig(c) && TakesTwo(c, s) && !c.dropTimestamps && gap.dts == NOPTS
    requires ValidStamps(p) && p.pts == NOPTS && p.dts != NOPTS
    ensures var t := Write(c, Write(c, s, gap), p);
      && !t.exited && |t.muxed| == |s.muxed| + 2 && t.muxed[..|s.muxed|] == s.muxed
      && t.muxed[|s.muxed|].dts == NOPTS && t.muxed[|s.muxed| + 1].dts == c.rescale(p.dts)
  {
    var u := Write(c, s, gap);
    assert u.lastMuxDts == NOPTS && !u.exited && u.headerWritten;
    UndefinedResets(c, u, p);
  }

  function Stamped(id: nat, dts: int): MuxWriter.Packet {
    MuxWriter.Packet(id, NOPTS, dts)
  }

  lemma RunStep(c: Config, events: seq<Event>, e: Event)
    ensures Run(c, events + [e]) == Step(c, Run(c, events), e)
  {
    Slices.Front(events, [e]);
  }

  /** The DTS values 10, undefined and 5 arrive after the header and reach the muxer unchanged: 10 is followed by 5. */
  lemma DtsFallsAcrossGap(c: Config, before: seq<Event>, events: seq<Event>)
    requires c == Config(Audio, true, false, false, 100, 128, false, false, false, t => t)
    requires before == [Header] + [Event.Packet(Stamped(0, 10))]
    requires events == before + [Event.Packet(Stamped(1, NOPTS))] + [Event.Packet(Stamped(2, 5))]
    ensures Checked(c) && |Run(c, events).muxed| == 3
    ensures var muxed := Run(c, events).muxed;
      muxed[0].dts == 10 && muxed[1].dts == NOPTS && muxed[2].dts == 5
  {
    assert Run(c, [Header]) == Init().(headerWritten := true) by {
      assert [Header][..0] == [];
    }
    RunStep(c, [Header], Event.Packet(Stamped(0, 10)));
    RunStep(c, before, Event.Packet(Stamped(1, NOPTS)));
    RunStep(c, before + [Event.Packet(Stamped(1, NOPTS))], Event.Packet(Stamped(2, 5)));
    assert Run(c, before).muxed == [Stamped(0, 10)];
    GapForgets(c, Run(c, before), Stamped(1, NOPTS), Stamped(2, 5));
  }

  // ----- every accepted packet once, in order of arrival

  function Ids(ps: seq<MuxWriter.Packet>): (r: seq<nat>)
    ensures |r| == |ps|
  {
    if ps == [] then [] else Ids(ps[..|ps| - 1]) + [ps[|ps| - 1].id]
  }

  function Arrivals(events: seq<Event>): seq<nat> {
    if events == [] then []
    else Arrivals(events[..|events| - 1]) + if events[|events| - 1].Packet? then [events[|events| - 1].pkt.id] else []
  }

  /** All of them, or the first maxFrames. */
  function Taken(c: Config, all: seq<nat>): seq<nat> {
    if !Limited(c) || |all| <= c.maxFrames then all
    else if c.maxFrames < 0 then [] else all[..c.maxFrames]
  }

  /** The arrivals under the limit. */
  function Accepted(c: Config, events: seq<Event>): seq<nat> {
    Taken(c, Arrivals(events))
  }

  lemma TakenMore(c: Config, all: seq<nat>, id: nat)
    ensures Taken(c, all + [id])
      == if Limited(c) && |Taken(c, all)| >= c.maxFrames then Taken(c, all) else Taken(c, all) + [id]
  {
    if Limited(c) && 0 <= c.maxFrames < |all| + 1 {
      assert (all + [id])[..c.maxFrames] == all[..c.maxFrames];
      assert all[..|all|] == all;
    }
  }

  lemma IdsAppend(ps: seq<MuxWriter.Packet>, p: MuxWriter.Packet)
    ensures Ids(ps + [p]) == Ids(ps) + [p.id]
  {
    assert (ps + [p])[..|ps|] == ps;
  }

  lemma {:induction false} IdsFront(ps: seq<MuxWriter.Packet>)
    requires ps != []
    ensures Ids(ps) == [ps[0].id] + Ids(ps[1..])
  {
    var n := |ps| - 1;
    if n > 0 {
      IdsFront(ps[..n]);
      assert ps[1..][..n - 1] == ps[..n][1..];
      Slices.Assoc([ps[0].id], Ids(ps[1..][..n - 1]), [ps[n].id]);
    } else {
      assert ps[..0] == [] && ps[1..] == [];
    }
  }

  lemma RepairKeepsId(c: Config, last: int, p: MuxWriter.Packet)
    ensures Repair(c, last, Prepared(c, p)).id == p.id
  {
  }

  lemma MuxedIds(c: Config, s: Stream, p: MuxWriter.Packet)
    requires !Muxed(c, s, p).exited
    ensures Ids(Muxed(c, s, p).muxed) == Ids(s.muxed) + [p.id] && Muxed(c, s, p).queue == s.queue
  {
    RepairKeepsId(c, s.lastMuxDts, p);
    IdsAppend(s.muxed, Repair(c, s.lastMuxDts, Prepared(c, p)));
  }

  lemma {:induction false} EmptiedIds(c: Config, s: Stream)
    requires !Emptied(c, s).exited
    ensures Ids(Emptied(c, s).muxed) == Ids(s.muxed) + Ids(s.queue) && Emptied(c, s).queue == []
    ensures Emptied(c, s).headerWritten == s.headerWritten && Emptied(c, s).frameNumber == s.frameNumber
    decreases |s.queue|
  {
    if s.queue != [] && !s.exited {
      var t := s.(queue := s.queue[1..]);
      var u := Muxed(c, t, s.queue[0]);
      if !u.exited {
        MuxedIds(c, t, s.queue[0]);
        EmptiedIds(c, u);
        IdsFront(s.queue);
        Slices.Assoc(Ids(s.muxed), [s.queue[0].id], Ids(s.queue[1..]));
      }
    } else {
      Slices.Nothing(Ids(s.muxed));
    }
  }

  /** Received by the muxer, then still queued. */
  function Through(s: Stream): seq<nat> {
    Ids(s.muxed) + Ids(s.queue)
  }

  lemma QueuedThrough(c: Config, s: Stream, p: MuxWriter.Packet)
    requires !Queued(c, s, p).exited
    ensures Through(Queued(c, s, p)) == Through(s) + [p.id]
  {
    IdsAppend(s.queue, p);
    Slices.Assoc(Ids(s.muxed), Ids(s.queue), [p.id]);
  }

  lemma MuxedThrough(c: Config, s: Stream, p: MuxWriter.Packet)
    requires !Muxed(c, s, p).exited && s.queue == []
    ensures Through(Muxed(c, s, p)) == Through(s) + [p.id]
  {
    MuxedIds(c, s, p);
    Slices.Nothing(Ids(s.muxed));
    Slices.Nothing(Ids(s.muxed) + [p.id]);
  }

  lemma WriteThrough(c: Config, s: Stream, p: MuxWriter.Packet)
    requires !Write(c, s, p).exited && (s.headerWritten ==> s.queue == [])
    ensures var dropped := Limited(c) && s.frameNumber >= c.maxFrames;
      && Through(Write(c, s, p)) == (if dropped then Through(s) else Through(s) + [p.id])
      && Write(c, s, p).frameNumber == s.frameNumber + (if Limited(c) && !dropped then 1 else 0)
  {
    if !(Limited(c) && s.frameNumber >= c.maxFrames) {
      var t := if Limited(c) then s.(frameNumber := s.frameNumber + 1) else s;
      if s.headerWritten {
        MuxedThrough(c, t, p);
      } else {
        QueuedThrough(c, t, p);
      }
    }
  }

  lemma {:induction false} ExitedStays(c: Config, events: seq<Event>)
    requires events != [] && !Run(c, events).exited
    ensures !Run(c, events[..|events| - 1]).exited
  {
  }

  lemma {:induction false} RunThrough(c: Config, events: seq<Event>)
    requires !Run(c, events).exited
    ensures Through(Run(c, events)) == Accepted(c, events)
    ensures Run(c, events).headerWritten ==> Run(c, events).queue == []
    ensures Limited(c) ==> Run(c, events).frameNumber == |Accepted(c, events)|
  {
    if events != [] {
      var n := |events| - 1;
      ExitedStays(c, events);
      RunThrough(c, events[..n]);
      var s := Run(c, events[..n]);
      match events[n]
      case Packet(pkt) =>
        WriteThrough(c, s, pkt);
        TakenMore(c, Arrivals(events[..n]), pkt.id);
      case Header =>
        Slices.Nothing(Arrivals(events[..n]));
        if !s.exited && !s.headerWritten {
          EmptiedIds(c, s.(headerWritten := true));
          Slices.Nothing(Through(s));
        }
    }
  }

  /** The muxer receives every accepted packet exactly once, in order of arrival, once the header is out. */
  lemma ExactlyOnceInOrder(c: Config, events: seq<Event>)
    requires !Run(c, events).exited
    ensures Run(c, events).headerWritten ==> Ids(Run(c, events).muxed) == Accepted(c, events)
    ensures !Run(c, events).headerWritten ==> Ids(Run(c, events).queue) == Accepted(c, events)
  {
    RunThrough(c, events);
    BeforeHeader(c, events);
    Slices.Nothing(Ids(Run(c, events).muxed));
    Slices.Nothing(Ids(Run(c, events).queue));
  }

  lemma {:induction false} BeforeHeader(c: Config, events: seq<Event>)
    ensures !Run(c, events).headerWritten ==> Run(c, events).muxed == []
  {
    if events != [] {
      var n := |events| - 1;
      BeforeHeader(c, events[..n]);
      var s := Run(c, events[..n]);
      if events[n].Header? && !s.exited && !s.headerWritten {
        HeaderStays(c, s.(headerWritten := true));
      }
    }
  }

  lemma {:induction false} HeaderStays(c: Config, s: Stream)
    ensures Emptied(c, s).headerWritten == s.headerWritten
    decreases |s.queue|
  {
    if s.queue != [] && !s.exited {
      HeaderStays(c, Muxed(c, s.(queue := s.queue[1..]), s.queue[0]));
    }
  }
}
