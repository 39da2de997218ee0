/**
 The index-walking loop that drives a chain of bitstream filters: pull from filter idx - 1, push to
 filter idx or to the muxer, step back when nothing is left to pull.
 */
module OutputPacket {
  import opened FilterChain
  import opened FilterMeaning
  import opened Wrappers
  import Slices

  /** What av_bsf_send_packet returns: success, EAGAIN or EINVAL. */
  datatype Sent = Accepted | Full | Refused

  datatype Received<P> = Again | Got(item: Item<P>)

  /** Eof sits at the end of its queue, and nothing is left in the queues before it. */
  ghost predicate EofLast<P>(queues: seq<seq<Item<P>>>) {
    forall i, k :: 0 <= i < |queues| && 0 <= k < |queues[i]| && queues[i][k] == Eof ==>
      k == |queues[i]| - 1 && forall h :: 0 <= h < i ==> queues[h] == []
  }

  /** The end of the stream is still to come out of h, or has been passed on to the filter behind it. */
  ghost predicate PassesEnd<P>(ended: seq<bool>, queues: seq<seq<Item<P>>>, h: nat, idx: nat)
    requires |ended| == |queues| && h < |queues| && idx <= |queues|
  {
    if queues[h] != [] then queues[h][|queues[h]| - 1] == Eof else h + 1 < idx && ended[h + 1]
  }

  /** Filters are told of the end of the stream one after the other. */
  predicate InOrder(ended: seq<bool>) {
    forall g, h :: 0 <= g <= h < |ended| && ended[h] ==> ended[g]
  }

  /** The walk stands at idx: the filters from there on are drained, and the end of the stream is on its way. */
  ghost predicate Position<P>(ended: seq<bool>, queues: seq<seq<Item<P>>>, idx: nat)
    requires |ended| == |queues|
  {
    && idx <= |queues| && EofLast(queues)
    && (forall h :: idx <= h < |queues| ==> queues[h] == [])
    && (forall h :: 0 <= h < |queues| && Eof in queues[h] ==> ended[h])
    && InOrder(ended)
    && (forall h: nat :: h < |queues| && ended[h] ==> PassesEnd(ended, queues, h, idx))
  }

  lemma EofLastPop<P>(queues: seq<seq<Item<P>>>, i: nat)
    requires EofLast(queues) && i < |queues| && queues[i] != []
    ensures EofLast(queues[i := queues[i][1..]])
    ensures queues[i][0] == Eof ==> queues[i][1..] == [] && forall h :: 0 <= h < i ==> queues[h] == []
  {
    var q := queues[i := queues[i][1..]];
    forall j, k | 0 <= j < |q| && 0 <= k < |q[j]| && q[j][k] == Eof
      ensures k == |q[j]| - 1 && forall h :: 0 <= h < j ==> q[h] == []
    {
      if j == i {
        assert queues[i][k + 1] == Eof;
      } else {
        assert queues[j][k] == Eof;
      }
    }
  }

  lemma EofLastPush<P>(queues: seq<seq<Item<P>>>, i: nat, item: Item<P>, outs: seq<Item<P>>)
    requires EofLast(queues) && i < |queues| && forall h :: i <= h < |queues| ==> queues[h] == []
    requires item == Eof ==> forall h :: 0 <= h < i ==> queues[h] == []
    requires Answers(item, outs)
    ensures EofLast(queues[i := outs])
  {
    var q := queues[i := outs];
    forall j, k | 0 <= j < |q| && 0 <= k < |q[j]| && q[j][k] == Eof
      ensures k == |q[j]| - 1 && forall h :: 0 <= h < j ==> q[h] == []
    {
      if j != i {
        assert queues[j][k] == Eof;
      }
    }
  }

  /** Packets only, and the end of the stream after them if it was the input. */
  ghost predicate Answers<P>(item: Item<P>, outs: seq<Item<P>>) {
    && (Eof in outs <==> item == Eof)
    && (item == Eof ==> outs != [] && outs[|outs| - 1] == Eof)
    && forall k :: 0 <= k < |outs| && outs[k] == Eof ==> k == |outs| - 1
  }

  lemma FeedAnswers<S, P>(f: Filter<S, P>, s: S, item: Item<P>)
    ensures Answers(item, FeedOne(f, s, item).1)
  {
  }

  /** Nothing to pull: the walk may step back, and no filter there is waiting to tell of the end. */
  lemma PositionBack<P>(ended: seq<bool>, queues: seq<seq<Item<P>>>, idx: nat, from: nat)
    requires |ended| == |queues| && Position(ended, queues, idx) && from + 1 == idx && queues[from] == []
    ensures Position(ended, queues, from) && !ended[from]
    ensures forall h: nat :: h + 1 == from && queues[h] == [] ==> !ended[h]
  {
    assert ended[from] ==> PassesEnd(ended, queues, from, idx);
    forall h: nat | h < |queues| && ended[h]
      ensures PassesEnd(ended, queues, h, from)
    {
      assert PassesEnd(ended, queues, h, idx);
    }
    forall h: nat | h + 1 == from && queues[h] == []
      ensures !ended[h]
    {
      assert ended[h] ==> PassesEnd(ended, queues, h, from);
    }
  }

  lemma PopKeepsEnd<P>(ended: seq<bool>, queues: seq<seq<Item<P>>>, from: nat, rest: seq<seq<Item<P>>>)
    requires |ended| == |queues| && from < |queues| && queues[from] != [] && rest == queues[from := queues[from][1..]]
    requires forall h :: 0 <= h < |queues| && Eof in queues[h] ==> ended[h]
    ensures forall h :: 0 <= h < |rest| && Eof in rest[h] ==> ended[h]
  {
    forall h | 0 <= h < |rest| && Eof in rest[h]
      ensures ended[h]
    {
      assert Eof in queues[h];
    }
  }

  /** One item from filter `from` to the filter behind it, which can take it. */
  lemma PositionPush<P>(ended: seq<bool>, queues: seq<seq<Item<P>>>, idx: nat, from: nat, next: nat, outs: seq<Item<P>>,
      told: seq<bool>, queues': seq<seq<Item<P>>>)
    requires |ended| == |queues| && Position(ended, queues, idx) && from + 1 == idx < |queues| && next == idx + 1
    requires queues[from] != [] && Answers(queues[from][0], outs)
    requires told == if queues[from][0].Eof? then ended[idx := true] else ended
    requires queues' == queues[from := queues[from][1..]][idx := outs]
    ensures !ended[idx] && Position(told, queues', next)
  {
    assert ended[idx] ==> PassesEnd(ended, queues, idx, idx);
    var rest := queues[from := queues[from][1..]];
    EofLastPop(queues, from);
    EofLastPush(rest, idx, queues[from][0], outs);
    PopKeepsEnd(ended, queues, from, rest);
    forall h: nat | h < |queues'| && told[h]
      ensures PassesEnd(told, queues', h, next)
    {
      if h != idx {
        assert PassesEnd(ended, queues, h, idx);
      }
    }
  }

  /** One item from the last filter to the muxer. */
  lemma PositionWrite<P>(ended: seq<bool>, queues: seq<seq<Item<P>>>, last: nat, rest: seq<seq<Item<P>>>)
    requires |ended| == |queues| == last + 1 && Position(ended, queues, |queues|)
    requires queues[last] != [] && rest == queues[last := queues[last][1..]]
    ensures if queues[last][0].Eof? then forall h :: 0 <= h <= last ==> rest[h] == [] && ended[h]
            else Position(ended, rest, |queues|)
  {
    EofLastPop(queues, last);
    if queues[last][0].Data? {
      PopKeepsEnd(ended, queues, last, rest);
      forall h: nat | h < |rest| && ended[h]
        ensures PassesEnd(ended, rest, h, |queues|)
      {
        assert PassesEnd(ended, queues, h, |queues|);
      }
    }
  }

  /** The input goes to the first filter. */
  lemma PositionStart<P>(n: nat, item: Item<P>, outs: seq<Item<P>>, told: seq<bool>, queues: seq<seq<Item<P>>>)
    requires n > 0 && |told| == |queues| == n && Answers(item, outs)
    requires forall h :: 0 <= h < n ==> queues[h] == (if h == 0 then outs else []) && told[h] == (h == 0 && item.Eof?)
    ensures Position(told, queues, 1)
  {
  }

  /** Drained to the start: the end of the stream is not on its way. */
  lemma PositionEnd<P>(ended: seq<bool>, queues: seq<seq<Item<P>>>)
    requires |ended| == |queues| && Position(ended, queues, 0)
    ensures forall h :: 0 <= h < |queues| ==> queues[h] == [] && !ended[h]
  {
    forall h: nat | h < |queues|
      ensures !ended[h]
    {
      assert ended[h] ==> PassesEnd(ended, queues, h, 0);
    }
  }

  class Chain<S, P> {
    const filters: seq<Filter<S, P>>
    var states: seq<S>
    var buffers: seq<Option<P>>     // the packet each filter has been sent and not yet taken in
    var ended: seq<bool>            // the filters that have been told of the end of the stream
    var queues: seq<seq<Item<P>>>   // outputs each filter has made and not yet handed out
    var muxed: seq<P>               // packets handed to the muxer

    ghost predicate Valid()
      reads this
    {
      |states| == |buffers| == |ended| == |queues| == |filters|
    }

    /** Between two inputs: nothing is under way, and the stream has ended for all filters or for none. */
    ghost predicate Resting()
      reads this
    {
      && Valid()
      && forall h :: 0 <= h < |filters| ==> queues[h] == [] && buffers[h].None? && ended[h] == ended[0]
    }

    /** The end of the stream has been through. */
    predicate Closed()
      requires Valid()
      reads this
    {
      |filters| > 0 && ended[0]
    }

    constructor (filters: seq<Filter<S, P>>, states: seq<S>)
      requires |filters| == |states|
      ensures Resting() && !Closed()
      ensures this.filters == filters && this.states == states && muxed == []
    {
      this.filters, this.states, this.muxed := filters, states, [];
      this.buffers := seq(|filters|, _ => None);
      this.ended := seq(|filters|, _ => false);
      this.queues := seq(|filters|, _ => []);
    }

    /** av_bsf_send_packet: the end of the stream is always taken, a packet not after it nor while another one waits. */
    method Send(i: nat, item: Item<P>) returns (sent: Sent)
      requires Valid() && i < |filters|
      modifies `buffers, `ended
      ensures Valid()
      ensures sent == if item.Eof? then Accepted else if ended[i] then Refused else if old(buffers[i]).Some? then Full else Accepted
      ensures ended == if item.Eof? then old(ended)[i := true] else old(ended)
      ensures buffers == if item.Data? && sent.Accepted? then old(buffers)[i := Some(item.packet)] else old(buffers)
    {
      if item.Eof? {
        ended := ended[i := true];
        return Accepted;
      }
      if ended[i] {
        return Refused;
      }
      if buffers[i].Some? {
        return Full;
      }
      buffers := buffers[i := Some(item.packet)];
      sent := Accepted;
    }

    /** What filter i takes in next: a filter with outputs left takes in nothing, and the end comes before the buffer. */
    function Awaits(i: nat): Option<Item<P>>
      requires Valid() && i < |filters|
      reads this
    {
      if queues[i] != [] then None
      else if ended[i] then Some(Eof)
      else if buffers[i].Some? then Some(Data(buffers[i].value)) else None
    }

    /** States and queues once filter i has taken in what it awaits. */
    ghost function Ahead(i: nat): (r: (seq<S>, seq<seq<Item<P>>>))
      requires Valid() && i < |filters|
      reads this
      ensures |r.0| == |r.1| == |filters|
    {
      if Awaits(i).None? then (states, queues)
      else
        var one := FeedOne(filters[i], states[i], Awaits(i).value);
        (states[i := one.0], queues[i := one.1])
    }

    /** With no output left, a filter asked for one is called with the end of the stream if told of it, else with its packet. */
    lemma NextOutput(i: nat)
      requires Valid() && i < |filters| && queues[i] == []
      ensures ended[i] ==>
        var (after, made) := filters[i](states[i], Eof);
        Ahead(i).0[i] == after && Ahead(i).1[i] == Inputs(made, true)
      ensures !ended[i] && buffers[i].Some? ==>
        var (after, made) := filters[i](states[i], Data(buffers[i].value));
        Ahead(i).0[i] == after && Ahead(i).1[i] == Inputs(made, false)
      ensures !ended[i] && buffers[i].None? ==> Ahead(i) == (states, queues)
    {
      FeedEof(filters[i], states[i]);
      if buffers[i].Some? {
        FeedData(filters[i], states[i], buffers[i].value);
      }
    }

    method Take(i: nat)
      requires Valid() && i < |filters|
      modifies `states, `buffers, `queues
      ensures Valid() && (states, queues) == old(Ahead(i))
      ensures buffers == if old(queues[i]) == [] && !ended[i] then old(buffers)[i := None] else old(buffers)
    {
      var awaited := Awaits(i);
      if queues[i] == [] && !ended[i] {
        buffers := buffers[i := None];
      }
      if awaited.Some? {
        var one := FeedOne(filters[i], states[i], awaited.value);
        states, queues := states[i := one.0], queues[i := one.1];
      }
    }

    /** av_bsf_receive_packet: the next output, if need be made from the waiting input; EAGAIN if there is none. */
    method Receive(i: nat) returns (r: Received<P>)
      requires Valid() && i < |filters|
      modifies `states, `buffers, `queues
      ensures Valid() && states == old(Ahead(i)).0
      ensures buffers == if old(queues[i]) == [] && !ended[i] then old(buffers)[i := None] else old(buffers)
      ensures var queue := old(Ahead(i)).1[i];
        if queue == [] then r == Again && queues == old(Ahead(i)).1
        else r == Got(queue[0]) && queues == old(Ahead(i)).1[i := queue[1..]]
    {
      Take(i);
      if queues[i] == [] {
        return Again;
      }
      r := Got(queues[i][0]);
      queues := queues[i := queues[i][1..]];
    }

    /** States and queues as the next pull will find them. */
    ghost function AheadOf(idx: nat): (r: (seq<S>, seq<seq<Item<P>>>))
      requires Valid() && idx <= |filters|
      reads this
      ensures |r.0| == |r.1| == |filters|
    {
      if idx == 0 then (states, queues) else Ahead(idx - 1)
    }

    /** Only the filter the walk pulls from next may have an input waiting. */
    ghost predicate Waiting(idx: nat)
      requires Valid()
      reads this
    {
      forall h: nat :: h < |filters| && buffers[h].Some? ==> h + 1 == idx && queues[h] == [] && !ended[h]
    }

    /** The walk has reached filter idx - 1: the later filters are drained, `before` and `written` are muxed. */
    ghost predicate Walking(idx: nat, before: seq<P>, written: seq<Item<P>>)
      reads this
    {
      && Valid() && idx <= |filters|
      && Position(ended, AheadOf(idx).1, idx)
      && Waiting(idx)
      && muxed == before + Packets(written)
    }

    /** The filter stepped back to has nothing to take in. */
    lemma StepBack(idx: nat, from: nat, ahead: (seq<S>, seq<seq<Item<P>>>), written: seq<Item<P>>)
      requires Valid() && from + 1 == idx <= |filters| && ahead == (states, queues)
      requires Position(ended, queues, idx) && queues[from] == []
      requires forall h :: 0 <= h < |buffers| ==> buffers[h].None?
      ensures Position(ended, queues, from) && AheadOf(from) == ahead && Waiting(from)
      ensures Outlook(filters, AheadOf(from), from, written) == Outlook(filters, ahead, idx, written)
      ensures Steps(filters, AheadOf(from), from) < Steps(filters, ahead, idx)
    {
      PositionBack(ended, queues, idx, from);
      BackOutlook(filters, ahead, idx, from, written);
      if from > 0 {
        var h: nat := from - 1;
        assert h + 1 == from;
      }
    }

    /** An item for filter idx, which the walk pulls from next. */
    method PushOn(idx: nat, ghost from: nat, item: Item<P>, ghost qs: seq<seq<Item<P>>>) returns (next: nat, sent: Sent)
      requires Valid() && from + 1 == idx < |filters| && |qs| == |filters| && Position(ended, qs, idx)
      requires qs[from] != [] && item == qs[from][0] && queues == qs[from := qs[from][1..]]
      requires forall h :: 0 <= h < |buffers| ==> buffers[h].None?
      modifies `buffers, `ended
      ensures Valid() && next == idx + 1 && sent == Accepted && ended[0] == old(ended[0])
      ensures var one := FeedOne(filters[idx], states[idx], item);
        AheadOf(next) == (states[idx := one.0], queues[idx := one.1])
      ensures Position(ended, AheadOf(next).1, next) && Waiting(next)
    {
      ghost var one := FeedOne(filters[idx], states[idx], item);
      ghost var told := if item.Eof? then ended[idx := true] else ended;
      next := idx + 1;
      FeedAnswers(filters[idx], states[idx], item);
      PositionPush(ended, qs, idx, from, next, one.1, told, queues[idx := one.1]);
      assert queues[idx] == [];
      sent := Send(idx, item);
      assert next - 1 == idx;
    }

    /** Pull from filter idx - 1 and, unless it is empty, push to filter idx. */
    method PullPush(idx: nat, ghost before: seq<P>, ghost written: seq<Item<P>>) returns (next: nat, sent: Sent)
      requires Walking(idx, before, written) && 0 < idx < |filters|
      modifies `states, `buffers, `ended, `queues
      ensures Walking(next, before, written) && sent == Accepted && ended[0] == old(ended[0])
      ensures Outlook(filters, AheadOf(next), next, written) == Outlook(filters, old(AheadOf(idx)), idx, written)
      ensures Steps(filters, AheadOf(next), next) < Steps(filters, old(AheadOf(idx)), idx)
    {
      ghost var ahead := AheadOf(idx);
      var from := idx - 1;
      sent := Accepted;
      var r := Receive(from);
      if r.Again? {
        StepBack(idx, from, ahead, written);
        next := from;
      } else {
        next, sent := PushOn(idx, from, r.item, ahead.1);
        SendOutlook(filters, ahead, idx, from, next, AheadOf(next), written);
      }
    }

    /** The end of the stream is through all filters and nothing is left behind it. */
    ghost predicate Finished(before: seq<P>, written: seq<Item<P>>)
      reads this
    {
      && Resting() && Closed() && muxed == before + Packets(written)
    }

    /** Pull from the last filter and, unless it is empty, write; `done` when the end of stream came out. */
    method PullWrite(ghost before: seq<P>, ghost written: seq<Item<P>>)
      returns (next: nat, done: bool, ghost out: seq<Item<P>>, ghost now: (seq<S>, seq<seq<Item<P>>>))
      requires Walking(|filters|, before, written) && |filters| > 0
      modifies `states, `buffers, `queues, `muxed
      ensures if done then Finished(before, out) && next == |filters| && now == (states, queues)
              else Walking(next, before, out) && now == AheadOf(next)
      ensures Outlook(filters, now, next, out) == Outlook(filters, old(AheadOf(|filters|)), |filters|, written)
      ensures Steps(filters, now, next) < Steps(filters, old(AheadOf(|filters|)), |filters|)
    {
      var n, last := |filters|, |filters| - 1;
      ghost var ahead := AheadOf(n);
      var r := Receive(last);
      now := (states, queues);
      if r.Again? {
        StepBack(n, last, ahead, written);
        return last, false, written, now;
      }
      next, done := n, r.item.Eof?;
      out := written + [r.item];
      PositionWrite(ended, ahead.1, last, queues);
      WriteOutlook(filters, ahead, last, now, written, out);
      PacketsAppend(written, [r.item]);
      if done {
        Slices.Nothing(Packets(written));
      } else {
        muxed := muxed + [r.item.packet];
        Slices.Assoc(before, Packets(written), [r.item.packet]);
      }
    }

    /** The input in front of the first filter, which has not been told of the end. */
    method Start(item: Item<P>) returns (sent: Sent)
      requires Resting() && !Closed() && |filters| > 0
      modifies `buffers, `ended
      ensures Walking(1, muxed, []) && sent == Accepted && ended[0] == item.Eof?
      ensures var one := FeedOne(filters[0], states[0], item);
        AheadOf(1) == (states[0 := one.0], queues[0 := one.1])
    {
      ghost var one := FeedOne(filters[0], states[0], item);
      FeedAnswers(filters[0], states[0], item);
      sent := Send(0, item);
      PositionStart(|filters|, item, one.1, ended, queues[0 := one.1]);
      Slices.Nothing(muxed);
    }

    /** Drained to the start without the end of the stream. */
    lemma Drained(before: seq<P>, written: seq<Item<P>>)
      requires Walking(0, before, written)
      ensures Resting() && !Closed()
    {
      PositionEnd(ended, queues);
    }

    /**
     One packet, or the end of stream, through the whole chain. The loop ends, every send finds its filter
     ready, and the muxer gets exactly what the filters make of the input, one after the other. A packet after
     the end of the stream is refused by the first filter and changes nothing.
     */
    method OutputPacket(item: Item<P>) returns (sent: Sent)
      requires Resting() && (Closed() ==> item.Data?)
      modifies this
      ensures Resting()
      ensures old(Closed()) ==>
        sent == Refused && Closed() && states == old(states) && muxed == old(muxed)
      ensures !old(Closed()) ==>
        && sent == Accepted && (|filters| > 0 ==> Closed() == item.Eof?)
        && states == Through(filters, old(states), [item]).states
        && muxed == old(muxed) + Packets(Through(filters, old(states), [item]).outs)
      ensures !old(Closed()) ==>
        var (after, packets) := Chained(filters, old(states), Held(item), item.Eof?);
        states == after && muxed == old(muxed) + packets
    {
      OneItem(filters, states, item);
      if |filters| == 0 {
        NoFilters(filters, states, item);
        Slices.Nothing(muxed);
        if item.Data? {
          muxed := muxed + [item.packet];
        }
        return Accepted;
      }
      if Closed() {
        sent := Send(0, item);
        return;
      }
      ghost var before, goal := muxed, Through(filters, states, [item]);
      StartWalk(filters, states, queues, item);
      sent := Start(item);
      sent := Walk(item, before, goal);
    }

    method Walk(ghost item: Item<P>, ghost before: seq<P>, ghost goal: Result<S, P>) returns (sent: Sent)
      requires |filters| > 0 && Walking(1, before, []) && ended[0] == item.Eof?
      requires Outlook(filters, AheadOf(1), 1, []) == (goal.states, goal.outs)
      modifies this
      ensures sent == Accepted && Resting() && Closed() == item.Eof?
      ensures states == goal.states && muxed == before + Packets(goal.outs)
    {
      ghost var written: seq<Item<P>> := [];
      ghost var now := AheadOf(1);
      sent := Accepted;
      var idx: nat, done := 1, false;
      while idx > 0 && !done
        invariant idx <= |filters| && sent == Accepted && Valid() && ended[0] == item.Eof?
        invariant if done then Finished(before, written) && now == (states, queues)
                  else Walking(idx, before, written) && now == AheadOf(idx)
        invariant Outlook(filters, now, idx, written) == (goal.states, goal.outs)
        decreases Steps(filters, now, idx)
      {
        if idx < |filters| {
          idx, sent := PullPush(idx, before, written);
          now := AheadOf(idx);
        } else {
          idx, done, written, now := PullWrite(before, written);
        }
      }
      if !done {
        Drained(before, written);
      }
      NothingLeft(filters, now, idx, written);
    }

    /** A whole stream: packets one by one, with the filters keeping their states in between. */
    method OutputAll(items: seq<Item<P>>)
      requires Resting() && !Closed() && EndsOnce(items)
      modifies this
      ensures Resting()
      ensures states == Through(filters, old(states), Accepts(|filters|, items)).states
      ensures muxed == old(muxed) + Packets(Through(filters, old(states), Accepts(|filters|, items)).outs)
      ensures var (after, packets) := Chained(filters, old(states), Taken(|filters|, items), Eof in items);
        states == after && muxed == old(muxed) + packets
    {
      ghost var ss, before := states, muxed;
      ThroughNothing(filters, ss);
      Slices.Nothing(before);
      assert items[..0] == [];
      ghost var taken: seq<Item<P>> := [];
      var k := 0;
      while k < |items|
        invariant k <= |items| && Resting() && taken == Accepts(|filters|, items[..k])
        invariant |filters| > 0 ==> (Closed() <==> Eof in items[..k])
        invariant states == Through(filters, ss, taken).states
        invariant muxed == before + Packets(Through(filters, ss, taken).outs)
      {
        OneMore(filters, ss, taken, items[k], before);
        AcceptsMore(|filters|, items, k, taken);
        if |filters| == 0 || Eof !in items[..k] {
          taken := taken + [items[k]];
        }
        var sent := OutputPacket(items[k]);
        k := k + 1;
      }
      assert items[..k] == items;
      AllItems(filters, ss, items);
    }
  }

  /** The packet of an input. */
  function Held<P>(item: Item<P>): seq<P> {
    if item.Data? then [item.packet] else []
  }

  /** The packets a chain of n filters is given: those before the end of the stream, or all if no filter refuses them. */
  function Taken<P(==)>(n: nat, items: seq<Item<P>>): seq<P> {
    if items == [] then []
    else
      var k := |items| - 1;
      Taken(n, items[..k]) + if n == 0 || Eof !in items[..k] then Held(items[k]) else []
  }

  lemma {:induction false} TakenInputs<P>(n: nat, items: seq<Item<P>>)
    requires n > 0
    ensures Accepts(n, items) == Inputs(Taken(n, items), Eof in items)
  {
    if items != [] {
      var k := |items| - 1;
      TakenInputs(n, items[..k]);
      assert items == items[..k] + [items[k]];
      assert Eof in items <==> Eof in items[..k] || items[k] == Eof;
    }
  }

  lemma {:induction false} TakenAll<P>(items: seq<Item<P>>)
    ensures Accepts(0, items) == items && Packets(items) == Taken(0, items)
  {
    if items != [] {
      var k := |items| - 1;
      TakenAll(items[..k]);
      assert items == items[..k] + [items[k]];
      PacketsAppend(items[..k], [items[k]]);
      OnePacket(items[k]);
    }
  }

  lemma OnePacket<P>(item: Item<P>)
    ensures Packets([item]) == Held(item)
  {
    assert [item][1..] == [];
    Slices.Nothing(Held(item));
  }

  /** What the chain accepts, as packets, goes through it. */
  lemma AllItems<S, P>(fs: seq<Filter<S, P>>, ss: seq<S>, items: seq<Item<P>>)
    requires |ss| == |fs|
    ensures var (after, packets) := Chained(fs, ss, Taken(|fs|, items), Eof in items);
      var t := Through(fs, ss, Accepts(|fs|, items));
      t.states == after && Packets(t.outs) == packets
  {
    if fs == [] {
      TakenAll(items);
      assert ss == [];
    } else {
      var packets, ended := Taken(|fs|, items), Eof in items;
      TakenInputs(|fs|, items);
      ThroughRuns(fs, ss, packets, ended);
      PacketsOfInputs(Chained(fs, ss, packets, ended).1, ended);
    }
  }

  lemma OneItem<S, P>(fs: seq<Filter<S, P>>, ss: seq<S>, item: Item<P>)
    requires |ss| == |fs|
    ensures var (after, packets) := Chained(fs, ss, Held(item), item.Eof?); var t := Through(fs, ss, [item]);
      t.states == after && Packets(t.outs) == packets
  {
    assert Inputs(Held(item), item.Eof?) == [item];
    ThroughRuns(fs, ss, Held(item), item.Eof?);
    PacketsOfInputs(Chained(fs, ss, Held(item), item.Eof?).1, item.Eof?);
  }

  /** The end of the stream comes at most once. */
  predicate EndsOnce<P(==)>(items: seq<Item<P>>) {
    forall i, j :: 0 <= i < |items| && 0 <= j < |items| && items[i] == Eof && items[j] == Eof ==> i == j
  }

  /** The inputs a chain of n filters accepts: nothing after the end of the stream, if there is a filter to refuse it. */
  function Accepts<P(==)>(n: nat, items: seq<Item<P>>): seq<Item<P>> {
    if items == [] then []
    else
      var k := |items| - 1;
      var before := Accepts(n, items[..k]);
      if n == 0 || Eof !in items[..k] then before + [items[k]] else before
  }

  lemma AcceptsMore<P>(n: nat, items: seq<Item<P>>, k: nat, taken: seq<Item<P>>)
    requires k < |items| && taken == Accepts(n, items[..k]) && EndsOnce(items)
    ensures Accepts(n, items[..k + 1]) == if n == 0 || Eof !in items[..k] then taken + [items[k]] else taken
    ensures Eof in items[..k + 1] <==> Eof in items[..k] || items[k] == Eof
    ensures Eof in items[..k] ==> items[k] != Eof
  {
    assert items[..k + 1][..k] == items[..k];
    assert items[..k + 1] == items[..k] + [items[k]];
  }

  lemma NoFilters<S, P>(fs: seq<Filter<S, P>>, ss: seq<S>, item: Item<P>)
    requires |ss| == |fs| == 0
    ensures Through(fs, ss, [item]).states == ss
    ensures Packets(Through(fs, ss, [item]).outs) == if item.Data? then [item.packet] else []
  {
    assert [item][1..] == [];
  }

  lemma OneMore<S, P>(fs: seq<Filter<S, P>>, ss: seq<S>, taken: seq<Item<P>>, item: Item<P>, before: seq<P>)
    requires |ss| == |fs|
    ensures var done := Through(fs, ss, taken);
      var next := Through(fs, done.states, [item]);
      var all := Through(fs, ss, taken + [item]);
      && all.states == next.states
      && before + Packets(all.outs) == before + Packets(done.outs) + Packets(next.outs)
  {
    var done := Through(fs, ss, taken);
    var next := Through(fs, done.states, [item]);
    ThroughAppend(fs, ss, taken, [item]);
    PacketsAppend(done.outs, next.outs);
    Slices.Assoc(before, Packets(done.outs), Packets(next.outs));
  }

  lemma {:induction false} PacketsAppend<P>(a: seq<Item<P>>, b: seq<Item<P>>)
    ensures Packets(a + b) == Packets(a) + Packets(b)
  {
    if a == [] {
      assert a + b == b;
      Slices.Nothing(Packets(b));
    } else {
      var head := if a[0].Data? then [a[0].packet] else [];
      assert (a + b)[0] == a[0] && (a + b)[1..] == a[1..] + b;
      PacketsAppend(a[1..], b);
      Slices.Assoc(head, Packets(a[1..]), Packets(b));
    }
  }

  /** The final states and all items the muxer will have seen, once the walk from here is over. */
  function Outlook<S, P>(fs: seq<Filter<S, P>>, at: (seq<S>, seq<seq<Item<P>>>), i: nat, written: seq<Item<P>>)
    : (seq<S>, seq<Item<P>>)
    requires |at.0| == |at.1| == |fs| && i <= |fs|
  {
    (Drain(fs, at.0, at.1, i).states, written + Drain(fs, at.0, at.1, i).outs)
  }

  /** How many pulls the walk from here will need. */
  function Steps<S, P>(fs: seq<Filter<S, P>>, at: (seq<S>, seq<seq<Item<P>>>), i: nat): nat
    requires |at.0| == |at.1| == |fs| && i <= |fs|
  {
    Drain(fs, at.0, at.1, i).steps
  }

  lemma BackOutlook<S, P>(fs: seq<Filter<S, P>>, at: (seq<S>, seq<seq<Item<P>>>), i: nat, j: nat, written: seq<Item<P>>)
    requires |at.0| == |at.1| == |fs| && j + 1 == i <= |fs| && at.1[j] == []
    ensures Outlook(fs, at, j, written) == Outlook(fs, at, i, written)
    ensures Steps(fs, at, j) < Steps(fs, at, i)
  {
    DrainBack(fs, at.0, at.1, j, i);
  }

  lemma SendOutlook<S, P>(fs: seq<Filter<S, P>>, at: (seq<S>, seq<seq<Item<P>>>), i: nat, j: nat, k: nat,
                          now: (seq<S>, seq<seq<Item<P>>>), written: seq<Item<P>>)
    requires |at.0| == |at.1| == |fs| && j + 1 == i < |fs| && k == i + 1 && at.1[j] != []
    requires var one := FeedOne(fs[i], at.0[i], at.1[j][0]);
      now == (at.0[i := one.0], at.1[j := at.1[j][1..]][i := one.1])
    ensures Outlook(fs, now, k, written) == Outlook(fs, at, i, written)
    ensures Steps(fs, now, k) < Steps(fs, at, i)
  {
    DrainSend(fs, at.0, at.1, j, i, k);
  }

  lemma WriteOutlook<S, P>(fs: seq<Filter<S, P>>, at: (seq<S>, seq<seq<Item<P>>>), last: nat,
                           now: (seq<S>, seq<seq<Item<P>>>), written: seq<Item<P>>, out: seq<Item<P>>)
    requires |at.0| == |at.1| == |fs| == last + 1 && at.1[last] != []
    requires now == (at.0, at.1[last := at.1[last][1..]]) && out == written + [at.1[last][0]]
    ensures Outlook(fs, now, |fs|, out) == Outlook(fs, at, |fs|, written)
    ensures Steps(fs, now, |fs|) < Steps(fs, at, |fs|)
  {
    DrainWrite(fs, at.0, at.1);
    assert |fs| - 1 == last;
    Slices.Assoc(written, [at.1[last][0]], Drain(fs, now.0, now.1, |fs|).outs);
  }

  lemma NothingLeft<S, P>(fs: seq<Filter<S, P>>, at: (seq<S>, seq<seq<Item<P>>>), i: nat, written: seq<Item<P>>)
    requires |at.0| == |at.1| == |fs| && i <= |fs| && forall k :: 0 <= k < i ==> at.1[k] == []
    ensures Outlook(fs, at, i, written) == (at.0, written)
  {
    DrainEmpty(fs, at.0, at.1, i);
    Slices.Nothing(written);
  }

  /** After the input went to filter 0, the rest of the walk is the rest of the composition. */
  lemma StartWalk<S, P>(fs: seq<Filter<S, P>>, ss: seq<S>, queues: seq<seq<Item<P>>>, item: Item<P>)
    requires |ss| == |queues| == |fs| > 0
    ensures var one := FeedOne(fs[0], ss[0], item);
      var goal := Through(fs, ss, [item]);
      Outlook(fs, (ss[0 := one.0], queues[0 := one.1]), 1, []) == (goal.states, goal.outs)
  {
    var one := FeedOne(fs[0], ss[0], item);
    var ss1, queues1 := ss[0 := one.0], queues[0 := one.1];
    SendOne(fs, ss, item);
    assert ss1[1..] == ss[1..] && ss1[..1] == [one.0];
    var now := Through(fs[1..], ss[1..], one.1);
    assert Drain(fs, [one.0] + now.states, queues1, 0) == Result([one.0] + now.states, [], 0);
    Slices.Nothing(now.outs);
  }
}
