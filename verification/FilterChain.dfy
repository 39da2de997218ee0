/**
 A chain of bitstream filters. A filter turns each input, a packet or the end of stream, into finitely
 many packets; the end of stream is passed on after them. The reference semantics sends everything
 through the first filter, then everything it made through the second, and so on.
 */
module FilterChain {
  import Slices

  datatype Item<P> = Data(packet: P) | Eof

  type Filter<!S, !P> = (S, Item<P>) -> (S, seq<P>)

  function AsData<P>(packets: seq<P>): (r: seq<Item<P>>)
    ensures |r| == |packets| && forall i :: 0 <= i < |r| ==> r[i] == Data(packets[i])
  {
    seq(|packets|, i requires 0 <= i < |packets| => Data(packets[i]))
  }

  /** The packets among items. */
  function Packets<P>(items: seq<Item<P>>): seq<P> {
    if items == [] then []
    else (if items[0].Data? then [items[0].packet] else []) + Packets(items[1..])
  }

  /** One filter on one input. */
  function FeedOne<S, P>(f: Filter<S, P>, s: S, item: Item<P>): (S, seq<Item<P>>) {
    var r := f(s, item);
    (r.0, AsData(r.1) + if item.Eof? then [Eof] else [])
  }

  /** One filter on a sequence of inputs. */
  function FeedAll<S, P>(f: Filter<S, P>, s: S, items: seq<Item<P>>): (S, seq<Item<P>>) {
    if items == [] then (s, [])
    else
      var one := FeedOne(f, s, items[0]);
      var more := FeedAll(f, one.0, items[1..]);
      (more.0, one.1 + more.1)
  }

  /** States and outputs of a chain; `steps` counts the receives its walk will need. */
  datatype Result<S, P> = Result(states: seq<S>, outs: seq<Item<P>>, steps: nat)

  /** The composition of the filters, in order. */
  function Through<S, P>(fs: seq<Filter<S, P>>, ss: seq<S>, items: seq<Item<P>>): (r: Result<S, P>)
    requires |ss| == |fs|
    ensures |r.states| == |fs|
  {
    if fs == [] then Result([], items, |items|)
    else
      var first := FeedAll(fs[0], ss[0], items);
      var rest := Through(fs[1..], ss[1..], first.1);
      Result([first.0] + rest.states, rest.outs, 2 * |items| + rest.steps)
  }

  // ----- batches may be cut anywhere

  lemma {:induction false} FeedAllAppend<S, P>(f: Filter<S, P>, s: S, a: seq<Item<P>>, b: seq<Item<P>>)
    ensures var r := FeedAll(f, s, a);
      FeedAll(f, s, a + b) == (FeedAll(f, r.0, b).0, r.1 + FeedAll(f, r.0, b).1)
  {
    if a == [] {
      assert a + b == b;
      Slices.Nothing(FeedAll(f, s, b).1);
    } else {
      var one := FeedOne(f, s, a[0]);
      assert (a + b)[0] == a[0] && (a + b)[1..] == a[1..] + b;
      FeedAllAppend(f, one.0, a[1..], b);
      var more := FeedAll(f, one.0, a[1..]);
      Slices.Assoc(one.1, more.1, FeedAll(f, more.0, b).1);
    }
  }

  /** Running a chain on a + b is running it on a and then, in the states that leaves, on b. */
  function Then<S, P>(first: Result<S, P>, second: Result<S, P>): Result<S, P> {
    Result(second.states, first.outs + second.outs, first.steps + second.steps)
  }

  lemma {:induction false} ThroughAppend<S, P>(fs: seq<Filter<S, P>>, ss: seq<S>, a: seq<Item<P>>, b: seq<Item<P>>)
    requires |ss| == |fs|
    ensures Through(fs, ss, a + b) == Then(Through(fs, ss, a), Through(fs, Through(fs, ss, a).states, b))
    decreases |fs|
  {
    if fs != [] {
      FeedAllAppend(fs[0], ss[0], a, b);
      var fa := FeedAll(fs[0], ss[0], a);
      var fb := FeedAll(fs[0], fa.0, b);
      ThroughAppend(fs[1..], ss[1..], fa.1, fb.1);
      var ra := Through(fs[1..], ss[1..], fa.1);
      assert ([fa.0] + ra.states)[1..] == ra.states;
    }
  }

  lemma {:induction false} ThroughNothing<S, P>(fs: seq<Filter<S, P>>, ss: seq<S>)
    requires |ss| == |fs|
    ensures Through(fs, ss, []) == Result(ss, [], 0)
    decreases |fs|
  {
    if fs != [] {
      ThroughNothing(fs[1..], ss[1..]);
      assert [ss[0]] + ss[1..] == ss;
    } else {
      assert ss == [];
    }
  }

  // ----- what a half-finished walk still has to do

  /**
   Queues of filters 0..i-1 may hold outputs; the later filters are drained. The walk first pushes the
   queue of filter i-1 through the filters behind it, then the queue of filter i-2, and so on.
   */
  function Drain<S, P>(fs: seq<Filter<S, P>>, ss: seq<S>, queues: seq<seq<Item<P>>>, i: nat): (r: Result<S, P>)
    requires |ss| == |queues| == |fs| && i <= |fs|
    ensures |r.states| == |fs|
    decreases i
  {
    if i == 0 then Result(ss, [], 0)
    else
      var now := Through(fs[i..], ss[i..], queues[i - 1]);
      var later := Drain(fs, ss[..i] + now.states, queues, i - 1);
      Result(later.states, now.outs + later.outs, now.steps + 1 + later.steps)
  }

  lemma {:induction false} DrainIgnores<S, P>(fs: seq<Filter<S, P>>, ss: seq<S>, q: seq<seq<Item<P>>>, q': seq<seq<Item<P>>>, i: nat)
    requires |ss| == |q| == |q'| == |fs| && i <= |fs| && q[..i] == q'[..i]
    ensures Drain(fs, ss, q, i) == Drain(fs, ss, q', i)
    decreases i
  {
    if i > 0 {
      assert q[i - 1] == q[..i][i - 1] == q'[i - 1];
      assert q[..i - 1] == q[..i][..i - 1] == q'[..i - 1];
      var now := Through(fs[i..], ss[i..], q[i - 1]);
      DrainIgnores(fs, ss[..i] + now.states, q, q', i - 1);
    }
  }

  /** One level of the walk. */
  lemma DrainOne<S, P>(fs: seq<Filter<S, P>>, ss: seq<S>, queues: seq<seq<Item<P>>>, i: nat, j: nat,
                       now: Result<S, P>, later: Result<S, P>)
    requires |ss| == |queues| == |fs| && i == j + 1 <= |fs| && now == Through(fs[i..], ss[i..], queues[j])
    requires later == Drain(fs, ss[..i] + now.states, queues, j)
    ensures Drain(fs, ss, queues, i) == Result(later.states, now.outs + later.outs, now.steps + 1 + later.steps)
  {
  }

  /** Nothing in any queue: nothing left to do. */
  lemma {:induction false} DrainEmpty<S, P>(fs: seq<Filter<S, P>>, ss: seq<S>, queues: seq<seq<Item<P>>>, i: nat)
    requires |ss| == |queues| == |fs| && i <= |fs|
    requires forall k :: 0 <= k < i ==> queues[k] == []
    ensures Drain(fs, ss, queues, i) == Result(ss, [], i)
    decreases i
  {
    if i > 0 {
      var j := i - 1;
      ThroughNothing(fs[i..], ss[i..]);
      assert ss[..i] + ss[i..] == ss;
      DrainEmpty(fs, ss, queues, j);
      DrainOne(fs, ss, queues, i, j, Result(ss[i..], [], 0), Result(ss, [], j));
    }
  }

  /** Stepping back from an empty queue. */
  lemma DrainBack<S, P>(fs: seq<Filter<S, P>>, ss: seq<S>, queues: seq<seq<Item<P>>>, j: nat, i: nat)
    requires |ss| == |queues| == |fs| && i == j + 1 <= |fs| && queues[j] == []
    ensures var r, l := Drain(fs, ss, queues, i), Drain(fs, ss, queues, j);
      r == Result(l.states, l.outs, l.steps + 1)
  {
    ThroughNothing(fs[i..], ss[i..]);
    assert ss[..i] + ss[i..] == ss;
    var later := Drain(fs, ss, queues, j);
    DrainOne(fs, ss, queues, i, j, Result(ss[i..], [], 0), later);
    Slices.Nothing(later.outs);
  }

  /** Handing the head of the last queue to the muxer. */
  lemma DrainWrite<S, P>(fs: seq<Filter<S, P>>, ss: seq<S>, queues: seq<seq<Item<P>>>)
    requires |ss| == |queues| == |fs| > 0 && queues[|fs| - 1] != []
    ensures var n := |fs|;
      var l := Drain(fs, ss, queues[n - 1 := queues[n - 1][1..]], n);
      Drain(fs, ss, queues, n) == Result(l.states, [queues[n - 1][0]] + l.outs, l.steps + 1)
  {
    var n := |fs|;
    var queue := queues[n - 1];
    var queues' := queues[n - 1 := queue[1..]];
    assert ss[..n] + [] == ss;
    DrainIgnores(fs, ss, queues, queues', n - 1);
    var later := Drain(fs, ss, queues, n - 1);
    assert queue == [queue[0]] + queue[1..];
    Slices.Assoc([queue[0]], queue[1..], later.outs);
    assert fs[n..] == [] && ss[n..] == [];
  }

  /** The first of a batch through a chain, then the rest. */
  lemma ThroughFirst<S, P>(fs: seq<Filter<S, P>>, ss: seq<S>, item: Item<P>, q: seq<Item<P>>, tail: Result<S, P>)
    requires |ss| == |fs| > 0 && tail == Through(fs[1..], ss[1..], FeedOne(fs[0], ss[0], item).1)
    ensures Through(fs, ss, [item] + q) ==
      Then(Result([FeedOne(fs[0], ss[0], item).0] + tail.states, tail.outs, 2 + tail.steps),
           Through(fs, [FeedOne(fs[0], ss[0], item).0] + tail.states, q))
  {
    ThroughAppend(fs, ss, [item], q);
    SendOne(fs, ss, item);
  }

  /** Sending the head of queue j to the drained filter i and moving on to its outputs. */
  lemma DrainSend<S, P>(fs: seq<Filter<S, P>>, ss: seq<S>, queues: seq<seq<Item<P>>>, j: nat, i: nat, k: nat)
    requires |ss| == |queues| == |fs| && i == j + 1 < |fs| && k == i + 1 && queues[j] != []
    ensures var one := FeedOne(fs[i], ss[i], queues[j][0]);
      var l := Drain(fs, ss[i := one.0], queues[j := queues[j][1..]][i := one.1], k);
      Drain(fs, ss, queues, i) == Result(l.states, l.outs, l.steps + 1)
  {
    var queue := queues[j];
    var item, q := queue[0], queue[1..];
    var one := FeedOne(fs[i], ss[i], item);
    var ss1, queues' := ss[i := one.0], queues[j := q][i := one.1];
    var tail := Through(fs[k..], ss[k..], one.1);
    assert queue == [item] + q;
    assert fs[i..][1..] == fs[k..] && ss[i..][1..] == ss[k..] == ss1[k..];
    ThroughFirst(fs[i..], ss[i..], item, q, tail);
    var now := Through(fs[i..], [one.0] + tail.states, q);
    var ss2 := ss1[..k] + tail.states;
    assert ss2[i..] == [one.0] + tail.states && ss2[..i] == ss[..i];
    var later := Drain(fs, ss[..i] + now.states, queues', j);
    DrainIgnores(fs, ss[..i] + now.states, queues, queues', j);
    DrainOne(fs, ss, queues, i, j, Through(fs[i..], ss[i..], queue), later);
    DrainOne(fs, ss2, queues', i, j, now, later);
    DrainOne(fs, ss1, queues', k, i, tail, Drain(fs, ss2, queues', i));
    Slices.Assoc(tail.outs, now.outs, later.outs);
  }

  lemma SendOne<S, P>(fs: seq<Filter<S, P>>, ss: seq<S>, item: Item<P>)
    requires |ss| == |fs| > 0
    ensures var one := FeedOne(fs[0], ss[0], item);
      var tail := Through(fs[1..], ss[1..], one.1);
      Through(fs, ss, [item]) == Result([one.0] + tail.states, tail.outs, 2 + tail.steps)
  {
    var one := FeedOne(fs[0], ss[0], item);
    Slices.Nothing(one.1);
    assert [item][1..] == [];
    assert FeedAll(fs[0], ss[0], [item]) == (one.0, one.1);
  }
}
