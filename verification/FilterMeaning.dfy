/**
 What a chain of filters makes of a stream, packet by packet: each filter is run over its inputs, and the call for the
 end of the stream, where a filter gives out what it has held back, counts like any other.
 */
module FilterMeaning {
  import opened FilterChain
  import Slices

  /** Packets, and the end of the stream after them if it was reached. */
  function Inputs<P>(packets: seq<P>, ended: bool): (items: seq<Item<P>>)
    ensures |items| == |packets| + if ended then 1 else 0
    ensures forall i :: 0 <= i < |packets| ==> items[i] == Data(packets[i])
    ensures ended ==> items[|packets|] == Eof
  {
    seq(|packets|, i requires 0 <= i < |packets| => Data(packets[i])) + if ended then [Eof] else []
  }

  /** A filter over its inputs: the state it ends in and all packets it returned on the way. */
  function Run<S, P>(f: Filter<S, P>, s: S, items: seq<Item<P>>): (S, seq<P>) {
    if items == [] then (s, [])
    else
      var now := f(s, items[0]);
      var later := Run(f, now.0, items[1..]);
      (later.0, now.1 + later.1)
  }

  /** Filter after filter: what one returned, and the end if it was reached, is the input of the next. */
  function Chained<S, P>(fs: seq<Filter<S, P>>, ss: seq<S>, packets: seq<P>, ended: bool): (r: (seq<S>, seq<P>))
    requires |ss| == |fs|
    ensures |r.0| == |fs|
  {
    if fs == [] then ([], packets)
    else
      var first := Run(fs[0], ss[0], Inputs(packets, ended));
      var rest := Chained(fs[1..], ss[1..], first.1, ended);
      ([first.0] + rest.0, rest.1)
  }

  // ----- the items of the walk stand for these packets

  lemma InputsAppend<P>(a: seq<P>, b: seq<P>, ended: bool)
    ensures AsData(a) + Inputs(b, ended) == Inputs(a + b, ended)
  {
  }

  lemma InputsTail<P>(packets: seq<P>, ended: bool)
    requires packets != []
    ensures Inputs(packets, ended) == [Data(packets[0])] + Inputs(packets[1..], ended)
  {
  }

  lemma FeedData<S, P>(f: Filter<S, P>, s: S, p: P)
    ensures FeedOne(f, s, Data(p)) == (f(s, Data(p)).0, AsData(f(s, Data(p)).1))
  {
    Slices.Nothing(AsData(f(s, Data(p)).1));
  }

  lemma FeedEof<S, P>(f: Filter<S, P>, s: S)
    ensures FeedOne(f, s, Eof) == (f(s, Eof).0, Inputs(f(s, Eof).1, true))
  {
  }

  /** One filter: its outputs are the packets it returned, and the end of the stream after them if it was told of it. */
  lemma {:induction false} FeedAllRuns<S, P>(f: Filter<S, P>, s: S, packets: seq<P>, ended: bool)
    ensures var r := Run(f, s, Inputs(packets, ended));
      FeedAll(f, s, Inputs(packets, ended)) == (r.0, Inputs(r.1, ended))
    decreases |packets|
  {
    var items := Inputs(packets, ended);
    if packets != [] {
      InputsTail(packets, ended);
      Slices.Front([items[0]], Inputs(packets[1..], ended));
      var now := f(s, items[0]);
      FeedData(f, s, packets[0]);
      FeedAllRuns(f, now.0, packets[1..], ended);
      InputsAppend(now.1, Run(f, now.0, Inputs(packets[1..], ended)).1, ended);
    } else if ended {
      assert items == [Eof] && items[1..] == [];
      FeedEof(f, s);
      Slices.Nothing(f(s, Eof).1);
      Slices.Nothing(Inputs(f(s, Eof).1, true));
    }
  }

  /** A chain: the reference composition gives exactly these packets, and passes the end of the stream on. */
  lemma {:induction false} ThroughRuns<S, P>(fs: seq<Filter<S, P>>, ss: seq<S>, packets: seq<P>, ended: bool)
    requires |ss| == |fs|
    ensures var r := Chained(fs, ss, packets, ended); var t := Through(fs, ss, Inputs(packets, ended));
      t.states == r.0 && t.outs == Inputs(r.1, ended)
    decreases |fs|
  {
    if fs != [] {
      FeedAllRuns(fs[0], ss[0], packets, ended);
      ThroughRuns(fs[1..], ss[1..], Run(fs[0], ss[0], Inputs(packets, ended)).1, ended);
    }
  }

  lemma {:induction false} PacketsOfInputs<P>(packets: seq<P>, ended: bool)
    ensures Packets(Inputs(packets, ended)) == packets
    decreases |packets|
  {
    if packets != [] {
      InputsTail(packets, ended);
      Slices.Front([Data(packets[0])], Inputs(packets[1..], ended));
      PacketsOfInputs(packets[1..], ended);
      assert packets == [packets[0]] + packets[1..];
    } else if ended {
      var items := Inputs(packets, ended);
      assert items == [Eof] && items[1..] == [];
    }
  }
}
