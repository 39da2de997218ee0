/**
 Handing packets to the muxer: the frame limit, the queue used until the header is written, and the repair of
 timestamps. One output stream; time-base conversion is a given function that keeps undefined stamps undefined.
 */
module MuxWriter {
  import opened Medians

  const NOPTS: int := -0x8000_0000_0000_0000

  datatype Packet = Packet(id: nat, pts: int, dts: int)

  datatype Kind = Video | Audio | Subtitle | Other

  datatype Config = Config(
    kind: Kind,
    encodingNeeded: bool,
    dropTimestamps: bool,      // video with vsync drop, audio with a negative async
    vp9Copy: bool,
    maxFrames: int,
    maxQueue: nat,
    noTimestamps: bool,        // AVFMT_NOTIMESTAMPS
    nonStrict: bool,           // AVFMT_TS_NONSTRICT
    exitOnError: bool,
    rescale: int -> int)

  datatype Stream = Stream(
    frameNumber: int,
    lastMuxDts: int,
    headerWritten: bool,
    queue: seq<Packet>,
    capacity: nat,
    muxed: seq<Packet>,
    exited: bool)

  ghost predicate ValidConfig(c: Config) {
    forall t :: t > NOPTS ==> c.rescale(t) > NOPTS
  }

  predicate ValidStamps(p: Packet) {
    p.pts >= NOPTS && p.dts >= NOPTS
  }

  // ----- timestamp repair

  /** pts + dts + (last + 1) minus the smallest and the largest of the three. */
  function Guess(pts: int, dts: int, last: int): int {
    pts + dts + (last + 1) - Min(Min(pts, dts), last + 1) - Max(Max(pts, dts), last + 1)
  }

  lemma GuessIsMedian(pts: int, dts: int, last: int)
    ensures IsMedian(Guess(pts, dts, last), pts, dts, last + 1)
  {
  }

  /** Streams whose DTS is held against the previous one. */
  predicate Checked(c: Config) {
    !c.noTimestamps && !c.kind.Other? && !c.vp9Copy
  }

  function Floor(c: Config, last: int): int {
    last + if c.nonStrict then 0 else 1
  }

  /** A DTS after its PTS: both give way to the guess. */
  function Swapped(last: int, p: Packet): Packet {
    if p.dts != NOPTS && p.pts != NOPTS && p.dts > p.pts
    then p.(pts := Guess(p.pts, p.dts, last), dts := Guess(p.pts, p.dts, last)) else p
  }

  /** Does the repair complain about a non-monotonous DTS? */
  predicate Complains(c: Config, last: int, p: Packet) {
    var q := Swapped(last, p);
    Checked(c) && q.dts != NOPTS && last != NOPTS && q.dts < Floor(c, last)
  }

  function Repair(c: Config, last: int, p: Packet): Packet {
    if c.noTimestamps then p
    else
      var q := Swapped(last, p);
      if Complains(c, last, p)
      then q.(pts := if q.pts >= q.dts then Max(q.pts, Floor(c, last)) else q.pts, dts := Floor(c, last))
      else q
  }

  function Rescaled(c: Config, t: int): int {
    if t == NOPTS then NOPTS else c.rescale(t)
  }

  /** The packet as it reaches the repair. */
  function Prepared(c: Config, p: Packet): Packet {
    if c.dropTimestamps then p.(pts := NOPTS, dts := NOPTS)
    else p.(pts := Rescaled(c, p.pts), dts := Rescaled(c, p.dts))
  }

  /** One packet handed to the muxer. */
  function Muxed(c: Config, s: Stream, p: Packet): Stream {
    var q := Prepared(c, p);
    if Complains(c, s.lastMuxDts, q) && c.exitOnError then s.(exited := true)
    else
      var r := Repair(c, s.lastMuxDts, q);
      s.(lastMuxDts := r.dts, muxed := s.muxed + [r])
  }

  /** Packets count against the limit here unless the encoder already counted its frames. */
  predicate Limited(c: Config) {
    !(c.kind.Video? && c.encodingNeeded)
  }

  function Queued(c: Config, s: Stream, p: Packet): Stream {
    var used := |s.queue|;
    if used < s.capacity then s.(queue := s.queue + [p])
    else
      var bigger := Min(2 * used, c.maxQueue);
      if bigger <= used then s.(exited := true)
      else s.(queue := s.queue + [p], capacity := bigger)
  }

  /** write_packet for a packet that was not queued before. */
  function Write(c: Config, s: Stream, p: Packet): Stream {
    if s.exited then s
    else if Limited(c) && s.frameNumber >= c.maxFrames then s
    else
      var t := if Limited(c) then s.(frameNumber := s.frameNumber + 1) else s;
      if !t.headerWritten then Queued(c, t, p) else Muxed(c, t, p)
  }

  /** Everything queued goes to the muxer, in order. */
  function Emptied(c: Config, s: Stream): Stream
    decreases |s.queue|
  {
    if s.queue == [] || s.exited then s
    else Emptied(c, Muxed(c, s.(queue := s.queue[1..]), s.queue[0]))
  }

  function WriteHeader(c: Config, s: Stream): Stream {
    if s.exited || s.headerWritten then s else Emptied(c, s.(headerWritten := true))
  }

  function Init(): Stream {
    Stream(0, NOPTS, false, [], 8, [], false)
  }

  // ----- the imperative form

  class OutputStream {
    const config: Config
    var frameNumber: int
    var lastMuxDts: int
    var headerWritten: bool
    var queue: seq<Packet>
    var capacity: nat
    var muxed: seq<Packet>
    var exited: bool

    ghost function View(): Stream
      reads this
    {
      Stream(frameNumber, lastMuxDts, headerWritten, queue, capacity, muxed, exited)
    }

    constructor (config: Config)
      ensures View() == Init() && this.config == config
    {
      this.config := config;
      frameNumber, lastMuxDts, headerWritten, queue, capacity, muxed, exited := 0, NOPTS, false, [], 8, [], false;
    }

    method WritePacket(pkt: Packet, unqueue: bool)
      requires !exited && (unqueue ==> headerWritten)
      modifies this
      ensures View() == if unqueue then Muxed(config, old(View()), pkt) else Write(config, old(View()), pkt)
    {
      if Limited(config) && !unqueue {
        if frameNumber >= config.maxFrames {
          return;
        }
        frameNumber := frameNumber + 1;
      }
      if !headerWritten {
        if |queue| >= capacity {
          var bigger := Min(2 * |queue|, config.maxQueue);
          if bigger <= |queue| {
            exited := true;
            return;
          }
          capacity := bigger;
        }
        queue := queue + [pkt];
        return;
      }
      var p := Prepared(config, pkt);
      if !config.noTimestamps {
        if p.dts != NOPTS && p.pts != NOPTS && p.dts > p.pts {
          var guess := Guess(p.pts, p.dts, lastMuxDts);
          p := p.(pts := guess, dts := guess);
        }
        if Checked(config) && p.dts != NOPTS && lastMuxDts != NOPTS {
          var max := lastMuxDts + if config.nonStrict then 0 else 1;
          if p.dts < max {
            if config.exitOnError {
              exited := true;
              return;
            }
            if p.pts >= p.dts {
              p := p.(pts := Max(p.pts, max));
            }
            p := p.(dts := max);
          }
        }
      }
      lastMuxDts := p.dts;
      muxed := muxed + [p];
    }

    /** check_init_output_file once every stream is ready: write the header, then empty the queue. */
    method Open()
      requires !exited && !headerWritten
      modifies this
      ensures View() == WriteHeader(config, old(View()))
    {
      headerWritten := true;
      while queue != [] && !exited
        invariant headerWritten
        invariant Emptied(config, View()) == WriteHeader(config, old(View()))
        decreases |queue|
      {
        var pkt := queue[0];
        queue := queue[1..];
        WritePacket(pkt, true);
      }
    }
  }
}
