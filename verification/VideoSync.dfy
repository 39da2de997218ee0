/**
 do_video_out: how many frames to encode for each picture, from the repeated last picture and the new one, and the
 counters of duplicated and dropped frames. Times are real numbers in units of the output frame period.
 */
module VideoSync {
  import opened Medians
  import opened Slices
  import opened Wrappers

  datatype Mode = Passthrough | Cfr | Vfr | Vscfr | Drop

  datatype Config = Config(
    mode: Mode,
    dropThreshold: real,   // frame_drop_threshold
    maxFrames: int,
    tooMany: real,         // dts_error_threshold * 30
    limit: Option<int>)    // first sync_opts past the recording time

  /** A picture from the filter graph: when it starts and how long it lasts. */
  datatype Picture = Picture(start: real, duration: real)

  /** A frame given to the encoder: the number of the picture it shows, and its timestamp. */
  datatype Frame = Frame(picture: nat, pts: int)

  datatype State = State(
    syncOpts: int,
    frameNumber: int,
    framesEncoded: int,
    lastNb0: seq<int>,
    lastDropped: bool,
    lastFrame: Option<nat>,
    dup: int,
    drop: int,
    received: nat,
    output: seq<Frame>)

  function Init(): State {
    State(0, 0, 0, [0, 0, 0], false, None, 0, 0, 0, [])
  }

  /** Rounding to the nearest integer, halves to even. */
  function Lrint(x: real): int {
    var d := x - x.Floor as real;
    if d < 0.5 || (d == 0.5 && x.Floor % 2 == 0) then x.Floor else x.Floor + 1
  }

  lemma LrintNearest(x: real)
    ensures -0.5 <= x - Lrint(x) as real <= 0.5
  {
  }

  lemma LrintFromAbove(x: real, n: int)
    requires n as real <= x
    ensures n <= Lrint(x)
  {
    assert n <= x.Floor;
  }

  function MidPred(a: int, b: int, c: int): int {
    if a > b then
      if c > b then (if c > a then a else c) else b
    else
      if b > c then (if c > a then c else a) else b
  }

  lemma MidPredIsMedian(a: int, b: int, c: int)
    ensures IsMedian(MidPred(a, b, c), a, b, c)
  {
  }

  // ----- how many frames

  /** Frames to encode, how many of them repeat the last picture, and the timestamp of the first. */
  datatype Plan = Plan(nb: int, nb0: int, syncOpts: int)

  /** The constant-rate rule. */
  function Steady(c: Config, frameNumber: int, delta: real, delta0: real, syncOpts: int): Plan {
    if c.dropThreshold != 0.0 && delta < c.dropThreshold && frameNumber != 0 then Plan(0, 0, syncOpts)
    else if delta < -1.1 then Plan(0, 0, syncOpts)
    else if delta > 1.1 then Plan(Lrint(delta), if delta0 > 1.1 then Lrint(delta0 - 0.6) else 0, syncOpts)
    else Plan(1, 0, syncOpts)
  }

  function ForPicture(c: Config, s: State, p: Picture): Plan {
    var delta := p.start - s.syncOpts as real + p.duration;
    var late := p.start < s.syncOpts as real && delta > 0.0 && !c.mode.Passthrough? && !c.mode.Drop?;
    var start := if late then s.syncOpts as real else p.start;
    var delta0 := start - s.syncOpts as real;
    match c.mode
    case Passthrough => Plan(1, 0, Lrint(start))
    case Drop => Plan(1, 0, Lrint(start))
    case Vfr =>
      if delta <= -0.6 then Plan(0, 0, s.syncOpts)
      else Plan(1, 0, if delta > 0.6 then Lrint(start) else s.syncOpts)
    case Cfr => Steady(c, s.frameNumber, delta, delta0, s.syncOpts)
    case Vscfr =>
      if s.frameNumber == 0 && delta0 >= 0.5 then Steady(c, 0, p.duration, 0.0, Lrint(start))
      else Steady(c, s.frameNumber, delta, delta0, s.syncOpts)
  }

  /** The plan for a picture, or for the end of the stream, before the frame limit. */
  function Wanted(c: Config, s: State, next: Option<Picture>): Plan
    requires |s.lastNb0| == 3
  {
    match next
    case Some(p) => ForPicture(c, s, p)
    case None =>
      var m := MidPred(s.lastNb0[0], s.lastNb0[1], s.lastNb0[2]);
      Plan(m, m, s.syncOpts)
  }

  function Planned(c: Config, s: State, next: Option<Picture>): Plan
    requires |s.lastNb0| == 3
  {
    var w := Wanted(c, s, next);
    var nb := Min(w.nb, c.maxFrames - s.frameNumber);
    w.(nb := nb, nb0 := Min(w.nb0, nb))
  }

  // ----- counters

  function Bit(b: bool): int {
    if b then 1 else 0
  }

  /** Frames that are no duplicates: a picture held back until now, and the new one. */
  function Fresh(s: State, p: Plan): int {
    Bit(p.nb0 != 0 && s.lastDropped) + Bit(p.nb > p.nb0)
  }

  predicate TooLarge(c: Config, s: State, p: Plan) {
    p.nb > Fresh(s, p) && p.nb as real > c.tooMany
  }

  // ----- encoding

  /** n frames of one picture with consecutive timestamps. */
  function Copies(picture: nat, pts: int, n: nat): seq<Frame> {
    if n == 0 then [] else Copies(picture, pts, n - 1) + [Frame(picture, pts + n - 1)]
  }

  /** Frames of a picture that may be missing. */
  function Part(picture: Option<nat>, pts: int, n: nat): seq<Frame> {
    if picture.Some? then Copies(picture.value, pts, n) else []
  }

  /** How many of the planned frames are encoded: there must be a picture to show and recording time left. */
  function Encoded(c: Config, last: Option<nat>, p: Plan, next: Option<nat>): nat {
    if p.nb <= 0 || (next.None? && last.None?) then 0
    else if c.limit.Some? && c.limit.value - p.syncOpts < p.nb then Max(0, c.limit.value - p.syncOpts)
    else p.nb
  }

  /** A frame with a picture to show before the end of the recording time is among those encoded. */
  lemma MayEncode(c: Config, last: Option<nat>, p: Plan, next: Option<nat>, i: nat)
    requires i < p.nb && ((i < p.nb0 && last.Some?) || next.Some?) && (next.None? ==> p.nb == p.nb0)
    requires c.limit.Some? ==> p.syncOpts + i < c.limit.value
    ensures i + 1 <= Encoded(c, last, p, next)
    ensures next.None? ==> i + 1 <= Repeats(last, p, i + 1)
  {
  }

  /** Among k frames, those that repeat the last picture. */
  function Repeats(last: Option<nat>, p: Plan, k: nat): nat {
    if last.None? then 0 else Min(Max(0, p.nb0), k)
  }

  /** The first k frames of a plan. */
  function Frames(last: Option<nat>, p: Plan, next: Option<nat>, k: nat): seq<Frame>
    requires next.None? ==> k <= Repeats(last, p, k)
  {
    var a := Repeats(last, p, k);
    Part(last, p.syncOpts, a) + Part(next, p.syncOpts + a, k - a)
  }

  lemma FramesStep(last: Option<nat>, p: Plan, next: Option<nat>, k: nat, k1: nat)
    requires k1 == k + 1 && (next.None? ==> k1 <= Repeats(last, p, k1))
    ensures Frames(last, p, next, k1) == Frames(last, p, next, k)
            + [Frame(if k < p.nb0 && last.Some? then last.value else next.value, p.syncOpts + k)]
  {
    var a := Repeats(last, p, k);
    var front := Part(last, p.syncOpts, a);
    if k < p.nb0 && last.Some? {
      Nothing(front);
      Nothing(Copies(last.value, p.syncOpts, a + 1));
    } else {
      Assoc(front, Copies(next.value, p.syncOpts + a, k - a), [Frame(next.value, p.syncOpts + k)]);
    }
  }

  /** Next picture's number. */
  function Number(s: State, next: Option<Picture>): Option<nat> {
    if next.Some? then Some(s.received) else None
  }

  /** The plan is made and the counters are brought up to date. */
  function Settled(c: Config, s: State, next: Option<Picture>): State
    requires |s.lastNb0| == 3
  {
    var p := Planned(c, s, next);
    var t := s.(syncOpts := p.syncOpts, lastNb0 := [p.nb0, s.lastNb0[0], s.lastNb0[1]],
                received := s.received + Bit(next.Some?), drop := s.drop + Bit(p.nb0 == 0 && s.lastDropped));
    if TooLarge(c, s, p) then t.(drop := t.drop + 1)
    else t.(dup := s.dup + Max(0, p.nb - Fresh(s, p)), lastDropped := p.nb == p.nb0 && next.Some?)
  }

  /** The first k planned frames are encoded. */
  function Partway(s: State, p: Plan, id: Option<nat>, k: nat): State
    requires id.None? ==> k <= Repeats(s.lastFrame, p, k)
  {
    s.(syncOpts := p.syncOpts + k, frameNumber := s.frameNumber + k, framesEncoded := s.framesEncoded + k,
       output := s.output + Frames(s.lastFrame, p, id, k))
  }

  /** The planned frames are encoded as far as possible. */
  function Encoding(c: Config, s: State, p: Plan, id: Option<nat>): State
    requires id.None? ==> p.nb == p.nb0
  {
    var k := Encoded(c, s.lastFrame, p, id);
    Partway(s, p, id, k).(lastFrame := if k < p.nb then s.lastFrame else id)
  }

  lemma NothingYet(s: State, p: Plan, id: Option<nat>)
    requires p.syncOpts == s.syncOpts
    ensures Partway(s, p, id, 0) == s
  {
    Nothing(s.output);
  }

  function Step(c: Config, s: State, next: Option<Picture>): State
    requires |s.lastNb0| == 3
  {
    var p := Planned(c, s, next);
    var t := Settled(c, s, next);
    if TooLarge(c, s, p) then t else Encoding(c, t, p, Number(s, next))
  }

  // ----- the imperative form

  class VideoOutput {
    const config: Config
    const lastNb0: array<int>
    var syncOpts: int
    var frameNumber: int
    var framesEncoded: int
    var lastDropped: bool
    var lastFrame: Option<nat>
    var dup: int
    var drop: int
    var received: nat
    var output: seq<Frame>

    ghost predicate Valid()
      reads this
    {
      lastNb0.Length == 3
    }

    ghost function View(): State
      requires Valid()
      reads this, lastNb0
    {
      State(syncOpts, frameNumber, framesEncoded, lastNb0[..], lastDropped, lastFrame, dup, drop, received, output)
    }

    constructor (config: Config)
      ensures Valid() && View() == Init() && fresh(lastNb0) && this.config == config
    {
      this.config := config;
      lastNb0 := new int[3](_ => 0);
      syncOpts, frameNumber, framesEncoded, lastDropped, lastFrame := 0, 0, 0, false, None;
      dup, drop, received, output := 0, 0, 0, [];
      new;
      assert lastNb0[..] == [0, 0, 0];
    }

    /** Frames to encode for the picture; adjusts the timestamp as the sync mode asks. */
    method PlanPicture(picture: Picture) returns (nb: int, nb0: int)
      requires Valid()
      modifies this`syncOpts
      ensures Plan(nb, nb0, syncOpts) == ForPicture(config, old(View()), picture)
    {
      var start, duration := picture.start, picture.duration;
      var delta0 := start - syncOpts as real;
      var delta := delta0 + duration;
      nb, nb0 := 1, 0;
      if delta0 < 0.0 && delta > 0.0 && config.mode != Passthrough && config.mode != Drop {
        start := syncOpts as real;
        duration := duration + delta0;
        delta0 := 0.0;
      }
      if config.mode == Vscfr || config.mode == Cfr {
        if config.mode == Vscfr && frameNumber == 0 && delta0 >= 0.5 {
          delta := duration;
          delta0 := 0.0;
          syncOpts := Lrint(start);
        }
        if config.dropThreshold != 0.0 && delta < config.dropThreshold && frameNumber != 0 {
          nb := 0;
        } else if delta < -1.1 {
          nb := 0;
        } else if delta > 1.1 {
          nb := Lrint(delta);
          if delta0 > 1.1 {
            nb0 := Lrint(delta0 - 0.6);
          }
        }
      } else if config.mode == Vfr {
        if delta <= -0.6 {
          nb := 0;
        } else if delta > 0.6 {
          syncOpts := Lrint(start);
        }
      } else {
        syncOpts := Lrint(start);
      }
    }

    /** One frame of the plan. */
    method EncodeFrame(picture: nat, ghost s: State, ghost p: Plan, ghost next: Option<nat>, ghost i: nat, ghost i1: nat)
      requires Valid() && i1 == i + 1 && (next.None? ==> i1 <= Repeats(s.lastFrame, p, i1))
      requires picture == if i < p.nb0 && s.lastFrame.Some? then s.lastFrame.value else next.value
      requires View() == Partway(s, p, next, i)
      modifies this`syncOpts, this`frameNumber, this`framesEncoded, this`output
      ensures View() == Partway(s, p, next, i1)
    {
      FramesStep(s.lastFrame, p, next, i, i1);
      Assoc(s.output, Frames(s.lastFrame, p, next, i), [Frame(picture, syncOpts)]);
      output := output + [Frame(picture, syncOpts)];
      framesEncoded := framesEncoded + 1;
      syncOpts := syncOpts + 1;
      frameNumber := frameNumber + 1;
    }

    /** The next frame, if there is a picture to show and recording time left. */
    method EncodeNext(nb0: int, next: Option<nat>, i: nat, ghost s: State, ghost p: Plan, ghost i1: nat) returns (encoded: bool)
      requires Valid() && nb0 == p.nb0 && i < p.nb && i1 == i + 1 && (next.None? ==> p.nb == p.nb0)
      requires i <= Encoded(config, s.lastFrame, p, next) && (next.None? ==> i <= Repeats(s.lastFrame, p, i))
      requires View() == Partway(s, p, next, i)
      modifies this`syncOpts, this`frameNumber, this`framesEncoded, this`output
      ensures encoded <==> i < Encoded(config, s.lastFrame, p, next)
      ensures !encoded ==> View() == Partway(s, p, next, i)
      ensures encoded ==> (next.None? ==> i1 <= Repeats(s.lastFrame, p, i1)) && View() == Partway(s, p, next, i1)
    {
      var picture := if i < nb0 && lastFrame.Some? then lastFrame else next;
      if picture.None? {
        return false;
      }
      if config.limit.Some? && syncOpts >= config.limit.value {
        return false;
      }
      MayEncode(config, lastFrame, p, next, i);
      EncodeFrame(picture.value, s, p, next, i, i1);
      return true;
    }

    /** Encode up to nb frames; stops early without a picture to show or past the recording time. */
    method EncodeFrames(nb: int, nb0: int, next: Option<nat>)
      requires Valid() && (next.None? ==> nb == nb0)
      modifies this`syncOpts, this`frameNumber, this`framesEncoded, this`output, this`lastFrame
      ensures View() == Encoding(config, old(View()), Plan(nb, nb0, old(syncOpts)), next)
    {
      ghost var s := View();
      ghost var p := Plan(nb, nb0, syncOpts);
      var i: nat := 0;
      NothingYet(s, p, next);
      while i < nb
        invariant i <= Encoded(config, s.lastFrame, p, next)
        invariant next.None? ==> i <= Repeats(s.lastFrame, p, i)
        invariant View() == Partway(s, p, next, i)
      {
        ghost var i1 := i + 1;
        var encoded := EncodeNext(nb0, next, i, s, p, i1);
        if !encoded {
          return;
        }
        i := i + 1;
      }
      lastFrame := next;
    }

    /** Settle the held-back picture and count the duplicates. */
    method Count(nb: int, nb0: int, picture: bool) returns (fine: bool)
      requires Valid()
      modifies this`dup, this`drop, this`lastDropped
      ensures var p := Plan(nb, nb0, syncOpts); var s := old(View());
        && fine == !TooLarge(config, s, p)
        && drop == s.drop + Bit(nb0 == 0 && s.lastDropped) + Bit(!fine)
        && dup == (if fine then s.dup + Max(0, nb - Fresh(s, p)) else s.dup)
        && lastDropped == (if fine then nb == nb0 && picture else s.lastDropped)
    {
      if nb0 == 0 && lastDropped {
        drop := drop + 1;
      }
      var unique := Bit(nb0 != 0 && lastDropped) + Bit(nb > nb0);
      if nb > unique {
        if nb as real > config.tooMany {
          drop := drop + 1;
          return false;
        }
        dup := dup + nb - unique;
      }
      lastDropped := nb == nb0 && picture;
      return true;
    }

    /** Everything before the encoding loop. */
    method Settle(next: Option<Picture>) returns (fine: bool, nb: int, nb0: int)
      requires Valid()
      modifies this`syncOpts, this`received, this`dup, this`drop, this`lastDropped, lastNb0
      ensures View() == Settled(config, old(View()), next)
      ensures Plan(nb, nb0, syncOpts) == Planned(config, old(View()), next)
      ensures fine == !TooLarge(config, old(View()), Planned(config, old(View()), next))
    {
      ghost var s := View();
      nb, nb0 := Decide(next);
      lastNb0[1], lastNb0[2] := lastNb0[0], lastNb0[1];
      lastNb0[0] := nb0;
      assert lastNb0[..] == [nb0, s.lastNb0[0], s.lastNb0[1]];
      fine := Count(nb, nb0, next.Some?);
    }

    /** How many frames, within the frame limit. */
    method Decide(next: Option<Picture>) returns (nb: int, nb0: int)
      requires Valid()
      modifies this`syncOpts, this`received
      ensures Plan(nb, nb0, syncOpts) == Planned(config, old(View()), next) && received == old(received) + Bit(next.Some?)
    {
      if next.None? {
        nb := MidPred(lastNb0[0], lastNb0[1], lastNb0[2]);
        nb0 := nb;
      } else {
        nb, nb0 := PlanPicture(next.value);
        received := received + 1;
      }
      nb := Min(nb, config.maxFrames - frameNumber);
      nb0 := Min(nb0, nb);
    }

    method DoVideoOut(next: Option<Picture>)
      requires Valid()
      modifies this, lastNb0
      ensures View() == Step(config, old(View()), next)
    {
      var id := if next.Some? then Some(received) else None;
      var fine, nb, nb0 := Settle(next);
      if fine {
        EncodeFrames(nb, nb0, id);
      }
    }

    /** The last report adds a picture still held back. */
    method LastReport()
      modifies this`drop
      ensures drop == old(drop) + Bit(lastDropped)
    {
      drop := drop + Bit(lastDropped);
    }
  }
}
