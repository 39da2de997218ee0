/** The sync rules as a caller sees them: bounds on times, rounding to the nearest frame, frames one by one. */
module VideoSyncRules {
  import opened Medians
  import opened VideoSync
  import opened VideoSyncProofs
  import opened Wrappers
  import Slices

  /** n is the frame nearest to x; of two equally near ones the even one. */
  predicate Nearest(n: int, x: real) {
    && n as real - 0.5 <= x <= n as real + 0.5
    && (x == n as real - 0.5 || x == n as real + 0.5 ==> n % 2 == 0)
  }

  lemma LrintIsNearest(x: real, n: int)
    ensures Nearest(n, x) <==> n == Lrint(x)
  {
    var f := x.Floor;
    assert f as real <= x < f as real + 1.0;
  }

  // ----- how many frames a picture gets

  /** Without a clock every picture is one frame, at the time nearest to its start. */
  lemma UnclockedPlan(c: Config, s: State, p: Picture, q: Plan)
    requires (c.mode.Passthrough? || c.mode.Drop?) && q == ForPicture(c, s, p)
    ensures q.nb == 1 && q.nb0 == 0 && Nearest(q.syncOpts, p.start)
  {
    LrintIsNearest(p.start, q.syncOpts);
  }

  /**
   At a variable rate a picture that ends 0.6 frames or more before the clock is left out. The clock moves on only for
   one that ends more than 0.6 frames after it: to the frame nearest to its start, if that is later.
   */
  lemma VariableRatePlan(c: Config, s: State, p: Picture, q: Plan, clock: real)
    requires c.mode.Vfr? && q == ForPicture(c, s, p) && clock == s.syncOpts as real
    ensures q.nb == (if p.start + p.duration <= clock - 0.6 then 0 else 1) && q.nb0 == 0
    ensures p.start + p.duration <= clock + 0.6 ==> q.syncOpts == s.syncOpts
    ensures p.start + p.duration > clock + 0.6 && p.start >= clock ==> Nearest(q.syncOpts, p.start)
    ensures p.start + p.duration > clock + 0.6 && p.start < clock ==> q.syncOpts == s.syncOpts
  {
    LrintIsNearest(p.start, q.syncOpts);
    LrintIsNearest(clock, s.syncOpts);
  }

  /**
   At a constant rate a picture gets the frames up to its end. It is left out if it ends more than 1.1 frames before the
   clock, or, after the first frame, below the drop threshold; if it starts more than 1.1 frames after the clock the
   frames before it, less 0.6, repeat the last picture.
   */
  ghost predicate ConstantRate(c: Config, first: bool, length: real, gap: real, q: Plan) {
    if (c.dropThreshold != 0.0 && !first && length < c.dropThreshold) || length < -1.1 then q.nb == 0 && q.nb0 == 0
    else if length <= 1.1 then q.nb == 1 && q.nb0 == 0
    else Nearest(q.nb, length) && if gap <= 1.1 then q.nb0 == 0 else Nearest(q.nb0, gap - 0.6)
  }

  lemma SteadyRule(c: Config, number: int, length: real, gap: real, clock: int, q: Plan)
    requires q == Steady(c, number, length, gap, clock)
    ensures q.syncOpts == clock && ConstantRate(c, number == 0, length, gap, q)
  {
    LrintIsNearest(length, q.nb);
    LrintIsNearest(gap - 0.6, q.nb0);
  }

  /** A picture that starts before the clock and ends after it starts at the clock. */
  lemma ConstantRatePlan(c: Config, s: State, p: Picture, q: Plan, clock: real)
    requires c.mode.Cfr? && q == ForPicture(c, s, p) && clock == s.syncOpts as real
    ensures q.syncOpts == s.syncOpts
    ensures ConstantRate(c, s.frameNumber == 0, p.start + p.duration - clock, p.start - clock, q)
  {
    var late := p.start < clock && p.start - clock + p.duration > 0.0;
    SteadyRule(c, s.frameNumber, p.start - clock + p.duration, if late then 0.0 else p.start - clock, s.syncOpts, q);
  }

  /** A first picture half a frame or more after the clock moves the clock to its start. */
  lemma ShiftedStartPlan(c: Config, s: State, p: Picture, q: Plan, clock: real)
    requires c.mode.Vscfr? && q == ForPicture(c, s, p) && clock == s.syncOpts as real
    ensures s.frameNumber == 0 && p.start >= clock + 0.5 ==>
      Nearest(q.syncOpts, p.start) && ConstantRate(c, true, p.duration, 0.0, q)
    ensures !(s.frameNumber == 0 && p.start >= clock + 0.5) ==>
      q.syncOpts == s.syncOpts && ConstantRate(c, s.frameNumber == 0, p.start + p.duration - clock, p.start - clock, q)
  {
    var late := p.start < clock && p.start - clock + p.duration > 0.0;
    if s.frameNumber == 0 && p.start >= clock + 0.5 {
      SteadyRule(c, 0, p.duration, 0.0, q.syncOpts, q);
      LrintIsNearest(p.start, q.syncOpts);
    } else {
      SteadyRule(c, s.frameNumber, p.start - clock + p.duration, if late then 0.0 else p.start - clock, s.syncOpts, q);
    }
  }

  /** The frame limit cuts the plan. */
  lemma PlanLimited(c: Config, s: State, next: Option<Picture>, w: Plan, q: Plan)
    requires |s.lastNb0| == 3 && w == Wanted(c, s, next) && q == Planned(c, s, next)
    ensures q.syncOpts == w.syncOpts && q.nb <= w.nb && s.frameNumber + q.nb <= c.maxFrames
    ensures q.nb == w.nb || s.frameNumber + q.nb == c.maxFrames
    ensures q.nb0 <= w.nb0 && q.nb0 <= q.nb && (q.nb0 == w.nb0 || q.nb0 == q.nb)
  {
  }

  // ----- the frames of one call

  /** The i-th frame of a plan: repeats of the last picture, if there is one, come before the new picture. */
  ghost predicate IsFrame(f: Frame, last: Option<nat>, next: Option<nat>, p: Plan, i: int) {
    f.pts == p.syncOpts + i && if last.Some? && i < p.nb0 then f.picture == last.value else next == Some(f.picture)
  }

  lemma {:induction false} CopyAt(picture: nat, pts: int, n: nat, i: nat)
    requires i < n
    ensures |Copies(picture, pts, n)| == n && Copies(picture, pts, n)[i] == Frame(picture, pts + i)
  {
    if n > 1 {
      CopyAt(picture, pts, n - 1, if i < n - 1 then i else 0);
    }
  }

  lemma PartAt(picture: Option<nat>, pts: int, n: nat, i: nat)
    requires i < n && picture.Some?
    ensures |Part(picture, pts, n)| == n && Part(picture, pts, n)[i] == Frame(picture.value, pts + i)
  {
    CopyAt(picture.value, pts, n, i);
  }

  lemma FrameAt(last: Option<nat>, p: Plan, next: Option<nat>, k: nat, i: nat, frames: seq<Frame>)
    requires (next.None? ==> k <= Repeats(last, p, k)) && i < k && frames == Frames(last, p, next, k)
    ensures i < |frames| && IsFrame(frames[i], last, next, p, i)
  {
    var a := Repeats(last, p, k);
    FramesShown(last, p, next, k);
    if i < a {
      PartAt(last, p.syncOpts, a, i);
    } else {
      PartShown(last, p.syncOpts, a);
      PartAt(next, p.syncOpts + a, k - a, i - a);
    }
  }

  /** A frame cannot be encoded: no picture for it, or the recording time is over. */
  predicate Barred(c: Config, last: Option<nat>, next: Option<nat>, p: Plan, i: int) {
    || (next.None? && (last.None? || i >= p.nb0))
    || (c.limit.Some? && p.syncOpts + i >= c.limit.value)
  }

  /** Frames are encoded up to the first that cannot be. */
  lemma EncodedUpTo(c: Config, last: Option<nat>, next: Option<nat>, p: Plan, k: nat)
    requires (next.None? ==> p.nb == p.nb0) && k == Encoded(c, last, p, next)
    ensures k == 0 || k <= p.nb
    ensures forall i :: 0 <= i < k ==> !Barred(c, last, next, p, i)
    ensures k < p.nb ==> Barred(c, last, next, p, k)
  {
  }

  /** The new frames of a call, k of them, are those of the plan. */
  ghost predicate Adds(before: seq<Frame>, after: seq<Frame>, last: Option<nat>, next: Option<nat>, p: Plan, k: nat) {
    && |after| == |before| + k && after[..|before|] == before
    && forall j :: |before| <= j < |after| ==> IsFrame(after[j], last, next, p, j - |before|)
  }

  lemma AddsFrames(before: seq<Frame>, last: Option<nat>, next: Option<nat>, p: Plan, k: nat, frames: seq<Frame>)
    requires (next.None? ==> k <= Repeats(last, p, k)) && frames == Frames(last, p, next, k)
    ensures Adds(before, before + frames, last, next, p, k)
  {
    FramesShown(last, p, next, k);
    var after := before + frames;
    Slices.Front(before, frames);
    forall j | |before| <= j < |after|
      ensures IsFrame(after[j], last, next, p, j - |before|)
    {
      FrameAt(last, p, next, k, j - |before|, frames);
    }
  }

  /** A call rejects more frames than allowed, unless none of them would be a duplicate. */
  predicate Rejects(c: Config, s: State, p: Plan) {
    p.nb as real > c.tooMany && p.nb > (if p.nb0 != 0 && s.lastDropped then 1 else 0) + (if p.nb > p.nb0 then 1 else 0)
  }

  lemma CallOutput(c: Config, s: State, next: Option<Picture>, p: Plan, id: Option<nat>, u: State, k: nat)
    requires |s.lastNb0| == 3 && p == Planned(c, s, next) && u == Step(c, s, next)
    requires id == (if next.Some? then Some(s.received) else None) && !Rejects(c, s, p) && k == Encoded(c, s.lastFrame, p, id)
    ensures u.syncOpts == p.syncOpts + k && Adds(s.output, u.output, s.lastFrame, id, p, k)
    ensures u.frameNumber == s.frameNumber + k && u.framesEncoded == s.framesEncoded + k
    ensures u.lastFrame == if k < p.nb then s.lastFrame else id
  {
    AddsFrames(s.output, s.lastFrame, id, p, k, Frames(s.lastFrame, p, id, k));
  }

  /**
   One call: unless it is rejected, the planned frames are encoded in order up to the first that cannot be, and the picture
   is kept to be repeated if all of them were.
   */
  lemma OneCall(c: Config, s: State, next: Option<Picture>, p: Plan, id: Option<nat>, u: State) returns (k: nat)
    requires |s.lastNb0| == 3 && p == Planned(c, s, next) && u == Step(c, s, next)
    requires id == if next.Some? then Some(s.received) else None
    ensures Rejects(c, s, p) ==> k == 0 && u.lastFrame == s.lastFrame
    ensures !Rejects(c, s, p) ==> k <= (if p.nb > 0 then p.nb else 0) && (k < p.nb ==> Barred(c, s.lastFrame, id, p, k))
    ensures !Rejects(c, s, p) ==> u.lastFrame == if k < p.nb then s.lastFrame else id
    ensures forall i :: 0 <= i < k ==> !Barred(c, s.lastFrame, id, p, i)
    ensures u.syncOpts == p.syncOpts + k && u.frameNumber == s.frameNumber + k && u.framesEncoded == s.framesEncoded + k
    ensures Adds(s.output, u.output, s.lastFrame, id, p, k)
  {
    k := 0;
    if !Rejects(c, s, p) {
      k := Encoded(c, s.lastFrame, p, id);
      EncodedUpTo(c, s.lastFrame, id, p, k);
      CallOutput(c, s, next, p, id, u, k);
    }
  }

  /** What one call does to the counters and to the picture held back. */
  lemma OneCount(c: Config, s: State, next: Option<Picture>, p: Plan, u: State)
    requires |s.lastNb0| == 3 && p == Planned(c, s, next) && u == Step(c, s, next)
    ensures u.received == s.received + (if next.Some? then 1 else 0)
    ensures u.drop == s.drop + (if s.lastDropped && p.nb0 == 0 then 1 else 0) + if Rejects(c, s, p) then 1 else 0
    ensures Rejects(c, s, p) ==> u.dup == s.dup && u.lastDropped == s.lastDropped
    ensures !Rejects(c, s, p) ==> (u.lastDropped <==> next.Some? && p.nb == p.nb0)
    ensures !Rejects(c, s, p) && p.nb > p.nb0 >= 0 ==> u.dup == s.dup + p.nb - if s.lastDropped && p.nb0 > 0 then 2 else 1
    ensures !Rejects(c, s, p) && p.nb == p.nb0 >= 0 ==> u.dup == s.dup + p.nb - if s.lastDropped && p.nb0 > 0 then 1 else 0
    ensures !Rejects(c, s, p) && p.nb < 0 ==> u.dup == s.dup
  {
  }

  // ----- the end of the stream

  /** Repeats of the last picture in the call j calls ago; none before the first. */
  function RepeatsAgo(c: Config, events: Events, j: nat): int {
    if j >= |events| then 0
    else
      var n := |events| - 1 - j;
      Planned(c, Run(c, events[..n]), events[n]).nb0
  }

  lemma StepRemembers(c: Config, s: State, next: Option<Picture>)
    requires |s.lastNb0| == 3
    ensures Step(c, s, next).lastNb0 == [Planned(c, s, next).nb0, s.lastNb0[0], s.lastNb0[1]]
  {
  }

  lemma {:induction false} RepeatsRemembered(c: Config, events: Events)
    ensures Run(c, events).lastNb0 == [RepeatsAgo(c, events, 0), RepeatsAgo(c, events, 1), RepeatsAgo(c, events, 2)]
  {
    if events != [] {
      var n := |events| - 1;
      var front := events[..n];
      RepeatsRemembered(c, front);
      StepRemembers(c, Run(c, front), events[n]);
      AgoShifts(c, events, front, 0, 1);
      AgoShifts(c, events, front, 1, 2);
    }
  }

  lemma AgoShifts(c: Config, events: Events, front: Events, j: nat, j1: nat)
    requires j1 == j + 1 && events != [] && front == events[..|events| - 1]
    ensures RepeatsAgo(c, events, j1) == RepeatsAgo(c, front, j)
  {
    if j1 < |events| {
      var n := |events| - 1 - j1;
      assert front[..n] == events[..n];
    }
  }

  /** At the end of the stream the last picture is repeated as often as is usual: the median of the last three calls. */
  lemma EndPlan(c: Config, events: Events, s: State, w: Plan)
    requires s == Run(c, events) && w == Wanted(c, s, None)
    ensures w.syncOpts == s.syncOpts && w.nb == w.nb0
    ensures IsMedian(w.nb, RepeatsAgo(c, events, 0), RepeatsAgo(c, events, 1), RepeatsAgo(c, events, 2))
  {
    RepeatsRemembered(c, events);
    MidPredIsMedian(s.lastNb0[0], s.lastNb0[1], s.lastNb0[2]);
  }
}
