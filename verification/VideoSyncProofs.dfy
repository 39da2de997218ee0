/** What the frame counters mean and how far the output clock can drift, over whole runs. */
module VideoSyncProofs {
  import opened VideoSync
  import opened Wrappers
  import Slices

  type Events = seq<Option<Picture>>

  function Run(c: Config, events: Events): (s: State)
    ensures |s.lastNb0| == 3
  {
    if events == [] then Init() else Step(c, Run(c, events[..|events| - 1]), events[|events| - 1])
  }

  // ----- the ledger of frames

  /** Encoded frames beyond what the counters account for. */
  function Imbalance(s: State): int {
    s.framesEncoded - (s.received + s.dup - (s.drop + Bit(s.lastDropped)))
  }

  /** What one call adds to the imbalance: nothing, unless it leaves early or is past the frame limit. */
  function Defect(c: Config, s: State, next: Option<Picture>): int
    requires |s.lastNb0| == 3
  {
    var p := Planned(c, s, next);
    if TooLarge(c, s, p) then Bit(p.nb0 == 0 && s.lastDropped) + Bit(next.None?)
    else if p.nb < 0 then -Bit(s.lastDropped)
    else Encoded(c, s.lastFrame, p, Number(s, next)) - p.nb
  }

  function Defects(c: Config, events: Events): int {
    if events == [] then 0
    else
      var n := |events| - 1;
      Defects(c, events[..n]) + Defect(c, Run(c, events[..n]), events[n])
  }

  lemma WantedRepeats(c: Config, s: State, picture: Picture)
    ensures ForPicture(c, s, picture).nb0 >= 0
  {
    var delta0 := picture.start - s.syncOpts as real;
    if delta0 > 1.1 {
      LrintFromAbove(delta0 - 0.6, 0);
    }
  }

  lemma StepImbalance(c: Config, s: State, next: Option<Picture>)
    requires |s.lastNb0| == 3
    ensures Imbalance(Step(c, s, next)) == Imbalance(s) + Defect(c, s, next)
  {
    if next.Some? {
      WantedRepeats(c, s, next.value);
    }
  }

  lemma {:induction false} Ledger(c: Config, events: Events)
    ensures Imbalance(Run(c, events)) == Defects(c, events)
  {
    if events != [] {
      Ledger(c, events[..|events| - 1]);
      StepImbalance(c, Run(c, events[..|events| - 1]), events[|events| - 1]);
    }
  }

  /** With the held-back picture added by the last report, the counters balance exactly on runs without defects. */
  lemma CountersBalance(c: Config, events: Events)
    ensures var s := Run(c, events);
      s.framesEncoded == s.received + s.dup - (s.drop + Bit(s.lastDropped)) <==> Defects(c, events) == 0
  {
    Ledger(c, events);
  }

  /** A call that neither rejects a duplication, nor flushes without a picture, nor runs into a limit. */
  predicate Clean(c: Config, s: State, next: Option<Picture>)
    requires |s.lastNb0| == 3
  {
    var p := Planned(c, s, next);
    !TooLarge(c, s, p) && (next.None? && s.lastFrame.None? ==> p.nb == 0)
  }

  ghost predicate CleanRun(c: Config, events: Events) {
    events == [] || (
      var n := |events| - 1;
      CleanRun(c, events[..n]) && Clean(c, Run(c, events[..n]), events[n]))
  }

  predicate Within(c: Config, s: State) {
    |s.lastNb0| == 3 && s.frameNumber <= c.maxFrames && s.lastNb0[0] >= 0 && s.lastNb0[1] >= 0 && s.lastNb0[2] >= 0
  }

  lemma PlanWithin(c: Config, s: State, next: Option<Picture>)
    requires Within(c, s)
    ensures var p := Planned(c, s, next); 0 <= p.nb0 <= p.nb <= c.maxFrames - s.frameNumber
  {
    match next
    case Some(picture) =>
      WantedRepeats(c, s, picture);
      PlannedNotNegative(c, s, picture);
    case None =>
      MidPredIsMedian(s.lastNb0[0], s.lastNb0[1], s.lastNb0[2]);
  }

  /** The frame number stays within the limit and the remembered repeats are not negative. */
  lemma {:induction false} RunWithin(c: Config, events: Events)
    requires c.maxFrames >= 0
    ensures Within(c, Run(c, events))
  {
    if events != [] {
      RunWithin(c, events[..|events| - 1]);
      PlanWithin(c, Run(c, events[..|events| - 1]), events[|events| - 1]);
    }
  }

  lemma PlannedNotNegative(c: Config, s: State, picture: Picture)
    ensures ForPicture(c, s, picture).nb >= 0
  {
    var delta := picture.start - s.syncOpts as real + picture.duration;
    if delta > 1.1 {
      LrintFromAbove(delta, 1);
    }
    if picture.duration > 1.1 {
      LrintFromAbove(picture.duration, 1);
    }
  }

  lemma CleanDefect(c: Config, s: State, next: Option<Picture>)
    requires Within(c, s) && c.limit.None? && Clean(c, s, next)
    ensures Defect(c, s, next) == 0
  {
    PlanWithin(c, s, next);
  }

  /** In every sync mode: frames encoded = pictures + duplicates - drops, when nothing is cut short. */
  lemma {:induction false} Conservation(c: Config, events: Events)
    requires c.maxFrames >= 0 && c.limit.None? && CleanRun(c, events)
    ensures Defects(c, events) == 0
    ensures var s := Run(c, events); s.framesEncoded == s.received + s.dup - (s.drop + Bit(s.lastDropped))
  {
    if events != [] {
      var n := |events| - 1;
      Conservation(c, events[..n]);
      RunWithin(c, events[..n]);
      CleanDefect(c, Run(c, events[..n]), events[n]);
    }
    Ledger(c, events);
  }

  // ----- what the counters count

  /** Pictures that appear in the output. */
  function Shown(output: seq<Frame>): set<nat> {
    set f | f in output :: f.picture
  }

  lemma ShownAppend(a: seq<Frame>, b: seq<Frame>)
    ensures Shown(a + b) == Shown(a) + Shown(b)
  {
    assert forall f :: f in a + b <==> f in a || f in b;
  }

  lemma {:induction false} ShownCopies(picture: nat, pts: int, n: nat)
    ensures Shown(Copies(picture, pts, n)) == if n == 0 then {} else {picture}
    ensures |Copies(picture, pts, n)| == n
  {
    if n > 0 {
      ShownCopies(picture, pts, n - 1);
      ShownAppend(Copies(picture, pts, n - 1), [Frame(picture, pts + n - 1)]);
      assert Shown([Frame(picture, pts + n - 1)]) == {picture};
    }
  }

  /** The duplicates are the encoded frames that show nothing new; the drops are the pictures never shown. */
  predicate Truthful(s: State) {
    && s.dup == |s.output| - |Shown(s.output)|
    && s.drop + Bit(s.lastDropped) == s.received - |Shown(s.output)|
  }

  /** The picture kept for repetition is in the output, or is the one held back. */
  predicate Linked(s: State) {
    && |s.lastNb0| == 3
    && (forall id :: id in Shown(s.output) ==> id < s.received)
    && (s.lastFrame.Some? ==> s.lastFrame.value < s.received)
    && (s.lastDropped ==> s.lastFrame.Some?)
    && (s.lastFrame.Some? ==> (s.lastDropped <==> s.lastFrame.value !in Shown(s.output)))
  }

  /** What the planned frames add to the pictures shown. */
  function Added(last: Option<nat>, p: Plan, next: Option<nat>, k: nat): set<nat> {
    (if last.Some? && Repeats(last, p, k) > 0 then {last.value} else {})
    + (if next.Some? && Repeats(last, p, k) < k then {next.value} else {})
  }

  lemma PartShown(picture: Option<nat>, pts: int, n: nat)
    requires picture.None? ==> n == 0
    ensures |Part(picture, pts, n)| == n
    ensures Shown(Part(picture, pts, n)) == if picture.Some? && n > 0 then {picture.value} else {}
  {
    if picture.Some? {
      ShownCopies(picture.value, pts, n);
    }
  }

  lemma FramesShown(last: Option<nat>, p: Plan, next: Option<nat>, k: nat)
    requires next.None? ==> k <= Repeats(last, p, k)
    ensures Shown(Frames(last, p, next, k)) == Added(last, p, next, k) && |Frames(last, p, next, k)| == k
  {
    var a := Repeats(last, p, k);
    PartShown(last, p.syncOpts, a);
    PartShown(next, p.syncOpts + a, k - a);
    ShownAppend(Part(last, p.syncOpts, a), Part(next, p.syncOpts + a, k - a));
  }

  /** How many pictures one call shows for the first time. */
  function New(s: State, p: Plan, next: Option<nat>, k: nat): int {
    Bit(s.lastDropped && Repeats(s.lastFrame, p, k) > 0) + Bit(next.Some? && Repeats(s.lastFrame, p, k) < k)
  }

  lemma EncodingShown(c: Config, s: State, t: State, p: Plan, next: Option<nat>)
    requires Linked(s) && t.output == s.output && t.lastFrame == s.lastFrame
    requires next.Some? ==> next.value == s.received
    requires next.None? ==> p.nb == p.nb0
    ensures var k := Encoded(c, s.lastFrame, p, next); var u := Encoding(c, t, p, next);
      && |Shown(u.output)| == |Shown(s.output)| + New(s, p, next, k)
      && |u.output| == |s.output| + k
      && Shown(u.output) == Shown(s.output) + Added(s.lastFrame, p, next, k)
  {
    var k := Encoded(c, s.lastFrame, p, next);
    FramesShown(s.lastFrame, p, next, k);
    ShownAppend(s.output, Frames(s.lastFrame, p, next, k));
    AddedSize(s, p, next, k);
  }

  lemma AddedSize(s: State, p: Plan, next: Option<nat>, k: nat)
    requires Linked(s) && (next.Some? ==> next.value == s.received)
    ensures |Shown(s.output) + Added(s.lastFrame, p, next, k)| == |Shown(s.output)| + New(s, p, next, k)
  {
    var a := Repeats(s.lastFrame, p, k);
    var before := Shown(s.output);
    if s.lastFrame.Some? && a > 0 {
      AddOne(before, s.lastFrame.value);
      if next.Some? && a < k {
        AddOne(before + {s.lastFrame.value}, next.value);
        Union(before, {s.lastFrame.value}, {next.value});
      } else {
        Union(before, {s.lastFrame.value}, {});
      }
    } else if next.Some? && a < k {
      AddOne(before, next.value);
      Union(before, {}, {next.value});
    } else {
      Union(before, {}, {});
    }
  }

  lemma Union(a: set<nat>, b: set<nat>, c: set<nat>)
    ensures a + (b + c) == a + b + c && a + {} == a
  {
  }

  lemma AddOne(s: set<nat>, x: nat)
    ensures |s + {x}| == |s| + Bit(x !in s)
  {
    if x in s {
      assert s + {x} == s;
    }
  }

  /**
   A call after which the counters still mean what they say. Besides the early exits, a run that starts late with
   as many repeats as frames counts its first picture as held back although, for want of an earlier one, it is shown.
   */
  predicate Plain(c: Config, s: State, next: Option<Picture>)
    requires |s.lastNb0| == 3
  {
    var p := Planned(c, s, next);
    if TooLarge(c, s, p) then next.Some? && !(p.nb0 == 0 && s.lastDropped)
    else
      && 0 <= p.nb == Encoded(c, s.lastFrame, p, Number(s, next))
      && !(next.Some? && s.lastFrame.None? && p.nb == p.nb0 > 0)
  }

  lemma StepTruthful(c: Config, s: State, next: Option<Picture>)
    requires Linked(s) && Truthful(s) && Plain(c, s, next)
    ensures Truthful(Step(c, s, next))
  {
    var p := Planned(c, s, next);
    if next.Some? {
      WantedRepeats(c, s, next.value);
    }
    if !TooLarge(c, s, p) {
      EncodingShown(c, s, Settled(c, s, next), p, Number(s, next));
    }
  }

  /** The new picture is shown unless all frames repeat the last one. */
  lemma NewShown(s: State, p: Plan, id: nat, k: nat)
    requires Linked(s) && id == s.received
    ensures id in Shown(s.output) + Added(s.lastFrame, p, Some(id), k) <==> Repeats(s.lastFrame, p, k) < k
  {
  }

  lemma AllBelow(s: State, p: Plan, id: Option<nat>, k: nat)
    requires Linked(s) && (id.Some? ==> id.value == s.received)
    ensures forall x :: x in Shown(s.output) + Added(s.lastFrame, p, id, k) ==> x < s.received + Bit(id.Some?)
  {
  }

  /** The links after encoding, from what is shown by then. */
  lemma EncodingLinks(c: Config, s: State, t: State, p: Plan, id: Option<nat>)
    requires Linked(s) && |t.lastNb0| == 3 && t.output == s.output && t.lastFrame == s.lastFrame
    requires (id.Some? ==> id.value == s.received) && (id.None? ==> p.nb == p.nb0)
    requires t.received == s.received + Bit(id.Some?) && t.lastDropped == (p.nb == p.nb0 && id.Some?)
    requires 0 <= p.nb0 <= p.nb == Encoded(c, s.lastFrame, p, id)
    requires !(id.Some? && s.lastFrame.None? && p.nb == p.nb0 > 0)
    ensures Linked(Encoding(c, t, p, id))
  {
    var u := Encoding(c, t, p, id);
    EncodingShown(c, s, t, p, id);
    AllBelow(s, p, id, p.nb);
    if id.Some? {
      NewShown(s, p, id.value, p.nb);
    }
  }

  lemma StepLinked(c: Config, s: State, next: Option<Picture>)
    requires Linked(s) && Plain(c, s, next)
    ensures Linked(Step(c, s, next))
  {
    var p := Planned(c, s, next);
    if next.Some? {
      WantedRepeats(c, s, next.value);
    }
    if !TooLarge(c, s, p) {
      EncodingLinks(c, s, Settled(c, s, next), p, Number(s, next));
    }
  }

  lemma StepUntruthful(c: Config, s: State, next: Option<Picture>)
    requires Linked(s) && Truthful(s) && !Plain(c, s, next) && Planned(c, s, next).nb >= 0
    ensures !Truthful(Step(c, s, next))
  {
    if next.Some? {
      WantedRepeats(c, s, next.value);
    }
    if !TooLarge(c, s, Planned(c, s, next)) {
      EncodedUntruthful(c, s, next);
    }
  }

  lemma EncodedUntruthful(c: Config, s: State, next: Option<Picture>)
    requires Linked(s) && Truthful(s) && !Plain(c, s, next) && !TooLarge(c, s, Planned(c, s, next))
    requires Planned(c, s, next).nb >= 0 && (next.Some? ==> ForPicture(c, s, next.value).nb0 >= 0)
    ensures !Truthful(Step(c, s, next))
  {
    var p := Planned(c, s, next);
    EncodingShown(c, s, Settled(c, s, next), p, Number(s, next));
  }

  ghost predicate PlainRun(c: Config, events: Events) {
    events == [] || (
      var n := |events| - 1;
      PlainRun(c, events[..n]) && Plain(c, Run(c, events[..n]), events[n]))
  }

  lemma {:induction false} CountersTruthful(c: Config, events: Events)
    requires PlainRun(c, events)
    ensures Linked(Run(c, events)) && Truthful(Run(c, events))
  {
    if events != [] {
      var n := |events| - 1;
      CountersTruthful(c, events[..n]);
      StepLinked(c, Run(c, events[..n]), events[n]);
      StepTruthful(c, Run(c, events[..n]), events[n]);
    }
  }

  /** From truthful counters, a call leaves them truthful exactly if it is plain. */
  lemma StepTruthfulExactly(c: Config, s: State, next: Option<Picture>)
    requires Linked(s) && Truthful(s) && Planned(c, s, next).nb >= 0
    ensures Truthful(Step(c, s, next)) <==> Plain(c, s, next)
  {
    if Plain(c, s, next) {
      StepTruthful(c, s, next);
    } else {
      StepUntruthful(c, s, next);
    }
  }

  /** A first picture planned as two repeats is encoded twice, yet counted as two duplicates and held back. */
  lemma LateStartMiscounts(c: Config, next: Option<Picture>, s: State)
    requires c == Config(Cfr, 0.0, 1000, 3240000.0, None) && next.Some? && s == Step(c, Init(), next)
    requires Planned(c, Init(), next) == Plan(2, 2, 0)
    ensures s.output == [Frame(0, 0), Frame(0, 1)] && s.dup == 2 && s.drop == 0 && s.lastDropped && !Truthful(s)
  {
    var p := Plan(2, 2, 0);
    TwoFrames(p);
    Slices.Nothing(Frames(None, p, Some(0), 2));
    var t := Settled(c, Init(), next);
    assert t.output == [] && t.dup == 2 && t.drop == 0 && t.lastDropped && t.lastFrame == None;
    assert s == Encoding(c, t, p, Some(0));
    assert Shown(s.output) == {0};
  }

  lemma TwoFrames(p: Plan)
    requires p == Plan(2, 2, 0)
    ensures Frames(None, p, Some(0), 2) == [Frame(0, 0), Frame(0, 1)]
  {
    assert Copies(0, 0, 1) == [Frame(0, 0)];
  }

  /** Such a picture exists: an empty one at 2.45 frames. */
  lemma LateStartPlan(c: Config)
    requires c == Config(Cfr, 0.0, 1000, 3240000.0, None)
    ensures Planned(c, Init(), Some(Picture(2.45, 0.0))) == Plan(2, 2, 0)
  {
    assert Lrint(2.45) == 2 && Lrint(2.45 - 0.6) == 2;
  }

  // ----- drift

  function End(p: Picture): real {
    p.start + p.duration
  }

  /** Neither the frame limit, nor the recording time, nor the duplication limit cuts this call short. */
  predicate Unhindered(c: Config, s: State, p: Picture)
    requires |s.lastNb0| == 3
  {
    && c.limit.None?
    && ForPicture(c, s, p).nb <= c.maxFrames - s.frameNumber
    && !TooLarge(c, s, Planned(c, s, Some(p)))
  }

  /** How far the output clock may run behind the end of the last picture. */
  function Lead(c: Config): real {
    if c.mode.Cfr? then 0.5 else 1.0
  }

  predicate Steadily(c: Config) {
    (c.mode.Cfr? || c.mode.Vscfr?) && c.dropThreshold == 0.0
  }

  lemma StepDrift(c: Config, s: State, p: Picture)
    requires |s.lastNb0| == 3 && Steadily(c) && Unhindered(c, s, p)
    requires c.mode.Vscfr? ==> p.duration >= 0.0
    requires End(p) - s.syncOpts as real >= -2.1
    ensures -2.1 <= End(p) - Step(c, s, Some(p)).syncOpts as real <= Lead(c)
  {
    PlannedNotNegative(c, s, p);
    var q := ForPicture(c, s, p);
    assert Step(c, s, Some(p)).syncOpts == q.syncOpts + q.nb;
    LrintNearest(End(p) - s.syncOpts as real);
    LrintNearest(p.duration);
    LrintNearest(p.start);
  }

  /** The picture as the only kind of event: the stream has not ended. */
  function Arrived(pictures: seq<Picture>): (events: Events)
    ensures |events| == |pictures|
  {
    if pictures == [] then []
    else Arrived(pictures[..|pictures| - 1]) + [Some(pictures[|pictures| - 1])]
  }

  lemma RunArrived(c: Config, pictures: seq<Picture>)
    requires pictures != []
    ensures var n := |pictures| - 1;
      Run(c, Arrived(pictures)) == Step(c, Run(c, Arrived(pictures[..n])), Some(pictures[n]))
  {
    Slices.Front(Arrived(pictures[..|pictures| - 1]), [Some(pictures[|pictures| - 1])]);
  }

  /** Pictures whose ends never go back, the first starting at zero or later, each encoded unhindered. */
  ghost predicate SteadyRun(c: Config, pictures: seq<Picture>) {
    pictures == [] || (
      var n := |pictures| - 1;
      && SteadyRun(c, pictures[..n])
      && Unhindered(c, Run(c, Arrived(pictures[..n])), pictures[n])
      && (c.mode.Vscfr? ==> pictures[n].duration >= 0.0)
      && if n == 0 then pictures[n].start >= 0.0 && pictures[n].duration >= 0.0
         else End(pictures[n - 1]) <= End(pictures[n]))
  }

  /** At a constant rate the output clock never strays from the end of the last picture by more than 2.1 frames. */
  lemma {:induction false} DriftBounded(c: Config, pictures: seq<Picture>)
    requires pictures != [] && Steadily(c) && SteadyRun(c, pictures)
    ensures -2.1 <= End(pictures[|pictures| - 1]) - Run(c, Arrived(pictures)).syncOpts as real <= Lead(c)
    decreases |pictures|
  {
    var n := |pictures| - 1;
    RunArrived(c, pictures);
    if n > 0 {
      DriftBounded(c, pictures[..n]);
    }
    StepDrift(c, Run(c, Arrived(pictures[..n])), pictures[n]);
  }

  /** A constant rate with no other limit than the number of frames. */
  predicate Roomy(c: Config) {
    Steadily(c) && c.limit.None? && c.tooMany >= 2.0
  }

  lemma OneFrame(c: Config, s: State, p: Picture, t: State)
    requires |s.lastNb0| == 3 && Roomy(c) && c.mode.Cfr? && t == Step(c, s, Some(p))
    requires s.frameNumber < c.maxFrames && -1.1 <= End(p) - s.syncOpts as real <= 0.6
    ensures Planned(c, s, Some(p)) == Plan(1, 0, s.syncOpts) && Unhindered(c, s, p)
    ensures t.syncOpts == s.syncOpts + 1 && t.frameNumber == s.frameNumber + 1 && |t.lastNb0| == 3
  {
    assert ForPicture(c, s, p) == Plan(1, 0, s.syncOpts);
  }

  /** A picture on top of a steady run that plans n frames from where the clock stands. */
  lemma SteadyMore(c: Config, pictures: seq<Picture>, p: Picture, more: seq<Picture>, s: State, n: nat, t: State)
    requires Steadily(c) && SteadyRun(c, pictures) && more == pictures + [p] && s == Run(c, Arrived(pictures))
    requires if pictures == [] then p.start >= 0.0 else End(pictures[|pictures| - 1]) <= End(p)
    requires p.duration >= 0.0 && Unhindered(c, s, p) && Planned(c, s, Some(p)) == Plan(n, 0, s.syncOpts)
    requires t == Step(c, s, Some(p))
    ensures SteadyRun(c, more) && Run(c, Arrived(more)) == t && t.syncOpts == s.syncOpts + n
  {
    RunArrived(c, more);
    Slices.Front(pictures, [p]);
  }

  lemma OneMore(c: Config, pictures: seq<Picture>, p: Picture, more: seq<Picture>, k: nat)
    requires Roomy(c) && c.mode.Cfr? && SteadyRun(c, pictures) && more == pictures + [p]
    requires if pictures == [] then p.start >= 0.0 else End(pictures[|pictures| - 1]) <= End(p)
    requires p.duration >= 0.0 && -1.1 <= End(p) - k as real <= 0.6 && k < c.maxFrames
    requires Run(c, Arrived(pictures)).syncOpts == Run(c, Arrived(pictures)).frameNumber == k
    ensures SteadyRun(c, more)
    ensures Run(c, Arrived(more)).syncOpts == Run(c, Arrived(more)).frameNumber == k + 1
  {
    var s := Run(c, Arrived(pictures));
    var t := Step(c, s, Some(p));
    OneFrame(c, s, p, t);
    SteadyMore(c, pictures, p, more, s, 1, t);
  }

  lemma SteadyStart(c: Config, none: seq<Picture>)
    requires none == []
    ensures SteadyRun(c, none) && Run(c, Arrived(none)).syncOpts == Run(c, Arrived(none)).frameNumber == 0
  {
  }

  lemma Prefixes(pictures: seq<Picture>, p: Picture, q: Picture) returns (none: seq<Picture>, one: seq<Picture>, two: seq<Picture>)
    requires pictures == [p, p, q]
    ensures none == [] && one == none + [p] && two == one + [p] && pictures == two + [q]
    ensures one[|one| - 1] == two[|two| - 1] == p && one != [] && two != []
  {
    none, one, two := [], [p], [p, p];
  }

  lemma ThreeMore(c: Config, none: seq<Picture>, one: seq<Picture>, two: seq<Picture>, pictures: seq<Picture>, p: Picture, q: Picture)
    requires Roomy(c) && c.mode.Cfr? && c.maxFrames >= 3
    requires none == [] && one == none + [p] && two == one + [p] && pictures == two + [q]
    requires p.start >= 0.0 && p.duration >= 0.0 && End(p) == 0.0 && q.duration >= 0.0 && End(q) == 0.9
    ensures SteadyRun(c, pictures) && Run(c, Arrived(pictures)).syncOpts == 3
  {
    SteadyStart(c, none);
    OneMore(c, none, p, one, 0);
    OneMore(c, one, p, two, 1);
    OneMore(c, two, q, pictures, 2);
  }

  /** The lower bound is reached by a steady run: two empty pictures at 0, then one that ends at 0.9. */
  lemma LagReached(c: Config, p: Picture, q: Picture, pictures: seq<Picture>)
    requires Roomy(c) && c.mode.Cfr? && c.maxFrames >= 3
    requires p.start >= 0.0 && p.duration >= 0.0 && End(p) == 0.0 && q.duration >= 0.0 && End(q) == 0.9 && pictures == [p, p, q]
    ensures SteadyRun(c, pictures) && End(q) - Run(c, Arrived(pictures)).syncOpts as real == -2.1
  {
    var none, one, two := Prefixes(pictures, p, q);
    ThreeMore(c, none, one, two, pictures, p, q);
  }

  lemma PlanTwo(c: Config, s: State, p: Picture)
    requires Roomy(c) && c.maxFrames >= 2 && s == Init()
    requires p.start == (if c.mode.Cfr? then 0.0 else 0.5) && p.duration == 2.5
    ensures Planned(c, s, Some(p)) == Plan(2, 0, s.syncOpts) && Unhindered(c, s, p)
  {
    assert Lrint(0.5) == 0 && Lrint(2.5) == 2;
    assert ForPicture(c, s, p) == Plan(2, 0, 0);
  }

  /** So is the upper bound, by one picture: two frames for a length of 2.5, and half a frame more for a late start. */
  lemma LeadReached(c: Config, p: Picture, pictures: seq<Picture>, none: seq<Picture>, s: State)
    requires Roomy(c) && c.maxFrames >= 2 && none == [] && pictures == none + [p] && s == Run(c, Arrived(none))
    requires p.start == (if c.mode.Cfr? then 0.0 else 0.5) && p.duration == 2.5
    ensures SteadyRun(c, pictures) && End(p) - Run(c, Arrived(pictures)).syncOpts as real == Lead(c)
  {
    assert SteadyRun(c, none) && Run(c, Arrived(none)) == Init();
    PlanTwo(c, s, p);
    SteadyMore(c, none, p, pictures, s, 2, Step(c, s, Some(p)));
  }

  // ----- the order of the output

  /** The recording time is over. */
  predicate Past(c: Config, s: State) {
    c.limit.Some? && s.syncOpts >= c.limit.value
  }

  ghost predicate Ordered(o: seq<Frame>) {
    forall i, j :: 0 <= i < j < |o| ==> o[i].pts < o[j].pts && o[i].picture <= o[j].picture
  }

  ghost predicate Below(o: seq<Frame>, picture: int, pts: int) {
    forall i :: 0 <= i < |o| ==> o[i].picture <= picture && o[i].pts < pts
  }

  ghost predicate InOrder(c: Config, s: State) {
    && |s.lastNb0| == 3
    && Ordered(s.output) && Below(s.output, s.received - 1, s.syncOpts)
    && (s.lastFrame.Some? ==> s.lastFrame.value < s.received)
    && (s.lastFrame.Some? && !Past(c, s) ==> Below(s.output, s.lastFrame.value, s.syncOpts))
  }

  predicate Clocked(m: Mode) {
    m.Cfr? || m.Vscfr? || m.Vfr?
  }

  lemma ClockForward(c: Config, s: State, next: Option<Picture>)
    requires |s.lastNb0| == 3 && Clocked(c.mode)
    ensures Planned(c, s, next).syncOpts >= s.syncOpts
  {
    if next.Some? {
      var p := next.value;
      LrintFromAbove(if p.start < s.syncOpts as real then s.syncOpts as real else p.start, s.syncOpts);
    }
  }

  lemma {:induction false} CopiesOrdered(o: seq<Frame>, picture: nat, pts: int, n: nat)
    requires Ordered(o) && Below(o, picture, pts)
    ensures Ordered(o + Copies(picture, pts, n)) && Below(o + Copies(picture, pts, n), picture, pts + n)
  {
    if n > 0 {
      CopiesOrdered(o, picture, pts, n - 1);
      Slices.Assoc(o, Copies(picture, pts, n - 1), [Frame(picture, pts + n - 1)]);
    } else {
      Slices.Nothing(o);
    }
  }

  lemma BelowMore(o: seq<Frame>, picture: int, more: int, pts: int, later: int)
    requires Below(o, picture, pts) && picture <= more && pts <= later
    ensures Below(o, more, later)
  {
  }

  lemma FramesOrdered(o: seq<Frame>, last: Option<nat>, p: Plan, next: Option<nat>, k: nat)
    requires next.None? ==> k <= Repeats(last, p, k)
    requires Ordered(o) && k > 0
    requires last.Some? ==> Below(o, last.value, p.syncOpts)
    requires next.Some? ==> Below(o, next.value, p.syncOpts) && (last.Some? ==> last.value <= next.value)
    ensures Ordered(o + Frames(last, p, next, k))
    ensures Below(o + Frames(last, p, next, k), if next.Some? then next.value else last.value, p.syncOpts + k)
  {
    var a := Repeats(last, p, k);
    var pts, n := p.syncOpts + a, k - a;
    FrontOrdered(o, last, p.syncOpts, a);
    var front := Part(last, p.syncOpts, a);
    if next.Some? {
      NextOrdered(o + front, next.value, pts, n);
      Slices.Assoc(o, front, Part(next, pts, n));
    } else {
      Slices.Nothing(front);
    }
  }

  lemma NextOrdered(o: seq<Frame>, next: nat, pts: int, n: nat)
    requires Ordered(o) && Below(o, next, pts)
    ensures Ordered(o + Part(Some(next), pts, n)) && Below(o + Part(Some(next), pts, n), next, pts + n)
  {
    CopiesOrdered(o, next, pts, n);
  }

  /** The repeats come first; nothing shown is newer than the last picture. */
  lemma FrontOrdered(o: seq<Frame>, last: Option<nat>, pts: int, a: nat)
    requires Ordered(o) && (last.Some? ==> Below(o, last.value, pts)) && (last.None? ==> a == 0)
    ensures Ordered(o + Part(last, pts, a))
    ensures last.Some? ==> Below(o + Part(last, pts, a), last.value, pts + a)
    ensures last.None? ==> o + Part(last, pts, a) == o
  {
    if last.Some? {
      CopiesOrdered(o, last.value, pts, a);
    } else {
      Slices.Nothing(o);
    }
  }

  /** Encoding with a clock that has not gone back. */
  ghost predicate Resumed(c: Config, s: State, p: Plan, id: Option<nat>, t: State) {
    && |s.lastNb0| == |t.lastNb0| == 3
    && p.syncOpts >= s.syncOpts && (id.None? ==> p.nb == p.nb0) && (id.Some? ==> id.value == s.received)
    && t.output == s.output && t.lastFrame == s.lastFrame && t.received == s.received + Bit(id.Some?)
  }

  lemma EncodingOrdered(c: Config, s: State, p: Plan, id: Option<nat>, t: State)
    requires InOrder(c, s) && Resumed(c, s, p, id, t)
    ensures var u := Encoding(c, t, p, id);
      && Ordered(u.output) && Below(u.output, t.received - 1, u.syncOpts)
      && (id.Some? ==> Below(u.output, id.value, u.syncOpts))
  {
    var k := Encoded(c, s.lastFrame, p, id);
    BelowMore(s.output, s.received - 1, t.received - 1, s.syncOpts, p.syncOpts);
    if k > 0 {
      MoreOrdered(c, s, p, id, t.received - 1, k);
    } else {
      NoFrames(s.lastFrame, p, id);
      Slices.Nothing(s.output);
    }
  }

  /** Some frames are encoded. */
  lemma MoreOrdered(c: Config, s: State, p: Plan, id: Option<nat>, newest: int, k: nat)
    requires InOrder(c, s) && p.syncOpts >= s.syncOpts && k == Encoded(c, s.lastFrame, p, id) > 0
    requires (id.None? ==> p.nb == p.nb0) && (id.Some? ==> id.value == s.received == newest)
    requires newest >= s.received - 1 && Below(s.output, newest, p.syncOpts)
    ensures var o := s.output + Frames(s.lastFrame, p, id, k);
      && Ordered(o) && Below(o, newest, p.syncOpts + k)
      && (id.Some? ==> Below(o, id.value, p.syncOpts + k))
  {
    var pts := p.syncOpts + k;
    if s.lastFrame.Some? {
      BelowMore(s.output, s.lastFrame.value, s.lastFrame.value, s.syncOpts, p.syncOpts);
    }
    FramesOrdered(s.output, s.lastFrame, p, id, k);
    BelowMore(s.output + Frames(s.lastFrame, p, id, k), if id.Some? then id.value else s.lastFrame.value, newest, pts, pts);
  }

  lemma EncodingLinked(c: Config, s: State, p: Plan, id: Option<nat>, t: State)
    requires InOrder(c, s) && Resumed(c, s, p, id, t)
    ensures var u := Encoding(c, t, p, id);
      u.lastFrame == id || u.lastFrame.None? || Past(c, u)
  {
  }

  lemma NoFrames(last: Option<nat>, p: Plan, next: Option<nat>)
    ensures Frames(last, p, next, 0) == []
  {
  }

  lemma StepInOrder(c: Config, s: State, next: Option<Picture>)
    requires InOrder(c, s) && Clocked(c.mode)
    ensures InOrder(c, Step(c, s, next))
  {
    var p := Planned(c, s, next);
    ClockForward(c, s, next);
    if !TooLarge(c, s, p) {
      EncodingOrdered(c, s, p, Number(s, next), Settled(c, s, next));
      EncodingLinked(c, s, p, Number(s, next), Settled(c, s, next));
    }
  }

  /** Except in the modes that copy timestamps, output timestamps strictly rise and pictures never go back. */
  lemma {:induction false} OutputInOrder(c: Config, events: Events)
    requires Clocked(c.mode)
    ensures InOrder(c, Run(c, events))
  {
    if events != [] {
      OutputInOrder(c, events[..|events| - 1]);
      StepInOrder(c, Run(c, events[..|events| - 1]), events[|events| - 1]);
    }
  }
}
