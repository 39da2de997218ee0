/**
 One writer and one reader thread on the frame ring. Indices move outside the lock, sizes inside it, so each
 push and each next is two atomic steps. The ring still behaves as a bounded first-in first-out queue, and the
 last frame shown survives until the reader moves on again exactly when the queue keeps it.
 */
module FrameRing {
  import opened Wrappers
  import opened FrameQueue

  /** Filled: the slot is written, the index not yet moved; Moved: the index is, the size not yet. */
  datatype WriterPc = WIdle | WRoom | Filled | Moved

  /** Holding: peek_readable gave a frame; RMoved: rindex has moved, the size not yet. */
  datatype ReaderPc = RIdle | Holding | RMoved

  datatype State = State(
    ring: Ring,
    w: WriterPc,
    r: ReaderPc,
    pushed: seq<Frame>,          // every frame written to a slot, oldest first
    dropped: nat,                // how many of them the reader's index has left behind
    delivered: seq<Frame>,       // every frame peek_readable gave out
    held: Option<nat>)           // slot of the last of those

  datatype Step = CheckRoom | Fill(f: Frame) | MoveWrite | CountPush | PeekReadable | MoveRead | CountNext

  predicate Enabled(s: State, step: Step) {
    match step
    case CheckRoom => s.w.WIdle? && s.ring.size < |s.ring.slots|
    case Fill(_) => s.w.WRoom?
    case MoveWrite => s.w.Filled?
    case CountPush => s.w.Moved?
    case PeekReadable => s.r.RIdle? && s.ring.Remaining() > 0
    case MoveRead => s.r.Holding?
    case CountNext => s.r.RMoved?
  }

  ghost function Apply(s: State, step: Step): State
    requires s.ring.Valid() && Enabled(s, step)
    requires step.PeekReadable? ==> s.ring.PeekIndex() < |s.ring.slots| && s.ring.slots[s.ring.PeekIndex()].Some?
  {
    match step
    case CheckRoom => s.(w := WRoom)
    case Fill(f) => s.(w := Filled, ring := s.ring.Write(f), pushed := s.pushed + [f])
    case MoveWrite => s.(w := Moved, ring := s.ring.AdvanceWrite())
    case CountPush => s.(w := WIdle, ring := s.ring.(size := s.ring.size + 1))
    case PeekReadable =>
      var slot := s.ring.PeekIndex();
      s.(r := Holding, held := Some(slot), delivered := s.delivered + [s.ring.slots[slot].value])
    case MoveRead =>
      if s.ring.KeepsFirst() then s.(r := RIdle, ring := s.ring.ShowFirst())
      else s.(r := RMoved, ring := s.ring.AdvanceRead(), dropped := s.dropped + 1)
    case CountNext => s.(r := RIdle, ring := s.ring.(size := s.ring.size - 1))
  }

  function Init(maxSize: nat, keepLast: bool): State
    requires maxSize > 0
  {
    State(Ring(seq(maxSize, _ => None), 0, 0, 0, keepLast, 0), WIdle, RIdle, [], 0, [], None)
  }

  // ----- invariant

  /** Frames written and counted or on their way to be, not yet left behind by the reader's index. */
  function Stored(s: State): int {
    |s.pushed| - s.dropped
  }

  /** Of those, the ones the writer's index has passed. */
  function Passed(s: State): int {
    Stored(s) - if s.w.Filled? then 1 else 0
  }

  ghost predicate Counts(s: State) {
    && s.ring.size == Stored(s) - (if s.w.Filled? || s.w.Moved? then 1 else 0) + (if s.r.RMoved? then 1 else 0)
    && 0 <= Passed(s) && Stored(s) <= |s.ring.slots|
    && (s.w.WRoom? ==> Stored(s) < |s.ring.slots|)
    && s.ring.windex == Wrapped(s.ring.rindex, Passed(s), |s.ring.slots|)
  }

  /** The stored frames sit in consecutive slots from rindex on. */
  ghost predicate Contents(s: State)
    requires |s.ring.slots| > 0 && s.ring.rindex < |s.ring.slots| && 0 <= Stored(s) <= |s.ring.slots| && s.dropped <= |s.pushed|
  {
    forall k :: 0 <= k < Stored(s) ==>
      s.ring.slots[Wrapped(s.ring.rindex, k, |s.ring.slots|)] == Some(s.pushed[s.dropped + k])
  }

  /** The reader: one frame delivered per next, the frame at hand included; a shown frame is still stored. */
  ghost predicate Reading(s: State) {
    && (s.ring.shown == 1 ==> s.ring.size >= 1 && s.ring.size - (if s.r.RMoved? then 1 else 0) >= 1)
    && (s.r.Holding? ==> s.ring.Remaining() > 0)
    && |s.delivered| == s.dropped + s.ring.shown + (if s.r.Holding? then 1 else 0)
    && s.delivered <= s.pushed
    && (s.held.Some? <==> s.delivered != [])
  }

  /** The frame last delivered is still in its slot: always while holding it, afterwards if the queue keeps it. */
  ghost predicate HeldIntact(s: State)
    requires |s.ring.slots| > 0
  {
    (s.r.Holding? || s.ring.keepLast) && s.held.Some? && s.delivered != [] ==>
      && s.held.value < |s.ring.slots|
      && s.held.value == (if s.r.Holding? then s.ring.PeekIndex() else s.ring.rindex)
      && s.ring.slots[s.held.value] == Some(s.delivered[|s.delivered| - 1])
  }

  ghost predicate Inv(s: State) {
    && s.ring.Valid() && s.dropped <= |s.pushed|
    && Counts(s) && Contents(s) && Reading(s) && HeldIntact(s)
    && (s.ring.keepLast && s.ring.shown == 0 ==> s.dropped == 0 && !s.r.RMoved?)
  }

  lemma InitInv(maxSize: nat, keepLast: bool)
    requires maxSize > 0
    ensures Inv(Init(maxSize, keepLast))
  {
  }

  /** While a step is enabled the reader finds a frame where it peeks. */
  lemma CanApply(s: State, step: Step)
    requires Inv(s) && Enabled(s, step)
    ensures step.PeekReadable? ==>
      && s.ring.PeekIndex() < |s.ring.slots|
      && s.ring.slots[s.ring.PeekIndex()] == Some(s.pushed[s.dropped + s.ring.shown])
  {
    if step.PeekReadable? {
      assert s.ring.shown < Stored(s);
    }
  }

  lemma FillKeeps(s: State, f: Frame)
    requires Inv(s) && s.w.WRoom?
    ensures Inv(Apply(s, Fill(f)))
  {
    var s' := Apply(s, Fill(f));
    FillStored(s, f, s');
    assert s.delivered <= s.pushed ==> s.delivered <= s'.pushed;
  }

  lemma FillStored(s: State, f: Frame, s': State)
    requires Inv(s) && s.w.WRoom? && s' == Apply(s, Fill(f))
    ensures s'.ring.rindex < |s'.ring.slots| && 0 <= Stored(s') <= |s'.ring.slots| && s'.dropped <= |s'.pushed| && Contents(s')
  {
    forall k | 0 <= k < Stored(s')
      ensures s'.ring.slots[Wrapped(s'.ring.rindex, k, |s'.ring.slots|)] == Some(s'.pushed[s'.dropped + k])
    {
    }
  }

  lemma PeekKeeps(s: State)
    requires Inv(s) && Enabled(s, PeekReadable)
    ensures s.ring.PeekIndex() < |s.ring.slots| && s.ring.slots[s.ring.PeekIndex()].Some?
    ensures Inv(Apply(s, PeekReadable))
  {
    CanApply(s, PeekReadable);
    assert |s.delivered| == s.dropped + s.ring.shown;
  }

  /** The frames behind the one dropped are where they were, one place nearer. */
  lemma RestStored(s: State, s': State)
    requires Inv(s) && s.r.Holding? && !s.ring.KeepsFirst() && s' == Apply(s, MoveRead)
    requires 0 <= Stored(s')
    ensures Contents(s')
  {
    forall k | 0 <= k < Stored(s')
      ensures s'.ring.slots[Wrapped(s'.ring.rindex, k, |s'.ring.slots|)] == Some(s'.pushed[s'.dropped + k])
    {
      var k1 := k + 1;
      assert Wrapped(s'.ring.rindex, k, |s'.ring.slots|) == Wrapped(s.ring.rindex, k1, |s.ring.slots|);
      assert s.ring.slots[Wrapped(s.ring.rindex, k1, |s.ring.slots|)] == Some(s.pushed[s.dropped + k1]);
    }
  }

  lemma ReadCounts(s: State, s': State)
    requires Inv(s) && s.r.Holding? && !s.ring.KeepsFirst() && s' == Apply(s, MoveRead)
    ensures s'.ring.Valid() && s'.dropped <= |s'.pushed| && Counts(s') && Reading(s')
  {
  }

  lemma MoveReadKeeps(s: State)
    requires Inv(s) && Enabled(s, MoveRead)
    ensures Inv(Apply(s, MoveRead))
  {
    var s' := Apply(s, MoveRead);
    if !s.ring.KeepsFirst() {
      ReadCounts(s, s');
      RestStored(s, s');
    }
  }

  /** The writer's steps that move only counts and its index. */
  lemma WriterKeeps(s: State, step: Step)
    requires Inv(s) && Enabled(s, step) && (step.CheckRoom? || step.MoveWrite? || step.CountPush?)
    ensures Inv(Apply(s, step))
  {
  }

  lemma CountNextKeeps(s: State)
    requires Inv(s) && Enabled(s, CountNext)
    ensures Inv(Apply(s, CountNext))
  {
  }

  lemma StepKeeps(s: State, step: Step)
    requires Inv(s) && Enabled(s, step)
    ensures step.PeekReadable? ==> s.ring.PeekIndex() < |s.ring.slots| && s.ring.slots[s.ring.PeekIndex()].Some?
    ensures Inv(Apply(s, step))
  {
    match step
    case Fill(f) => FillKeeps(s, f);
    case PeekReadable => PeekKeeps(s);
    case MoveRead => MoveReadKeeps(s);
    case CountNext => CountNextKeeps(s);
    case _ => WriterKeeps(s, step);
  }

  // ----- every run

  ghost predicate Runs(s: State, steps: seq<Step>, s': State)
    decreases |steps|
  {
    if steps == [] then s' == s
    else
      && s.ring.Valid() && Enabled(s, steps[0])
      && (steps[0].PeekReadable? ==>
           s.ring.PeekIndex() < |s.ring.slots| && s.ring.slots[s.ring.PeekIndex()].Some?)
      && Runs(Apply(s, steps[0]), steps[1..], s')
  }

  lemma {:induction false} RunInv(s: State, steps: seq<Step>, s': State)
    requires Inv(s) && Runs(s, steps, s')
    ensures Inv(s')
    decreases |steps|
  {
    if steps != [] {
      StepKeeps(s, steps[0]);
      RunInv(Apply(s, steps[0]), steps[1..], s');
    }
  }

  /** The ring refines a bounded first-in first-out queue: frames come out as they went in, none twice. */
  lemma BoundedFifo(maxSize: nat, keepLast: bool, steps: seq<Step>, s: State)
    requires maxSize > 0 && Runs(Init(maxSize, keepLast), steps, s)
    ensures s.delivered <= s.pushed && 0 <= |s.pushed| - s.dropped <= maxSize
  {
    InitInv(maxSize, keepLast);
    RunInv(Init(maxSize, keepLast), steps, s);
    SlotCount(Init(maxSize, keepLast), steps, s);
  }

  lemma {:induction false} SlotCount(s: State, steps: seq<Step>, s': State)
    requires Runs(s, steps, s')
    ensures |s'.ring.slots| == |s.ring.slots| && s'.ring.keepLast == s.ring.keepLast
    decreases |steps|
  {
    if steps != [] {
      SlotCount(Apply(s, steps[0]), steps[1..], s');
    }
  }

  /** The slot being written is neither the one shown last nor one the reader could peek at. */
  lemma WriterAlone(maxSize: nat, keepLast: bool, steps: seq<Step>, s: State)
    requires maxSize > 0 && Runs(Init(maxSize, keepLast), steps, s)
    requires s.w.WRoom? || s.w.Filled?
    ensures s.ring.shown == 1 ==> s.ring.windex != s.ring.rindex
    ensures s.r.Holding? || (s.r.RIdle? && s.ring.Remaining() > 0) ==> s.ring.windex != s.ring.PeekIndex()
    ensures s.r.RIdle? && s.ring.Remaining() > 1 ==> s.ring.windex != Wrapped(s.ring.rindex, s.ring.shown + 1, maxSize)
  {
    InitInv(maxSize, keepLast);
    RunInv(Init(maxSize, keepLast), steps, s);
    SlotCount(Init(maxSize, keepLast), steps, s);
  }

  /** With keep_last the frame delivered last stays in its slot, whatever the writer does, until the next peek. */
  lemma KeptFrameIntact(maxSize: nat, steps: seq<Step>, s: State)
    requires maxSize > 0 && Runs(Init(maxSize, true), steps, s) && s.delivered != []
    ensures |s.ring.slots| == maxSize && s.held.Some? && s.held.value < maxSize
    ensures s.ring.slots[s.held.value] == Some(s.delivered[|s.delivered| - 1])
  {
    InitInv(maxSize, true);
    RunInv(Init(maxSize, true), steps, s);
    SlotCount(Init(maxSize, true), steps, s);
  }

  /** A next leaves the frame just peeked at intact exactly when the queue keeps the last one. */
  lemma NextKeepsExactly(s: State)
    requires Inv(s) && s.r.Holding?
    ensures s.held.Some? && s.held.value < |s.ring.slots|
    ensures Apply(s, MoveRead).ring.slots[s.held.value] == Some(s.delivered[|s.delivered| - 1]) <==> s.ring.keepLast
  {
    MoveReadKeeps(s);
  }
}
