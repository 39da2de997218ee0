/**
 Condition variables built from two auto-reset event semaphores, for any number of threads. Callers hold the
 mutex around wait, signal and broadcast; every atomic step of those calls is a step here.
 */
module CondVar {

  datatype Pc =
    | Out          // not holding the mutex
    | In           // holding it, between calls
    | Unlocking    // wait: counted, about to release the mutex
    | Waiting      // wait: blocked on the event semaphore
    | Woken        // wait: took the event, still counted
    | Acking       // wait: no longer counted, about to post the ack
    | Relock       // wait: about to take the mutex again
    | Posting      // signal: saw waiters, about to post the event
    | AwaitAck     // signal: blocked on the ack semaphore
    | Loop         // broadcast: loop test
    | Recheck      // broadcast: the test inside signal
    | LoopPosting
    | LoopAwaitAck

  datatype State = State(
    pcs: seq<Pc>,
    owner: int,            // thread holding the mutex, or -1
    waitCount: int,
    event: bool,
    ack: bool,
    posted: nat,           // events posted so far
    released: nat,         // waits released so far
    countAtPost: int,      // wait_count when the last event was posted
    releasedAtPost: nat)

  datatype Action =
    | Lock | Unlock
    | BeginWait | WaitUnlock | TakeEvent | Uncount | PostAck | TakeMutexBack
    | BeginSignal | Post | TakeAck
    | BeginBroadcast | TestLoop | TestInSignal

  predicate Holds(pc: Pc) {
    pc.In? || pc.Unlocking? || Signalling(pc) || pc.Loop? || pc.Recheck?
  }

  predicate Signalling(pc: Pc) {
    pc.Posting? || pc.LoopPosting? || Awaiting(pc)
  }

  predicate SawWaiters(pc: Pc) {
    pc.Posting? || pc.LoopPosting? || pc.Recheck?
  }

  predicate Awaiting(pc: Pc) {
    pc.AwaitAck? || pc.LoopAwaitAck?
  }

  predicate Enabled(s: State, t: nat, a: Action) {
    t < |s.pcs| &&
    var pc := s.pcs[t];
    match a
    case Lock => pc.Out? && s.owner == -1
    case Unlock => pc.In?
    case BeginWait => pc.In?
    case WaitUnlock => pc.Unlocking?
    case TakeEvent => pc.Waiting? && s.event
    case Uncount => pc.Woken?
    case PostAck => pc.Acking?
    case TakeMutexBack => pc.Relock? && s.owner == -1
    case BeginSignal => pc.In?
    case Post => pc.Posting? || pc.LoopPosting?
    case TakeAck => Awaiting(pc) && s.ack
    case BeginBroadcast => pc.In?
    case TestLoop => pc.Loop?
    case TestInSignal => pc.Recheck?
  }

  function Goto(s: State, t: nat, pc: Pc): State
    requires t < |s.pcs|
  {
    s.(pcs := s.pcs[t := pc])
  }

  function Apply(s: State, t: nat, a: Action): State
    requires Enabled(s, t, a)
  {
    match a
    case Lock => Goto(s, t, In).(owner := t)
    case Unlock => Goto(s, t, Out).(owner := -1)
    case BeginWait => Goto(s, t, Unlocking).(waitCount := s.waitCount + 1)
    case WaitUnlock => Goto(s, t, Waiting).(owner := -1)
    case TakeEvent => Goto(s, t, Woken).(event := false, released := s.released + 1)
    case Uncount => Goto(s, t, Acking).(waitCount := s.waitCount - 1)
    case PostAck => Goto(s, t, Relock).(ack := true)
    case TakeMutexBack => Goto(s, t, In).(owner := t)
    case BeginSignal => Goto(s, t, if s.waitCount != 0 then Posting else In)
    case Post =>
      Goto(s, t, if s.pcs[t].Posting? then AwaitAck else LoopAwaitAck)
        .(event := true, posted := s.posted + 1, countAtPost := s.waitCount, releasedAtPost := s.released)
    case TakeAck => Goto(s, t, if s.pcs[t].AwaitAck? then In else Loop).(ack := false)
    case BeginBroadcast => Goto(s, t, Loop)
    case TestLoop => Goto(s, t, if s.waitCount != 0 then Recheck else In)
    case TestInSignal => Goto(s, t, if s.waitCount != 0 then LoopPosting else Loop)
  }

  function Init(threads: nat): State {
    State(seq(threads, _ => Out), -1, 0, false, false, 0, 0, 0, 0)
  }

  // ----- invariant

  function Count(s: State, pc: Pc): nat {
    multiset(s.pcs)[pc]
  }

  function Bit(b: bool): nat {
    if b then 1 else 0
  }

  /** The one handshake under way is in exactly one place: posted, taken, uncounted, or acked. */
  function Tokens(s: State): nat {
    Bit(s.event) + Count(s, Woken) + Count(s, Acking) + Bit(s.ack)
  }

  ghost predicate Mutex(s: State) {
    && -1 <= s.owner < |s.pcs|
    && forall t :: 0 <= t < |s.pcs| ==> (Holds(s.pcs[t]) <==> t == s.owner)
  }

  ghost predicate Handshake(s: State) {
    && s.waitCount == Count(s, Unlocking) + Count(s, Waiting) + Count(s, Woken)
    && s.posted == s.released + Bit(s.event)
    && (if 0 <= s.owner < |s.pcs| && Awaiting(s.pcs[s.owner])
        then
          && Tokens(s) == 1
          && s.released == s.releasedAtPost + 1 - Bit(s.event)
          && s.waitCount == s.countAtPost - Count(s, Acking) - Bit(s.ack)
        else Tokens(s) == 0)
    && (s.event ==> Count(s, Waiting) > 0)
    && (0 <= s.owner < |s.pcs| && SawWaiters(s.pcs[s.owner]) ==> s.waitCount > 0)
  }

  ghost predicate Inv(s: State) {
    Mutex(s) && Handshake(s)
  }

  lemma {:induction false} NoneElsewhere(pcs: seq<Pc>, pc: Pc)
    requires forall t :: 0 <= t < |pcs| ==> pcs[t] != pc
    ensures multiset(pcs)[pc] == 0
  {
    assert pc !in pcs;
  }

  lemma InitInv(threads: nat)
    ensures Inv(Init(threads))
  {
    var s := Init(threads);
    NoneElsewhere(s.pcs, Unlocking);
    NoneElsewhere(s.pcs, Waiting);
    NoneElsewhere(s.pcs, Woken);
    NoneElsewhere(s.pcs, Acking);
  }

  /** Moving one thread changes the counts of the two places it moves between, and no other. */
  lemma CountMove(s: State, t: nat, to: Pc, pc: Pc)
    requires t < |s.pcs|
    ensures multiset(s.pcs[t := to])[pc] == Count(s, pc) - Bit(s.pcs[t] == pc) + Bit(to == pc)
    ensures Count(s, s.pcs[t]) > 0
  {
    assert s.pcs[t] in s.pcs;
    assert multiset(s.pcs[t := to]) == multiset(s.pcs) - multiset{s.pcs[t]} + multiset{to};
  }

  /** The counts the handshake depends on, after thread t moved. */
  lemma CountMoves(s: State, s': State, t: nat)
    requires t < |s.pcs| == |s'.pcs| && s'.pcs == s.pcs[t := s'.pcs[t]]
    ensures Count(s', Unlocking) == Count(s, Unlocking) - Bit(s.pcs[t].Unlocking?) + Bit(s'.pcs[t].Unlocking?)
    ensures Count(s', Waiting) == Count(s, Waiting) - Bit(s.pcs[t].Waiting?) + Bit(s'.pcs[t].Waiting?)
    ensures Count(s', Woken) == Count(s, Woken) - Bit(s.pcs[t].Woken?) + Bit(s'.pcs[t].Woken?)
    ensures Count(s', Acking) == Count(s, Acking) - Bit(s.pcs[t].Acking?) + Bit(s'.pcs[t].Acking?)
    ensures Count(s, s.pcs[t]) > 0
  {
    CountMove(s, t, s'.pcs[t], Unlocking);
    CountMove(s, t, s'.pcs[t], Waiting);
    CountMove(s, t, s'.pcs[t], Woken);
    CountMove(s, t, s'.pcs[t], Acking);
  }

  /** The thread that moves takes the mutex, keeps it, gives it up, or has nothing to do with it. */
  lemma MutexMove(s: State, t: nat, to: Pc, s': State)
    requires Mutex(s) && t < |s.pcs| && s'.pcs == s.pcs[t := to]
    requires Holds(to) ==> s.owner == -1 || s.owner == t
    requires s'.owner == if Holds(to) then t else if s.owner == t then -1 else s.owner
    ensures Mutex(s')
  {
  }

  lemma MutexStep(s: State, t: nat, a: Action)
    requires Inv(s) && Enabled(s, t, a)
    ensures Mutex(Apply(s, t, a))
  {
    var s' := Apply(s, t, a);
    assert Holds(s.pcs[t]) <==> t == s.owner;
    MutexMove(s, t, s'.pcs[t], s');
  }

  /** While somebody else holds the mutex there is no thread between counting itself and letting go. */
  lemma NobodyUnlocking(s: State)
    requires Mutex(s) && s.owner != -1 && !s.pcs[s.owner].Unlocking?
    ensures Count(s, Unlocking) == 0
  {
    forall t | 0 <= t < |s.pcs| ensures s.pcs[t] != Unlocking {
      if s.pcs[t].Unlocking? {
        assert Holds(s.pcs[t]);
      }
    }
    NoneElsewhere(s.pcs, Unlocking);
  }

  /** A thread inside wait, or outside every call. */
  lemma WaiterStep(s: State, t: nat, a: Action)
    requires Inv(s) && Enabled(s, t, a)
    requires a.Lock? || a.Unlock? || a.BeginWait? || a.WaitUnlock? || a.TakeMutexBack?
    ensures Handshake(Apply(s, t, a))
  {
    CountMoves(s, Apply(s, t, a), t);
  }

  lemma TakenStep(s: State, t: nat, a: Action)
    requires Inv(s) && Enabled(s, t, a) && a.TakeEvent?
    ensures Handshake(Apply(s, t, a))
  {
    CountMoves(s, Apply(s, t, a), t);
  }

  lemma UncountStep(s: State, t: nat, a: Action)
    requires Inv(s) && Enabled(s, t, a) && a.Uncount?
    ensures Handshake(Apply(s, t, a))
  {
    CountMoves(s, Apply(s, t, a), t);
  }

  lemma PostAckStep(s: State, t: nat, a: Action)
    requires Inv(s) && Enabled(s, t, a) && a.PostAck?
    ensures Handshake(Apply(s, t, a))
  {
    CountMoves(s, Apply(s, t, a), t);
  }

  lemma ReleasedStep(s: State, t: nat, a: Action)
    requires Inv(s) && Enabled(s, t, a) && (a.TakeEvent? || a.Uncount? || a.PostAck?)
    ensures Handshake(Apply(s, t, a))
  {
    if a.TakeEvent? {
      TakenStep(s, t, a);
    } else if a.Uncount? {
      UncountStep(s, t, a);
    } else {
      PostAckStep(s, t, a);
    }
  }

  lemma PostStep(s: State, t: nat, a: Action)
    requires Inv(s) && Enabled(s, t, a) && a.Post?
    ensures Handshake(Apply(s, t, a))
  {
    CountMoves(s, Apply(s, t, a), t);
    NobodyUnlocking(s);
  }

  lemma AckStep(s: State, t: nat, a: Action)
    requires Inv(s) && Enabled(s, t, a) && a.TakeAck?
    ensures Handshake(Apply(s, t, a))
  {
    CountMoves(s, Apply(s, t, a), t);
  }

  lemma TestStep(s: State, t: nat, a: Action)
    requires Inv(s) && Enabled(s, t, a) && (a.BeginSignal? || a.BeginBroadcast? || a.TestLoop? || a.TestInSignal?)
    ensures Handshake(Apply(s, t, a))
  {
    CountMoves(s, Apply(s, t, a), t);
  }

  lemma SignallerStep(s: State, t: nat, a: Action)
    requires Inv(s) && Enabled(s, t, a)
    requires a.BeginSignal? || a.Post? || a.TakeAck? || a.BeginBroadcast? || a.TestLoop? || a.TestInSignal?
    ensures Handshake(Apply(s, t, a))
  {
    if a.Post? {
      PostStep(s, t, a);
    } else if a.TakeAck? {
      AckStep(s, t, a);
    } else {
      TestStep(s, t, a);
    }
  }

  lemma StepKeeps(s: State, t: nat, a: Action)
    requires Inv(s) && Enabled(s, t, a)
    ensures Inv(Apply(s, t, a))
  {
    MutexStep(s, t, a);
    if a.TakeEvent? || a.Uncount? || a.PostAck? {
      ReleasedStep(s, t, a);
    } else if a.BeginSignal? || a.Post? || a.TakeAck? || a.BeginBroadcast? || a.TestLoop? || a.TestInSignal? {
      SignallerStep(s, t, a);
    } else {
      WaiterStep(s, t, a);
    }
  }

  // ----- every run

  ghost predicate Runs(s: State, steps: seq<(nat, Action)>, s': State)
    decreases |steps|
  {
    if steps == [] then s' == s
    else Enabled(s, steps[0].0, steps[0].1) && Runs(Apply(s, steps[0].0, steps[0].1), steps[1..], s')
  }

  lemma {:induction false} RunInv(s: State, steps: seq<(nat, Action)>, s': State)
    requires Inv(s) && Runs(s, steps, s')
    ensures Inv(s')
    decreases |steps|
  {
    if steps != [] {
      StepKeeps(s, steps[0].0, steps[0].1);
      RunInv(Apply(s, steps[0].0, steps[0].1), steps[1..], s');
    }
  }

  /** No waiter wakes unsignalled: along every run, waits released and events posted differ by the one pending. */
  lemma NoSpuriousWakeup(threads: nat, steps: seq<(nat, Action)>, s: State)
    requires Runs(Init(threads), steps, s)
    ensures s.released <= s.posted <= s.released + 1
    ensures s.posted == s.released + 1 ==> s.event && Count(s, Waiting) > 0
  {
    InitInv(threads);
    RunInv(Init(threads), steps, s);
  }

  /** A signal that found waiters returns having released exactly one of them, who is through with the count. */
  lemma SignalReleasesOne(threads: nat, steps: seq<(nat, Action)>, s: State, t: nat)
    requires Runs(Init(threads), steps, s) && Enabled(s, t, TakeAck)
    ensures s.released == s.releasedAtPost + 1
    ensures s.waitCount == s.countAtPost - 1
    ensures !s.event && Count(s, Woken) == 0 && Count(s, Acking) == 0
  {
    InitInv(threads);
    RunInv(Init(threads), steps, s);
  }

  // ----- progress: who can move while a signal or a broadcast is under way

  ghost predicate Busy(s: State) {
    0 <= s.owner < |s.pcs| && (Signalling(s.pcs[s.owner]) || s.pcs[s.owner].Loop? || s.pcs[s.owner].Recheck?)
  }

  lemma Somewhere(s: State, pc: Pc) returns (t: nat)
    requires Count(s, pc) > 0
    ensures t < |s.pcs| && s.pcs[t] == pc
  {
    assert pc in s.pcs;
    t :| 0 <= t < |s.pcs| && s.pcs[t] == pc;
  }

  /** Never stuck: as long as a signal or broadcast has not returned, some thread can step. */
  lemma NeverStuck(s: State) returns (t: nat, a: Action)
    requires Inv(s) && Busy(s)
    ensures Enabled(s, t, a)
  {
    var pc := s.pcs[s.owner];
    if Awaiting(pc) && !s.ack {
      if s.event {
        t := Somewhere(s, Waiting);
        a := TakeEvent;
      } else if Count(s, Woken) > 0 {
        t := Somewhere(s, Woken);
        a := Uncount;
      } else {
        t := Somewhere(s, Acking);
        a := PostAck;
      }
    } else {
      t := s.owner;
      a := if pc.Posting? || pc.LoopPosting? then Post else if pc.Loop? then TestLoop
        else if pc.Recheck? then TestInSignal else TakeAck;
    }
  }

  /** Steps a signal or broadcast can still be away from returning: seven for each waiter, and its phase. */
  function Measure(s: State): int
    requires 0 <= s.owner < |s.pcs|
  {
    7 * s.waitCount +
    match s.pcs[s.owner]
    case Loop => 3
    case Recheck => 2
    case Posting => 1
    case LoopPosting => 1
    case _ => if s.event then 0 else if Count(s, Woken) > 0 then -1 else if Count(s, Acking) > 0 then 5 else 4
  }

  /** While a signal or broadcast is under way only its caller and the thread it releases can step. */
  lemma OnlyHandshakeMoves(s: State, t: nat, a: Action)
    requires Inv(s) && Busy(s) && Enabled(s, t, a)
    ensures t != s.owner ==> a.TakeEvent? || a.Uncount? || a.PostAck?
    ensures t == s.owner ==> a.Post? || a.TakeAck? || a.TestLoop? || a.TestInSignal?
  {
    assert Holds(s.pcs[t]) <==> t == s.owner;
  }

  lemma ReleasedCloser(s: State, t: nat, a: Action)
    requires Inv(s) && Busy(s) && Enabled(s, t, a) && (a.TakeEvent? || a.Uncount? || a.PostAck?)
    ensures Closer(s, Apply(s, t, a)) && Busy(Apply(s, t, a))
  {
    var s' := Apply(s, t, a);
    assert Holds(s.pcs[t]) <==> t == s.owner;
    assert s'.owner == s.owner && s'.pcs[s'.owner] == s.pcs[s.owner];
    CountMoves(s, s', t);
  }

  /** One step of its caller: the signal or broadcast comes closer to its end, or has returned. */
  ghost predicate Closer(s: State, s': State)
    requires 0 <= s.owner < |s.pcs| == |s'.pcs|
  {
    && s'.owner == s.owner
    && if Busy(s') then 0 <= Measure(s') < Measure(s) else s'.pcs[s'.owner] == In && Measure(s) > 0
  }

  lemma PostCloser(s: State, t: nat, a: Action)
    requires Inv(s) && Busy(s) && t == s.owner && Enabled(s, t, a) && a.Post?
    ensures Closer(s, Apply(s, t, a))
  {
    CountMoves(s, Apply(s, t, a), t);
  }

  lemma AckCloser(s: State, t: nat, a: Action)
    requires Inv(s) && Busy(s) && t == s.owner && Enabled(s, t, a) && a.TakeAck?
    ensures Closer(s, Apply(s, t, a))
  {
    CountMoves(s, Apply(s, t, a), t);
  }

  lemma TestCloser(s: State, t: nat, a: Action)
    requires Inv(s) && Busy(s) && t == s.owner && Enabled(s, t, a) && (a.TestLoop? || a.TestInSignal?)
    ensures Closer(s, Apply(s, t, a))
  {
    CountMoves(s, Apply(s, t, a), t);
  }

  lemma CallerCloser(s: State, t: nat, a: Action)
    requires Inv(s) && Busy(s) && t == s.owner && Enabled(s, t, a)
    requires a.Post? || a.TakeAck? || a.TestLoop? || a.TestInSignal?
    ensures Closer(s, Apply(s, t, a))
  {
    if a.Post? {
      PostCloser(s, t, a);
    } else if a.TakeAck? {
      AckCloser(s, t, a);
    } else {
      TestCloser(s, t, a);
    }
  }

  /** Whatever thread steps while a signal or broadcast is under way, its end comes closer or is reached. */
  lemma StepComesCloser(s: State, t: nat, a: Action)
    requires Inv(s) && Busy(s) && Enabled(s, t, a)
    ensures Closer(s, Apply(s, t, a))
  {
    OnlyHandshakeMoves(s, t, a);
    if t == s.owner {
      CallerCloser(s, t, a);
    } else {
      ReleasedCloser(s, t, a);
    }
  }

  /** A run along which the signal or broadcast under way never returns. */
  ghost predicate BusyThroughout(s: State, steps: seq<(nat, Action)>)
    decreases |steps|
  {
    && Busy(s)
    && (steps != [] ==>
         Enabled(s, steps[0].0, steps[0].1) && BusyThroughout(Apply(s, steps[0].0, steps[0].1), steps[1..]))
  }

  /** Termination: such a run is shorter than the measure at its start, whoever is scheduled. */
  lemma {:induction false} BroadcastEnds(s: State, steps: seq<(nat, Action)>)
    requires Inv(s) && BusyThroughout(s, steps)
    ensures |steps| < Measure(s)
    decreases |steps|
  {
    if steps == [] {
      var t, a := NeverStuck(s);
      StepComesCloser(s, t, a);
    } else {
      StepComesCloser(s, steps[0].0, steps[0].1);
      StepKeeps(s, steps[0].0, steps[0].1);
      BroadcastEnds(Apply(s, steps[0].0, steps[0].1), steps[1..]);
    }
  }

  /** When a broadcast returns, nobody is left waiting: every waiter present at its start has been released. */
  lemma BroadcastReleasesAll(threads: nat, steps: seq<(nat, Action)>, s: State, t: nat)
    requires Runs(Init(threads), steps, s) && Enabled(s, t, TestLoop) && Apply(s, t, TestLoop).pcs[t] == In
    ensures forall u :: 0 <= u < |s.pcs| ==> !s.pcs[u].Waiting? && !s.pcs[u].Woken? && !s.pcs[u].Unlocking?
    ensures s.posted == s.released
  {
    InitInv(threads);
    RunInv(Init(threads), steps, s);
    forall u | 0 <= u < |s.pcs| ensures !s.pcs[u].Waiting? && !s.pcs[u].Woken? && !s.pcs[u].Unlocking? {
      assert s.pcs[u] in s.pcs;
      assert multiset(s.pcs)[s.pcs[u]] > 0;
    }
  }
}
