/**
 pthread_once: a flag tested first without and then with its mutex, for any number of threads; every atomic step is a
 step here. The initialisation routine is two steps, its start and its end.
 */
module Once {

  datatype Pc =
    | Outside      // before the call
    | Locking      // saw the flag clear, about to take the mutex
    | Testing      // holds the mutex, about to test again
    | Running      // inside the initialisation routine
    | Marking      // routine finished, flag not yet set
    | Leaving      // about to release the mutex
    | Returned

  datatype State = State(pcs: seq<Pc>, owner: int, done: bool, started: nat, finished: nat)

  datatype Action = Test | Take | TestAgain | Finish | Mark | Release

  predicate Enabled(s: State, t: nat, a: Action) {
    t < |s.pcs| &&
    match a
    case Test => s.pcs[t].Outside?
    case Take => s.pcs[t].Locking? && s.owner == -1
    case TestAgain => s.pcs[t].Testing?
    case Finish => s.pcs[t].Running?
    case Mark => s.pcs[t].Marking?
    case Release => s.pcs[t].Leaving?
  }

  function Goto(s: State, t: nat, pc: Pc): State
    requires t < |s.pcs|
  {
    s.(pcs := s.pcs[t := pc])
  }

  function Apply(s: State, t: nat, a: Action): State
    requires Enabled(s, t, a)
  {
    match a
    case Test => Goto(s, t, if s.done then Returned else Locking)
    case Take => Goto(s, t, Testing).(owner := t)
    case TestAgain => if s.done then Goto(s, t, Leaving) else Goto(s, t, Running).(started := s.started + 1)
    case Finish => Goto(s, t, Marking).(finished := s.finished + 1)
    case Mark => Goto(s, t, Leaving).(done := true)
    case Release => Goto(s, t, Returned).(owner := -1)
  }

  function Init(threads: nat): State {
    State(seq(threads, _ => Outside), -1, false, 0, 0)
  }

  predicate Holds(pc: Pc) {
    pc.Testing? || pc.Running? || pc.Marking? || pc.Leaving?
  }

  predicate OwnerIs(s: State, pc: Pc) {
    0 <= s.owner < |s.pcs| && s.pcs[s.owner] == pc
  }

  function Bit(b: bool): nat {
    if b then 1 else 0
  }

  ghost predicate Inv(s: State) {
    && -1 <= s.owner < |s.pcs|
    && (forall t :: 0 <= t < |s.pcs| ==> (Holds(s.pcs[t]) <==> t == s.owner))
    && s.started == Bit(s.done || OwnerIs(s, Running) || OwnerIs(s, Marking))
    && s.finished == Bit(s.done || OwnerIs(s, Marking))
    && (s.done ==> !OwnerIs(s, Running) && !OwnerIs(s, Marking))
    && (OwnerIs(s, Leaving) ==> s.done)
    && (forall t :: 0 <= t < |s.pcs| && s.pcs[t].Returned? ==> s.done)
  }

  ghost predicate Reaches(s: State, steps: seq<(nat, Action)>, s': State)
    decreases |steps|
  {
    if steps == [] then s' == s
    else Enabled(s, steps[0].0, steps[0].1) && Reaches(Apply(s, steps[0].0, steps[0].1), steps[1..], s')
  }

  lemma StepKeeps(s: State, t: nat, a: Action)
    requires Inv(s) && Enabled(s, t, a)
    ensures Inv(Apply(s, t, a))
  {
    assert Holds(s.pcs[t]) <==> t == s.owner;
  }

  lemma {:induction false} RunKeeps(s: State, steps: seq<(nat, Action)>, s': State)
    requires Inv(s) && Reaches(s, steps, s')
    ensures Inv(s')
    decreases |steps|
  {
    if steps != [] {
      StepKeeps(s, steps[0].0, steps[0].1);
      RunKeeps(Apply(s, steps[0].0, steps[0].1), steps[1..], s');
    }
  }

  /** On every run the routine starts at most once, and no caller returns before it has finished. */
  lemma RunsOnce(threads: nat, steps: seq<(nat, Action)>, s: State, t: nat)
    requires Reaches(Init(threads), steps, s)
    ensures s.started <= 1
    ensures t < |s.pcs| && s.pcs[t].Returned? ==> s.started == s.finished == 1
  {
    RunKeeps(Init(threads), steps, s);
  }

  /** Steps a thread still has to take. */
  function Left(pc: Pc): nat {
    match pc
    case Outside => 6
    case Locking => 5
    case Testing => 4
    case Running => 3
    case Marking => 2
    case Leaving => 1
    case Returned => 0
  }

  /** Steps all threads together still have to take. */
  function AllLeft(pcs: seq<Pc>): nat {
    if pcs == [] then 0 else AllLeft(pcs[..|pcs| - 1]) + Left(pcs[|pcs| - 1])
  }

  lemma {:induction false} AllLeftAt(pcs: seq<Pc>, t: nat, pc: Pc)
    requires t < |pcs|
    ensures AllLeft(pcs[t := pc]) + Left(pcs[t]) == AllLeft(pcs) + Left(pc)
  {
    var n := |pcs| - 1;
    if t < n {
      AllLeftAt(pcs[..n], t, pc);
      assert pcs[t := pc][..n] == pcs[..n][t := pc];
    } else {
      assert pcs[t := pc][..n] == pcs[..n];
    }
  }

  /** Whoever moves comes closer to returning. */
  lemma StepCloser(s: State, t: nat, a: Action)
    requires Enabled(s, t, a)
    ensures AllLeft(Apply(s, t, a).pcs) < AllLeft(s.pcs) && |Apply(s, t, a).pcs| == |s.pcs|
  {
    var pc := Apply(s, t, a).pcs[t];
    AllLeftAt(s.pcs, t, pc);
    assert Left(pc) < Left(s.pcs[t]);
  }

  lemma {:induction false} RunCloser(s: State, steps: seq<(nat, Action)>, s': State)
    requires Reaches(s, steps, s')
    ensures |steps| + AllLeft(s'.pcs) <= AllLeft(s.pcs) && |s'.pcs| == |s.pcs|
    decreases |steps|
  {
    if steps != [] {
      StepCloser(s, steps[0].0, steps[0].1);
      RunCloser(Apply(s, steps[0].0, steps[0].1), steps[1..], s');
    }
  }

  lemma {:induction false} AllOutside(pcs: seq<Pc>)
    requires forall t :: 0 <= t < |pcs| ==> pcs[t].Outside?
    ensures AllLeft(pcs) == 6 * |pcs|
  {
    if pcs != [] {
      AllOutside(pcs[..|pcs| - 1]);
    }
  }

  /** Until every caller has returned some thread can move. */
  lemma SomeoneMoves(s: State, waiting: nat) returns (t: nat, a: Action)
    requires Inv(s) && waiting < |s.pcs| && !s.pcs[waiting].Returned?
    ensures Enabled(s, t, a)
  {
    t := if s.owner == -1 then waiting else s.owner;
    assert Holds(s.pcs[t]) <==> t == s.owner;
    match s.pcs[t] {
      case Outside => a := Test;
      case Locking => a := Take;
      case Testing => a := TestAgain;
      case Running => a := Finish;
      case Marking => a := Mark;
      case Leaving => a := Release;
    }
  }

  /** Every run ends within six steps per thread, and where no thread can move every caller has returned. */
  lemma EveryoneReturns(threads: nat, steps: seq<(nat, Action)>, s: State)
    requires Reaches(Init(threads), steps, s)
    ensures |steps| <= 6 * threads && |s.pcs| == threads
    ensures (forall t, a :: !Enabled(s, t, a)) <==> forall t :: 0 <= t < threads ==> s.pcs[t].Returned?
  {
    RunCloser(Init(threads), steps, s);
    AllOutside(Init(threads).pcs);
    RunKeeps(Init(threads), steps, s);
    if t :| 0 <= t < threads && !s.pcs[t].Returned? {
      var mover, a := SomeoneMoves(s, t);
      assert Enabled(s, mover, a);
    }
  }
}
