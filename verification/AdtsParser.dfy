/**
 The incremental splitter: the parser's combine buffer with its overread bytes, one call of the AAC
 parser, and a caller that re-feeds what was not consumed.
 */
module AdtsParser {
  import opened Wrappers
  import opened AdtsStream

  /** Result of one parser call: the unit it completed, if any, and the index it returns. */
  datatype Step = Step(unit: Option<seq<Byte>>, index: int)

  function Min(a: int, b: int): int {
    if a < b then a else b
  }

  class Parser {
    var remainingSize: nat
    var state: State
    // the combine buffer: index bytes collected so far, or overread bytes to move to its front first
    var buffer: seq<Byte>
    var index: nat
    var overread: nat
    var overreadIndex: nat

    ghost predicate Valid()
      reads this
    {
      && index <= |buffer|
      && (overread > 0 ==> index == 0 && 0 < overreadIndex && overreadIndex + overread <= |buffer|)
    }

    /** Bytes taken from the stream but not yet part of a unit. */
    ghost function Pending(): seq<Byte>
      requires Valid()
      reads this
    {
      if overread > 0 then buffer[overreadIndex..overreadIndex + overread] else buffer[..index]
    }

    ghost function Now(): Waiting
      requires Valid()
      reads this
    {
      Waiting(Pending(), remainingSize, state)
    }

    constructor ()
      ensures Valid() && Pending() == [] && remainingSize == 0 && state == RESET
    {
      remainingSize, state, buffer, index, overread, overreadIndex := 0, RESET, [], 0, 0, 0;
    }

    /** Move the overread bytes of the last unit to the front of the buffer. */
    method RestoreOverread()
      requires Valid()
      modifies `buffer, `index, `overread, `overreadIndex
      ensures Valid() && Pending() == old(Pending()) && overread == 0 && |Pending()| == index
    {
      ghost var kept := Pending();
      ghost var was := buffer;
      ghost var from := overreadIndex;
      if overread > 0 {
        while overread > 0
          invariant index + overread == |kept| && |buffer| == |was|
          invariant overreadIndex == from + index && 0 < from && from + |kept| <= |was|
          invariant buffer[..index] == kept[..index]
          invariant buffer[overreadIndex..from + |kept|] == kept[index..]
          decreases overread
        {
          assert buffer[overreadIndex] == buffer[overreadIndex..from + |kept|][0] == kept[index];
          var b := buffer[overreadIndex];
          ghost var tail := buffer[overreadIndex + 1..from + |kept|];
          assert tail == kept[index + 1..];
          buffer := buffer[index := b];
          assert buffer[overreadIndex + 1..from + |kept|] == tail;
          index := index + 1;
          overreadIndex := overreadIndex + 1;
          overread := overread - 1;
        }
      }
    }

    /** ff_combine_frame with a boundary inside buf, or before it when next is negative. */
    method CombineFrame(next: int, buf: seq<Byte>) returns (unit: seq<Byte>)
      requires Valid() && next <= |buf| && |Pending()| + next >= 0
      requires next < 0 ==> |Pending()| + next > 0
      modifies `buffer, `index, `overread, `overreadIndex
      ensures Valid()
      ensures next >= 0 ==> unit == old(Pending()) + buf[..next] && Pending() == [] && overread == 0
      ensures next < 0 ==>
        unit == old(Pending())[..|old(Pending())| + next] && Pending() == old(Pending())[|old(Pending())| + next..]
    {
      RestoreOverread();
      ghost var kept := Pending();
      overreadIndex := index + next;
      if index > 0 {
        buffer := buffer[..index] + (if next > 0 then buf[..next] else []);
        index := 0;
        unit := buffer[..overreadIndex];
      } else {
        unit := buf[..next];
      }
      if next < 0 {
        overread := -next;
        assert buffer == kept;
      }
    }

    /** ff_combine_frame without a boundary: keep everything. */
    method Append(buf: seq<Byte>)
      requires Valid()
      modifies `buffer, `index, `overread, `overreadIndex
      ensures Valid() && Pending() == old(Pending()) + buf && overread == 0
    {
      RestoreOverread();
      buffer := buffer[..index] + buf;
      index := index + |buf|;
    }

    /** Shift byte m into the state; len is zero unless that completes a header. */
    method ScanByte(b: Byte, ghost all: seq<Byte>, ghost m: nat, ghost n: nat) returns (len: nat)
      requires m < |all| && n == m + 1 && b == all[m]
      requires state == StateAfter(all[..m]) && NoHeaderIn(all, m)
      modifies `state
      ensures state == StateAfter(all[..n])
      ensures if len == 0 then NoHeaderIn(all, n) else HeaderEnds(all, n, len)
    {
      SyncSeesAnnounced(all, m);
      state := Shift(state, b);
      len := Sync(state);
      if len > 0 {
        HeaderEndsHere(all, n);
      }
    }

    /** Shift buf into the state until it is a header; len is zero when it never is. */
    method Scan(buf: seq<Byte>, ghost all: seq<Byte>, ghost from: nat) returns (i: nat, len: nat)
      requires from <= |all| && buf == all[from..]
      requires state == StateAfter(all[..from]) && NoHeaderIn(all, from)
      modifies `state
      ensures len == 0 ==> i == |buf| && state == StateAfter(all) && NoHeaderIn(all, |all|)
      ensures len > 0 ==> i < |buf| && HeaderEnds(all, from + i + 1, len)
    {
      i, len := 0, 0;
      ghost var m := from;
      while i < |buf|
        invariant i <= |buf| && len == 0 && m == from + i
        invariant state == StateAfter(all[..m]) && NoHeaderIn(all, m)
      {
        ghost var n := m + 1;
        len := ScanByte(buf[i], all, m, n);
        if len > 0 {
          return;
        }
        i := i + 1;
        m := n;
      }
      assert all[..|all|] == all;
    }

    /** Inside a frame the boundary is where the announced length ends. */
    method Body(buf: seq<Byte>) returns (r: Step)
      requires Valid() && remainingSize > 0
      modifies `buffer, `index, `overread, `overreadIndex, `remainingSize
      ensures Valid() && (remainingSize == 0 ==> overread == 0)
      ensures state == RESET ==> Outcome(r, Now()) == BodyOutcome(old(Pending()), old(remainingSize), buf)
    {
      if remainingSize <= |buf| {
        var i := remainingSize;
        remainingSize := 0;
        var unit := CombineFrame(i, buf);
        return Step(Some(unit), i);
      }
      Append(buf);
      remainingSize := (remainingSize - Min(remainingSize, |buf|)) as nat;
      return Step(None, |buf|);
    }

    /** Bytes before a header form a unit; a header that began in an earlier chunk is kept as overread. */
    method Leading(i: int, buf: seq<Byte>) returns (unit: seq<Byte>)
      requires Valid() && i <= |buf| && |Pending()| + i > 0
      modifies `buffer, `index, `overread, `overreadIndex
      ensures Valid() && unit == (old(Pending()) + buf)[..|old(Pending())| + i] && (i >= 0 ==> overread == 0)
      ensures Pending() == if i < 0 then old(Pending())[|old(Pending())| + i..] else []
    {
      ghost var p := Pending();
      unit := CombineFrame(i, buf);
      if i >= 0 {
        assert unit == (p + buf)[..|p| + i];
      } else {
        assert unit == (p + buf)[..|p| + i];
      }
    }

    /** Between units a header is searched; the bytes before it become a unit of their own. */
    method Search(buf: seq<Byte>) returns (r: Step)
      requires Valid() && remainingSize == 0 && overread == 0 && Searching(Pending(), state)
      modifies this
      ensures Valid() && (remainingSize == 0 ==> overread == 0)
      ensures Outcome(r, Now()) == SearchOutcome(old(Pending()), buf)
    {
      ghost var p := Pending();
      ghost var all := p + buf;
      SearchContinues(p, buf, state);
      var n, len := Scan(buf, all, |p|);
      if len == 0 {
        NothingFound(p, buf);
        Append(buf);
        return Step(None, |buf|);
      }
      r := Found(n - (HEADER_SIZE - 1), len, buf);
    }

    /** A header begins at index i of buf, or before it: either bytes lead up to it, or the frame starts right away. */
    method Found(i: int, len: nat, buf: seq<Byte>) returns (r: Step)
      requires Valid() && remainingSize == 0 && overread == 0 && i + HEADER_SIZE > 0
      requires |Pending()| + i >= 0 && HeaderEnds(Pending() + buf, |Pending()| + i + HEADER_SIZE, len)
      modifies this
      ensures Valid() && (remainingSize == 0 ==> overread == 0)
      ensures Outcome(r, Now()) == SearchOutcome(old(Pending()), buf)
    {
      ghost var p := Pending();
      state := RESET;
      remainingSize := len;
      if index + i > 0 {
        r := FoundLater(i, len, buf);
        return;
      }
      FrameOutcome(p, buf, len);
      remainingSize := (remainingSize + i) as nat;
      r := Body(buf);
    }

    /** Other bytes come before the header. */
    method FoundLater(i: int, len: nat, buf: seq<Byte>) returns (r: Step)
      requires Valid() && remainingSize == len && state == RESET && overread == 0 && i + HEADER_SIZE > 0
      requires |Pending()| + i > 0 && HeaderEnds(Pending() + buf, |Pending()| + i + HEADER_SIZE, len)
      modifies this
      ensures Valid() && (remainingSize == 0 ==> overread == 0)
      ensures Outcome(r, Now()) == SearchOutcome(old(Pending()), buf)
    {
      ghost var p := Pending();
      LeadingOutcome(p, buf, |p| + i, len);
      if i < 0 {
        remainingSize := (remainingSize + i) as nat;
      }
      var unit := Leading(i, buf);
      return Step(Some(unit), i);
    }

    /** One call of the parser. */
    method Parse(buf: seq<Byte>) returns (r: Step)
      requires Valid() && (remainingSize == 0 ==> overread == 0) && buf != []
      requires if remainingSize == 0 then Searching(Pending(), state) else state == RESET
      modifies this
      ensures Valid() && (remainingSize == 0 ==> overread == 0)
      ensures Outcome(r, Now()) ==
        if old(remainingSize) == 0 then SearchOutcome(old(Pending()), buf)
        else BodyOutcome(old(Pending()), old(remainingSize), buf)
    {
      if remainingSize == 0 {
        r := Search(buf);
      } else {
        r := Body(buf);
      }
    }

    /** A call with an empty buffer, at the end of the stream: whatever is pending becomes the last unit. */
    method Flush() returns (unit: seq<Byte>)
      requires Valid()
      modifies `buffer, `index, `overread, `overreadIndex
      ensures Valid() && unit == old(Pending()) && Pending() == []
    {
      unit := CombineFrame(0, []);
    }
  }

  /** No header ends within the first n bytes. */
  ghost predicate NoHeaderIn(s: seq<Byte>, n: nat)
    requires n <= |s|
  {
    forall k :: 1 <= k <= n ==> Announced(s, k) == 0
  }

  /** The first header of s ends after n bytes and announces len bytes. */
  ghost predicate HeaderEnds(s: seq<Byte>, n: nat, len: nat) {
    && HEADER_SIZE <= n <= |s| && len >= HEADER_SIZE
    && FirstSync(s, 1) == Some(n) && len == Announced(s, n)
  }

  lemma HeaderEndsHere(s: seq<Byte>, n: nat)
    requires 1 <= n <= |s| && NoHeaderIn(s, n - 1) && Announced(s, n) > 0
    ensures HeaderEnds(s, n, Announced(s, n))
  {
    FirstSyncIs(s, n);
  }

  /** No header has been seen since the last unit ended. */
  ghost predicate Searching(p: seq<Byte>, state: State) {
    state == StateAfter(p) && NoHeaderIn(p, |p|)
  }

  lemma SearchContinues(p: seq<Byte>, buf: seq<Byte>, state: State)
    requires Searching(p, state)
    ensures state == StateAfter((p + buf)[..|p|])
    ensures NoHeaderIn(p + buf, |p|)
  {
    assert (p + buf)[..|p|] == p;
    forall k | 1 <= k <= |p| ensures Announced(p + buf, k) == 0 {
      assert Announced(p, k) == 0;
    }
  }

  /** A parser between calls: bytes pending, bytes of the current frame to come, scanning state. */
  datatype Waiting = Waiting(pending: seq<Byte>, remaining: nat, state: State)

  datatype Outcome = Outcome(step: Step, after: Waiting)

  /** With `remaining` bytes of a frame to come: complete it, or keep everything and count down. */
  function BodyOutcome(p: seq<Byte>, remaining: nat, buf: seq<Byte>): Outcome {
    if remaining <= |buf|
    then Outcome(Step(Some(p + buf[..remaining]), remaining), Waiting([], 0, RESET))
    else Outcome(Step(None, |buf|), Waiting(p + buf, remaining - |buf|, RESET))
  }

  /** Searching: a header after other bytes, a header at the start of the pending bytes, or none yet. */
  function SearchOutcome(p: seq<Byte>, buf: seq<Byte>): Outcome {
    var all := p + buf;
    var found := FirstSync(all, 1);
    if found.None? then Outcome(Step(None, |buf|), Waiting(all, 0, StateAfter(all)))
    else
      var len := Announced(all, found.value);
      var start := found.value - HEADER_SIZE;
      if start > 0 then
        Outcome(Step(Some(all[..start]), start - |p|),
                if start < |p| then Waiting(p[start..], if len > |p| - start then len - (|p| - start) else 0, RESET)
                else Waiting([], len, RESET))
      else BodyOutcome(p, if len > |p| then len - |p| else 0, buf)
  }

  lemma LeadingOutcome(p: seq<Byte>, buf: seq<Byte>, start: nat, len: nat)
    requires start > 0 && HeaderEnds(p + buf, start + HEADER_SIZE, len) && start + HEADER_SIZE > |p|
    ensures SearchOutcome(p, buf) == Outcome(Step(Some((p + buf)[..start]), start - |p|),
      if start < |p| then Waiting(p[start..], len - (|p| - start), RESET) else Waiting([], len, RESET))
  {
  }

  lemma FrameOutcome(p: seq<Byte>, buf: seq<Byte>, len: nat)
    requires HeaderEnds(p + buf, HEADER_SIZE, len) && len > |p|
    ensures SearchOutcome(p, buf) == BodyOutcome(p, len - |p|, buf)
  {
  }

  lemma NothingFound(p: seq<Byte>, buf: seq<Byte>)
    requires NoHeaderIn(p + buf, |p + buf|)
    ensures SearchOutcome(p, buf) == Outcome(Step(None, |buf|), Waiting(p + buf, 0, StateAfter(p + buf)))
  {
  }
}
