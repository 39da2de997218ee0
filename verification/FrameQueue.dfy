/** The player's frame ring: methods of the queue, for one writer and one reader. */
module FrameQueue {
  import opened Wrappers

  datatype Frame = Frame(id: nat, serial: int)

  /** The slot k places after rindex. */
  function Wrapped(rindex: nat, k: nat, maxSize: nat): nat {
    if rindex + k < maxSize then rindex + k else rindex + k - maxSize
  }

  /** What the queue looks like to both threads: a slot holds a frame or has been unreferenced. */
  datatype Ring = Ring(
    slots: seq<Option<Frame>>,
    rindex: nat,
    windex: nat,
    size: int,
    keepLast: bool,
    shown: nat)
  {
    ghost predicate Valid() {
      |slots| > 0 && rindex < |slots| && windex < |slots| && shown <= 1 && (shown == 1 ==> keepLast)
    }

    /** frame_queue_peek: the next frame to show. */
    function PeekIndex(): nat
    {
      Wrapped(rindex, shown, |slots|)
    }

    function Remaining(): int {
      size - shown
    }

    /** The writer fills the slot at windex. */
    function Write(f: Frame): Ring
      requires windex < |slots|
    {
      this.(slots := slots[windex := Some(f)])
    }

    /** The unlocked half of a push. */
    function AdvanceWrite(): Ring {
      this.(windex := if windex + 1 == |slots| then 0 else windex + 1)
    }

    /** The first frame is kept while it is being shown; nothing else happens. */
    function ShowFirst(): Ring {
      this.(shown := 1)
    }

    predicate KeepsFirst() {
      keepLast && shown == 0
    }

    /** As many frames as `size` says, in the slots from rindex on. */
    ghost predicate Loaded() {
      && |slots| > 0 && rindex < |slots| && shown <= size <= |slots|
      && forall k :: 0 <= k < size ==> slots[Wrapped(rindex, k, |slots|)].Some?
    }

    /** The frames not yet shown, in order. */
    ghost function Unread(): (r: seq<Frame>)
      requires Loaded()
      ensures |r| == size - shown
    {
      seq(size - shown, k requires 0 <= k < size - shown => slots[Wrapped(rindex, shown + k, |slots|)].value)
    }

    /** frame_queue_next as a whole. */
    function AfterNext(): Ring
      requires rindex < |slots|
    {
      if KeepsFirst() then ShowFirst() else AdvanceRead().(size := size - 1)
    }

    /** The unlocked half of a next: drop the frame at rindex and move on. */
    function AdvanceRead(): Ring
      requires rindex < |slots|
    {
      this.(slots := slots[rindex := None], rindex := if rindex + 1 == |slots| then 0 else rindex + 1)
    }
  }

  /** Peeking and moving on takes the first unread frame; its slot survives if the ring keeps the last one. */
  lemma NextUnread(ring: Ring)
    requires ring.Valid() && ring.Loaded() && ring.Remaining() > 0
    ensures ring.Unread() != [] && ring.PeekIndex() < |ring.slots|
    ensures ring.slots[ring.PeekIndex()] == Some(ring.Unread()[0])
    ensures var next := ring.AfterNext();
      && next.Valid() && next.Loaded() && next.Unread() == ring.Unread()[1..]
      && (next.slots[ring.PeekIndex()] == Some(ring.Unread()[0]) <==> ring.keepLast)
  {
    var next := ring.AfterNext();
    if !ring.KeepsFirst() {
      forall k | 0 <= k < next.size ensures next.slots[Wrapped(next.rindex, k, |next.slots|)].Some?
        && next.slots[Wrapped(next.rindex, k, |next.slots|)] == ring.slots[Wrapped(ring.rindex, k + 1, |ring.slots|)]
      {
        assert ring.slots[Wrapped(ring.rindex, k + 1, |ring.slots|)].Some?;
      }
    }
    assert |next.Unread()| == |ring.Unread()| - 1;
    forall k | 0 <= k < |next.Unread()| ensures next.Unread()[k] == ring.Unread()[k + 1] {
    }
  }

  class FrameQueue {
    var queue: array<Option<Frame>>
    var rindex: nat
    var windex: nat
    var size: int
    var maxSize: nat
    var keepLast: bool
    var rindexShown: nat

    ghost predicate Valid()
      reads this, queue
    {
      queue.Length == maxSize && View().Valid()
    }

    ghost function View(): Ring
      reads this, queue
    {
      Ring(queue[..], rindex, windex, size, keepLast, rindexShown)
    }

    /** max_size is capped at FRAME_QUEUE_SIZE; a queue of size zero is never made. */
    constructor (size: nat, keepLast: bool)
      requires size > 0
      ensures Valid() && fresh(queue)
      ensures View() == Ring(seq(if size < 16 then size else 16, _ => None), 0, 0, 0, keepLast, 0)
    {
      var n := if size < 16 then size else 16;
      queue := new Option<Frame>[n](_ => None);
      rindex, windex, this.size, maxSize, rindexShown := 0, 0, 0, n, 0;
      this.keepLast := keepLast;
    }

    /** The slot to write to, unless the queue is full (the source then waits). */
    method PeekWritable() returns (slot: Option<nat>)
      requires Valid()
      ensures slot == if size >= maxSize then None else Some(windex)
    {
      slot := if size >= maxSize then None else Some(windex);
    }

    method Fill(slot: nat, f: Frame)
      requires Valid() && slot == windex
      modifies queue
      ensures Valid() && View() == old(View()).Write(f)
    {
      queue[slot] := Some(f);
    }

    method Push()
      requires Valid()
      modifies this
      ensures Valid() && queue == old(queue)
      ensures View() == old(View()).AdvanceWrite().(size := old(size) + 1)
    {
      windex := windex + 1;
      if windex == maxSize {
        windex := 0;
      }
      size := size + 1;
    }

    /** The slot of the next frame to show, unless there is none (the source then waits). */
    method PeekReadable() returns (slot: Option<nat>)
      requires Valid()
      ensures slot == if View().Remaining() <= 0 then None else Some(View().PeekIndex())
    {
      if size - rindexShown <= 0 {
        return None;
      }
      slot := Some(if rindex + rindexShown < maxSize then rindex + rindexShown else rindex + rindexShown - maxSize);
    }

    method Next()
      requires Valid()
      modifies this, queue
      ensures Valid() && queue == old(queue)
      ensures View() == old(View()).AfterNext() && maxSize == old(maxSize)
    {
      if keepLast && rindexShown == 0 {
        rindexShown := 1;
        return;
      }
      queue[rindex] := None;
      rindex := rindex + 1;
      if rindex == maxSize {
        rindex := 0;
      }
      size := size - 1;
    }

    /** Peek at the next frame and step over it: its slot still holds it exactly when the queue keeps the last frame. */
    method PeekNext() returns (found: Option<Frame>, slot: nat)
      requires Valid() && View().Loaded()
      modifies this, queue
      ensures Valid() && View().Loaded() && queue == old(queue) && keepLast == old(keepLast) && maxSize == old(maxSize)
      ensures var unread := old(View().Unread());
        if unread == [] then found.None? && View().Unread() == []
        else found == Some(unread[0]) && View().Unread() == unread[1..] && slot < maxSize && (queue[slot] == found <==> keepLast)
    {
      var r := PeekReadable();
      if r.None? {
        return None, 0;
      }
      slot := r.value;
      NextUnread(View());
      found := queue[slot];
      Next();
    }

    /**
     The dequeue loop of the audio callback: skip frames of other serials. The frame found has been stepped
     over, so its slot still holds it exactly when the queue keeps the last frame.
     */
    method NextOfSerial(serial: int) returns (found: Option<Frame>, slot: nat)
      requires Valid() && View().Loaded()
      modifies this, queue
      ensures Valid() && View().Loaded() && queue == old(queue) && keepLast == old(keepLast)
      ensures found.None? ==> View().Unread() == [] && forall f :: f in old(View().Unread()) ==> f.serial != serial
      ensures found.Some? ==>
        && found.value.serial == serial && slot < maxSize
        && (queue[slot] == found <==> keepLast)
        && var k := |old(View().Unread())| - |View().Unread()| - 1;
           && 0 <= k && old(View().Unread())[k] == found.value
           && View().Unread() == old(View().Unread())[k + 1..]
           && forall j :: 0 <= j < k ==> old(View().Unread())[j].serial != serial
    {
      ghost var all := View().Unread();
      ghost var k := 0;
      while true
        invariant Valid() && View().Loaded() && queue == old(queue) && keepLast == old(keepLast) && maxSize == old(maxSize)
        invariant k <= |all| && View().Unread() == all[k..]
        invariant forall j :: 0 <= j < k ==> all[j].serial != serial
        decreases |all| - k
      {
        found, slot := PeekNext();
        if found.None? {
          assert all == all[..k];
          return;
        }
        assert found.value == all[k];
        if found.value.serial == serial {
          return;
        }
        k := k + 1;
      }
    }
  }
}
