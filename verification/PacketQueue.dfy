/** The player's packet queue: entries stamped with the serial that was current when they were put. */
module PacketQueue {

  /** A flush packet is recognised by identity, not by content. */
  datatype Packet = Packet(flush: bool, id: nat, size: nat, duration: int)

  datatype Entry = Entry(pkt: Packet, serial: int)

  datatype Queue = Queue(entries: seq<Entry>, serial: int, abort: bool)

  /** packet_queue_put_private: refused after an abort; a flush packet opens a new serial. */
  function Put(q: Queue, pkt: Packet): Queue {
    if q.abort then q
    else
      var serial := if pkt.flush then q.serial + 1 else q.serial;
      Queue(q.entries + [Entry(pkt, serial)], serial, q.abort)
  }

  function Cleared(q: Queue): Queue {
    q.(entries := [])
  }

  function TotalSize(entries: seq<Entry>, overhead: nat): nat {
    if entries == [] then 0
    else TotalSize(entries[..|entries| - 1], overhead) + entries[|entries| - 1].pkt.size + overhead
  }

  function TotalDuration(entries: seq<Entry>): int {
    if entries == [] then 0
    else TotalDuration(entries[..|entries| - 1]) + entries[|entries| - 1].pkt.duration
  }

  lemma {:induction false} TotalsFront(entries: seq<Entry>, overhead: nat)
    requires entries != []
    ensures TotalSize(entries, overhead) == entries[0].pkt.size + overhead + TotalSize(entries[1..], overhead)
    ensures TotalDuration(entries) == entries[0].pkt.duration + TotalDuration(entries[1..])
  {
    var n := |entries| - 1;
    if n > 0 {
      TotalsFront(entries[..n], overhead);
      assert entries[1..][..n - 1] == entries[..n][1..];
    } else {
      assert entries[1..] == [] && entries[..0] == [];
    }
  }

  datatype GetResult = Aborted | Empty | Got(entry: Entry)

  class PacketList {
    var entries: seq<Entry>   // first_pkt .. last_pkt
    var nbPackets: nat
    var size: nat
    var duration: int
    var abortRequest: bool
    var serial: int
    const overhead: nat       // bytes of one list node

    /** The counters are what the entries add up to. */
    ghost predicate Valid()
      reads this
    {
      && nbPackets == |entries|
      && size == TotalSize(entries, overhead)
      && duration == TotalDuration(entries)
    }

    ghost function View(): Queue
      reads this
    {
      Queue(entries, serial, abortRequest)
    }

    constructor (overhead: nat)
      ensures Valid() && View() == Queue([], 0, true) && this.overhead == overhead
    {
      entries, nbPackets, size, duration, abortRequest, serial := [], 0, 0, 0, true, 0;
      this.overhead := overhead;
    }

    method PutPacket(pkt: Packet) returns (ok: bool)
      requires Valid()
      modifies this
      ensures Valid() && ok == !old(abortRequest)
      ensures View() == Put(old(View()), pkt)
    {
      if abortRequest {
        return false;
      }
      if pkt.flush {
        serial := serial + 1;
      }
      var entry := Entry(pkt, serial);
      assert (entries + [entry])[..|entries|] == entries;
      entries := entries + [entry];
      nbPackets := nbPackets + 1;
      size := size + pkt.size + overhead;
      duration := duration + pkt.duration;
      ok := true;
    }

    method Flush()
      requires Valid()
      modifies this
      ensures Valid() && View() == Cleared(old(View()))
    {
      entries, nbPackets, size, duration := [], 0, 0, 0;
    }

    method Abort()
      requires Valid()
      modifies this
      ensures Valid() && View() == old(View()).(abort := true)
    {
      abortRequest := true;
    }

    method Start(flushPkt: Packet)
      requires Valid() && flushPkt.flush
      modifies this
      ensures Valid() && View() == Put(old(View()).(abort := false), flushPkt)
    {
      abortRequest := false;
      var ok := PutPacket(flushPkt);
    }

    /** The nonblocking get; a blocking one waits while this says Empty. */
    method Get() returns (r: GetResult)
      requires Valid()
      modifies this
      ensures Valid()
      ensures old(abortRequest) ==> r == Aborted && View() == old(View())
      ensures !old(abortRequest) && old(entries) == [] ==> r == Empty && View() == old(View())
      ensures !old(abortRequest) && old(entries) != [] ==>
        r == Got(old(entries)[0]) && View() == old(View()).(entries := old(entries)[1..])
    {
      if abortRequest {
        return Aborted;
      }
      if entries == [] {
        return Empty;
      }
      TotalsFront(entries, overhead);
      var entry := entries[0];
      entries := entries[1..];
      nbPackets := nbPackets - 1;
      size := size - (entry.pkt.size + overhead);
      duration := duration - entry.pkt.duration;
      r := Got(entry);
    }
  }
}
