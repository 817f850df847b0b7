/** The UDP receive path of the SAT>IP client (src/satipc.cpp:997-1155): several RTP datagrams scattered into
    one buffer in slots of fixed size, the unused ends of the slots then squeezed out in place. */
module Holes {
  import opened Bytes
  import opened Wrappers

  const DVB_FRAME: nat := 188
  const MAX_UDP_PACKET_SIZE: nat := 1316
  const RTP_HEADER: nat := 12
  const MAX_RTP_MSG: nat := 25
  const SYNC: byte := 0x47

  /** A datagram as the kernel scatters it: at most the header and one slot of payload. */
  type Datagram = d: Data | |d| <= RTP_HEADER + MAX_UDP_PACKET_SIZE

  /** Payload bytes that land in the slot. */
  function Body(d: Datagram): (r: Data)
    ensures |r| <= MAX_UDP_PACKET_SIZE
  {
    if |d| > RTP_HEADER then d[RTP_HEADER..] else []
  }

  /** The TS packets of a datagram: whole packets only, nothing while packets are ignored. */
  function Kept(d: Datagram, ignore: bool): (r: Data)
    ensures |r| <= MAX_UDP_PACKET_SIZE
  {
    if ignore then [] else Body(d)[..|Body(d)| / DVB_FRAME * DVB_FRAME]
  }

  function AllKept(ds: seq<Datagram>, ignore: bool): Data {
    if ds == [] then [] else Kept(ds[0], ignore) + AllKept(ds[1..], ignore)
  }

  /** Payload length the code accepts for a datagram: none of one that has no whole TS packet and does not even start
      like one, a keep-alive. */
  method AcceptedLength(d: Datagram, ignore: bool) returns (dlen: nat)
    ensures dlen / DVB_FRAME * DVB_FRAME == |Kept(d, ignore)|
    ensures dlen == if ignore || |d| <= 12 || (|d| < 200 && d[12] != 0x47) then 0 else |d| - 12
  {
    dlen := 0;
    if |d| > 0 {
      var n := |d| - RTP_HEADER;
      dlen := if n < 0 || n > MAX_UDP_PACKET_SIZE then 0 else n;
      if 0 < dlen < DVB_FRAME && d[RTP_HEADER] != SYNC {
        dlen := 0;
      }
      if ignore {
        dlen := 0;
      }
    }
  }

  /** Slot i of the buffer. */
  function SlotEnd(i: nat): nat { (i + 1) * MAX_UDP_PACKET_SIZE }

  function SlotStart(i: nat): nat { i * MAX_UDP_PACKET_SIZE }

  /** Every slot holds its datagram's payload, whatever follows it. */
  ghost predicate Scattered(b: Data, ds: seq<Datagram>) {
    && SlotStart(|ds|) <= |b|
    && forall i | 0 <= i < |ds| :: Holds(b, i, ds[i])
  }

  ghost predicate Holds(b: Data, i: nat, d: Datagram) {
    SlotStart(i) + |Body(d)| <= |b| && b[SlotStart(i)..SlotStart(i) + |Body(d)|] == Body(d)
  }

  /** The hole of a slot starts behind its kept packets; a full slot has none. */
  predicate IsHole(h: Option<nat>, i: nat, d: Datagram, ignore: bool) {
    match h
    case None => |Kept(d, ignore)| == MAX_UDP_PACKET_SIZE
    case Some(at) => at == SlotStart(i) + |Kept(d, ignore)|
  }

  /** Where the hole of each slot starts, if it has one. */
  method FindHoles(ds: seq<Datagram>, ignore: bool, holes: array<Option<nat>>) returns (rb: nat)
    requires |ds| <= holes.Length
    modifies holes
    ensures rb == SlotStart(|ds|)
    ensures forall i | 0 <= i < |ds| :: IsHole(holes[i], i, ds[i], ignore)
  {
    rb := 0;
    for i := 0 to |ds|
      invariant rb == SlotStart(i)
      invariant forall j | 0 <= j < i :: IsHole(holes[j], j, ds[j], ignore)
    {
      holes[i] := None;
      var dlen := AcceptedLength(ds[i], ignore);
      if dlen < MAX_UDP_PACKET_SIZE {
        holes[i] := Some(SlotStart(i) + DVB_FRAME * (dlen / DVB_FRAME));
      }
      rb := rb + MAX_UDP_PACKET_SIZE;
    }
  }

  lemma KeptInSlot(b: Data, i: nat, d: Datagram, ignore: bool)
    requires Holds(b, i, d)
    ensures SlotStart(i) + |Kept(d, ignore)| <= |b| && b[SlotStart(i)..SlotStart(i) + |Kept(d, ignore)|] == Kept(d, ignore)
  {
  }

  /** What is left when slot i's hole is closed. */
  method CloseHole(buf: array<byte>, i: nat, hole: nat, rb: nat)
    requires SlotStart(i) <= hole <= SlotEnd(i) <= rb <= buf.Length
    modifies buf
    ensures var n := rb - (SlotEnd(i) - hole);
            buf[..hole] == old(buf[..hole]) && buf[hole..n] == old(buf[SlotEnd(i)..rb])
  {
    MoveDown(buf, hole, SlotEnd(i), rb - SlotEnd(i));
  }

  /** Close the hole of slot i; only a last slot has nothing behind it to move. */
  method SqueezeSlot(buf: array<byte>, i: nat, d: Datagram, ignore: bool, hole: Option<nat>, last: bool, rb: nat) returns (n: nat)
    requires SlotEnd(i) <= rb <= buf.Length && (last ==> rb == SlotEnd(i))
    requires Holds(buf[..SlotEnd(i)], i, d) && IsHole(hole, i, d, ignore)
    modifies buf
    ensures SlotStart(i) <= n <= rb && buf[SlotStart(i)..n] == Kept(d, ignore) + old(buf[SlotEnd(i)..rb])
    ensures buf[..SlotStart(i)] == old(buf[..SlotStart(i)])
  {
    hide Kept, Body, Holds;
    ghost var start, kept := SlotStart(i), Kept(d, ignore);
    ghost var slots := buf[..SlotEnd(i)];
    KeptInSlot(slots, i, d, ignore);
    assert buf[start..start + |kept|] == kept by {
      assert |slots| == SlotEnd(i) && start + |kept| <= SlotEnd(i);
      assert forall k :: start <= k < start + |kept| ==> buf[k] == slots[k];
      assert slots[start..start + |kept|] == kept;
    }
    if hole.None? {
      assert buf[start..rb] == buf[start..SlotEnd(i)] + buf[SlotEnd(i)..rb];
      return rb;
    }
    ghost var front, tail := buf[..hole.value], buf[SlotEnd(i)..rb];
    n := rb - (SlotEnd(i) - hole.value);
    if !last {
      CloseHole(buf, i, hole.value, rb);
    }
    assert buf[..hole.value] == front;
    assert buf[..start] == front[..start] && buf[start..hole.value] == front[start..];
    assert buf[start..n] == buf[start..hole.value] + buf[hole.value..n];
  }

  /** Remove the holes from the last slot to the first. */
  method SqueezeHoles(buf: array<byte>, holes: array<Option<nat>>, ds: seq<Datagram>, ignore: bool) returns (rb: nat)
    requires Scattered(buf[..], ds) && |ds| <= holes.Length
    requires forall i | 0 <= i < |ds| :: IsHole(holes[i], i, ds[i], ignore)
    modifies buf
    ensures rb <= buf.Length && buf[..rb] == AllKept(ds, ignore)
  {
    hide Kept, Body, Holds, IsHole;
    ghost var start := buf[..];
    rb := SlotStart(|ds|);
    var i := |ds|;
    assert ds[|ds|..] == [];
    while i > 0
      invariant 0 <= i <= |ds| && SlotStart(i) <= rb <= buf.Length && (i == |ds| ==> rb == SlotStart(i))
      invariant buf[SlotStart(i)..rb] == AllKept(ds[i..], ignore)
      invariant buf[..SlotStart(i)] == start[..SlotStart(i)]
    {
      i := i - 1;
      assert ds[i..][0] == ds[i] && ds[i..][1..] == ds[i + 1..];
      HoldsInPrefix(start, i, ds[i]);
      ghost var front := buf[..SlotEnd(i)];
      rb := SqueezeSlot(buf, i, ds[i], ignore, holes[i], i + 1 == |ds|, rb);
      assert buf[..SlotStart(i)] == front[..SlotStart(i)];
    }
    assert ds[0..] == ds;
  }

  lemma HoldsInPrefix(b: Data, i: nat, d: Datagram)
    requires Holds(b, i, d) && SlotEnd(i) <= |b|
    ensures Holds(b[..SlotEnd(i)], i, d)
  {
  }

  /** What the kernel does with datagram i: its payload goes to slot i, the rest of the slot stays as it was. */
  method Scatter(buf: array<byte>, ds: seq<Datagram>)
    requires SlotStart(|ds|) <= buf.Length
    modifies buf
    ensures Scattered(buf[..], ds)
  {
    hide Body;
    for i := 0 to |ds|
      invariant forall j | 0 <= j < i :: Holds(buf[..], j, ds[j])
    {
      ghost var before := buf[..];
      Store(buf, SlotStart(i), Body(ds[i]));
      assert buf[..][SlotStart(i)..SlotStart(i) + |Body(ds[i])|] == buf[SlotStart(i)..SlotStart(i) + |Body(ds[i])|];
      forall j | 0 <= j < i ensures Holds(buf[..], j, ds[j]) {
        assert Holds(before, j, ds[j]);
        SamePrefixHolds(before, buf[..], SlotStart(i), j, ds[j]);
      }
    }
  }

  lemma SamePrefixHolds(a: Data, b: Data, n: nat, j: nat, d: Datagram)
    requires Holds(a, j, d) && n <= |a| == |b| && a[..n] == b[..n] && SlotEnd(j) <= n
    ensures Holds(b, j, d)
  {
    var lo, hi := SlotStart(j), SlotStart(j) + |Body(d)|;
    assert a[lo..hi] == a[..n][lo..hi] == b[..n][lo..hi] == b[lo..hi];
  }

  /** satipc_read, for the datagrams one call receives: the buffer then starts with the whole TS packets of
      every datagram, in order and without gaps. */
  method SatipcRead(buf: array<byte>, ds: seq<Datagram>, ignore: bool) returns (rb: nat)
    requires |ds| <= MAX_RTP_MSG && SlotStart(|ds|) <= buf.Length
    modifies buf
    ensures rb <= buf.Length && buf[..rb] == AllKept(ds, ignore)
  {
    Scatter(buf, ds);
    var holes := new Option<nat>[MAX_RTP_MSG](_ => None);
    rb := FindHoles(ds, ignore, holes);
    rb := SqueezeHoles(buf, holes, ds, ignore);
  }

  // ----- packets -----

  function Packets(b: Data): seq<Data> {
    if |b| < DVB_FRAME then [] else [b[..DVB_FRAME]] + Packets(b[DVB_FRAME..])
  }

  function AllPackets(ds: seq<Datagram>): seq<Data> {
    if ds == [] then [] else Packets(Body(ds[0])) + AllPackets(ds[1..])
  }

  lemma {:induction false} PacketsOfWhole(a: Data, b: Data)
    requires |a| % DVB_FRAME == 0
    ensures Packets(a + b) == Packets(a) + Packets(b)
    decreases |a|
  {
    if a == [] {
      assert a + b == b;
    } else {
      assert (a + b)[..DVB_FRAME] == a[..DVB_FRAME] && (a + b)[DVB_FRAME..] == a[DVB_FRAME..] + b;
      PacketsOfWhole(a[DVB_FRAME..], b);
    }
  }

  lemma {:induction false} PacketsOfTrimmed(b: Data)
    ensures Packets(b[..|b| / DVB_FRAME * DVB_FRAME]) == Packets(b)
    decreases |b|
  {
    if |b| >= DVB_FRAME {
      var t := b[..|b| / DVB_FRAME * DVB_FRAME];
      PacketsOfTrimmed(b[DVB_FRAME..]);
      assert t[..DVB_FRAME] == b[..DVB_FRAME];
      assert t[DVB_FRAME..] == b[DVB_FRAME..][..|b[DVB_FRAME..]| / DVB_FRAME * DVB_FRAME];
    }
  }

  /** Squeezing moves packet boundaries onto packet boundaries: cut into packets again, the buffer holds exactly
      the packets of all datagrams, in order. */
  lemma {:induction false} PacketsSurvive(ds: seq<Datagram>)
    ensures |AllKept(ds, false)| % DVB_FRAME == 0 && Packets(AllKept(ds, false)) == AllPackets(ds)
  {
    hide Packets, Body;
    if ds == [] {
      NoPackets();
    } else {
      PacketsSurvive(ds[1..]);
      PacketsOfTrimmed(Body(ds[0]));
      PacketsOfWhole(Kept(ds[0], false), AllKept(ds[1..], false));
    }
  }

  lemma NoPackets()
    ensures Packets([]) == []
  {
  }
}
