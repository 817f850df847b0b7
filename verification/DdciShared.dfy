/** Several adapters on one CAM (src/ddci.cpp:1134-1286): each finds its own packets again in the FIFO they share, among
    those of the others and whatever else the CAM passes on. */
module DdciShared {
  import opened DdciMap
  import opened DdciTs

  /** A packet in the FIFO: one an adapter sent, or another (PSI, a null packet). */
  datatype Sent = Stream(ad: nat, p: Packet) | Other(p: Packet)

  function OnWire(t: Table, x: Sent): Packet {
    match x
    case Stream(ad, p) => SetPid(p, ToCam(t, ad, PidOf(p)))
    case Other(p) => p
  }

  function AllOnWire(t: Table, xs: seq<Sent>): (r: seq<Packet>)
    ensures |r| == |xs| && forall i :: 0 <= i < |xs| ==> r[i] == OnWire(t, xs[i])
  {
    seq(|xs|, i requires 0 <= i < |xs| => OnWire(t, xs[i]))
  }

  /** An adapter sends what its lookup maps; nothing else carries a DDCI pid. */
  predicate Sendable(t: Table, x: Sent) {
    match x
    case Stream(ad, p) => ToCam(t, ad, PidOf(p)) != 0
    case Other(p) => forall k :: k in t && t[k].rewrite ==> t[k].ddciPid != PidOf(p)
  }

  ghost predicate AllSendable(t: Table, xs: seq<Sent>) { forall i :: 0 <= i < |xs| ==> Sendable(t, xs[i]) }

  /** The packets of one adapter, in order, except those of pid 0. */
  function OwnOf(xs: seq<Sent>, ad: nat): seq<Packet> {
    if xs == [] then []
    else (if xs[0].Stream? && xs[0].ad == ad && PidOf(xs[0].p) != 0 then [xs[0].p] else []) + OwnOf(xs[1..], ad)
  }

  /** dd_ad_pids of the adapter. */
  ghost predicate IsLookup(t: Table, ad: nat, back: seq<nat>) {
    |back| == 8192 && forall q :: 0 <= q < 8192 ==> IsFromCam(t, ad, q, back[q])
  }

  /** One packet of the FIFO, seen by one adapter. */
  lemma OneReturned(t: Table, ad: nat, x: Sent, back: seq<nat>)
    requires TableOk(t) && NotExhausted(t) && IsLookup(t, ad, back) && Sendable(t, x)
    ensures var q := OnWire(t, x);
            if x.Stream? && x.ad == ad && PidOf(x.p) != 0 then back[PidOf(q)] != 0 && SetPid(q, back[PidOf(q)]) == x.p
            else back[PidOf(q)] == 0
  {
    hide SetPid, PidOf, TableOk, NotExhausted;
    var q := OnWire(t, x);
    assert IsFromCam(t, ad, PidOf(q), back[PidOf(q)]);
    match x
    case Stream(from, p) =>
      if from == ad { ReturnsToItsAdapter(t, ad, p, q, back[PidOf(q)]); }
      else { NoOtherAdapterTakesIt(t, from, ad, p, q, back[PidOf(q)]); }
    case Other(p) =>
  }

  /** Whatever the interleaving in the FIFO, each adapter gets exactly its own packets back, bit for bit and in the order
      it sent them; of pid 0 it gets none. */
  lemma {:induction false} EachGetsItsOwn(t: Table, ad: nat, xs: seq<Sent>, back: seq<nat>)
    requires TableOk(t) && NotExhausted(t) && IsLookup(t, ad, back) && AllSendable(t, xs)
    ensures Restored(AllOnWire(t, xs), back) == OwnOf(xs, ad)
    decreases |xs|
  {
    hide SetPid, PidOf, TableOk, NotExhausted, IsLookup, Sendable, OnWire;
    LookupSize(t, ad, back);
    if xs != [] {
      EachGetsItsOwn(t, ad, xs[1..], back);
      assert Sendable(t, xs[0]);
      OneReturned(t, ad, xs[0], back);
      assert AllOnWire(t, xs)[1..] == AllOnWire(t, xs[1..]);
    }
  }

  lemma LookupSize(t: Table, ad: nat, back: seq<nat>)
    requires IsLookup(t, ad, back)
    ensures |back| == 8192
  {
  }

  lemma SplitFifo(t: Table, xs: seq<Sent>, k: nat)
    requires AllSendable(t, xs) && k <= |xs|
    ensures AllOnWire(t, xs)[..k] == AllOnWire(t, xs[..k]) && AllOnWire(t, xs)[k..] == AllOnWire(t, xs[k..])
    ensures AllSendable(t, xs[..k])
  {
    hide OnWire, Sendable;
  }

  /** The packets of the data that stand where there was none before. */
  function NewData(was: seq<Packet>, rlen: nat, now: seq<Packet>, length: nat): seq<Packet>
    requires |now| == |was| && length <= |was|
    decreases length
  {
    if length == 0 then []
    else
      var n := length - 1;
      NewData(was, rlen, now, n) + if IsFree(was, rlen, n) && PidOf(now[n]) != NULL_PID then [now[n]] else []
  }

  lemma {:induction false} FreeSlotsSnoc(was: seq<Packet>, rlen: nat, now: seq<Packet>, i: nat, n: nat)
    requires |now| == |was| && i <= n < |was|
    ensures InFreeSlots(was, rlen, now, i, n + 1)
            == InFreeSlots(was, rlen, now, i, n) + if IsFree(was, rlen, n) then [now[n]] else []
    decreases n - i
  {
    hide IsFree;
    if i < n { FreeSlotsSnoc(was, rlen, now, i + 1, n); }
  }

  /** The new data is what was put into the free slots, when none of it is a null packet and none follows. */
  lemma {:induction false} NewDataIs(was: seq<Packet>, rlen: nat, now: seq<Packet>, reached: nat, length: nat)
    requires |now| == |was| && reached <= length <= |was|
    requires forall x :: x in InFreeSlots(was, rlen, now, 0, reached) ==> PidOf(x) != NULL_PID
    requires forall j :: reached <= j < length && IsFree(was, rlen, j) ==> PidOf(now[j]) == NULL_PID
    ensures NewData(was, rlen, now, length) == InFreeSlots(was, rlen, now, 0, reached)
    decreases length
  {
    hide IsFree, PidOf;
    if length > 0 {
      if reached == length {
        FreeSlotsSnoc(was, rlen, now, 0, length - 1);
        assert forall x :: x in InFreeSlots(was, rlen, now, 0, length - 1) ==> x in InFreeSlots(was, rlen, now, 0, length);
        if IsFree(was, rlen, length - 1) {
          assert now[length - 1] in InFreeSlots(was, rlen, now, 0, length);
        }
        NewDataIs(was, rlen, now, length - 1, length - 1);
      } else {
        NewDataIs(was, rlen, now, reached, length - 1);
      }
    }
  }

  lemma {:induction false} OwnAreData(xs: seq<Sent>, ad: nat)
    requires forall i :: 0 <= i < |xs| && xs[i].Stream? ==> PidOf(xs[i].p) != NULL_PID
    ensures forall x :: x in OwnOf(xs, ad) ==> PidOf(x) != NULL_PID
  {
    hide PidOf;
    if xs != [] { OwnAreData(xs[1..], ad); }
  }

  /** Joined with the pass over the adapter's buffer: what it pops is a beginning of the FIFO, and the data the adapter
      reads afterwards is what it was, with its own packets of that beginning in the places of null packets and behind
      the end, in order. */
  lemma PassDeliversItsOwn(t: Table, ad: nat, xs: seq<Sent>, back: seq<nat>, buf: seq<Packet>, rlen: nat)
    requires TableOk(t) && NotExhausted(t) && IsLookup(t, ad, back) && AllSendable(t, xs) && rlen <= |buf| && buf != []
    requires forall i :: 0 <= i < |xs| && xs[i].Stream? ==> PidOf(xs[i].p) != NULL_PID
    ensures var (now, length, reached, rest) := Push(buf, rlen, 0, AllOnWire(t, xs), back);
            && |now| == |buf| && rlen <= length <= |buf| && (rest == [] || reached + 1 == |buf|)
            && (forall j :: 0 <= j < rlen && PidOf(buf[j]) != NULL_PID ==> now[j] == buf[j])
            && exists k :: 0 <= k <= |xs| && rest == AllOnWire(t, xs[k..])
                           && NewData(buf, rlen, now, length) == OwnOf(xs[..k], ad)
  {
    hide SetPid, PidOf, TableOk, NotExhausted, IsLookup, AllSendable, AllOnWire, Push, InFreeSlots, OwnOf, NewData, IsFree;
    LookupSize(t, ad, back);
    PushDeliversInOrder(buf, rlen, 0, AllOnWire(t, xs), back);
    var (now, length, reached, rest) := Push(buf, rlen, 0, AllOnWire(t, xs), back);
    var k := PassPops(t, ad, xs, back, buf, rlen);
    OwnAreData(xs[..k], ad);
    NewDataIs(buf, rlen, now, reached, length);
    DataIsNotFree(buf, rlen);
  }

  lemma PassPops(t: Table, ad: nat, xs: seq<Sent>, back: seq<nat>, buf: seq<Packet>, rlen: nat) returns (k: nat)
    requires TableOk(t) && NotExhausted(t) && IsLookup(t, ad, back) && |back| == 8192 && AllSendable(t, xs) && buf != []
    ensures var (now, length, reached, rest) := Push(buf, rlen, 0, AllOnWire(t, xs), back);
            && k <= |xs| && |now| == |buf| && reached < |buf|
            && rest == AllOnWire(t, xs[k..]) && InFreeSlots(buf, rlen, now, 0, reached) == OwnOf(xs[..k], ad)
  {
    hide SetPid, PidOf, TableOk, NotExhausted, IsLookup, AllSendable, AllOnWire, Push, InFreeSlots, Restored, OwnOf, IsFree;
    var fifo := AllOnWire(t, xs);
    PushDeliversInOrder(buf, rlen, 0, fifo, back);
    var (now, length, reached, rest) := Push(buf, rlen, 0, fifo, back);
    k :| 0 <= k <= |fifo| && rest == fifo[k..] && InFreeSlots(buf, rlen, now, 0, reached) == Restored(fifo[..k], back);
    SplitFifo(t, xs, k);
    EachGetsItsOwn(t, ad, xs[..k], back);
  }

  lemma DataIsNotFree(was: seq<Packet>, rlen: nat)
    requires rlen <= |was|
    ensures forall j :: 0 <= j < rlen && PidOf(was[j]) != NULL_PID ==> !IsFree(was, rlen, j)
  {
    hide PidOf;
  }

  // ----- pid 0 -----

  /** Pid 0 of two adapters, mapped in turn into an empty device: DDCI pids 0 and 1. */
  function PidZeroTwice(): Table {
    Add(Add(Maps(map[], {}, {}, {}), Key(0, 0), 1, true), Key(1, 0), 2, true).table
  }

  /** The second adapter's pid 0 goes to the CAM under pid 1 and does not come back; the first one's never goes. */
  lemma PidZeroIsLost(p: Packet, back: seq<nat>)
    requires PidOf(p) == 0 && p[0] == TS_SYNC && IsLookup(PidZeroTwice(), 1, back)
    ensures var t := PidZeroTwice();
            && TableOk(t) && NotExhausted(t) && ToCam(t, 0, 0) == 0 && ToCam(t, 1, 0) == 1
            && Sendable(t, Stream(1, p)) && Restored([OnWire(t, Stream(1, p))], back) == []
  {
    hide SetPid, PidOf, TableOk, NotExhausted, IsLookup;
    var t, x := PidZeroTwice(), Stream(1, p);
    PidZeroTwiceIs();
    LookupSize(t, 1, back);
    OneReturned(t, 1, x, back);
    assert [OnWire(t, x)][1..] == [];
  }

  lemma PidZeroTwiceIs()
    ensures var t := PidZeroTwice();
            && t.Keys == {Key(0, 0), Key(1, 0)} && t[Key(0, 0)].ddciPid == 0 && t[Key(1, 0)].ddciPid == 1
            && t[Key(0, 0)].rewrite && t[Key(1, 0)].rewrite && TableOk(t) && NotExhausted(t)
  {
    var t0: Table := map[];
    var t1 := WithEntry(t0, Key(0, 0));
    assert !InUse(t0, 0);
    assert t1[Key(0, 0)].ddciPid == 0;
    assert Key(0, 0) in t1 && InUse(t1, 0) && !InUse(t1, 1);
    var m1 := Add(Maps(map[], {}, {}, {}), Key(0, 0), 1, true);
    assert Key(0, 0) in m1.table && InUse(m1.table, 0) && !InUse(m1.table, 1);
    assert FindDdciPid(m1.table, 0) == 1;
  }
}
