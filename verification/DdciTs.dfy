/** The transport stream on its way to the CAM and back (src/ddci.cpp:685-690, 1134-1286): pids are rewritten
    to DDCI pids, and returned packets are put back on the adapter they came from. */
module DdciTs {
  import opened Bytes
  import opened DdciMap

  const NULL_PID: nat := 0x1FFF
  const TS_SYNC: byte := 0x47

  /** One 188-byte transport packet. */
  type Packet = p: Data | |p| == 188 witness seq(188, _ => 0)

  function PidOf(p: Packet): (pid: nat)
    ensures pid < 0x2000
  {
    p[1] as int % 0x20 * 0x100 + p[2] as int
  }

  /** set_pid_ts: the low five bits of byte 1 and all of byte 2. */
  function SetPid(p: Packet, pid: int): Packet {
    var v := pid % 0x2000;
    p[1 := p[1] / 0x20 * 0x20 + v / 0x100][2 := v % 0x100]
  }

  lemma SetPidReplacesOnlyThePid(p: Packet, a: int, b: int)
    ensures PidOf(SetPid(p, a)) == a % 0x2000
    ensures SetPid(SetPid(p, a), b) == SetPid(p, b)
    ensures SetPid(p, PidOf(p)) == p
    ensures SetPid(p, a)[1] / 0x20 == p[1] / 0x20 && SetPid(p, a)[0] == p[0] && SetPid(p, a)[3..] == p[3..]
  {
    assert SetPid(SetPid(p, a), b) == SetPid(p, b);
  }

  // ----- the two lookup tables of one pass -----

  predicate Rewritten(t: Table, ad: nat, pid: nat) { Key(ad, pid) in t && t[Key(ad, pid)].rewrite }

  /** ad_dd_pids: 0 means the pid stays out of the CAM. */
  function ToCam(t: Table, ad: nat, pid: nat): int {
    if Rewritten(t, ad, pid) then t[Key(ad, pid)].ddciPid else 0
  }

  /** `pid` is what dd_ad_pids holds for q: 0 means the packet is not this adapter's. */
  ghost predicate IsFromCam(t: Table, ad: nat, q: nat, pid: nat) {
    if exists x :: Rewritten(t, ad, x) && t[Key(ad, x)].ddciPid == q
    then Rewritten(t, ad, pid) && t[Key(ad, pid)].ddciPid == q
    else pid == 0
  }

  /** No pid of the table was left without a DDCI pid. */
  ghost predicate NotExhausted(t: Table) { forall k :: k in t ==> t[k].ddciPid != -1 }

  /** The two arrays of ddci_process_ts, filled in one walk over the mapping. */
  method BuildLookups(t: Table, ad: nat) returns (adDd: array<int>, ddAd: array<nat>, count: nat)
    requires TableOk(t) && NotExhausted(t)
    ensures fresh(adDd) && fresh(ddAd) && adDd.Length == 8192 && ddAd.Length == 8192
    ensures forall pid :: 0 <= pid < 8192 ==> adDd[pid] == ToCam(t, ad, pid)
    ensures forall q :: 0 <= q < 8192 ==> IsFromCam(t, ad, q, ddAd[q])
    ensures count == 0 ==> forall x: nat :: !Rewritten(t, ad, x)
  {
    adDd := new int[8192](_ => 0);
    ddAd := new nat[8192](_ => 0);
    count := 0;
    var todo := t.Keys;
    ghost var done: set<Key> := {};
    while todo != {}
      invariant todo + done == t.Keys && todo !! done
      invariant forall pid :: 0 <= pid < 8192 ==> adDd[pid] == if Key(ad, pid) in done then ToCam(t, ad, pid) else 0
      invariant forall q :: 0 <= q < 8192 ==> FromCamSoFar(t, ad, done, q, ddAd[q])
      invariant count == 0 ==> forall k :: k in done && k.ad == ad ==> !t[k].rewrite
      decreases todo
    {
      var k :| k in todo;
      ghost var before := done;
      todo, done := todo - {k}, done + {k};
      if k.ad == ad && t[k].rewrite {
        adDd[k.pid] := t[k].ddciPid;
        ddAd[t[k].ddciPid] := k.pid;
        count := count + 1;
      }
      FromCamStep(t, ad, before, k);
    }
  }

  ghost predicate FromCamSoFar(t: Table, ad: nat, done: set<Key>, q: nat, pid: nat)
    requires done <= t.Keys
  {
    if exists x :: Key(ad, x) in done && t[Key(ad, x)].rewrite && t[Key(ad, x)].ddciPid == q
    then Key(ad, pid) in done && t[Key(ad, pid)].rewrite && t[Key(ad, pid)].ddciPid == q
    else pid == 0
  }

  lemma FromCamStep(t: Table, ad: nat, done: set<Key>, k: Key)
    requires TableOk(t) && NotExhausted(t) && done <= t.Keys && k in t && k !in done
    ensures forall q, pid | q != t[k].ddciPid || !(k.ad == ad && t[k].rewrite) ::
              FromCamSoFar(t, ad, done, q, pid) ==> FromCamSoFar(t, ad, done + {k}, q, pid)
    ensures k.ad == ad && t[k].rewrite ==> FromCamSoFar(t, ad, done + {k}, t[k].ddciPid, k.pid)
  {
  }

  // ----- there and back -----

  /** A packet sent to the CAM and returned with its header is this adapter's again, with its own pid and
      every other byte as returned; unless its pid is 0, which the lookup cannot tell from "not mapped". */
  lemma ReturnsToItsAdapter(t: Table, ad: nat, p: Packet, returned: Packet, pid: nat)
    requires TableOk(t) && NotExhausted(t) && Rewritten(t, ad, PidOf(p))
    requires PidOf(returned) == PidOf(SetPid(p, ToCam(t, ad, PidOf(p)))) && IsFromCam(t, ad, PidOf(returned), pid)
    ensures pid == PidOf(p)
    ensures pid != 0 <==> PidOf(p) != 0
    ensures PidOf(SetPid(returned, pid)) == PidOf(p)
    ensures SetPid(returned, pid)[1] / 0x20 == returned[1] / 0x20 && SetPid(returned, pid)[3..] == returned[3..]
    ensures returned == SetPid(p, ToCam(t, ad, PidOf(p))) ==> SetPid(returned, pid) == p
  {
    hide SetPid, PidOf;
    var q := ToCam(t, ad, PidOf(p));
    SetPidReplacesOnlyThePid(p, q, PidOf(p));
    SetPidReplacesOnlyThePid(p, PidOf(p), 0);
    assert PidOf(returned) == q;
    assert Rewritten(t, ad, PidOf(p)) && t[Key(ad, PidOf(p))].ddciPid == q;
    assert Key(ad, pid) == Key(ad, PidOf(p));
    SetPidReplacesOnlyThePid(returned, pid, 0);
  }

  /** No other adapter sharing the device takes it. */
  lemma NoOtherAdapterTakesIt(t: Table, ad: nat, other: nat, p: Packet, returned: Packet, pid: nat)
    requires TableOk(t) && NotExhausted(t) && Rewritten(t, ad, PidOf(p)) && other != ad
    requires PidOf(returned) == PidOf(SetPid(p, ToCam(t, ad, PidOf(p)))) && IsFromCam(t, other, PidOf(returned), pid)
    ensures pid == 0
  {
    hide SetPid, PidOf;
    var q := ToCam(t, ad, PidOf(p));
    SetPidReplacesOnlyThePid(p, q, 0);
    assert PidOf(returned) == q;
    if x :| Rewritten(t, other, x) && t[Key(other, x)].ddciPid == q {
      assert Key(other, x) == Key(ad, PidOf(p));
    }
  }

  // ----- every reachable mapping -----

  datatype MapOp = Put(s: Service) | Drop(ad: nat, pmt: int) | Cat(ad: nat, pids: seq<nat>, pmt: int)

  ghost function RunOps(ops: seq<MapOp>): Maps
    decreases |ops|
  {
    if ops == [] then Maps(map[], {}, {}, {})
    else
      var m := RunOps(ops[..|ops| - 1]);
      match ops[|ops| - 1]
      case Put(s) => ProcessPmt(m, s)
      case Drop(ad, pmt) => DelPmt(m, ad, pmt)
      case Cat(ad, pids, pmt) => ProcessCat(m, ad, pids, pmt)
  }

  /** Over every run of PMT adds, updates, removals and CATs, valid DDCI pids stay unique across adapters and
      the subscriptions match the entries. */
  lemma {:induction false} RunOpsKeepsInv(ops: seq<MapOp>)
    ensures Inv(RunOps(ops))
    decreases |ops|
  {
    hide Inv;
    if ops == [] {
      EmptyIsInv();
    } else {
      var m := RunOps(ops[..|ops| - 1]);
      RunOpsKeepsInv(ops[..|ops| - 1]);
      match ops[|ops| - 1]
      case Put(s) =>
        MapServiceKeepsInv(m, s);
        DischargeKeepsInv(MapService(m, s), Dropped(MapService(m, s), s), s.id);
      case Drop(ad, pmt) =>
        var from := set k | k in m.table && k.ad == ad && k !in m.emm;
        DischargeKeepsInv(m, from, pmt);
        DropOrphanKeepsInv(Discharge(m, from, pmt), ad);
      case Cat(ad, pids, pmt) =>
        CatKeepsInv(m, ad, pids, pmt);
    }
  }

  lemma EmptyIsInv()
    ensures Inv(Maps(map[], {}, {}, {}))
  {
  }

  lemma CatKeepsInv(m: Maps, ad: nat, pids: seq<nat>, pmt: int)
    requires Inv(m)
    ensures Inv(ProcessCat(m, ad, pids, pmt))
  {
    var m1 := m.(emm := set k | k in m.emm && k.ad != ad);
    assert Inv(m1);
    AddEmmKeepsInv(m1, ad, pids, pmt);
  }

  // ----- putting returned packets back -----

  /** push_ts_to_adapter from slot i on: packets popped from the FIFO fill the free slots (null packets and
      those past the data); a packet that is not this adapter's leaves its slot free. The result is the
      buffer, the data length, the slot reached and what stays in the FIFO. */
  function Push(buf: seq<Packet>, rlen: nat, i: nat, fifo: seq<Packet>, back: seq<nat>): (seq<Packet>, nat, nat, seq<Packet>)
    requires |back| == 8192
    decreases |buf| - i, |fifo|
  {
    if i + 1 >= |buf| then (buf, rlen, i, fifo)
    else if i < rlen && PidOf(buf[i]) != NULL_PID then Push(buf, rlen, i + 1, fifo, back)
    else if fifo == [] then (buf, rlen, i, fifo)
    else if back[PidOf(fifo[0])] == 0 then Push(buf[i := SetPid(fifo[0], NULL_PID)], rlen, i, fifo[1..], back)
    else
      Push(buf[i := SetPid(fifo[0], back[PidOf(fifo[0])])], if i >= rlen then i + 1 else rlen, i + 1, fifo[1..], back)
  }

  method PushTsToAdapter(buf: array<Packet>, rlen: nat, fifo: seq<Packet>, back: seq<nat>)
    returns (length: nat, reached: nat, rest: seq<Packet>)
    requires |back| == 8192
    modifies buf
    ensures (buf[..], length, reached, rest) == Push(old(buf[..]), rlen, 0, fifo, back)
  {
    hide SetPid, PidOf;
    length, rest := rlen, fifo;
    var i := 0;
    while i + 1 < buf.Length
      invariant Push(old(buf[..]), rlen, 0, fifo, back) == Push(buf[..], length, i, rest, back)
      decreases buf.Length - i, |rest|
    {
      if i < length && PidOf(buf[i]) != NULL_PID {
        i := i + 1;
        continue;
      }
      if rest == [] { break; }
      ghost var was := buf[..];
      var p := rest[0];
      rest := rest[1..];
      var dpid := back[PidOf(p)];
      if dpid == 0 {
        buf[i] := SetPid(p, NULL_PID);
        assert buf[..] == was[i := SetPid(p, NULL_PID)];
        continue;
      }
      buf[i] := SetPid(p, dpid);
      assert buf[..] == was[i := SetPid(p, dpid)];
      if i >= length { length := i + 1; }
      i := i + 1;
    }
    reached := i;
  }

  /** The packets of this adapter among those popped, with their own pids. */
  function Restored(popped: seq<Packet>, back: seq<nat>): seq<Packet>
    requires |back| == 8192
  {
    if popped == [] then []
    else
      var dpid := back[PidOf(popped[0])];
      (if dpid == 0 then [] else [SetPid(popped[0], dpid)]) + Restored(popped[1..], back)
  }

  predicate IsFree(buf: seq<Packet>, rlen: nat, i: nat)
    requires i < |buf|
  {
    i >= rlen || PidOf(buf[i]) == NULL_PID
  }

  /** What `now` holds in the slots of [i, n) that were free in `was`. */
  function InFreeSlots(was: seq<Packet>, rlen: nat, now: seq<Packet>, i: nat, n: nat): seq<Packet>
    requires |now| == |was| && n <= |was|
    decreases n - i
  {
    if i >= n then []
    else (if IsFree(was, rlen, i) then [now[i]] else []) + InFreeSlots(was, rlen, now, i + 1, n)
  }

  /** Nothing is lost and nothing overwritten: the packets popped are a prefix of the FIFO, the ones of this
      adapter stand in order in the free slots passed, slots with data are untouched, and the pass stops only
      when the FIFO is empty or the buffer is full. The data ends where it did, or behind the last packet put
      back, and free slots of it that were not reached hold null packets. */
  lemma {:induction false} PushDeliversInOrder(buf: seq<Packet>, rlen: nat, i: nat, fifo: seq<Packet>, back: seq<nat>)
    requires |back| == 8192 && i < |buf| && i <= rlen
    ensures var (now, length, reached, rest) := Push(buf, rlen, i, fifo, back);
            && |now| == |buf| && i <= reached < |buf| && length == (if reached > rlen then reached else rlen)
            && (rest == [] || reached + 1 == |buf|)
            && (forall j :: reached <= j < length && j < |buf| && IsFree(buf, rlen, j) ==> PidOf(now[j]) == NULL_PID)
            && (forall j :: 0 <= j < |buf| && (j < i || (!IsFree(buf, rlen, j)) || j > reached) ==> now[j] == buf[j])
            && exists k :: 0 <= k <= |fifo| && rest == fifo[k..]
                           && InFreeSlots(buf, rlen, now, i, reached) == Restored(fifo[..k], back)
    decreases |buf| - i, |fifo|
  {
    hide SetPid, PidOf;
    if i + 1 >= |buf| {
      assert fifo[0..] == fifo && fifo[..0] == [];
    } else if i < rlen && PidOf(buf[i]) != NULL_PID {
      PushDeliversInOrder(buf, rlen, i + 1, fifo, back);
    } else if fifo == [] {
      assert fifo[0..] == fifo && fifo[..0] == [];
    } else {
      PopDelivers(buf, rlen, i, fifo, back);
    }
  }

  /** One popped packet. */
  lemma {:induction false} PopDelivers(buf: seq<Packet>, rlen: nat, i: nat, fifo: seq<Packet>, back: seq<nat>)
    requires |back| == 8192 && i + 1 < |buf| && i <= rlen && IsFree(buf, rlen, i) && fifo != []
    ensures var (now, length, reached, rest) := Push(buf, rlen, i, fifo, back);
            && |now| == |buf| && i <= reached < |buf| && length == (if reached > rlen then reached else rlen)
            && (rest == [] || reached + 1 == |buf|)
            && (forall j :: reached <= j < length && j < |buf| && IsFree(buf, rlen, j) ==> PidOf(now[j]) == NULL_PID)
            && (forall j :: 0 <= j < |buf| && (j < i || (!IsFree(buf, rlen, j)) || j > reached) ==> now[j] == buf[j])
            && exists k :: 0 <= k <= |fifo| && rest == fifo[k..]
                           && InFreeSlots(buf, rlen, now, i, reached) == Restored(fifo[..k], back)
    decreases |buf| - i, |fifo|, 0
  {
    hide SetPid, PidOf;
    var dpid := back[PidOf(fifo[0])];
    var (now, length, reached, rest) := Push(buf, rlen, i, fifo, back);
    var i1, rlen1 := if dpid == 0 then i else i + 1, if dpid != 0 && i >= rlen then i + 1 else rlen;
    var buf1 := buf[i := SetPid(fifo[0], if dpid == 0 then NULL_PID else dpid)];
    if dpid == 0 { SetPidReplacesOnlyThePid(fifo[0], NULL_PID, 0); }
    PushDeliversInOrder(buf1, rlen1, i1, fifo[1..], back);
    var k :| 0 <= k <= |fifo[1..]| && rest == fifo[1..][k..]
             && InFreeSlots(buf1, rlen1, now, i1, reached) == Restored(fifo[1..][..k], back);
    assert fifo[k + 1..] == fifo[1..][k..] && fifo[..k + 1][1..] == fifo[1..][..k];
    SameFreeSlots(buf, rlen, buf1, rlen1, now, i1, reached, i);
    assert Restored(fifo[..k + 1], back) == (if dpid == 0 then [] else [SetPid(fifo[0], dpid)]) + Restored(fifo[1..][..k], back);
  }

  /** Changing slot i, and the length to just behind it, leaves the same slots free behind it. */
  lemma {:induction false} SameFreeSlots(was: seq<Packet>, rlen: nat, was1: seq<Packet>, rlen1: nat, now: seq<Packet>,
                                         j: nat, n: nat, i: nat)
    requires |was| == |was1| == |now| && n <= |was| && i <= j && i < |was|
    requires forall x :: 0 <= x < |was| && x != i ==> was1[x] == was[x]
    requires rlen1 == rlen || (rlen <= i && rlen1 == i + 1)
    requires j == i ==> IsFree(was, rlen, i) && IsFree(was1, rlen1, i)
    ensures InFreeSlots(was1, rlen1, now, j, n) == InFreeSlots(was, rlen, now, j, n)
    decreases n - j
  {
    hide PidOf;
    if j < n { SameFreeSlots(was, rlen, was1, rlen1, now, j + 1, n, i); }
  }

  // ----- a whole pass -----

  /** A packet of the adapter that goes to the CAM. */
  predicate GoesOut(p: Packet, adDd: seq<int>)
    requires |adDd| == 8192
  {
    p[0] == TS_SYNC && adDd[PidOf(p)] != 0
  }

  function Outgoing(s: seq<Packet>, adDd: seq<int>): seq<Packet>
    requires |adDd| == 8192
  {
    if s == [] then []
    else
      var n := |s| - 1;
      Outgoing(s[..n], adDd) + if GoesOut(s[n], adDd) then [SetPid(s[n], adDd[PidOf(s[n])])] else []
  }

  /** The first half of ddci_process_ts: write the mapped packets under their DDCI pids and null their slots. */
  method SendToCam(buf: array<Packet>, rlen: nat, adDd: seq<int>) returns (written: seq<Packet>)
    requires |adDd| == 8192 && rlen <= buf.Length
    modifies buf
    ensures written == Outgoing(old(buf[..rlen]), adDd)
    ensures forall i :: 0 <= i < buf.Length ==>
              buf[i] == if i < rlen && old(buf[i])[0] == 0x47 && adDd[PidOf(old(buf[i]))] != 0
                        then SetPid(old(buf[i]), NULL_PID) else old(buf[i])
  {
    hide SetPid, PidOf;
    written := [];
    ghost var was := buf[..rlen];
    for i := 0 to rlen
      invariant written == Outgoing(was[..i], adDd)
      invariant forall j :: 0 <= j < i ==> buf[j] == if GoesOut(was[j], adDd) then SetPid(was[j], NULL_PID) else was[j]
      invariant forall j :: i <= j < buf.Length ==> buf[j] == old(buf[j])
    {
      assert was[..i + 1][..i] == was[..i] && was[i] == buf[i];
      if buf[i][0] != TS_SYNC { continue; }
      var dpid := adDd[PidOf(buf[i])];
      if dpid == 0 { continue; }
      SetPidReplacesOnlyThePid(buf[i], dpid, NULL_PID);
      written := written + [SetPid(buf[i], dpid)];
      buf[i] := SetPid(SetPid(buf[i], dpid), NULL_PID);
    }
    assert was[..rlen] == was;
  }

  lemma {:induction false} OutgoingConcat(a: seq<Packet>, b: seq<Packet>, adDd: seq<int>)
    requires |adDd| == 8192
    ensures Outgoing(a + b, adDd) == Outgoing(a, adDd) + Outgoing(b, adDd)
    decreases |b|
  {
    hide SetPid, PidOf, GoesOut;
    if b == [] {
      assert a + b == a;
    } else {
      var n := |b| - 1;
      OutgoingConcat(a, b[..n], adDd);
      assert (a + b)[..|a + b| - 1] == a + b[..n];
    }
  }

  /** What goes to the CAM, packet for packet: those with a sync byte whose pid is mapped on the adapter for rewriting, to a
      DDCI pid other than 0, under that pid. */
  lemma MappedGoOut(t: Table, ad: nat, p: Packet, adDd: seq<int>)
    requires TableOk(t) && NotExhausted(t) && |adDd| == 8192
    requires forall pid :: 0 <= pid < 8192 ==> adDd[pid] == ToCam(t, ad, pid)
    ensures var k := Key(ad, PidOf(p));
            Outgoing([p], adDd) == if p[0] == 0x47 && k in t && t[k].rewrite && t[k].ddciPid != 0 then [SetPid(p, t[k].ddciPid)] else []
  {
    hide SetPid, PidOf;
    assert [p][..0] == [] && Outgoing([], adDd) == [];
    assert adDd[PidOf(p)] == ToCam(t, ad, PidOf(p));
  }

  /** The packets of s the CAM gives back: all that went out, except pid 0. */
  function ComesBack(s: seq<Packet>, adDd: seq<int>): seq<Packet>
    requires |adDd| == 8192
  {
    if s == [] then []
    else
      var n := |s| - 1;
      ComesBack(s[..n], adDd) + if GoesOut(s[n], adDd) && PidOf(s[n]) != 0 then [s[n]] else []
  }

  lemma {:induction false} RestoredSnoc(popped: seq<Packet>, p: Packet, back: seq<nat>)
    requires |back| == 8192
    ensures Restored(popped + [p], back)
            == Restored(popped, back) + if back[PidOf(p)] == 0 then [] else [SetPid(p, back[PidOf(p)])]
  {
    hide SetPid, PidOf;
    if popped == [] {
      assert [p][1..] == [] && [] + [p] == [p];
    } else {
      RestoredSnoc(popped[1..], p, back);
      assert (popped + [p])[1..] == popped[1..] + [p];
    }
  }

  /** When the CAM returns what was written, the adapter gets its own packets back, bit for bit and in order. */
  lemma {:induction false} PassRestoresPackets(t: Table, ad: nat, s: seq<Packet>, adDd: seq<int>, back: seq<nat>)
    requires TableOk(t) && NotExhausted(t) && |adDd| == 8192 && |back| == 8192
    requires forall pid :: 0 <= pid < 8192 ==> adDd[pid] == ToCam(t, ad, pid)
    requires forall q :: 0 <= q < 8192 ==> IsFromCam(t, ad, q, back[q])
    ensures Restored(Outgoing(s, adDd), back) == ComesBack(s, adDd)
  {
    hide SetPid, PidOf, TableOk, NotExhausted, IsFromCam;
    if s != [] {
      var n := |s| - 1;
      PassRestoresPackets(t, ad, s[..n], adDd, back);
      var p := s[n];
      if GoesOut(p, adDd) {
        var out := SetPid(p, adDd[PidOf(p)]);
        RestoredSnoc(Outgoing(s[..n], adDd), out, back);
        assert adDd[PidOf(p)] == ToCam(t, ad, PidOf(p));
        ReturnsToItsAdapter(t, ad, p, out, back[PidOf(out)]);
      } else {
        assert Outgoing(s[..n], adDd) + [] == Outgoing(s[..n], adDd);
      }
    }
  }
}
