/** A DDCI device as the code keeps it: the mapping and the channel slots, changed entry by entry
    (src/ddci.cpp:85-299, 511-683, 1464-1541), proved equal to module DdciMap. */
module Ddci {
  import opened DdciMap

  const MAX_CHANNELS_ON_CI: nat := 8

  // ----- channel slots -----

  function Occupied(slots: seq<int>): (n: nat)
    ensures n <= |slots|
  {
    if slots == [] then 0
    else Occupied(slots[..|slots| - 1]) + if slots[|slots| - 1] != NO_PMT then 1 else 0
  }

  lemma {:induction false} OccupiedAfterSet(slots: seq<int>, i: nat, id: int)
    requires i < |slots|
    ensures Occupied(slots[i := id]) + (if slots[i] != NO_PMT then 1 else 0) == Occupied(slots) + if id != NO_PMT then 1 else 0
  {
    var n := |slots| - 1;
    if i < n {
      OccupiedAfterSet(slots[..n], i, id);
      assert slots[i := id][..n] == slots[..n][i := id];
    } else {
      assert slots[i := id][..n] == slots[..n];
    }
  }

  ghost predicate DistinctSlots(slots: seq<int>) {
    forall i, j | 0 <= i < j < |slots| && slots[i] != NO_PMT :: slots[i] != slots[j]
  }

  /** Where PMT id is registered, or else the first free slot, or else |slots|. */
  ghost predicate IsSlotFor(slots: seq<int>, id: int, pos: nat) {
    && pos <= |slots|
    && (id in slots ==> pos < |slots| && slots[pos] == id)
    && (id !in slots ==> (pos < |slots| ==> slots[pos] == NO_PMT) && forall j :: 0 <= j < pos ==> slots[j] != NO_PMT)
  }

  datatype Result = Ok | Retry

  // ----- one removal step -----

  /** A table in which the entries of `done` have lost the charges of Discharge(m, from, pmt). */
  ghost function PartlyDischarged(t: Table, from: set<Key>, done: set<Key>, pmt: int): Table {
    map k | k in t :: if k in done && k in from then t[k].(users := t[k].users - {pmt}) else t[k]
  }

  ghost function GoneOf(t: Table, from: set<Key>, done: set<Key>, pmt: int): set<Key> {
    set k | k in t && k in done && k in from && t[k].users <= {pmt}
  }

  ghost function CiWithout(m: Maps, gone: set<Key>): set<int> {
    set q | q in m.onCi && !(exists k :: k in gone && k in m.table && m.table[k].ddciPid == q)
  }

  class DdciDevice {
    var mapping: Table
    var emmPids: set<Key>
    /** Pids marked with DDCI_SID on the CI adapter and on the source adapters. */
    var onCi: set<int>
    var onSource: set<Key>
    const slots: array<int>
    const pcrPid: array<int>
    var channels: nat
    var ver: nat
    var sdtVer: nat
    var tid: int
    var psiChanged: bool
    var catProcessed: bool

    ghost predicate Valid()
      reads this, slots
    {
      && slots.Length == pcrPid.Length == MAX_CHANNELS_ON_CI && slots != pcrPid
      && Inv(View()) && DistinctSlots(slots[..]) && channels == Occupied(slots[..])
    }

    function View(): Maps
      reads this
    {
      Maps(mapping, emmPids, onCi, onSource)
    }

    constructor ()
      ensures Valid() && mapping == map[] && emmPids == {} && channels == 0
    {
      mapping, emmPids, onCi, onSource := map[], {}, {}, {};
      slots := new int[MAX_CHANNELS_ON_CI](_ => NO_PMT);
      pcrPid := new int[MAX_CHANNELS_ON_CI](_ => -1);
      channels, ver, sdtVer, tid, psiChanged, catProcessed := 0, 0, 0, 0, false, false;
      new;
      NoneOccupied(slots[..]);
    }

    /** find_ddci_pid: the first pid from `pid` on that no entry uses. */
    method FindDdciPidFrom(pid: nat) returns (r: int)
      ensures r == FindDdciPid(mapping, pid)
    {
      if pid > MAX_PID { return -1; }
      var q := pid;
      while q < MAX_PID
        invariant pid <= q <= MAX_PID
        invariant FreeFrom(mapping, pid) == FreeFrom(mapping, q)
      {
        if !InUse(mapping, q) { return q; }
        q := q + 1;
      }
      return -1;
    }

    /** add_pid_mapping_table. */
    method AddPidMapping(k: Key, pmt: int, force: bool) returns (ddciPid: int)
      requires Inv(View())
      modifies this`mapping, this`onCi, this`onSource
      ensures View() == Add(old(View()), k, pmt, force) && Inv(View())
      ensures ddciPid == mapping[k].ddciPid
    {
      hide FreeFrom;
      AddKeepsInv(View(), k, pmt, force);
      if k !in mapping {
        var q := FindDdciPidFrom(k.pid);
        mapping := mapping[k := Mapping(q, true, {}, false)];
      }
      var e := mapping[k];
      ddciPid := e.ddciPid;
      if ddciPid == -1 || pmt in e.users { return; }
      var addPid := e.users == {};
      e := e.(users := e.users + {pmt});
      if addPid && force {
        e := e.(pidAdded := true);
        onSource := onSource + {k};
      }
      if addPid { onCi := onCi + {ddciPid}; }
      mapping := mapping[k := e];
    }

    method AddPids(ad: nat, pids: seq<nat>, pmt: int, force: bool)
      requires Inv(View())
      modifies this`mapping, this`onCi, this`onSource
      ensures View() == AddAll(old(View()), ad, pids, pmt, force) && Inv(View())
    {
      hide Inv, Add;
      for i := 0 to |pids|
        invariant Inv(View()) && View() == AddAll(old(View()), ad, pids[..i], pmt, force)
        invariant emmPids == old(emmPids)
      {
        assert pids[..i + 1][..i] == pids[..i];
        var q := AddPidMapping(Key(ad, pids[i]), pmt, force);
      }
      assert pids[..|pids|] == pids;
    }

    /** release_mapping_entry: give up the subscriptions of an entry. */
    method ReleaseEntry(k: Key, e: Mapping)
      modifies this`onCi, this`onSource
      ensures onCi == old(onCi) - {e.ddciPid}
      ensures onSource == if e.pidAdded then old(onSource) - {k} else old(onSource)
    {
      if e.ddciPid in onCi { onCi := onCi - {e.ddciPid}; }
      if e.pidAdded { onSource := onSource - {k}; }
    }

    /** The common loop of unmap_removed_pids and del_pmt_mapping_table: uncharge the PMT from the given
        entries, releasing those left without users, then erase them. */
    method Uncharge(from: set<Key>, pmt: int)
      requires from <= mapping.Keys
      modifies this`mapping, this`onCi, this`onSource
      ensures View() == Discharge(old(View()), from, pmt)
    {
      ghost var m := View();
      var todo, toDel := from, {};
      ghost var done: set<Key> := {};
      assert mapping == PartlyDischarged(m.table, from, done, pmt);
      while todo != {}
        invariant todo + done == from && todo !! done && emmPids == m.emm
        invariant mapping == PartlyDischarged(m.table, from, done, pmt)
        invariant toDel == GoneOf(m.table, from, done, pmt)
        invariant onCi == CiWithout(m, toDel)
        invariant onSource == set k | k in m.onSource && !(k in toDel && m.table[k].pidAdded)
        decreases todo
      {
        var k :| k in todo;
        ghost var before := done;
        todo, done := todo - {k}, done + {k};
        var e := mapping[k];
        assert e == m.table[k];
        mapping := mapping[k := e.(users := e.users - {pmt})];
        assert mapping == PartlyDischarged(m.table, from, done, pmt);
        if e.users - {pmt} != {} {
          assert GoneOf(m.table, from, done, pmt) == GoneOf(m.table, from, before, pmt);
          continue;
        }
        assert e.users <= {pmt} by { assert forall u :: u in e.users && u !in e.users - {pmt} ==> u in {pmt}; }
        ghost var gone := toDel;
        toDel := toDel + {k};
        assert toDel == GoneOf(m.table, from, done, pmt);
        ReleaseEntry(k, e);
        GoneOneMore(m, gone, k);
      }
      mapping := map k | k in mapping && k !in toDel :: mapping[k];
      assert done == from;
      assert mapping == Discharge(m, from, pmt).table;
    }

    /** unmap_removed_pids. */
    method UnmapRemovedPids(s: Service)
      modifies this`mapping, this`onCi, this`onSource
      ensures View() == UnmapRemoved(old(View()), s)
    {
      Uncharge(Dropped(View(), s), s.id);
    }

    /** drop_orphan_emm. */
    method DropOrphans(ad: nat)
      modifies this`mapping, this`onCi, this`onSource, this`emmPids, this`catProcessed
      ensures View() == DropOrphanEmm(old(View()), ad)
    {
      ghost var m := View();
      var pids := set k | k in emmPids && k.ad == ad;
      if exists k :: k in mapping && k.ad == ad && k !in emmPids { return; }
      ghost var r := DropOrphanEmm(m, ad);
      assert forall k :: k in m.table && k.ad == ad ==> k in pids;
      assert r.emm == m.emm - pids;
      if pids == {} {
        assert mapping == r.table && onCi == r.onCi && onSource == r.onSource && emmPids == r.emm;
        return;
      }
      emmPids := emmPids - pids;
      catProcessed := false;
      var todo := set k | k in pids && k in mapping;
      ghost var gone := todo;
      ghost var done: set<Key> := {};
      while todo != {}
        invariant todo + done == gone && todo !! done && mapping == m.table && emmPids == r.emm
        invariant onCi == CiWithout(m, done)
        invariant onSource == set k | k in m.onSource && !(k in done && m.table[k].pidAdded)
        decreases todo
      {
        var k :| k in todo;
        GoneOneMore(m, done, k);
        todo, done := todo - {k}, done + {k};
        ReleaseEntry(k, mapping[k]);
      }
      mapping := map k | k in mapping && k !in pids :: mapping[k];
      assert done == gone == set k | k in m.table && k.ad == ad;
      assert mapping == r.table && onCi == r.onCi && onSource == r.onSource && emmPids == r.emm;
    }

    /** del_pmt_mapping_table. */
    method DelPmtMapping(ad: nat, pmt: int)
      modifies this`mapping, this`onCi, this`onSource, this`emmPids, this`catProcessed
      ensures View() == DelPmt(old(View()), ad, pmt)
    {
      var from := set k | k in mapping && k.ad == ad && k !in emmPids;
      Uncharge(from, pmt);
      DropOrphans(ad);
    }

    /** The slot of a PMT: its own, or the first free one, or none. */
    method FindSlot(id: int) returns (pos: nat, registered: bool)
      requires Valid() && id != NO_PMT
      ensures IsSlotFor(slots[..], id, pos) && registered == (id in slots[..])
    {
      pos, registered := slots.Length, false;
      for i := 0 to slots.Length
        invariant !registered ==> pos == slots.Length && forall j :: 0 <= j < i ==> slots[j] != id
        invariant registered ==> pos < slots.Length && slots[pos] == id
      {
        if slots[i] == id { pos, registered := i, true; }
      }
      if registered {
        assert slots[..][pos] == id;
        return;
      }
      pos := 0;
      while pos < slots.Length
        invariant 0 <= pos <= slots.Length && forall j :: 0 <= j < pos ==> slots[j] != NO_PMT
      {
        if slots[pos] == NO_PMT { break; }
        pos := pos + 1;
      }
    }

    /** ddci_process_pmt on its chosen device: register the channel, map its pids and unmap dropped ones. */
    method DdciProcessPmt(s: Service, pcr: nat, transponder: int) returns (rc: Result)
      requires Valid() && s.id != NO_PMT
      modifies this, slots, pcrPid
      ensures Valid()
      ensures rc == Retry <==> s.id !in old(slots[..]) && NO_PMT !in old(slots[..])
      ensures rc == Retry ==> View() == old(View()) && slots[..] == old(slots[..]) && channels == old(channels)
      ensures rc == Ok ==> View() == ProcessPmt(old(View()), s)
                           && exists pos :: 0 <= pos < slots.Length && IsSlotFor(old(slots[..]), s.id, pos)
                                            && slots[..] == old(slots[..])[pos := s.id]
                                            && (pcr in s.streams ==>
                                                  pcrPid[pos] == SafeDdciPid(MapService(old(View()), s).table, s.ad, pcr))
                                            && (pcr !in s.streams ==> pcrPid[pos] == old(pcrPid[pos]))
    {
      var pos, registered := FindSlot(s.id);
      if pos == slots.Length { return Retry; }
      Register(pos, s.id, registered, transponder);
      MapPids(s, pos, pcr);
      ghost var mapped := View();
      DischargeKeepsInv(mapped, Dropped(mapped, s), s.id);
      UnmapRemovedPids(s);
      return Ok;
    }

    /** Put the PMT in its slot; only a new registration counts as a channel. */
    method Register(pos: nat, id: int, registered: bool, transponder: int)
      requires Valid() && id != NO_PMT && pos < slots.Length
      requires IsSlotFor(slots[..], id, pos) && registered == (id in slots[..])
      modifies this`ver, this`sdtVer, this`channels, this`tid, this`psiChanged, slots
      ensures Valid() && View() == old(View()) && slots[..] == old(slots[..])[pos := id]
    {
      hide Inv;
      OccupiedAfterSet(slots[..], pos, id);
      ghost var was := slots[..];
      slots[pos] := id;
      assert slots[..] == was[pos := id];
      ver, sdtVer := (ver + 1) % 0x10, (sdtVer + 1) % 0x10;
      if !registered {
        if channels == 0 { tid := transponder; }
        channels := channels + 1;
        psiChanged := true;
      }
    }

    /** The mapping calls of ddci_process_pmt. */
    method MapPids(s: Service, pos: nat, pcr: nat)
      requires Valid() && pos < slots.Length
      modifies this`mapping, this`onCi, this`onSource, this`catProcessed, pcrPid
      ensures Valid() && View() == MapService(old(View()), s)
      ensures pcr in s.streams ==> pcrPid[pos] == SafeDdciPid(mapping, s.ad, pcr)
      ensures pcr !in s.streams ==> pcrPid[pos] == old(pcrPid[pos])
    {
      hide Inv, Add, TableOk;
      MapServiceKeepsInv(View(), s);
      ghost var m := View();
      var q := -1;
      if Key(s.ad, 1) !in mapping {
        q := AddPidMapping(Key(s.ad, 1), s.id, true);
        catProcessed := false;
      }
      if Key(s.ad, 20) !in mapping {
        q := AddPidMapping(Key(s.ad, 20), s.id, true);
      }
      q := AddPidMapping(Key(s.ad, s.pid), s.id, false);
      NoRewriteKeepsInv(View(), Key(s.ad, s.pid));
      if Key(s.ad, s.pid) in mapping {
        mapping := mapping[Key(s.ad, s.pid) := mapping[Key(s.ad, s.pid)].(rewrite := false)];
      }
      AddPids(s.ad, s.cas, s.id, true);
      MapStreams(s, pos, pcr);
    }

    /** The stream loop, which also remembers the DDCI pid of the PCR. */
    method MapStreams(s: Service, pos: nat, pcr: nat)
      requires Inv(View()) && pos < pcrPid.Length
      modifies this`mapping, this`onCi, this`onSource, pcrPid
      ensures View() == AddAll(old(View()), s.ad, s.streams, s.id, false) && Inv(View())
      ensures pcr in s.streams ==> pcrPid[pos] == SafeDdciPid(mapping, s.ad, pcr)
      ensures pcr !in s.streams ==> pcrPid[pos] == old(pcrPid[pos])
    {
      hide Inv, Add;
      for i := 0 to |s.streams|
        invariant Inv(View()) && View() == AddAll(old(View()), s.ad, s.streams[..i], s.id, false)
        invariant pcr !in s.streams[..i] ==> pcrPid[pos] == old(pcrPid[pos])
        invariant pcr in s.streams[..i] ==> Key(s.ad, pcr) in mapping && pcrPid[pos] == SafeDdciPid(mapping, s.ad, pcr)
      {
        assert s.streams[..i + 1][..i] == s.streams[..i];
        AddCharges(View(), Key(s.ad, s.streams[i]), s.id, false);
        var q := AddPidMapping(Key(s.ad, s.streams[i]), s.id, false);
        if s.streams[i] == pcr { pcrPid[pos] := q; }
      }
      assert s.streams[..|s.streams|] == s.streams;
    }

    /** ddci_del_pmt on the device that holds the PMT, mapped or not. */
    method DdciDelPmt(ad: nat, pid: nat, id: int)
      requires Valid() && id != NO_PMT
      modifies this, slots
      ensures Valid() && id !in slots[..]
      ensures forall i :: 0 <= i < slots.Length ==> slots[i] == if old(slots[i]) == id then NO_PMT else old(slots[i])
      ensures View() == if Key(ad, pid) in old(mapping) then DelPmt(old(View()), ad, id) else old(View())
    {
      var mapped := Key(ad, pid) in mapping;
      if mapped { ver, sdtVer := (ver + 1) % 0x10, (sdtVer + 1) % 0x10; }
      FreeSlot(id, mapped);
      if mapped {
        ghost var m := View();
        var from := set k | k in m.table && k.ad == ad && k !in m.emm;
        DischargeKeepsInv(m, from, id);
        DropOrphanKeepsInv(Discharge(m, from, id), ad);
        DelPmtMapping(ad, id);
      }
    }

    /** Give up the slot of a PMT, with its place in the channel count. */
    method FreeSlot(id: int, mapped: bool)
      requires Valid() && id != NO_PMT
      modifies this`channels, this`psiChanged, this`ver, this`sdtVer, slots
      ensures Valid() && View() == old(View()) && id !in slots[..]
      ensures forall i :: 0 <= i < slots.Length ==> slots[i] == if old(slots[i]) == id then NO_PMT else old(slots[i])
    {
      hide Inv;
      var held := false;
      ghost var was := slots[..];
      for i := 0 to slots.Length
        invariant DistinctSlots(slots[..]) && id !in slots[..i]
        invariant forall j :: 0 <= j < i ==> slots[j] == if was[j] == id then NO_PMT else was[j]
        invariant forall j :: i <= j < slots.Length ==> slots[j] == was[j]
        invariant held ==> id !in slots[..]
        invariant channels == Occupied(slots[..]) + if held then 1 else 0
      {
        if slots[i] == id {
          OccupiedAfterSet(slots[..], i, NO_PMT);
          ghost var now := slots[..];
          slots[i] := NO_PMT;
          assert slots[..] == now[i := NO_PMT];
          held := true;
        }
      }
      if held {
        if channels > 0 { channels := channels - 1; }
        if !mapped { ver, sdtVer := (ver + 1) % 0x10, (sdtVer + 1) % 0x10; }
        psiChanged := true;
      }
    }

    /** ddci_process_cat: map the EMM pids of the CAT under the PMT of slot 0, all or none. */
    method DdciProcessCat(ad: nat, pids: seq<nat>)
      requires Valid()
      modifies this`mapping, this`onCi, this`onSource, this`emmPids, this`catProcessed
      ensures Valid()
      ensures View() == if old(catProcessed) then old(View()) else ProcessCat(old(View()), ad, pids, slots[0])
    {
      hide TableOk, Add;
      if catProcessed { return; }
      ghost var m := View();
      for i := 0 to |pids|
        invariant !catProcessed && forall j :: 0 <= j < i ==> !InUse(mapping, pids[j])
      {
        if InUse(mapping, pids[i]) {
          catProcessed := true;
          return;
        }
      }
      emmPids := set k | k in emmPids && k.ad != ad;
      ghost var start := View();
      for i := 0 to |pids|
        invariant Inv(View()) && View() == AddEmm(start, ad, pids[..i], slots[0])
      {
        assert pids[..i + 1][..i] == pids[..i];
        var q := AddPidMapping(Key(ad, pids[i]), slots[0], true);
        emmPids := emmPids + {Key(ad, pids[i])};
      }
      assert pids[..|pids|] == pids;
      catProcessed := true;
    }
  }

  lemma GoneOneMore(m: Maps, gone: set<Key>, k: Key)
    requires gone <= m.table.Keys && k in m.table
    ensures CiWithout(m, gone + {k}) == CiWithout(m, gone) - {m.table[k].ddciPid}
  {
  }

  lemma {:induction false} NoneOccupied(slots: seq<int>)
    requires forall i :: 0 <= i < |slots| ==> slots[i] == NO_PMT
    ensures Occupied(slots) == 0
  {
    if slots != [] { NoneOccupied(slots[..|slots| - 1]); }
  }
}
