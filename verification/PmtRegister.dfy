/** A received PMT, registered with a DDCI device (src/ddci.cpp:457-617): which of its pids get mapped, and what the CI
    adapter then sees. */
module PmtRegister {
  import opened Bytes
  import opened PmtData
  import opened DdciMap
  import opened PmtSection
  import opened PmtRoundTrip
  import opened PmtReparse

  function ServiceOf(id: int, ad: nat, pid: nat, content: PmtContent): Service {
    Service(id, ad, pid, seq(|content.cas|, i requires 0 <= i < |content.cas| => content.cas[i].pid),
            seq(|content.streams|, i requires 0 <= i < |content.streams| => content.streams[i].pid))
  }

  /** No pid the PMT needs was refused for want of a free one. */
  ghost predicate NotExhausted(m: Maps, s: Service) {
    forall pid :: Needs(s, pid) ==> (Key(s.ad, pid) in MapService(m, s).table && MapService(m, s).table[Key(s.ad, pid)].ddciPid != -1)
  }

  lemma ProcessKeepsInv(m: Maps, s: Service)
    requires Inv(m)
    ensures Inv(ProcessPmt(m, s))
  {
    hide Inv, MapService, Dropped, Discharge;
    MapServiceKeepsInv(m, s);
    DischargeKeepsInv(MapService(m, s), Dropped(MapService(m, s), s), s.id);
  }

  lemma NeededIsMapped(m: Maps, s: Service, pid: nat)
    requires NotExhausted(m, s) && Needs(s, pid)
    ensures IsMapped(ProcessPmt(m, s).table, s.ad, pid)
  {
  }

  // ----- pids the PMT does not need -----

  predicate IsMandatory(pid: nat) { pid == 1 || pid == 20 }

  /** A pid mapped before that stays: as an EMM pid, or because the PMT was not its only user. Pids 1 and 20 always
      stay. */
  predicate StaysMapped(m: Maps, s: Service, pid: nat) {
    if IsMandatory(pid) then IsMapped(MapService(m, s).table, s.ad, pid)
    else IsMapped(m.table, s.ad, pid) && (Key(s.ad, pid) in m.emm || m.table[Key(s.ad, pid)].users != {s.id})
  }

  ghost predicate SameAt(m: Maps, r: Maps, k: Key) {
    r.emm == m.emm && (k in r.table <==> k in m.table) && (k in m.table ==> r.table[k] == m.table[k])
  }

  lemma {:induction false} AddAllSpares(m: Maps, ad: nat, pids: seq<nat>, pmt: int, force: bool, k: Key)
    requires k.ad == ad && k.pid !in pids
    ensures SameAt(m, AddAll(m, ad, pids, pmt, force), k)
    decreases |pids|
  {
    hide FindDdciPid;
    if pids != [] {
      AddAllSpares(m, ad, pids[..|pids| - 1], pmt, force, k);
      assert pids[|pids| - 1] in pids;
    }
  }

  lemma MapServiceSpares(m: Maps, s: Service, pid: nat)
    requires !Needs(s, pid) && !IsMandatory(pid)
    ensures SameAt(m, MapService(m, s), Key(s.ad, pid))
  {
    hide FindDdciPid, AddAll;
    var m0 := AddMandatory(AddMandatory(m, s.ad, 1, s.id), s.ad, 20, s.id);
    var m1 := NoRewrite(Add(m0, Key(s.ad, s.pid), s.id, false), Key(s.ad, s.pid));
    AddAllSpares(m1, s.ad, s.cas, s.id, true, Key(s.ad, pid));
    AddAllSpares(AddAll(m1, s.ad, s.cas, s.id, true), s.ad, s.streams, s.id, false, Key(s.ad, pid));
  }

  /** After a registration a pid the PMT does not need is mapped exactly when it stays from before. */
  lemma UnneededIsMappedIff(m: Maps, s: Service, pid: nat)
    requires !Needs(s, pid)
    ensures IsMapped(ProcessPmt(m, s).table, s.ad, pid) <==> StaysMapped(m, s, pid)
  {
    hide MapService;
    if !IsMandatory(pid) { MapServiceSpares(m, s, pid); }
  }

  // ----- the ECM pids of a parsed PMT -----

  /** Every ECM pid inside the streams' descriptors is needed by the PMT or stays mapped from before. */
  ghost predicate EcmsCovered(m: Maps, s: Service, content: PmtContent) {
    forall i, j :: 0 <= i < |content.streams| && 0 <= j < |content.streams[i].descriptors|
                   && IsFullCa(content.streams[i].descriptors[j]) ==>
                     var e := EcmPid(content.streams[i].descriptors[j]); Needs(s, e) || StaysMapped(m, s, e)
  }

  /** Registering a parsed PMT maps every pid it mentions, exactly when its ECM pids are covered. */
  lemma ProcessRegistersIff(m: Maps, id: int, ad: nat, pid: nat, content: PmtContent)
    requires Inv(m) && NotExhausted(m, ServiceOf(id, ad, pid, content))
    ensures var s := ServiceOf(id, ad, pid, content);
            Registered(ProcessPmt(m, s).table, ad, content.streams, content.cas) <==> EcmsCovered(m, s, content)
  {
    hide MapService, ProcessPmt, NotExhausted, IsMapped, TableOk, EcmPid, StaysMapped, Needs;
    var s := ServiceOf(id, ad, pid, content);
    var t := ProcessPmt(m, s).table;
    ProcessKeepsInv(m, s);
    forall i | 0 <= i < |content.cas| ensures IsMapped(t, ad, content.cas[i].pid) {
      NeedsCa(s, i);
      NeededIsMapped(m, s, content.cas[i].pid);
    }
    forall i | 0 <= i < |content.streams| ensures IsMapped(t, ad, content.streams[i].pid) {
      NeedsStream(s, i);
      NeededIsMapped(m, s, content.streams[i].pid);
    }
    forall i, j | 0 <= i < |content.streams| && 0 <= j < |content.streams[i].descriptors|
                  && IsFullCa(content.streams[i].descriptors[j])
      ensures var e := EcmPid(content.streams[i].descriptors[j]);
              IsMapped(t, ad, e) <==> Needs(s, e) || StaysMapped(m, s, e)
    {
      var e := EcmPid(content.streams[i].descriptors[j]);
      if Needs(s, e) { NeededIsMapped(m, s, e); } else { UnneededIsMappedIff(m, s, e); }
    }
  }

  lemma NeedsCa(s: Service, i: nat)
    requires i < |s.cas|
    ensures Needs(s, s.cas[i])
  {
  }

  lemma NeedsStream(s: Service, i: nat)
    requires i < |s.streams|
    ensures Needs(s, s.streams[i])
  {
  }

  /** Every CA descriptor inside the streams has its entry in the CA list. */
  ghost predicate NoneDropped(content: PmtContent) {
    forall i, j :: 0 <= i < |content.streams| && 0 <= j < |content.streams[i].descriptors|
                   && IsFullCa(content.streams[i].descriptors[j]) ==>
                     var d := content.streams[i].descriptors[j]; HasCa(content.cas, CaidOf(d), EcmPid(d))
  }

  /** A CA list that dropped nothing covers the ECM pids, whatever was mapped before; one below its limit dropped
      nothing. */
  lemma NothingDroppedIsCovered(m: Maps, id: int, ad: nat, pid: nat, content: PmtContent)
    ensures NoneDropped(content) ==> EcmsCovered(m, ServiceOf(id, ad, pid, content), content)
    ensures WellFormed(content.streams, content.cas) && |content.cas| < MAX_CAID ==> NoneDropped(content)
  {
    hide EcmPid, CaidOf, StaysMapped, Needs, StreamOk, CasOk;
    var s := ServiceOf(id, ad, pid, content);
    forall i, j | NoneDropped(content) && 0 <= i < |content.streams| && 0 <= j < |content.streams[i].descriptors|
                  && IsFullCa(content.streams[i].descriptors[j])
      ensures Needs(s, EcmPid(content.streams[i].descriptors[j]))
    {
      var d := content.streams[i].descriptors[j];
      var c: nat :| c < |content.cas| && content.cas[c].id == CaidOf(d) && content.cas[c].pid == EcmPid(d);
      NeedsCa(s, c);
    }
    if WellFormed(content.streams, content.cas) && |content.cas| < MAX_CAID { RoomDropsNothing(content); }
  }

  lemma RoomDropsNothing(content: PmtContent)
    requires WellFormed(content.streams, content.cas) && |content.cas| < MAX_CAID
    ensures NoneDropped(content)
  {
    hide EcmPid, CaidOf, StreamOk, CasOk, HasCa;
    forall i, j | 0 <= i < |content.streams| && 0 <= j < |content.streams[i].descriptors|
                  && IsFullCa(content.streams[i].descriptors[j])
      ensures var d := content.streams[i].descriptors[j]; HasCa(content.cas, CaidOf(d), EcmPid(d))
    {
      assert AllKnown(content.streams[i], content.cas) && Known(content.streams[i].descriptors[j], content.cas);
    }
  }

  /** A section received on the source adapter, registered in any reachable mapping with pids to spare and its ECM pids
      covered, is what the CI adapter parses from the regenerated section, every pid renamed by the mapping, and no
      stream added exactly when the slot's PCR pid is its own. */
  lemma CiSeesRenamedPmt(b: Data, m: Maps, id: int, ad: nat, pid: nat, ver: int, before: int, crc: Data)
    requires Inv(m) && -1 <= ver < 0x10 && -1 <= before < 0x2000
    requires var p := ParsePmt(b); var s := ServiceOf(id, ad, pid, p.content);
             !p.cut && NotExhausted(m, s) && EcmsCovered(m, s, p.content)
    requires var p := ParsePmt(b); var t := ProcessPmt(m, ServiceOf(id, ad, pid, p.content)).table;
             |Section(t, ad, p.sid, ver, SlotPcr(t, ad, p, before), p.content.cas, p.content.streams)| <= 0xFFF - 1
    ensures var p := ParsePmt(b); var t := ProcessPmt(m, ServiceOf(id, ad, pid, p.content)).table;
            var slotPcr := SlotPcr(t, ad, p, before);
            var q := ParsePmt(Section(t, ad, p.sid, ver, slotPcr, p.content.cas, p.content.streams) + crc);
            && !q.cut && q.sid == p.sid && q.version == ver % 0x20 && q.pcr == slotPcr % 0x2000
            && q.content.streams == RenameStreams(t, ad, p.content.streams) + ForeignPcr(t, ad, p.content.streams, slotPcr)
            && (q.content.streams == RenameStreams(t, ad, p.content.streams) <==> PcrIsOwn(t, ad, p, before))
            && q.content.cas == RenameCas(t, ad, p.content.cas)
  {
    hide ParsePmt, Registered, WellFormed, Section, Ddci, ProcessPmt, NotExhausted, Inv, ServiceOf, EcmsCovered, SlotPcr,
         PcrIsOwn, ForeignPcr;
    var p := ParsePmt(b);
    ProcessRegistersIff(m, id, ad, pid, p.content);
    ReparseIsRenaming(b, ProcessPmt(m, ServiceOf(id, ad, pid, p.content)).table, ad, ver, before, crc);
  }
}
