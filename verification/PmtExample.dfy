/** Two PMTs whose registration does not end as one would expect: one with more ECM pids than the CA list holds, and one
    without a PCR in a slot that had one before. */
module PmtExample {
  import opened Bytes
  import opened PmtData
  import opened DdciMap
  import opened PmtSection
  import opened PmtRoundTrip
  import opened PmtReparse
  import opened PmtRegister

  // ----- 21 ECM pids -----

  const CAID: nat := 0x500
  const VIDEO: nat := 100

  function Ecm(k: nat): nat { 1000 + k }

  /** CAID 0x500 with ECM pid 1000 + k. */
  function EcmDescriptor(k: nat): (d: Descriptor)
    requires k <= MAX_CAID
    ensures IsFullCa(d) && |d.data| == d.len == 4 && EcmPid(d) == Ecm(k)
  {
    Descriptor(CA_TAG, 4, [5, 0, 3, 232 + k])
  }

  /** A video stream with 21 CA descriptors. */
  function Video(): StreamPid {
    StreamPid(27, VIDEO, false, true, seq(MAX_CAID + 1, k requires 0 <= k <= MAX_CAID => EcmDescriptor(k)))
  }

  /** The CA list holds the first 20 of them. */
  function Listed(): seq<CaEntry> { seq(MAX_CAID, k requires 0 <= k < MAX_CAID => CaEntry(CAID, Ecm(k), [])) }

  /** Every pid on its own number. */
  function Identity(): Table { map k | k in Keys() :: Mapping(k.pid, true, {}, false) }

  function Keys(): set<Key> { set p: nat | p < 2000 :: Key(0, p) }

  /** The section of service 1, with all 21 ECM pids in the stream's loop and the first 20 in the program's. */
  function Received(): Data { Section(Identity(), 0, 1, 0, VIDEO, Listed(), [Video()]) + [0, 0, 0, 0] }

  lemma IsWellFormed()
    ensures WellFormed([Video()], Listed())
  {
    hide EcmDescriptor;
    forall i, j | 0 <= i < j < |Video().descriptors| ensures Video().descriptors[i] != Video().descriptors[j] {
      assert EcmPid(EcmDescriptor(i)) != EcmPid(EcmDescriptor(j));
    }
  }

  lemma IdentityIs(p: nat)
    requires p < 2000
    ensures TableOk(Identity()) && IsMapped(Identity(), 0, p) && Ddci(Identity(), 0, p) == p
  {
    assert forall k | k in Keys() :: k.ad == 0 && k.pid < 2000;
    assert Key(0, p) in Keys();
  }

  lemma IdentityMapsAll()
    ensures Registered(Identity(), 0, [Video()], Listed())
    ensures Ddci(Identity(), 0, VIDEO) == VIDEO && forall k: nat | k <= MAX_CAID :: Ddci(Identity(), 0, Ecm(k)) == Ecm(k)
  {
    hide EcmDescriptor, Identity, TableOk, IsMapped, Ddci;
    IdentityIs(VIDEO);
    forall k: nat | k <= MAX_CAID
      ensures Ddci(Identity(), 0, Ecm(k)) == Ecm(k) && IsMapped(Identity(), 0, Ecm(k)) && TableOk(Identity()) {
      IdentityIs(Ecm(k));
    }
    forall i | 0 <= i < |Video().descriptors| && IsFullCa(Video().descriptors[i])
      ensures IsMapped(Identity(), 0, EcmPid(Video().descriptors[i]))
    {
      assert EcmPid(EcmDescriptor(i)) == Ecm(i);
    }
  }

  lemma {:induction false} InfoLength(t: Table, cas: seq<CaEntry>)
    requires forall i :: 0 <= i < |cas| ==> cas[i].privateData == []
    ensures |ProgramInfo(t, 0, cas)| == 6 * |cas|
    decreases |cas|
  {
    if cas != [] { InfoLength(t, cas[..|cas| - 1]); }
  }

  lemma {:induction false} LoopLength(ds: seq<Descriptor>)
    requires forall i :: 0 <= i < |ds| ==> |ds[i].data| == 4
    ensures |LoopBytes(ds)| == 6 * |ds|
    decreases |ds|
  {
    if ds != [] { LoopLength(ds[..|ds| - 1]); }
  }

  lemma ReceivedLength(t: Table)
    ensures |Section(t, 0, 1, 0, VIDEO, Listed(), [Video()])| == 263
  {
    hide ProgramInfo, LoopBytes, EcmDescriptor, RenameDescriptor;
    InfoLength(t, Listed());
    var renamed := RenameAll(t, 0, Video().descriptors);
    forall i | 0 <= i < |renamed| ensures |renamed[i].data| == 4 {
      assert |EcmDescriptor(i).data| == 4;
      RenamedSize(t, EcmDescriptor(i));
    }
    LoopLength(renamed);
    SectionLength(t, 0, 1, 0, VIDEO, Listed(), [Video()]);
    assert [Video()][..0] == [] && |StreamBytes(t, 0, Video())| == 131;
  }

  lemma RenamedSize(t: Table, d: Descriptor)
    ensures |RenameDescriptor(t, 0, d).data| == |d.data|
  {
  }

  /** What the parser makes of the section: all 21 descriptors with their ECM pids, and 20 CA entries. */
  lemma ReceivedParses()
    ensures var p := ParsePmt(Received());
            && !p.cut && p.pcr == VIDEO && |p.content.streams| == 1 && p.content.streams[0].pid == VIDEO
            && |p.content.streams[0].descriptors| == MAX_CAID + 1
            && IsFullCa(p.content.streams[0].descriptors[MAX_CAID])
            && EcmPid(p.content.streams[0].descriptors[MAX_CAID]) == Ecm(MAX_CAID)
            && |p.content.cas| == MAX_CAID && (forall i :: 0 <= i < MAX_CAID ==> p.content.cas[i].pid == Ecm(i))
  {
    hide ParsePmt, WellFormed, Registered, Section, Identity, EcmDescriptor, CaDescriptorsOf, Ddci;
    IsWellFormed();
    IdentityMapsAll();
    ReceivedLength(Identity());
    assert [Video()][0].pid == VIDEO;
    ParseAfterGenerate(Identity(), 0, 1, 0, VIDEO, Listed(), [Video()], [0, 0, 0, 0]);
    assert EcmPid(EcmDescriptor(MAX_CAID)) == Ecm(MAX_CAID) && IsFullCa(EcmDescriptor(MAX_CAID));
    RenameReads(Identity(), 0, EcmDescriptor(MAX_CAID));
  }

  /** Registered as PMT 1 of pid 50 in an empty mapping, its 21st ECM pid stays without a DDCI pid, and the regenerated
      PMT names it to the CAM under its own number. */
  lemma LastEcmIsNotMapped()
    ensures var p := ParsePmt(Received()); var m := Maps(map[], {}, {}, {}); var s := ServiceOf(1, 0, 50, p.content);
            var t := ProcessPmt(m, s).table;
            && Inv(m) && !p.cut && |p.content.cas| == MAX_CAID
            && !EcmsCovered(m, s, p.content) && !Registered(t, 0, p.content.streams, p.content.cas)
            && !IsMapped(t, 0, Ecm(MAX_CAID)) && Ddci(t, 0, Ecm(MAX_CAID)) == Ecm(MAX_CAID)
  {
    hide ParsePmt, Received, MapService, ProcessPmt, EcmPid;
    ReceivedParses();
    var p, m := ParsePmt(Received()), Maps(map[], {}, {}, {});
    var s := ServiceOf(1, 0, 50, p.content);
    assert !Needs(s, Ecm(MAX_CAID)) && !StaysMapped(m, s, Ecm(MAX_CAID));
    UnneededIsMappedIff(m, s, Ecm(MAX_CAID));
    UnneededIsAbsent(m, s, Ecm(MAX_CAID));
  }

  lemma UnneededIsAbsent(m: Maps, s: Service, pid: nat)
    requires !Needs(s, pid) && !IsMandatory(pid) && Key(s.ad, pid) !in m.table
    ensures Ddci(ProcessPmt(m, s).table, s.ad, pid) == pid
  {
    hide MapService;
    MapServiceSpares(m, s, pid);
  }

  // ----- a slot that had a PCR -----

  /** A service without PCR (pid 8191), whose slot last served one with the PCR on DDCI pid 256, is seen with a stream on
      that pid. */
  lemma StalePcrAddsAStream()
    ensures var t: Table := map[Key(0, 100) := Mapping(100, true, {1}, false)];
            var p := PmtParse(1, 0, 8191, PmtContent([], [StreamPid(27, 100, false, true, [])], []), false);
            && !ListsPcr(p) && !PcrIsOwn(t, 0, p, 256)
            && ForeignPcr(t, 0, p.content.streams, SlotPcr(t, 0, p, 256)) == [StreamPid(0, 256, false, false, [])]
  {
    var t: Table := map[Key(0, 100) := Mapping(100, true, {1}, false)];
    var p := PmtParse(1, 0, 8191, PmtContent([], [StreamPid(27, 100, false, true, [])], []), false);
    assert Ddci(t, 0, 100) == 100;
    assert !ListsPcr(p);
  }
}
