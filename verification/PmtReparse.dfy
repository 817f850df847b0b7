/** What the parser guarantees of any section, and with it: parse, regenerate, parse again. */
module PmtReparse {
  import opened Bytes
  import opened PmtData
  import opened DdciMap
  import opened PmtSection
  import opened PmtRoundTrip

  // ----- the CA list only grows -----

  ghost predicate KnownAll(ds: seq<Descriptor>, cas: seq<CaEntry>) { forall i :: 0 <= i < |ds| ==> Known(ds[i], cas) }

  lemma AddCaidKeepsOk(cas: seq<CaEntry>, id: nat, pid: Pid, data: Data, len: int)
    requires CasOk(cas) && len <= |data| && len <= 251 && id < 0x10000 && pid < 0x2000
    ensures var r := AddCaid(cas, id, pid, data, len);
            && CasOk(r) && cas <= r && (len >= 0 ==> HasCa(r, id, pid) || |r| >= MAX_CAID)
  {
    var r := AddCaid(cas, id, pid, data, len);
    if r != cas { assert r[|cas|].id == id && r[|cas|].pid == pid; }
  }

  lemma KnownAllGrows(ds: seq<Descriptor>, cas: seq<CaEntry>, more: seq<CaEntry>)
    requires KnownAll(ds, cas) && cas <= more
    ensures KnownAll(ds, more)
  {
  }

  // ----- one descriptor -----

  ghost predicate LoopState(ds: seq<Descriptor>, cas: seq<CaEntry>) {
    Sized(ds) && NoRepeats(ds) && CasOk(cas) && KnownAll(ds, cas)
  }

  /** What the parser reads of a CA descriptor is what the descriptor says. */
  lemma DescriptorAtReads(b: Data, at: nat)
    ensures var d := ReadDescriptor(b, at);
            && |d.data| == d.len && d.kind == At(b, at)
            && (IsFullCa(d) ==> CaidOf(d) == Word(b, at + 2) && EcmPid(d) == Low13(b, at + 4))
  {
  }

  lemma AddDescriptorKeepsState(b: Data, at: nat, ds: seq<Descriptor>, cas: seq<CaEntry>)
    requires LoopState(ds, cas)
    ensures var (ds1, cas1) := AddDescriptorAt(b, at, ds, cas);
            && LoopState(ds1, cas1) && cas <= cas1
            && (HasAc3(ds1) <==> HasAc3(ds) || IsAc3Tag(At(b, at)))
  {
    hide ReadDescriptor, CasOk, HasCa, AddCaid, Word, IsAc3Tag;
    DescriptorAtReads(b, at);
    var d := ReadDescriptor(b, at);
    var (ds1, cas1) := AddDescriptorAt(b, at, ds, cas);
    Ac3Grows(ds, d);
    if d !in ds && d.kind == CA_TAG {
      var data := if |d.data| >= 4 then d.data[4..] else [];
      AddCaidKeepsOk(cas, Word(b, at + 2), Low13(b, at + 4), data, d.len as int - 4);
    }
    if d !in ds {
      KnownAllGrows(ds, cas, cas1);
      assert Known(d, cas1);
    }
  }

  lemma Ac3Grows(ds: seq<Descriptor>, d: Descriptor)
    ensures HasAc3(ds + [d]) <==> HasAc3(ds) || IsAc3Tag(d.kind)
    ensures d in ds ==> (HasAc3(ds) <==> HasAc3(ds) || IsAc3Tag(d.kind))
  {
    hide IsAc3Tag;
    var r := ds + [d];
    assert r[|ds|] == d && forall i :: 0 <= i < |ds| ==> r[i] == ds[i];
    if i :| 0 <= i < |ds| && IsAc3Tag(ds[i].kind) { assert IsAc3Tag(r[i].kind); }
  }

  lemma {:induction false} ParseDescriptorsState(b: Data, at: nat, end: nat, ds: seq<Descriptor>, cas: seq<CaEntry>)
    requires LoopState(ds, cas)
    ensures var (ds1, cas1) := ParseDescriptors(b, at, end, ds, cas);
            && LoopState(ds1, cas1) && cas <= cas1
            && (HasAc3(ds1) <==> HasAc3(ds) || IsAc3Es(b, at, end))
    decreases end - at
  {
    hide LoopState, AddDescriptorAt, At, HasAc3, IsAc3Tag;
    if at < end {
      var (ds1, cas1) := AddDescriptorAt(b, at, ds, cas);
      AddDescriptorKeepsState(b, at, ds, cas);
      ParseDescriptorsState(b, at + At(b, at + 1) + 2, end, ds1, cas1);
    }
  }

  // ----- the stream loop -----

  ghost predicate StreamsState(streams: seq<StreamPid>, cas: seq<CaEntry>) {
    CasOk(cas) && forall i :: 0 <= i < |streams| ==> StreamOk(streams[i]) && KnownAll(streams[i].descriptors, cas)
  }

  lemma EmptyLoopState(cas: seq<CaEntry>)
    requires CasOk(cas)
    ensures LoopState([], cas) && !HasAc3([])
  {
  }

  /** One stream that is not cut off. */
  lemma StreamParsed(b: Data, i: nat, cas: seq<CaEntry>)
    requires CasOk(cas)
    ensures var s, esLen := ReadStream(b, i), Low12(b, i + 3);
            var (ds, cas1) := if s.IsAv() then ParseDescriptors(b, i + 5, i + 5 + esLen, [], cas) else ([], cas);
            StreamOk(s.(descriptors := ds)) && KnownAll(ds, cas1) && CasOk(cas1) && cas <= cas1
  {
    hide CasOk, At, Word, ParseDescriptors, IsAc3Es, KnownAll, HasAc3;
    EmptyLoopState(cas);
    var s, esLen := ReadStream(b, i), Low12(b, i + 3);
    ParseDescriptorsState(b, i + 5, i + 5 + esLen, [], cas);
    KnownNone(cas);
  }

  lemma KnownNone(cas: seq<CaEntry>)
    ensures KnownAll([], cas)
  {
  }

  lemma StreamsGrow(streams: seq<StreamPid>, cas: seq<CaEntry>, s: StreamPid, more: seq<CaEntry>)
    requires StreamsState(streams, cas) && cas <= more && CasOk(more) && StreamOk(s) && KnownAll(s.descriptors, more)
    ensures StreamsState(streams + [s], more)
  {
  }

  /** The PCR is among the streams, or still to be added. */
  ghost predicate PcrPlaced(streams: seq<StreamPid>, left: nat, pcr: nat) {
    left == pcr || (left == 0 && exists i :: 0 <= i < |streams| && streams[i].pid == pcr)
  }

  lemma {:induction false} ParseStreamsState(b: Data, i: nat, end: int, p: Parsed, pcr: nat)
    requires StreamsState(p.streams, p.cas) && PcrPlaced(p.streams, p.pcr, pcr)
    ensures var r := ParseStreams(b, i, end, p);
            && PcrPlaced(r.streams, r.pcr, pcr)
            && (!r.cut ==> StreamsState(r.streams, r.cas))
    decreases end - i
  {
    hide StreamsState, ReadStream, At, Word, CasOk, StreamOk, KnownAll, ParseDescriptors;
    if i < end {
      var s, esLen := ReadStream(b, i), Low12(b, i + 3);
      CasOfState(p.streams, p.cas);
      StreamParsed(b, i, p.cas);
      var left := if p.pcr == s.pid then 0 else p.pcr;
      var (ds, cas) := if s.IsAv() then ParseDescriptors(b, i + 5, i + 5 + esLen, [], p.cas) else ([], p.cas);
      PlacePcr(p.streams, p.pcr, pcr, s.(descriptors := ds));
      PlacePcr(p.streams, p.pcr, pcr, s);
      if i + 5 + esLen <= end + 4 {
        StreamsGrow(p.streams, p.cas, s.(descriptors := ds), cas);
        ParseStreamsState(b, i + 5 + esLen, end, Parsed(p.streams + [s.(descriptors := ds)], cas, left, false), pcr);
      }
    }
  }

  lemma CasOfState(streams: seq<StreamPid>, cas: seq<CaEntry>)
    requires StreamsState(streams, cas)
    ensures CasOk(cas)
  {
  }

  lemma PlacePcr(streams: seq<StreamPid>, left: nat, pcr: nat, s: StreamPid)
    requires PcrPlaced(streams, left, pcr)
    ensures PcrPlaced(streams + [s], if left == s.pid then 0 else left, pcr)
  {
    var r := streams + [s];
    assert r[|streams|] == s && forall i :: 0 <= i < |streams| ==> r[i] == streams[i];
  }

  /** A stream entry of the loop at i starts at byte j, if the streams before it run on to it. */
  predicate StartsAt(b: Data, i: nat, end: int, j: nat)
    decreases end - i
  {
    i < end && (j == i || StartsAt(b, i + 5 + Low12(b, i + 3), end, j))
  }

  /** The descriptors of some stream run past the section, whose last four bytes from `end` on are the CRC. */
  ghost predicate RunsOver(b: Data, i: nat, end: int) {
    exists j: nat :: StartsAt(b, i, end, j) && end + 4 < j + 5 + Low12(b, j + 3)
  }

  lemma RunsOverStep(b: Data, i: nat, end: int)
    ensures RunsOver(b, i, end) <==>
              i < end && (end + 4 < i + 5 + Low12(b, i + 3) || RunsOver(b, i + 5 + Low12(b, i + 3), end))
  {
    hide At;
    var next := i + 5 + Low12(b, i + 3);
    if RunsOver(b, i, end) {
      var j: nat :| StartsAt(b, i, end, j) && end + 4 < j + 5 + Low12(b, j + 3);
      assert j == i || StartsAt(b, next, end, j);
    }
    if i < end {
      assert StartsAt(b, i, end, i);
      if RunsOver(b, next, end) {
        var j: nat :| StartsAt(b, next, end, j) && end + 4 < j + 5 + Low12(b, j + 3);
        assert StartsAt(b, i, end, j);
      }
    }
  }

  /** The stream loop is cut exactly when the descriptors of one of its streams run past the section. */
  lemma {:induction false} CutIff(b: Data, i: nat, end: int, p: Parsed)
    requires !p.cut
    ensures ParseStreams(b, i, end, p).cut <==> RunsOver(b, i, end)
    decreases end - i
  {
    hide ReadStream, ParseDescriptors, At, RunsOver;
    RunsOverStep(b, i, end);
    if i < end {
      var s, esLen := ReadStream(b, i), Low12(b, i + 3);
      if i + 5 + esLen <= end + 4 {
        var (ds, cas) := if s.IsAv() then ParseDescriptors(b, i + 5, i + 5 + esLen, [], p.cas) else ([], p.cas);
        var pcr := if p.pcr == s.pid then 0 else p.pcr;
        CutIff(b, i + 5 + esLen, end, Parsed(p.streams + [s.(descriptors := ds)], cas, pcr, false));
      }
    }
  }

  // ----- any section -----

  /** Whatever the bytes, a PMT whose stream loop is not cut is well formed, and it lists its PCR pid. */
  lemma ParsedIsWellFormed(b: Data)
    ensures var p := ParsePmt(b);
            && p.sid < 0x10000 && p.version < 0x20 && p.pcr < 0x2000
            && (!p.cut ==> WellFormed(p.content.streams, p.content.cas))
            && (0 < p.pcr < 8191 ==> exists i :: 0 <= i < |p.content.streams| && p.content.streams[i].pid == p.pcr)
  {
    hide At, ParseStreams, ParseDescriptors, CasOk, StreamOk, KnownAll;
    var piLen, pmtLen, pcr := Low12(b, 10), Low12(b, 1), Low13(b, 8);
    NoCas();
    EmptyLoopState([]);
    if 0 < piLen < pmtLen { ParseDescriptorsState(b, 12, 12 + piLen, [], []); }
    var (ds, cas0) := ParseProgramInfo(b);
    var end: int := 3 + pmtLen as int - 4;
    ParseStreamsState(b, 12 + piLen, end, Parsed([], cas0, pcr, false), pcr);
    var r := ParseStreams(b, 12 + piLen, end, Parsed([], cas0, pcr, false));
    var extra := StreamPid(0, if r.pcr < 0x2000 then r.pcr else 0, false, false, []);
    AssembledOk(r, extra);
    assert (r.streams + [extra])[|r.streams|] == extra;
    assert forall i :: 0 <= i < |r.streams| ==> (r.streams + [extra])[i] == r.streams[i];
  }

  /** Which streams of a parsed section are video and audio: by their stream type, and private streams by an AC-3 tag among
      their descriptors. */
  lemma StreamFlagsAre(b: Data, k: nat)
    requires !ParsePmt(b).cut && k < |ParsePmt(b).content.streams|
    ensures var s := ParsePmt(b).content.streams[k];
            && (s.isVideo <==> s.kind in {2, 15, 27, 36})
            && (s.isAudio <==> s.kind in {3, 4, 17, 129}
                               || (s.kind == 6 && exists i :: 0 <= i < |s.descriptors| && s.descriptors[i].kind in {0x6A, 0x7A}))
  {
    hide ParsePmt, CasOk, AllKnown;
    ParsedIsWellFormed(b);
    var s := ParsePmt(b).content.streams[k];
    assert StreamOk(s);
    assert forall i :: 0 <= i < |s.descriptors| ==> (IsAc3Tag(s.descriptors[i].kind) <==> s.descriptors[i].kind in {0x6A, 0x7A});
  }

  lemma NoCas()
    ensures CasOk([])
  {
  }

  lemma AssembledOk(r: Parsed, extra: StreamPid)
    requires !r.cut ==> StreamsState(r.streams, r.cas)
    requires extra.kind == 0 && extra.pid < 0x2000 && !extra.IsAv() && extra.descriptors == []
    ensures !r.cut ==> WellFormed(r.streams, r.cas) && WellFormed(r.streams + [extra], r.cas)
  {
  }

  // ----- parse, regenerate, parse -----

  ghost predicate ListsPcr(p: PmtParse) {
    exists i :: 0 <= i < |p.content.streams| && p.content.streams[i].pid == p.pcr
  }

  /** The PCR pid of the slot once the PMT is registered: its DDCI pid if a stream carries it, else what the slot held
      before. */
  ghost function SlotPcr(t: Table, ad: nat, p: PmtParse, before: int): int { if ListsPcr(p) then Ddci(t, ad, p.pcr) else before }

  /** The slot's PCR pid adds no stream: the PMT lists its PCR, or the slot holds no PCR, or one of the PMT's own pids. */
  ghost predicate PcrIsOwn(t: Table, ad: nat, p: PmtParse, before: int) {
    ListsPcr(p) || before in {-1, 0, 8191} || IsRenamedPid(t, ad, p.content.streams, before)
  }

  /** Parse, register, regenerate, parse: the CI adapter sees the PMT of the source adapter with every pid
      renamed, whatever section with a whole stream loop the source adapter received and whatever PCR pid the
      slot held before; it sees one stream more exactly when that PCR pid is a foreign one. */
  lemma ReparseIsRenaming(b: Data, t: Table, ad: nat, ver: int, before: int, crc: Data)
    requires -1 <= ver < 0x10 && -1 <= before < 0x2000
    requires var p := ParsePmt(b);
             && !p.cut && Registered(t, ad, p.content.streams, p.content.cas)
             && |Section(t, ad, p.sid, ver, SlotPcr(t, ad, p, before), p.content.cas, p.content.streams)| + 4 <= 0xFFF + 3
    ensures var p := ParsePmt(b);
            var slotPcr := SlotPcr(t, ad, p, before);
            var q := ParsePmt(Section(t, ad, p.sid, ver, slotPcr, p.content.cas, p.content.streams) + crc);
            && !q.cut && q.sid == p.sid && q.version == ver % 0x20 && q.pcr == slotPcr % 0x2000
            && q.content.streams == RenameStreams(t, ad, p.content.streams) + ForeignPcr(t, ad, p.content.streams, slotPcr)
            && (q.content.streams == RenameStreams(t, ad, p.content.streams) <==> PcrIsOwn(t, ad, p, before))
            && q.content.cas == RenameCas(t, ad, p.content.cas)
  {
    hide ParsePmt, Registered, WellFormed, Section, Ddci, IsRenamedPid;
    var p := ParsePmt(b);
    ParsedIsWellFormed(b);
    if ListsPcr(p) { ListedPcr(t, ad, p.content.streams, p.content.cas, p.pcr); }
    ParseWithSlotPcr(t, ad, p.sid, ver, SlotPcr(t, ad, p, before), p.content.cas, p.content.streams, crc);
  }

  /** A PMT that names a PCR pid lists it. */
  lemma NamedPcrIsOwn(b: Data, t: Table, ad: nat, before: int)
    requires 0 < ParsePmt(b).pcr < 8191
    ensures PcrIsOwn(t, ad, ParsePmt(b), before)
  {
    hide ParsePmt;
    ParsedIsWellFormed(b);
  }
}
