/** The TS program map section (section 2.4.4.8 of ISO/IEC 13818-1) as DDCI writes it
    (src/ddci.cpp:916-1048) and as the PMT parser reads it (src/pmt.cpp:1993-2255). */
module PmtSection {
  import opened Bytes
  import opened PmtData
  import opened DdciMap

  const MAX_CAID: nat := 20
  const CA_TAG: byte := 0x09

  // ----- reading -----

  /** Byte i of the section buffer; what lies behind the section reads as zero. */
  function At(b: Data, i: nat): byte { if i < |b| then b[i] else 0 }

  function Word(b: Data, i: nat): (v: nat)
    ensures v < 0x10000
  {
    At(b, i) as int * 0x100 + At(b, i + 1) as int
  }

  function Low12(b: Data, i: nat): nat { Word(b, i) % 0x1000 }

  function Low13(b: Data, i: nat): (v: nat)
    ensures v < 0x2000
  {
    Word(b, i) % 0x2000
  }

  function ReadDescriptor(b: Data, at: nat): Descriptor {
    Descriptor(At(b, at), At(b, at + 1), seq<byte>(At(b, at + 1), k requires 0 <= k => At(b, at + 2 + k)))
  }

  predicate HasCa(cas: seq<CaEntry>, id: nat, pid: nat) {
    exists i :: 0 <= i < |cas| && cas[i].id == id && cas[i].pid == pid
  }

  /** pmt_add_caid; `len` is the private data length, negative for a short descriptor. */
  function AddCaid(cas: seq<CaEntry>, id: nat, pid: Pid, data: Data, len: int): seq<CaEntry>
    requires len <= |data|
  {
    if HasCa(cas, id, pid) || |cas| >= MAX_CAID || len < 0 then cas else cas + [CaEntry(id, pid, data[..len])]
  }

  /** One descriptor of a program or stream loop: kept unless it is there already, CA descriptors noted. */
  function AddDescriptorAt(b: Data, at: nat, ds: seq<Descriptor>, cas: seq<CaEntry>): (seq<Descriptor>, seq<CaEntry>) {
    var d := ReadDescriptor(b, at);
    if d in ds then (ds, cas)
    else (ds + [d],
          if d.kind == CA_TAG
          then AddCaid(cas, Word(b, at + 2), Low13(b, at + 4), if |d.data| >= 4 then d.data[4..] else [], d.len as int - 4)
          else cas)
  }

  function ParseDescriptors(b: Data, at: nat, end: nat, ds: seq<Descriptor>, cas: seq<CaEntry>)
    : (seq<Descriptor>, seq<CaEntry>)
    decreases end - at
  {
    if at >= end then (ds, cas)
    else
      var (ds1, cas1) := AddDescriptorAt(b, at, ds, cas);
      ParseDescriptors(b, at + At(b, at + 1) + 2, end, ds1, cas1)
  }

  predicate IsAc3Tag(kind: byte) { kind == 0x6A || kind == 0x7A }

  predicate IsAc3Es(b: Data, at: nat, end: nat)
    decreases end - at
  {
    at < end && (IsAc3Tag(At(b, at)) || IsAc3Es(b, at + At(b, at + 1) + 2, end))
  }

  predicate IsVideoKind(kind: byte) { kind == 2 || kind == 27 || kind == 36 || kind == 15 }

  predicate IsAudioKind(kind: byte) { kind == 3 || kind == 4 || kind == 17 || kind == 129 }

  /** `cut` tells that the last stream's descriptors run past the section. */
  datatype Parsed = Parsed(streams: seq<StreamPid>, cas: seq<CaEntry>, pcr: nat, cut: bool)

  /** The stream at offset i of the stream loop, still without descriptors. */
  function ReadStream(b: Data, i: nat): StreamPid {
    var kind, esLen := At(b, i), Low12(b, i + 3);
    var ac3 := kind == 6 && IsAc3Es(b, i + 5, i + 5 + esLen);
    StreamPid(kind, Low13(b, i + 1), ac3 || IsAudioKind(kind), IsVideoKind(kind), [])
  }

  /** The stream loop from byte i on; `end` is where the CRC starts. */
  function ParseStreams(b: Data, i: nat, end: int, p: Parsed): Parsed
    decreases end - i
  {
    if i >= end then p
    else
      var s, esLen := ReadStream(b, i), Low12(b, i + 3);
      var pcr := if p.pcr == s.pid then 0 else p.pcr;
      if i + 5 + esLen > end + 4 then Parsed(p.streams + [s], p.cas, pcr, true)
      else
        var (ds, cas) := if s.IsAv() then ParseDescriptors(b, i + 5, i + 5 + esLen, [], p.cas) else ([], p.cas);
        ParseStreams(b, i + 5 + esLen, end, Parsed(p.streams + [s.(descriptors := ds)], cas, pcr, false))
  }

  /** Result of process_pmt on a new section: content, PCR pid, and whether the stream loop was cut. */
  datatype PmtParse = PmtParse(sid: nat, version: nat, pcr: nat, content: PmtContent, cut: bool)

  function ParseProgramInfo(b: Data): (seq<Descriptor>, seq<CaEntry>) {
    var pmtLen, piLen := Low12(b, 1), Low12(b, 10);
    if 0 < piLen < pmtLen then ParseDescriptors(b, 12, 12 + piLen, [], []) else ([], [])
  }

  function ParsePmt(b: Data): PmtParse {
    var pmtLen, piLen, pcr := Low12(b, 1), Low12(b, 10), Low13(b, 8);
    var (ds, cas0) := ParseProgramInfo(b);
    var p := ParseStreams(b, 12 + piLen, 3 + pmtLen - 4, Parsed([], cas0, pcr, false));
    var streams := if 0 < p.pcr < 8191 then p.streams + [StreamPid(0, p.pcr, false, false, [])] else p.streams;
    PmtParse(Word(b, 3), At(b, 5) % 0x40 / 2, pcr, PmtContent(ds, streams, p.cas), p.cut)
  }

  // ----- writing -----

  /** The pid the CAM sees. */
  function Ddci(t: Table, ad: nat, pid: nat): int { SafeDdciPid(t, ad, pid) }

  function Byte(v: int): byte { v % 0x100 }

  function Put16i(v: int): Data { [Byte(v / 0x100), Byte(v)] }

  function ProgramCa(t: Table, ad: nat, ca: CaEntry): Data {
    [CA_TAG, Byte(4 + |ca.privateData|)] + Put16i(ca.id) + Put16i(Ddci(t, ad, ca.pid)) + ca.privateData
  }

  function ProgramInfo(t: Table, ad: nat, cas: seq<CaEntry>): Data {
    if cas == [] then [] else ProgramInfo(t, ad, cas[..|cas| - 1]) + ProgramCa(t, ad, cas[|cas| - 1])
  }

  predicate IsFullCa(d: Descriptor) { d.kind == CA_TAG && d.len >= 4 && |d.data| >= 4 }

  function EcmPid(d: Descriptor): nat
    requires |d.data| >= 4
  {
    d.data[2] as int % 0x20 * 0x100 + d.data[3] as int
  }

  /** A descriptor with the ECM pid of a CA descriptor replaced. */
  function RenameDescriptor(t: Table, ad: nat, d: Descriptor): Descriptor {
    if IsFullCa(d) then
      var m := Ddci(t, ad, EcmPid(d));
      d.(data := [d.data[0], d.data[1], d.data[2] / 0x20 * 0x20 + m / 0x100 % 0x20, Byte(m)] + d.data[4..])
    else d
  }

  function DescriptorBytes(d: Descriptor): Data { [d.kind, d.len] + d.data }

  function LoopBytes(ds: seq<Descriptor>): Data {
    if ds == [] then [] else LoopBytes(ds[..|ds| - 1]) + DescriptorBytes(ds[|ds| - 1])
  }

  function RenameAll(t: Table, ad: nat, ds: seq<Descriptor>): (r: seq<Descriptor>)
    ensures |r| == |ds| && forall i :: 0 <= i < |ds| ==> r[i] == RenameDescriptor(t, ad, ds[i])
  {
    seq(|ds|, i requires 0 <= i < |ds| => RenameDescriptor(t, ad, ds[i]))
  }

  function RenameStream(t: Table, ad: nat, s: StreamPid): StreamPid {
    s.(pid := Ddci(t, ad, s.pid) % 0x2000, descriptors := RenameAll(t, ad, s.descriptors))
  }

  function StreamBytes(t: Table, ad: nat, s: StreamPid): Data {
    var es := LoopBytes(RenameAll(t, ad, s.descriptors));
    [s.kind] + Put16i(Ddci(t, ad, s.pid)) + Put16i(|es|) + es
  }

  function StreamLoopBytes(t: Table, ad: nat, streams: seq<StreamPid>): Data {
    if streams == [] then [] else StreamLoopBytes(t, ad, streams[..|streams| - 1]) + StreamBytes(t, ad, streams[|streams| - 1])
  }

  predicate IsWanted(s: StreamPid, requested: set<nat>, multiple: bool) { !multiple || s.pid in requested }

  /** The streams a device passes on: with several PMTs per CAPMT only those a client requested. */
  function Wanted(streams: seq<StreamPid>, requested: set<nat>, multiple: bool): seq<StreamPid>
    decreases |streams|
  {
    if streams == [] then []
    else (if IsWanted(streams[0], requested, multiple) then [streams[0]] else []) + Wanted(streams[1..], requested, multiple)
  }

  /** Everything between the length field and the CRC. */
  function Body(t: Table, ad: nat, sid: nat, ver: int, pcr: int, cas: seq<CaEntry>, streams: seq<StreamPid>): Data {
    var info := ProgramInfo(t, ad, cas);
    Put16i(sid) + [Byte(ver * 2 + 1), 0, 0] + [0xE0 + pcr / 0x100 % 0x20, Byte(pcr)] + Put16i(|info|) + info
    + StreamLoopBytes(t, ad, streams)
  }

  /** The section up to its CRC. */
  function Section(t: Table, ad: nat, sid: nat, ver: int, pcr: int, cas: seq<CaEntry>, streams: seq<StreamPid>): Data {
    var body := Body(t, ad, sid, ver, pcr, cas, streams);
    [0x02] + Put16i(4 + |body|) + body
  }
}
