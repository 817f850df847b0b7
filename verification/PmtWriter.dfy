/** ddci_create_pmt (src/ddci.cpp:925-1048): the section written byte by byte through a moving position, the
    version bumped when the CRC shows new content; proved equal to module PmtSection. */
module PmtWriter {
  import opened Bytes
  import opened PmtData
  import opened DdciMap
  import opened PmtSection

  const HEAD: nat := 13
  const CRC_SIZE: nat := 4

  // ----- what fits -----

  /** The CA entries written when the list starts at `at` in a buffer of `size` bytes. */
  function FittingCas(cas: seq<CaEntry>, at: nat, size: nat): (r: seq<CaEntry>)
    decreases |cas|
  {
    if cas == [] || at + 10 + |cas[0].privateData| > size then []
    else [cas[0]] + FittingCas(cas[1..], at + 6 + |cas[0].privateData|, size)
  }

  /** ES info length of a stream. */
  function EsLen(ds: seq<Descriptor>): nat {
    if ds == [] then 0 else EsLen(ds[..|ds| - 1]) + ds[|ds| - 1].len as int + 2
  }

  /** The streams written from position `at` on: wanted ones, up to the first that does not fit. */
  function FittingStreams(streams: seq<StreamPid>, requested: set<nat>, multiple: bool, at: nat, size: nat): seq<StreamPid>
    decreases |streams|
  {
    if streams == [] then []
    else
      var s := streams[0];
      if !IsWanted(s, requested, multiple) then FittingStreams(streams[1..], requested, multiple, at, size)
      else if at + 9 + EsLen(s.descriptors) > size then []
      else [s] + FittingStreams(streams[1..], requested, multiple, at + 5 + EsLen(s.descriptors), size)
  }

  /** The PMT one call writes: the entries and streams that fit, in the source adapter's numbering. */
  datatype Content = Content(ad: nat, sid: nat, pcr: int, cas: seq<CaEntry>, streams: seq<StreamPid>)

  function SectionOf(t: Table, c: Content, ver: int): Data { Section(t, c.ad, c.sid, ver, c.pcr, c.cas, c.streams) }

  function Put32(v: nat): Data { [Byte(v / 0x1000000), Byte(v / 0x10000), Byte(v / 0x100), Byte(v)] }

  /** Version and CRC kept with a channel slot; both are all ones before the first write. */
  datatype Stamp = Stamp(ver: int, crc: nat)

  /** The stamp after writing content c: a changed CRC bumps the version. */
  function Restamp(st: Stamp, t: Table, c: Content, crc32: Data -> nat): Stamp {
    var ver := if crc32(SectionOf(t, c, st.ver)) != st.crc then (st.ver + 1) % 0x10 else st.ver;
    Stamp(ver, crc32(SectionOf(t, c, ver)))
  }

  /** The section with its CRC. */
  function Emitted(st: Stamp, t: Table, c: Content): Data { SectionOf(t, c, st.ver) + Put32(st.crc) }

  // ----- the writer -----

  /** Store d at position pos and step behind it. */
  method Append(buf: array<byte>, pos: nat, d: Data) returns (next: nat)
    requires pos + |d| <= buf.Length
    modifies buf
    ensures next == pos + |d| && buf[..next] == old(buf[..pos]) + d
  {
    Store(buf, pos, d);
    next := pos + |d|;
    assert buf[..next] == buf[..pos] + buf[pos..next];
  }

  /** Overwrite bytes already written. */
  method Patch(buf: array<byte>, at: nat, d: Data, end: nat)
    requires at + |d| <= end <= buf.Length
    modifies buf
    ensures buf[..end] == old(buf[..at]) + d + old(buf[at + |d|..end])
  {
    Store(buf, at, d);
    assert buf[at + |d|..end] == buf[at + |d|..][..end - at - |d|];
    assert old(buf[at + |d|..end]) == old(buf[at + |d|..])[..end - at - |d|];
    assert buf[..end] == buf[..at] + buf[at..at + |d|] + buf[at + |d|..end];
  }

  function Head(sid: nat, ver: int, pcr: int, length: int, piLen: int): Data {
    [0, 0x02] + Put16i(length) + Put16i(sid) + [Byte(ver * 2 + 1), 0, 0]
    + [0xE0 + pcr / 0x100 % 0x20, Byte(pcr)] + Put16i(piLen)
  }

  ghost predicate SizedAll(streams: seq<StreamPid>) {
    forall i, j | 0 <= i < |streams| && 0 <= j < |streams[i].descriptors| ::
      |streams[i].descriptors[j].data| == streams[i].descriptors[j].len
  }

  lemma FittingCasStep(cas: seq<CaEntry>, i: nat, at: nat, size: nat)
    requires i < |cas| && at + 10 + |cas[i].privateData| <= size
    ensures FittingCas(cas[i..], at, size) == [cas[i]] + FittingCas(cas[i + 1..], at + 6 + |cas[i].privateData|, size)
  {
  }

  lemma FittingCasEnd(cas: seq<CaEntry>, i: nat, at: nat, size: nat)
    requires i <= |cas| && (i < |cas| ==> at + 10 + |cas[i].privateData| > size)
    ensures FittingCas(cas[i..], at, size) == []
  {
  }

  /** One CA descriptor of the program loop. */
  method WriteCa(t: Table, ad: nat, ca: CaEntry, buf: array<byte>, start: nat) returns (pos: nat)
    requires start + 6 + |ca.privateData| <= buf.Length
    modifies buf
    ensures pos == start + 6 + |ca.privateData| == start + |ProgramCa(t, ad, ca)|
    ensures buf[..pos] == old(buf[..start]) + ProgramCa(t, ad, ca)
  {
    hide Ddci;
    pos := Append(buf, start, [CA_TAG, Byte(4 + |ca.privateData|)]);
    pos := Append(buf, pos, Put16i(ca.id) + Put16i(Ddci(t, ad, ca.pid)));
    pos := Append(buf, pos, ca.privateData);
    assert buf[..pos] == old(buf[..start]) + ProgramCa(t, ad, ca);
  }

  /** The program loop: one CA descriptor for each entry of the CA list that fits. */
  method WriteCas(t: Table, ad: nat, cas: seq<CaEntry>, buf: array<byte>, start: nat)
    returns (pos: nat, piLen: nat, ghost written: seq<CaEntry>)
    requires start + CRC_SIZE <= buf.Length
    modifies buf
    ensures written == FittingCas(cas, start, buf.Length) && pos == start + piLen && pos + CRC_SIZE <= buf.Length
    ensures piLen == |ProgramInfo(t, ad, written)| && buf[..pos] == old(buf[..start]) + ProgramInfo(t, ad, written)
  {
    hide ProgramCa, ProgramInfo, FittingCas;
    pos, piLen, written := start, 0, [];
    var i := 0;
    ProgramInfoEmpty(t, ad);
    assert cas[0..] == cas;
    while i < |cas|
      invariant 0 <= i <= |cas| && pos == start + piLen && pos + CRC_SIZE <= buf.Length
      invariant FittingCas(cas, start, buf.Length) == written + FittingCas(cas[i..], pos, buf.Length)
      invariant piLen == |ProgramInfo(t, ad, written)|
      invariant buf[..pos] == old(buf[..start]) + ProgramInfo(t, ad, written)
    {
      var ca := cas[i];
      if pos + 10 + |ca.privateData| > buf.Length {
        FittingCasEnd(cas, i, pos, buf.Length);
        return;
      }
      FittingCasStep(cas, i, pos, buf.Length);
      ghost var before := ProgramInfo(t, ad, written);
      pos := WriteCa(t, ad, ca, buf, pos);
      assert buf[..pos] == old(buf[..start]) + (before + ProgramCa(t, ad, ca));
      ProgramInfoSnoc(t, ad, written, ca);
      written := written + [ca];
      piLen := piLen + 6 + |ca.privateData|;
      i := i + 1;
    }
    FittingCasEnd(cas, i, pos, buf.Length);
  }

  lemma ProgramInfoEmpty(t: Table, ad: nat)
    ensures ProgramInfo(t, ad, []) == []
  {
  }

  lemma ProgramInfoSnoc(t: Table, ad: nat, cas: seq<CaEntry>, ca: CaEntry)
    ensures ProgramInfo(t, ad, cas + [ca]) == ProgramInfo(t, ad, cas) + ProgramCa(t, ad, ca)
  {
  }

  lemma LoopBytesSnoc(ds: seq<Descriptor>, d: Descriptor)
    ensures LoopBytes(ds + [d]) == LoopBytes(ds) + DescriptorBytes(d)
  {
  }

  lemma StreamLoopSnoc(t: Table, ad: nat, streams: seq<StreamPid>, s: StreamPid)
    ensures StreamLoopBytes(t, ad, streams + [s]) == StreamLoopBytes(t, ad, streams) + StreamBytes(t, ad, s)
  {
  }

  lemma {:induction false} EsLenIsLoopLength(t: Table, ad: nat, ds: seq<Descriptor>)
    requires forall j :: 0 <= j < |ds| ==> |ds[j].data| == ds[j].len
    ensures |LoopBytes(RenameAll(t, ad, ds))| == EsLen(ds)
  {
    hide Ddci;
    if ds != [] {
      var n := |ds| - 1;
      EsLenIsLoopLength(t, ad, ds[..n]);
      assert RenameAll(t, ad, ds) == RenameAll(t, ad, ds[..n]) + [RenameDescriptor(t, ad, ds[n])];
      LoopBytesSnoc(RenameAll(t, ad, ds[..n]), RenameDescriptor(t, ad, ds[n]));
    }
  }

  method EsInfoLength(ds: seq<Descriptor>) returns (len: nat)
    ensures len == EsLen(ds)
  {
    len := 0;
    for j := 0 to |ds|
      invariant len == EsLen(ds[..j])
    {
      assert ds[..j + 1][..j] == ds[..j];
      len := len + ds[j].len as int + 2;
    }
    assert ds[..|ds|] == ds;
  }

  /** One descriptor, the ECM pid of a CA descriptor replaced. */
  method WriteDescriptor(t: Table, ad: nat, d: Descriptor, buf: array<byte>, start: nat) returns (pos: nat)
    requires |d.data| == d.len && start + 2 + |d.data| <= buf.Length
    modifies buf
    ensures pos == start + 2 + |d.data| && buf[..pos] == old(buf[..start]) + DescriptorBytes(RenameDescriptor(t, ad, d))
  {
    hide Ddci;
    pos := Append(buf, start, [d.kind, d.len]);
    if d.kind == CA_TAG && d.len >= 4 && |d.data| >= 4 {
      var raw := d.data[2] as int % 0x20 * 0x100 + d.data[3] as int;
      var mapped := Ddci(t, ad, raw);
      pos := Append(buf, pos, [d.data[0], d.data[1], d.data[2] / 0x20 * 0x20 + mapped / 0x100 % 0x20, Byte(mapped)]);
      pos := Append(buf, pos, d.data[4..]);
    } else {
      pos := Append(buf, pos, d.data);
    }
    assert buf[..pos] == old(buf[..start]) + DescriptorBytes(RenameDescriptor(t, ad, d));
  }

  /** One stream entry. */
  method WriteStream(t: Table, ad: nat, s: StreamPid, buf: array<byte>, start: nat) returns (pos: nat)
    requires forall j :: 0 <= j < |s.descriptors| ==> |s.descriptors[j].data| == s.descriptors[j].len
    requires start + 5 + EsLen(s.descriptors) <= buf.Length
    modifies buf
    ensures pos == start + 5 + EsLen(s.descriptors) && buf[..pos] == old(buf[..start]) + StreamBytes(t, ad, s)
  {
    hide Ddci, LoopBytes, RenameDescriptor, EsLen, DescriptorBytes;
    var esInfoLen := EsInfoLength(s.descriptors);
    pos := Append(buf, start, [s.kind] + Put16i(Ddci(t, ad, s.pid)) + Put16i(esInfoLen));
    ghost var head := buf[..pos];
    var ds := s.descriptors;
    ghost var rs := RenameAll(t, ad, ds);
    LoopBytesEmpty();
    EsLenEmpty();
    assert ds[..0] == [] && rs[..0] == [];
    for j := 0 to |ds|
      invariant pos == start + 5 + EsLen(ds[..j]) <= buf.Length
      invariant buf[..pos] == head + LoopBytes(rs[..j])
    {
      EsLenStep(ds, j);
      EsLenMonotone(ds, j + 1);
      pos := WriteDescriptor(t, ad, ds[j], buf, pos);
      LoopBytesSnoc(rs[..j], rs[j]);
      assert rs[..j + 1] == rs[..j] + [rs[j]];
      assert buf[..pos] == head + (LoopBytes(rs[..j]) + DescriptorBytes(rs[j]));
    }
    assert ds[..|ds|] == ds && rs[..|ds|] == rs;
    EsLenIsLoopLength(t, ad, ds);
    assert buf[..pos] == old(buf[..start]) + StreamBytes(t, ad, s);
  }

  lemma LoopBytesEmpty()
    ensures LoopBytes([]) == []
  {
  }

  lemma EsLenEmpty()
    ensures EsLen([]) == 0
  {
  }

  lemma EsLenStep(ds: seq<Descriptor>, j: nat)
    requires j < |ds|
    ensures EsLen(ds[..j + 1]) == EsLen(ds[..j]) + ds[j].len as int + 2
  {
    assert ds[..j + 1][..j] == ds[..j];
  }

  lemma {:induction false} EsLenMonotone(ds: seq<Descriptor>, j: nat)
    requires j <= |ds|
    ensures EsLen(ds[..j]) <= EsLen(ds)
    decreases |ds| - j
  {
    if j < |ds| {
      EsLenStep(ds, j);
      EsLenMonotone(ds, j + 1);
    } else {
      assert ds[..j] == ds;
    }
  }

  /** The stream loop. */
  method WriteStreams(t: Table, ad: nat, streams: seq<StreamPid>, requested: set<nat>, multiple: bool,
                      buf: array<byte>, start: nat) returns (pos: nat, ghost written: seq<StreamPid>)
    requires SizedAll(streams) && start + CRC_SIZE <= buf.Length
    modifies buf
    ensures written == FittingStreams(streams, requested, multiple, start, buf.Length)
    ensures pos == start + |StreamLoopBytes(t, ad, written)| && pos + CRC_SIZE <= buf.Length
    ensures buf[..pos] == old(buf[..start]) + StreamLoopBytes(t, ad, written)
  {
    hide StreamLoopBytes, StreamBytes, EsLen, IsWanted, SizedAll;
    pos, written := start, [];
    StreamLoopEmpty(t, ad);
    assert streams[0..] == streams;
    var i := 0;
    while i < |streams|
      invariant 0 <= i <= |streams| && pos == start + |StreamLoopBytes(t, ad, written)| && pos + CRC_SIZE <= buf.Length
      invariant FittingStreams(streams, requested, multiple, start, buf.Length)
                == written + FittingStreams(streams[i..], requested, multiple, pos, buf.Length)
      invariant buf[..pos] == old(buf[..start]) + StreamLoopBytes(t, ad, written)
    {
      var s := streams[i];
      ghost var rest := streams[i..];
      assert rest[0] == s && rest[1..] == streams[i + 1..];
      if IsWanted(s, requested, multiple) {
        var esInfoLen := EsInfoLength(s.descriptors);
        if pos + 9 + esInfoLen > buf.Length {
          return;
        }
        ghost var at, before := pos, StreamLoopBytes(t, ad, written);
        StreamIsSized(streams, i);
        pos := WriteStream(t, ad, s, buf, pos);
        StreamLoopSnoc(t, ad, written, s);
        assert buf[..pos] == old(buf[..start]) + (before + StreamBytes(t, ad, s));
        assert written + FittingStreams(rest, requested, multiple, at, buf.Length)
            == (written + [s]) + FittingStreams(streams[i + 1..], requested, multiple, pos, buf.Length);
        written := written + [s];
      }
      i := i + 1;
    }
    assert streams[i..] == [];
  }

  lemma StreamLoopEmpty(t: Table, ad: nat)
    ensures StreamLoopBytes(t, ad, []) == []
  {
  }

  lemma StreamIsSized(streams: seq<StreamPid>, i: nat)
    requires SizedAll(streams) && i < |streams|
    ensures forall j :: 0 <= j < |streams[i].descriptors| ==> |streams[i].descriptors[j].data| == streams[i].descriptors[j].len
  {
  }

  // ----- the whole section -----

  /** What one call writes into a buffer of `size` bytes. */
  function ContentOf(t: Table, ad: nat, sid: nat, pcr: int, cas: seq<CaEntry>, streams: seq<StreamPid>,
                     requested: set<nat>, multiple: bool, size: nat): Content {
    var fit := FittingCas(cas, HEAD, size);
    Content(ad, sid, pcr, fit, FittingStreams(streams, requested, multiple, HEAD + |ProgramInfo(t, ad, fit)|, size))
  }

  lemma AssembleSection(t: Table, c: Content, ver: int)
    ensures var info, loop := ProgramInfo(t, c.ad, c.cas), StreamLoopBytes(t, c.ad, c.streams);
            [0] + SectionOf(t, c, ver) == Head(c.sid, ver, c.pcr, 13 + |info| + |loop|, |info|) + info + loop
  {
    hide ProgramInfo, StreamLoopBytes;
  }

  /** Filling in the two length fields. */
  lemma PatchLengths(sid: nat, ver: int, pcr: int, length: int, piLen: int, info: Data, loop: Data)
    ensures var h := Head(sid, ver, pcr, 0, 0) + info;
            h[..11] + Put16i(piLen) + h[13..] == Head(sid, ver, pcr, 0, piLen) + info
    ensures var h := Head(sid, ver, pcr, 0, piLen) + info + loop;
            h[..2] + Put16i(length) + h[4..] == Head(sid, ver, pcr, length, piLen) + info + loop
  {
  }

  /** Rewriting the version byte. */
  lemma PatchVersion(t: Table, c: Content, ver: int, now: int)
    ensures var b := [0] + SectionOf(t, c, ver);
            |b| >= 13 && b[..6] + [Byte(now * 2 + 1)] + b[7..] == [0] + SectionOf(t, c, now)
  {
    hide ProgramInfo, StreamLoopBytes;
    AssembleSection(t, c, ver);
    AssembleSection(t, c, now);
    var info, loop := ProgramInfo(t, c.ad, c.cas), StreamLoopBytes(t, c.ad, c.streams);
    var h, g := Head(c.sid, ver, c.pcr, 13 + |info| + |loop|, |info|), Head(c.sid, now, c.pcr, 13 + |info| + |loop|, |info|);
    assert h[..6] + [Byte(now * 2 + 1)] + h[7..] == g;
    assert (h + info + loop)[7..] == h[7..] + info + loop;
  }

  /** Version, CRC and PCR pid of a registered channel: ddci_pmt_t. */
  class ChannelSlot {
    var ver: int
    var crc: nat
    var pcrPid: int

    function View(): Stamp
      reads this
    {
      Stamp(ver, crc)
    }

    constructor ()
      ensures View() == Stamp(-1, 0xFFFF_FFFF) && pcrPid == -1
    {
      ver, crc, pcrPid := -1, 0xFFFF_FFFF, -1;
    }

    /** Everything but the CRC, with the version the slot holds. */
    method WriteSection(t: Table, ad: nat, sid: nat, cas: seq<CaEntry>, streams: seq<StreamPid>,
                        requested: set<nat>, multiple: bool, buf: array<byte>) returns (pos: nat)
      requires SizedAll(streams) && HEAD + CRC_SIZE <= buf.Length
      modifies buf
      ensures var c := ContentOf(t, ad, sid, pcrPid, cas, streams, requested, multiple, buf.Length);
              && pos == 1 + |SectionOf(t, c, ver)| && pos + CRC_SIZE <= buf.Length
              && buf[..pos] == [0] + SectionOf(t, c, ver)
    {
      hide FittingCas, FittingStreams, ProgramInfo, StreamLoopBytes, SizedAll, Section, Head;
      HeadSize(sid, ver, pcrPid, 0, 0);
      pos := Append(buf, 0, Head(sid, ver, pcrPid, 0, 0));
      var piLen;
      ghost var writtenCas;
      pos, piLen, writtenCas := WriteCas(t, ad, cas, buf, pos);
      ghost var info := ProgramInfo(t, ad, writtenCas);
      Patch(buf, 11, Put16i(piLen), pos);
      PatchLengths(sid, ver, pcrPid, 0, piLen, info, []);
      HeadSize(sid, ver, pcrPid, 0, piLen);
      assert buf[..pos] == Head(sid, ver, pcrPid, 0, piLen) + info;
      ghost var writtenStreams;
      pos, writtenStreams := WriteStreams(t, ad, streams, requested, multiple, buf, pos);
      ghost var loop := StreamLoopBytes(t, ad, writtenStreams);
      Patch(buf, 2, Put16i(4 + (pos - 4)), pos);
      PatchLengths(sid, ver, pcrPid, pos, piLen, info, loop);
      AssembleSection(t, ContentOf(t, ad, sid, pcrPid, cas, streams, requested, multiple, buf.Length), ver);
    }

    /** ddci_create_pmt. The bytes behind the returned length, zeroed by the original, are not described. */
    method CreatePmt(t: Table, ad: nat, sid: nat, cas: seq<CaEntry>, streams: seq<StreamPid>, requested: set<nat>,
                     multiple: bool, crc32: Data -> nat, buf: array<byte>) returns (len: nat)
      requires SizedAll(streams) && HEAD + CRC_SIZE <= buf.Length
      modifies this`ver, this`crc, buf
      ensures var c := ContentOf(t, ad, sid, pcrPid, cas, streams, requested, multiple, buf.Length);
              && View() == Restamp(old(View()), t, c, crc32)
              && len == 1 + |Emitted(View(), t, c)| <= buf.Length && buf[..len] == [0] + Emitted(View(), t, c)
    {
      hide ContentOf, SizedAll, Section;
      var pos := WriteSection(t, ad, sid, cas, streams, requested, multiple, buf);
      ghost var c := ContentOf(t, ad, sid, pcrPid, cas, streams, requested, multiple, buf.Length);
      assert buf[1..pos] == SectionOf(t, c, ver) by { assert buf[1..pos] == buf[..pos][1..]; }
      var crcNow := crc32(buf[1..pos]);
      if crc != crcNow {
        PatchVersion(t, c, ver, (ver + 1) % 0x10);
        ver := (ver + 1) % 0x10;
        ghost var b := buf[..pos];
        assert buf[..6] == b[..6] && buf[7..pos] == b[7..];
        Patch(buf, 6, [Byte(ver * 2 + 1)], pos);
        assert buf[..pos] == [0] + SectionOf(t, c, ver);
        assert buf[1..pos] == SectionOf(t, c, ver) by { assert buf[1..pos] == buf[..pos][1..]; }
        crcNow := crc32(buf[1..pos]);
      }
      crc := crcNow;
      len := Append(buf, pos, Put32(crcNow));
    }
  }

  lemma HeadSize(sid: nat, ver: int, pcr: int, length: int, piLen: int)
    ensures |Head(sid, ver, pcr, length, piLen)| == HEAD
  {
  }
}
