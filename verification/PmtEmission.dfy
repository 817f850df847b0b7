/** What the CI adapter sees over any run of regenerated PMTs: the writer's version follows the content, so the
    parser, which skips a version it has seen, is never left with an old PMT. */
module PmtEmission {
  import opened Bytes
  import opened PmtData
  import opened DdciMap
  import opened PmtSection
  import opened PmtRoundTrip
  import opened PmtWriter

  // ----- a buffer that is large enough loses nothing -----

  lemma {:induction false} AllCasFit(t: Table, ad: nat, cas: seq<CaEntry>, at: nat, size: nat)
    requires at + |ProgramInfo(t, ad, cas)| + CRC_SIZE <= size
    ensures FittingCas(cas, at, size) == cas
    decreases |cas|
  {
    hide ProgramCa, ProgramInfo;
    if cas != [] {
      ProgramInfoCons(t, ad, cas);
      CaSize(t, ad, cas[0]);
      AllCasFit(t, ad, cas[1..], at + 6 + |cas[0].privateData|, size);
    }
  }

  lemma CaSize(t: Table, ad: nat, c: CaEntry)
    ensures |ProgramCa(t, ad, c)| == 6 + |c.privateData|
  {
  }

  lemma {:induction false} ProgramInfoCons(t: Table, ad: nat, cas: seq<CaEntry>)
    requires cas != []
    ensures ProgramInfo(t, ad, cas) == ProgramCa(t, ad, cas[0]) + ProgramInfo(t, ad, cas[1..])
  {
    hide ProgramCa;
    var n := |cas| - 1;
    if n > 0 {
      ProgramInfoCons(t, ad, cas[..n]);
      assert cas[..n][1..] == cas[1..][..n - 1];
    } else {
      assert cas[..0] == [] && cas[1..] == [];
    }
  }

  lemma {:induction false} AllStreamsFit(t: Table, ad: nat, streams: seq<StreamPid>, requested: set<nat>, multiple: bool,
                                         at: nat, size: nat)
    requires SizedAll(streams)
    requires at + |StreamLoopBytes(t, ad, Wanted(streams, requested, multiple))| + CRC_SIZE <= size
    ensures FittingStreams(streams, requested, multiple, at, size) == Wanted(streams, requested, multiple)
    decreases |streams|
  {
    hide StreamBytes, StreamLoopBytes, SizedAll, EsLen, IsWanted;
    if streams != [] {
      var s, rest := streams[0], Wanted(streams[1..], requested, multiple);
      SizedTail(streams);
      if IsWanted(s, requested, multiple) {
        assert ([s] + rest)[1..] == rest;
        StreamLoopCons(t, ad, [s] + rest);
        StreamSize(t, ad, s);
        AllStreamsFit(t, ad, streams[1..], requested, multiple, at + 5 + EsLen(s.descriptors), size);
      } else {
        assert Wanted(streams, requested, multiple) == rest;
        AllStreamsFit(t, ad, streams[1..], requested, multiple, at, size);
      }
    }
  }

  lemma SizedTail(streams: seq<StreamPid>)
    requires SizedAll(streams) && streams != []
    ensures SizedAll(streams[1..])
    ensures forall j :: 0 <= j < |streams[0].descriptors| ==> |streams[0].descriptors[j].data| == streams[0].descriptors[j].len
  {
  }

  lemma StreamSize(t: Table, ad: nat, s: StreamPid)
    requires forall j :: 0 <= j < |s.descriptors| ==> |s.descriptors[j].data| == s.descriptors[j].len
    ensures |StreamBytes(t, ad, s)| == 5 + EsLen(s.descriptors)
  {
    hide LoopBytes, RenameAll, EsLen, Ddci;
    EsLenIsLoopLength(t, ad, s.descriptors);
  }

  /** With room for the whole section and its CRC, all CA entries and all wanted streams are written. */
  lemma NothingIsTruncated(t: Table, ad: nat, sid: nat, pcr: int, cas: seq<CaEntry>, streams: seq<StreamPid>,
                           requested: set<nat>, multiple: bool, size: nat)
    requires SizedAll(streams)
    requires 1 + |Section(t, ad, sid, 0, pcr, cas, Wanted(streams, requested, multiple))| + CRC_SIZE <= size
    ensures ContentOf(t, ad, sid, pcr, cas, streams, requested, multiple, size)
            == Content(ad, sid, pcr, cas, Wanted(streams, requested, multiple))
  {
    hide StreamLoopBytes, ProgramInfo, FittingCas, FittingStreams, Wanted, SizedAll, Section;
    SectionLength(t, ad, sid, 0, pcr, cas, Wanted(streams, requested, multiple));
    AllCasFit(t, ad, cas, HEAD, size);
    AllStreamsFit(t, ad, streams, requested, multiple, HEAD + |ProgramInfo(t, ad, cas)|, size);
  }

  // ----- versions -----

  /** No two byte strings share a CRC. */
  ghost predicate CollisionFree(crc32: Data -> nat) {
    forall x, y :: crc32(x) == crc32(y) ==> x == y
  }

  /** A write: the mapping and the content at that moment. */
  datatype Write = Write(t: Table, c: Content)

  lemma VersionByte(t: Table, c: Content, ver: int)
    requires -1 <= ver < 0x10
    ensures var b := SectionOf(t, c, ver); |b| >= 12 && b[5] % 0x40 / 2 == ver % 0x20
  {
    hide ProgramInfo, StreamLoopBytes;
    VersionBits(ver);
  }

  /** Two contents write the same section under one version exactly when they do under any other. */
  lemma SameUnderAnyVersion(t: Table, c: Content, t': Table, c': Content, v: int, w: int)
    requires SectionOf(t, c, v) == SectionOf(t', c', v)
    ensures SectionOf(t, c, w) == SectionOf(t', c', w)
  {
    hide SectionOf;
    PatchVersion(t, c, v, w);
    PatchVersion(t', c', v, w);
    assert ([0] + SectionOf(t, c, w))[1..] == SectionOf(t, c, w);
    assert ([0] + SectionOf(t', c', w))[1..] == SectionOf(t', c', w);
  }

  /** The version stands still exactly when the content does; otherwise it moves on by one modulo 16. */
  lemma VersionTracksContent(st: Stamp, t: Table, c: Content, t': Table, c': Content, crc32: Data -> nat)
    requires CollisionFree(crc32) && -1 <= st.ver < 0x10 && st.crc == crc32(SectionOf(t, c, st.ver))
    ensures var next := Restamp(st, t', c', crc32);
            && -1 <= next.ver < 0x10 && next.crc == crc32(SectionOf(t', c', next.ver))
            && (SectionOf(t, c, 0) == SectionOf(t', c', 0) ==> next == st && Emitted(next, t', c') == Emitted(st, t, c))
            && (SectionOf(t, c, 0) != SectionOf(t', c', 0) ==> next.ver == (st.ver + 1) % 0x10)
  {
    hide SectionOf;
    if SectionOf(t, c, 0) == SectionOf(t', c', 0) {
      SameUnderAnyVersion(t, c, t', c', 0, st.ver);
    } else if SectionOf(t, c, st.ver) == SectionOf(t', c', st.ver) {
      SameUnderAnyVersion(t, c, t', c', st.ver, 0);
    }
  }

  // ----- the receiver over a run -----

  /** What process_pmt keeps of the PMT on the CI adapter; version -1 before the first section. */
  datatype Receiver = Receiver(version: int, parse: PmtParse)

  /** process_pmt: a version it has processed is skipped. */
  function Receive(r: Receiver, b: Data): Receiver {
    var ver := At(b, 5) % 0x40 / 2;
    if r.version == ver then r else Receiver(ver, ParsePmt(b))
  }

  datatype Link = Link(st: Stamp, r: Receiver)

  function WriteAndReceive(l: Link, w: Write, crc32: Data -> nat): Link {
    var st := Restamp(l.st, w.t, w.c, crc32);
    Link(st, Receive(l.r, Emitted(st, w.t, w.c)))
  }

  function Run(l: Link, ws: seq<Write>, crc32: Data -> nat): Link {
    if ws == [] then l else WriteAndReceive(Run(l, ws[..|ws| - 1], crc32), ws[|ws| - 1], crc32)
  }

  /** The receiver is at write w. */
  ghost predicate Current(l: Link, w: Write, crc32: Data -> nat) {
    && -1 <= l.st.ver < 0x10 && l.st.crc == crc32(SectionOf(w.t, w.c, l.st.ver))
    && l.r == Receiver(l.st.ver % 0x20, ParsePmt(Emitted(l.st, w.t, w.c)))
  }

  lemma EmittedVersion(st: Stamp, t: Table, c: Content)
    requires -1 <= st.ver < 0x10
    ensures At(Emitted(st, t, c), 5) % 0x40 / 2 == st.ver % 0x20
  {
    hide SectionOf;
    VersionByte(t, c, st.ver);
  }

  lemma StepStaysCurrent(l: Link, w: Write, w': Write, crc32: Data -> nat)
    requires CollisionFree(crc32) && Current(l, w, crc32)
    ensures Current(WriteAndReceive(l, w', crc32), w', crc32)
  {
    hide SectionOf, ParsePmt, Emitted, CollisionFree, At;
    VersionTracksContent(l.st, w.t, w.c, w'.t, w'.c, crc32);
    EmittedVersion(Restamp(l.st, w'.t, w'.c, crc32), w'.t, w'.c);
  }

  /** After every run of writes the CI adapter holds the parse of the last one: no update is ever taken for a
      repetition, and no repetition is parsed as an update. */
  lemma {:induction false} ReceiverIsCurrent(st: Stamp, parse: PmtParse, ws: seq<Write>, crc32: Data -> nat)
    requires CollisionFree(crc32) && -1 <= st.ver < 0x10 && ws != []
    ensures Current(Run(Link(st, Receiver(-1, parse)), ws, crc32), ws[|ws| - 1], crc32)
    decreases |ws|
  {
    hide Current, SectionOf, ParsePmt, CollisionFree, At;
    var n := |ws| - 1;
    var start := Link(st, Receiver(-1, parse));
    if n == 0 {
      assert ws[..0] == [];
      FirstIsCurrent(st, parse, ws[0], crc32);
    } else {
      ReceiverIsCurrent(st, parse, ws[..n], crc32);
      StepStaysCurrent(Run(start, ws[..n], crc32), ws[n - 1], ws[n], crc32);
    }
  }

  lemma FirstIsCurrent(st: Stamp, parse: PmtParse, w: Write, crc32: Data -> nat)
    requires -1 <= st.ver < 0x10
    ensures Current(WriteAndReceive(Link(st, Receiver(-1, parse)), w, crc32), w, crc32)
  {
    hide SectionOf, ParsePmt, At, Emitted;
    EmittedVersion(Restamp(st, w.t, w.c, crc32), w.t, w.c);
  }

  /** The versions of two successive writes differ exactly when their contents do. */
  lemma UpdatesAreSeen(st: Stamp, parse: PmtParse, ws: seq<Write>, w: Write, crc32: Data -> nat)
    requires CollisionFree(crc32) && -1 <= st.ver < 0x10 && ws != []
    ensures var start, last := Link(st, Receiver(-1, parse)), ws[|ws| - 1];
            var before, after := Run(start, ws, crc32), WriteAndReceive(Run(start, ws, crc32), w, crc32);
            after.st.ver != before.st.ver <==> SectionOf(w.t, w.c, 0) != SectionOf(last.t, last.c, 0)
  {
    hide SectionOf, ParsePmt, CollisionFree, Run;
    ReceiverIsCurrent(st, parse, ws, crc32);
    var before, last := Run(Link(st, Receiver(-1, parse)), ws, crc32), ws[|ws| - 1];
    VersionTracksContent(before.st, last.t, last.c, w.t, w.c, crc32);
  }

  /** Without several programs in one CAPMT all streams are wanted; with them, exactly those whose pid a client requested,
      in their order. */
  lemma {:induction false} WantedAre(streams: seq<StreamPid>, requested: set<nat>, multiple: bool)
    ensures var w := Wanted(streams, requested, multiple);
            && (!multiple ==> w == streams)
            && (forall s :: s in w <==> s in streams && (multiple ==> s.pid in requested))
            && multiset(w) <= multiset(streams)
    decreases |streams|
  {
    if streams != [] {
      WantedAre(streams[1..], requested, multiple);
      assert streams == [streams[0]] + streams[1..];
    }
  }

  lemma {:induction false} WantedConcat(a: seq<StreamPid>, b: seq<StreamPid>, requested: set<nat>, multiple: bool)
    ensures Wanted(a + b, requested, multiple) == Wanted(a, requested, multiple) + Wanted(b, requested, multiple)
    decreases |a|
  {
    if a == [] {
      assert a + b == b;
    } else {
      assert (a + b)[1..] == a[1..] + b;
      WantedConcat(a[1..], b, requested, multiple);
    }
  }

  /** What the parser makes of one write into a large enough buffer: the wanted streams and the CA list, every pid
      replaced by its DDCI pid, and a stream for the slot's PCR pid when it is none of theirs. */
  lemma EmittedIsRenamed(st: Stamp, t: Table, ad: nat, sid: nat, slotPcr: int, cas: seq<CaEntry>, streams: seq<StreamPid>,
                         requested: set<nat>, multiple: bool, size: nat)
    requires SizedAll(streams) && -1 <= st.ver < 0x10 && sid < 0x10000 && -1 <= slotPcr < 0x2000
    requires var sent := Wanted(streams, requested, multiple);
             && WellFormed(sent, cas) && Registered(t, ad, sent, cas)
             && |Section(t, ad, sid, st.ver, slotPcr, cas, sent)| + CRC_SIZE <= 0xFFF + 3
             && 1 + |Section(t, ad, sid, 0, slotPcr, cas, sent)| + CRC_SIZE <= size
    ensures var sent := Wanted(streams, requested, multiple);
            var c := ContentOf(t, ad, sid, slotPcr, cas, streams, requested, multiple, size);
            var p := ParsePmt(Emitted(st, t, c));
            && !p.cut && p.sid == sid && p.version == st.ver % 0x20 && p.pcr == slotPcr % 0x2000
            && p.content.streams == RenameStreams(t, ad, sent) + ForeignPcr(t, ad, sent, slotPcr)
            && p.content.cas == RenameCas(t, ad, cas)
  {
    hide ParsePmt, Wanted, WellFormed, Registered, Section, SizedAll, ContentOf, ForeignPcr;
    NothingIsTruncated(t, ad, sid, slotPcr, cas, streams, requested, multiple, size);
    ParseWithSlotPcr(t, ad, sid, st.ver, slotPcr, cas, Wanted(streams, requested, multiple), Put32(st.crc));
  }
}
