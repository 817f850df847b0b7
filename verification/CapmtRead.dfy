/** A CA_PMT as the CAM reads it (section 8.4.3.4 of EN 50221): header, and for each stream its type and pid, the command
    and the CA descriptors. Reading what the table writes gives back the programs' streams and CA entries. */
module CapmtRead {
  import opened Bytes
  import opened CapmtSpec
  import opened PmtData
  import opened Wrappers

  // ----- the reader -----

  /** One elementary stream; a stream without CA information carries no command. */
  datatype Es = Es(kind: byte, pid: nat, command: Option<byte>, cas: seq<CaEntry>)

  /** A loop of CA descriptors: tag 9, length, CAID, ECM pid in the low 13 bits, private data. */
  function ReadCas(d: Data): Option<seq<CaEntry>>
    decreases |d|
  {
    if d == [] then Some([])
    else if |d| < 6 || d[0] != 9 || d[1] < 4 || 2 + d[1] as int > |d| then None
    else
      match ReadCas(d[2 + d[1] as int..])
      case None => None
      case Some(rest) => Some([CaEntry(Get16(d, 2), Get16(d, 4) % 0x2000, d[6..2 + d[1] as int])] + rest)
  }

  /** The elementary stream at the front: type, pid in 13 bits, and in 12 bits the length of what follows; and how many
      bytes it takes. */
  function ReadEs(b: Data): (r: Option<(Es, nat)>)
    ensures r.Some? ==> 0 < r.value.1 <= |b|
  {
    if |b| < 5 then None
    else
      var n := Get16(b, 3) % 0x1000;
      if 5 + n > |b| then None
      else if n == 0 then Some((Es(b[0], Get16(b, 1) % 0x2000, None, []), 5))
      else
        match ReadCas(b[6..5 + n])
        case None => None
        case Some(cas) => Some((Es(b[0], Get16(b, 1) % 0x2000, Some(b[5]), cas), 5 + n))
  }

  function ReadLoop(b: Data): Option<seq<Es>>
    decreases |b|
  {
    if b == [] then Some([])
    else if ReadEs(b).None? then None
    else
      var (es, n) := ReadEs(b).value;
      match ReadLoop(b[n..])
      case None => None
      case Some(rest) => Some([es] + rest)
  }

  // ----- what should be read -----

  /** The CA entries of the program that this CA handles. */
  function Handled(p: Program, cas: seq<CaEntry>): seq<CaEntry> {
    if cas == [] then [] else (if cas[0].id in p.handled then [cas[0]] else []) + Handled(p, cas[1..])
  }

  /** The audio and video streams, each with the program's handled CA entries; on request only those whose pid is open. */
  function Announced(p: Program, streams: seq<StreamPid>, command: byte, addedOnly: bool): seq<Es> {
    if streams == [] then []
    else
      var s := streams[0];
      (if (s.isAudio || s.isVideo) && (!addedOnly || s.pid in p.found)
       then [Es(s.kind, s.pid, if p.cas == [] then None else Some(command), Handled(p, p.cas))] else [])
      + Announced(p, streams[1..], command, addedOnly)
  }

  function Size(cas: seq<CaEntry>): nat { if cas == [] then 0 else 6 + |cas[0].privateData| + Size(cas[1..]) }

  /** All values fit their fields, as they do in a parsed PMT. */
  ghost predicate IsWritable(p: Program) {
    && (forall i :: 0 <= i < |p.streams| ==> p.streams[i].pid < 0x2000)
    && (forall i :: 0 <= i < |p.cas| ==> p.cas[i].id < 0x10000 && p.cas[i].pid < 0x2000 && |p.cas[i].privateData| <= 251)
    && Size(Handled(p, p.cas)) + 1 < 0x1000
  }

  // ----- reading what was written -----

  lemma {:induction false} CaDescriptorsCons(p: Program, cas: seq<CaEntry>)
    requires cas != []
    ensures CaDescriptors(p, cas)
            == (if cas[0].id in p.handled then CaDescriptor(cas[0]) else []) + CaDescriptors(p, cas[1..])
    decreases |cas|
  {
    hide CaDescriptor;
    var n := |cas| - 1;
    if n == 0 {
      assert cas[..0] == [] && cas[1..] == [];
    } else {
      CaDescriptorsCons(p, cas[..n]);
      assert cas[..n][1..] == cas[1..][..n - 1];
    }
  }

  lemma NoDescriptors(p: Program)
    ensures CaDescriptors(p, []) == []
  {
  }

  lemma ReadOneCa(c: CaEntry, rest: Data)
    requires c.id < 0x10000 && c.pid < 0x2000 && |c.privateData| <= 251
    ensures ReadCas(CaDescriptor(c) + rest)
            == match ReadCas(rest) case None => None case Some(r) => Some([c] + r)
  {
    var d := CaDescriptor(c) + rest;
    var n := |c.privateData|;
    assert d[0] == 9 && d[1] as int == 4 + n && Get16(d, 2) == c.id && Get16(d, 4) == c.pid;
    assert d[6..6 + n] == c.privateData && d[6 + n..] == rest;
  }

  lemma {:induction false} CasRead(p: Program, cas: seq<CaEntry>)
    requires forall i :: 0 <= i < |cas| ==> cas[i].id < 0x10000 && cas[i].pid < 0x2000 && |cas[i].privateData| <= 251
    ensures ReadCas(CaDescriptors(p, cas)) == Some(Handled(p, cas)) && |CaDescriptors(p, cas)| == Size(Handled(p, cas))
    decreases |cas|
  {
    hide CaDescriptors, CaDescriptor, ReadCas;
    if cas == [] {
      NoDescriptors(p);
      NothingRead();
    } else {
      CaDescriptorsCons(p, cas);
      CasRead(p, cas[1..]);
      var rest := CaDescriptors(p, cas[1..]);
      if cas[0].id in p.handled {
        ReadOneCa(cas[0], rest);
        CaDescriptorSize(cas[0]);
        assert ([cas[0]] + Handled(p, cas[1..]))[1..] == Handled(p, cas[1..]);
      } else {
        assert [] + rest == rest && [] + Handled(p, cas[1..]) == Handled(p, cas[1..]);
      }
    }
  }

  lemma CaDescriptorSize(c: CaEntry)
    ensures |CaDescriptor(c)| == 6 + |c.privateData|
  {
  }

  lemma NothingRead()
    ensures ReadCas([]) == Some([]) && ReadLoop([]) == Some([])
  {
  }

  lemma {:induction false} StreamLoopFront(p: Program, streams: seq<StreamPid>, cmd: byte, addedOnly: bool)
    requires streams != []
    ensures StreamLoop(p, streams, cmd, addedOnly)
            == (if IsSent(p, streams[0], addedOnly) then StreamEntry(p, streams[0], cmd) else [])
               + StreamLoop(p, streams[1..], cmd, addedOnly)
    decreases |streams|
  {
    hide StreamEntry, IsSent;
    var n := |streams| - 1;
    if n == 0 {
      assert streams[..0] == [] && streams[1..] == [];
    } else {
      StreamLoopFront(p, streams[..n], cmd, addedOnly);
      assert streams[..n][1..] == streams[1..][..n - 1];
    }
  }

  lemma NoStreams(p: Program, cmd: byte, addedOnly: bool)
    ensures StreamLoop(p, [], cmd, addedOnly) == []
  {
  }

  /** A stream with nothing behind its head. */
  lemma ReadBareEs(kind: byte, pid: nat, rest: Data)
    requires pid < 0x2000
    ensures var e: Data := [kind] + Put16(pid) + [0, 0]; ReadEs(e + rest) == Some((Es(kind, pid, None, []), |e|))
  {
    var b := [kind] + Put16(pid) + [0, 0] + rest;
    assert b[0] == kind && Get16(b, 1) == pid && Get16(b, 3) == 0;
  }

  /** A stream with a command and CA descriptors behind it. */
  lemma ReadFullEs(kind: byte, pid: nat, command: byte, ca: Data, cas: seq<CaEntry>, rest: Data)
    requires pid < 0x2000 && |ca| + 1 < 0x1000 && ReadCas(ca) == Some(cas)
    ensures var e := [kind] + Put16(pid) + (Put16(|ca| + 1) + [command] + ca);
            ReadEs(e + rest) == Some((Es(kind, pid, Some(command), cas), |e|))
  {
    hide ReadCas;
    var n := |ca| + 1;
    var head: Data := [kind] + Put16(pid) + Put16(n) + [command];
    assert |head| == 6 && head[5] == command && Get16(head, 1) == pid && Get16(head, 3) == n;
    var b := [kind] + Put16(pid) + (Put16(n) + [command] + ca) + rest;
    assert b == head + (ca + rest);
    assert b[6..5 + n] == ca;
  }

  /** One stream entry. */
  lemma ReadOneEs(p: Program, s: StreamPid, command: byte, rest: Data)
    requires IsWritable(p) && s.pid < 0x2000
    ensures ReadLoop(StreamEntry(p, s, command) + rest)
            == match ReadLoop(rest)
               case None => None
               case Some(r) => Some([Es(s.kind, s.pid, if p.cas == [] then None else Some(command), Handled(p, p.cas))] + r)
  {
    hide CaDescriptors, ReadCas, ReadEs, Put16;
    CasRead(p, p.cas);
    var e := StreamEntry(p, s, command);
    if p.cas == [] { ReadBareEs(s.kind, s.pid, rest); }
    else { ReadFullEs(s.kind, s.pid, command, CaDescriptors(p, p.cas), Handled(p, p.cas), rest); }
    assert (e + rest)[|e|..] == rest;
  }

  lemma {:induction false} StreamsReadBack(p: Program, streams: seq<StreamPid>, command: byte, addedOnly: bool)
    requires IsWritable(p) && forall i :: 0 <= i < |streams| ==> streams[i].pid < 0x2000
    ensures ReadLoop(StreamLoop(p, streams, command, addedOnly)) == Some(Announced(p, streams, command, addedOnly))
    decreases |streams|
  {
    hide StreamLoop, StreamEntry, ReadLoop, IsWritable;
    if streams == [] {
      NoStreams(p, command, addedOnly);
      NothingRead();
    } else {
      StreamLoopFront(p, streams, command, addedOnly);
      StreamsReadBack(p, streams[1..], command, addedOnly);
      var rest := StreamLoop(p, streams[1..], command, addedOnly);
      ReadOneEs(p, streams[0], command, rest);
      assert [] + rest == rest;
      var tail := Announced(p, streams[1..], command, addedOnly);
      assert [] + tail == tail;
    }
  }

  /** Reading a program's loop gives exactly its audio and video streams, the command, and the CA entries this CA
      handles. */
  lemma LoopReadsBack(p: Program, command: byte, addedOnly: bool)
    requires IsWritable(p)
    ensures ReadLoop(LoopOf(p, command, addedOnly)) == Some(Announced(p, p.streams, command, addedOnly))
  {
    StreamsReadBack(p, p.streams, command, addedOnly);
  }

  lemma Regroup(a: seq<Es>, b: seq<Es>, c: seq<Es>)
    ensures a + b + c == a + (b + c)
  {
  }

  /** Loops in a row read as their streams in a row. */
  lemma {:induction false} LoopsConcat(a: Data, b: Data)
    requires ReadLoop(a).Some?
    ensures ReadLoop(a + b)
            == match ReadLoop(b) case None => None case Some(r) => Some(ReadLoop(a).value + r)
    decreases |a|
  {
    hide ReadEs;
    if a == [] {
      assert a + b == b;
      assert ReadLoop(b).Some? ==> [] + ReadLoop(b).value == ReadLoop(b).value;
    } else {
      var n := ReadEs(a).value.1;
      EsWithMore(a, b);
      assert (a + b)[n..] == a[n..] + b;
      LoopsConcat(a[n..], b);
      if ReadLoop(b).Some? { Regroup([ReadLoop(a).value[0]], ReadLoop(a[n..]).value, ReadLoop(b).value); }
    }
  }

  lemma EsWithMore(a: Data, b: Data)
    requires ReadEs(a).Some?
    ensures ReadEs(a + b) == ReadEs(a)
  {
    hide ReadCas;
    var n := Get16(a, 3) % 0x1000;
    assert Get16(a + b, 3) == Get16(a, 3) && Get16(a + b, 1) == Get16(a, 1);
    if n > 0 { assert (a + b)[6..5 + n] == a[6..5 + n]; }
  }

  // ----- the whole CAPMT -----

  datatype CaPmt = CaPmt(listManagement: byte, programNumber: nat, version: nat, current: bool, streams: seq<Es>)

  /** The header, its empty program loop, and the streams. */
  function ReadCapmt(b: Data): Option<CaPmt> {
    if |b| < 6 || Get16(b, 4) % 0x1000 != 0 then None
    else
      match ReadLoop(b[6..])
      case None => None
      case Some(streams) => Some(CaPmt(b[0], Get16(b, 1), b[3] as int / 2 % 0x20, b[3] % 2 == 1, streams))
  }

  lemma HeaderReads(listmgmt: byte, sid: int, version: int, body: Data)
    requires ReadLoop(body).Some?
    ensures ReadCapmt(Header(listmgmt, sid, version) + body)
            == Some(CaPmt(listmgmt, sid % 0x10000, version % 0x10, true, ReadLoop(body).value))
  {
    hide ReadLoop;
    var b := Header(listmgmt, sid, version) + body;
    assert b[6..] == body && b[0] == listmgmt && Get16(b, 1) == sid % 0x10000 && Get16(b, 4) == 0;
    assert b[3] as int == version % 0x10 * 2 + 1;
  }
}
