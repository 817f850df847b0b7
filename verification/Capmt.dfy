/** The CAPMT table as the code keeps it: an array of entries rewritten in place and a buffer filled by a
    position counter (src/ca.cpp:720-1418), proved equal to the operations of module CapmtSpec. */
module Capmt {
  import opened CapmtRead
  import opened CapmtSpec
  import opened Bytes
  import opened Wrappers
  import opened PmtData

  const CAPMT_SIZE: nat := 8192

  // ----- what fits the buffer -----

  /** The descriptors of the CAIDs this CA handles, up to the first that does not fit. */
  function FittingDescriptors(p: Program, cas: seq<CaEntry>, room: int): (d: Data)
    ensures |d| <= if room > 0 then room else 0
    decreases |cas|
  {
    if cas == [] then []
    else if cas[0].id !in p.handled then FittingDescriptors(p, cas[1..], room)
    else if 6 + |cas[0].privateData| > room then []
    else CaDescriptor(cas[0]) + FittingDescriptors(p, cas[1..], room - 6 - |cas[0].privateData|)
  }

  function FittingEntry(p: Program, sp: StreamPid, cmd: byte, room: int): (d: Data)
    requires room >= 6
    ensures 5 <= |d| <= room
  {
    var ca := FittingDescriptors(p, p.cas, room - 6);
    [sp.kind] + Put16(sp.pid) + if p.cas == [] then [0, 0] else Put16(|ca| + 1) + [cmd] + ca
  }

  /** The streams of a loop, up to the first without room for its head. */
  function FittingLoop(p: Program, streams: seq<StreamPid>, cmd: byte, addedOnly: bool, room: int): (d: Data)
    ensures |d| <= if room > 0 then room else 0
    decreases |streams|
  {
    if streams == [] then []
    else if !IsSent(p, streams[0], addedOnly) then FittingLoop(p, streams[1..], cmd, addedOnly, room)
    else if room < 6 then []
    else
      var e := FittingEntry(p, streams[0], cmd, room);
      e + FittingLoop(p, streams[1..], cmd, addedOnly, room - |e|)
  }

  function FittingPlace(e: Entry, progs: Programs, place: nat, cmd: byte, addedOnly: bool, kept: bool, room: int): (d: Data)
    requires place < MAX_PMT_PER_CAPMT && room >= 0
    ensures |d| <= room
  {
    var id := e.ids[place];
    if id in progs then FittingLoop(progs[id], progs[id].streams, cmd, addedOnly, room)
    else if kept && !IsValidId(id) && |e.sent[place]| <= CAPMT_KEPT_ES_MAX && |e.sent[place]| <= room then e.sent[place]
    else []
  }

  /** The loops of the three places, each in the room the ones before it left. */
  function FittingLoops(e: Entry, progs: Programs, cmd: byte, addedOnly: bool, kept: bool): (ls: (Data, Data, Data))
    ensures |ls.0| + |ls.1| + |ls.2| <= CAPMT_SIZE - 6
  {
    var l0 := FittingPlace(e, progs, 0, cmd, addedOnly, kept, CAPMT_SIZE - 6);
    var l1 := FittingPlace(e, progs, 1, cmd, addedOnly, kept, CAPMT_SIZE - 6 - |l0|);
    (l0, l1, FittingPlace(e, progs, 2, cmd, addedOnly, kept, CAPMT_SIZE - 6 - |l0| - |l1|))
  }

  /** The entry's whole CAPMT fits the buffer. */
  predicate EntryFits(e: Entry, progs: Programs, cmd: byte, addedOnly: bool, kept: bool) {
    6 + |Loops(e, progs, cmd, addedOnly, kept)| < CAPMT_SIZE
  }

  lemma {:induction false} AllDescriptorsFit(p: Program, cas: seq<CaEntry>, room: int)
    requires |CaDescriptors(p, cas)| <= room
    ensures FittingDescriptors(p, cas, room) == CaDescriptors(p, cas)
    decreases |cas|
  {
    hide CaDescriptors;
    if cas == [] {
      NoDescriptors(p);
    } else {
      CaDescriptorsCons(p, cas);
      assert |CaDescriptor(cas[0])| == 6 + |cas[0].privateData|;
      AllDescriptorsFit(p, cas[1..], if cas[0].id in p.handled then room - 6 - |cas[0].privateData| else room);
    }
  }

  lemma EntryIsWhole(p: Program, sp: StreamPid, cmd: byte, room: int)
    requires |StreamEntry(p, sp, cmd)| < room
    ensures FittingEntry(p, sp, cmd, room) == StreamEntry(p, sp, cmd)
  {
    hide CaDescriptors, FittingDescriptors;
    if p.cas != [] { AllDescriptorsFit(p, p.cas, room - 6); }
  }

  /** A loop that leaves a byte of room is written whole. */
  lemma {:induction false} LoopIsWhole(p: Program, streams: seq<StreamPid>, cmd: byte, addedOnly: bool, room: int)
    requires |StreamLoop(p, streams, cmd, addedOnly)| < room
    ensures FittingLoop(p, streams, cmd, addedOnly, room) == StreamLoop(p, streams, cmd, addedOnly)
    decreases |streams|
  {
    hide StreamEntry, FittingEntry, IsSent, StreamLoop;
    if streams == [] {
      NoStreams(p, cmd, addedOnly);
    } else {
      StreamLoopFront(p, streams, cmd, addedOnly);
      if IsSent(p, streams[0], addedOnly) {
        EntryIsWhole(p, streams[0], cmd, room);
        EntrySize(p, streams[0], cmd);
        LoopIsWhole(p, streams[1..], cmd, addedOnly, room - |StreamEntry(p, streams[0], cmd)|);
      } else {
        LoopIsWhole(p, streams[1..], cmd, addedOnly, room);
      }
    }
  }

  lemma EntrySize(p: Program, sp: StreamPid, cmd: byte)
    ensures |StreamEntry(p, sp, cmd)| >= 5
  {
    hide CaDescriptors;
  }

  lemma PlaceIsWhole(e: Entry, progs: Programs, place: nat, cmd: byte, addedOnly: bool, kept: bool, room: int)
    requires place < MAX_PMT_PER_CAPMT && |PlaceLoop(e, progs, place, cmd, addedOnly, kept)| < room
    ensures FittingPlace(e, progs, place, cmd, addedOnly, kept, room) == PlaceLoop(e, progs, place, cmd, addedOnly, kept)
  {
    hide StreamLoop, FittingLoop;
    var id := e.ids[place];
    if id in progs { LoopIsWhole(progs[id], progs[id].streams, cmd, addedOnly, room); }
  }

  /** Nothing of a CAPMT that fits is left out. */
  lemma NothingIsTruncated(e: Entry, progs: Programs, cmd: byte, addedOnly: bool, kept: bool)
    requires EntryFits(e, progs, cmd, addedOnly, kept)
    ensures FittingLoops(e, progs, cmd, addedOnly, kept) == (PlaceLoop(e, progs, 0, cmd, addedOnly, kept),
              PlaceLoop(e, progs, 1, cmd, addedOnly, kept), PlaceLoop(e, progs, 2, cmd, addedOnly, kept))
  {
    hide PlaceLoop, FittingPlace;
    PlaceIsWhole(e, progs, 0, cmd, addedOnly, kept, CAPMT_SIZE - 6);
    var l0 := PlaceLoop(e, progs, 0, cmd, addedOnly, kept);
    PlaceIsWhole(e, progs, 1, cmd, addedOnly, kept, CAPMT_SIZE - 6 - |l0|);
    var l1 := PlaceLoop(e, progs, 1, cmd, addedOnly, kept);
    PlaceIsWhole(e, progs, 2, cmd, addedOnly, kept, CAPMT_SIZE - 6 - |l0| - |l1|);
  }

  /** Closing the gaps and dropping what was kept makes a CAPMT no longer. */
  lemma CompactedFits(e: Entry, progs: Programs, cmd: byte, addedOnly: bool, version: int)
    requires EntryFits(e, progs, cmd, addedOnly, true)
    ensures EntryFits(e.(ids := e.Compacted(), version := version), progs, cmd, addedOnly, false)
  {
    hide LoopOf;
    CompactedIds(e);
  }

  lemma CompactedIds(e: Entry)
    ensures var (a, b, c, r) := (IsValidId(e.ids[0]), IsValidId(e.ids[1]), IsValidId(e.ids[2]), e.Compacted());
            r == (if a && b && c then e.ids
                  else if a && b then [e.ids[0], e.ids[1], PMT_INVALID]
                  else if a && c then [e.ids[0], e.ids[2], PMT_INVALID]
                  else if b && c then [e.ids[1], e.ids[2], PMT_INVALID]
                  else if a then [e.ids[0], PMT_INVALID, PMT_INVALID]
                  else if b then [e.ids[1], PMT_INVALID, PMT_INVALID]
                  else if c then [e.ids[2], PMT_INVALID, PMT_INVALID]
                  else [PMT_INVALID, PMT_INVALID, PMT_INVALID])
  {
    assert Live(e.ids, 3) == Live(e.ids, 2) + if IsValidId(e.ids[2]) then [e.ids[2]] else [];
    assert Live(e.ids, 2) == Live(e.ids, 1) + if IsValidId(e.ids[1]) then [e.ids[1]] else [];
    assert Live(e.ids, 1) == Live(e.ids, 0) + if IsValidId(e.ids[0]) then [e.ids[0]] else [];
  }

  // ----- filling the buffer -----

  lemma FittingStep(p: Program, cas: seq<CaEntry>, i: nat, room: int)
    requires i < |cas|
    ensures FittingDescriptors(p, cas[i..], room)
            == if cas[i].id !in p.handled then FittingDescriptors(p, cas[i + 1..], room)
               else if 6 + |cas[i].privateData| > room then []
               else CaDescriptor(cas[i]) + FittingDescriptors(p, cas[i + 1..], room - 6 - |cas[i].privateData|)
  {
    hide CaDescriptor;
    assert cas[i..][1..] == cas[i + 1..];
  }

  /** Store d at position pos, behind what is there from start on. */
  method AppendAt(buf: array<byte>, start: nat, pos: nat, d: Data)
    requires start <= pos && pos + |d| <= buf.Length
    modifies buf
    ensures buf[..start] == old(buf[..start]) && buf[start..pos + |d|] == old(buf[start..pos]) + d
  {
    ghost var before := buf[..pos];
    Store(buf, pos, d);
    AppendSlice(before, buf[..pos + |d|], start);
    assert buf[..start] == before[..start];
  }

  lemma Regroup(a: Data, b: Data, c: Data)
    ensures a + (b + c) == a + b + c
  {
  }

  /** pmt_add_ca_descriptor: the descriptors this CA handles, while they fit the bufLen bytes from pos on. */
  method PmtAddCaDescriptor(buf: array<byte>, pos: nat, bufLen: nat, p: Program) returns (len: nat)
    requires pos + bufLen <= buf.Length
    modifies buf
    ensures len == |FittingDescriptors(p, p.cas, bufLen)|
    ensures buf[pos..pos + len] == FittingDescriptors(p, p.cas, bufLen) && buf[..pos] == old(buf[..pos])
  {
    hide CaDescriptor, FittingDescriptors;
    len := 0;
    ghost var all, done: Data, left := FittingDescriptors(p, p.cas, bufLen), [], FittingDescriptors(p, p.cas, bufLen);
    assert p.cas[0..] == p.cas;
    for i := 0 to |p.cas|
      invariant len <= bufLen && buf[..pos] == old(buf[..pos]) && buf[pos..pos + len] == done
      invariant all == done + left && left == FittingDescriptors(p, p.cas[i..], bufLen - len)
    {
      FittingStep(p, p.cas, i, bufLen - len);
      if p.cas[i].id !in p.handled { continue; }
      if len + 6 + |p.cas[i].privateData| > bufLen { return; }
      var d := CaDescriptor(p.cas[i]);
      DescriptorSize(p.cas[i]);
      left := FittingDescriptors(p, p.cas[i + 1..], bufLen - len - |d|);
      Regroup(done, d, left);
      AppendAt(buf, pos, pos + len, d);
      done, len := done + d, len + |d|;
    }
    NoneLeft(p, bufLen - len);
    assert p.cas[|p.cas|..] == [];
  }

  lemma DescriptorSize(c: CaEntry)
    ensures |CaDescriptor(c)| == 6 + |c.privateData|
  {
  }

  lemma NoneLeft(p: Program, room: int)
    ensures FittingDescriptors(p, [], room) == []
  {
  }

  lemma FittingLoopStep(p: Program, i: nat, cmd: byte, addedOnly: bool, room: int)
    requires i < |p.streams|
    ensures FittingLoop(p, p.streams[i..], cmd, addedOnly, room)
            == if !IsSent(p, p.streams[i], addedOnly) then FittingLoop(p, p.streams[i + 1..], cmd, addedOnly, room)
               else if room < 6 then []
               else FittingEntry(p, p.streams[i], cmd, room)
                    + FittingLoop(p, p.streams[i + 1..], cmd, addedOnly, room - |FittingEntry(p, p.streams[i], cmd, room)|)
  {
    hide FittingEntry, IsSent;
    assert p.streams[i..][1..] == p.streams[i + 1..];
  }

  /** CAPMT_add_PMT: the stream loop of one program in the bytes from start on, as far as it fits. */
  method CapmtAddPmt(buf: array<byte>, start: nat, p: Program, cmd: byte, addedOnly: bool) returns (pos: nat)
    requires start <= buf.Length
    modifies buf
    ensures start <= pos <= buf.Length && buf[..start] == old(buf[..start])
    ensures buf[start..pos] == FittingLoop(p, p.streams, cmd, addedOnly, buf.Length - start)
  {
    hide FittingEntry, FittingLoop;
    pos := start;
    ghost var room := buf.Length - start;
    ghost var all, done: Data := FittingLoop(p, p.streams, cmd, addedOnly, room), [];
    ghost var left := all;
    assert p.streams[0..] == p.streams;
    for i := 0 to |p.streams|
      invariant start <= pos <= buf.Length && buf[..start] == old(buf[..start]) && buf[start..pos] == done
      invariant all == done + left && left == FittingLoop(p, p.streams[i..], cmd, addedOnly, buf.Length - pos)
    {
      var sp := p.streams[i];
      FittingLoopStep(p, i, cmd, addedOnly, buf.Length - pos);
      if (addedOnly && sp.pid !in p.found) || !sp.IsAv() { continue; }
      if pos + 6 > buf.Length { return; }
      ghost var before, e := buf[..pos], FittingEntry(p, sp, cmd, buf.Length - pos);
      left := FittingLoop(p, p.streams[i + 1..], cmd, addedOnly, buf.Length - pos - |e|);
      Regroup(done, e, left);
      var n := WriteStream(buf, pos, p, sp, cmd);
      AppendSlice(before, buf[..pos + n], start);
      done, pos := done + e, pos + n;
    }
    NoLoopLeft(p, cmd, addedOnly, buf.Length - pos);
    assert p.streams[|p.streams|..] == [];
  }

  lemma NoLoopLeft(p: Program, cmd: byte, addedOnly: bool, room: int)
    ensures FittingLoop(p, [], cmd, addedOnly, room) == []
  {
  }

  /** One stream of the loop: type, pid, and the CA descriptors that fit behind the command id. */
  method WriteStream(buf: array<byte>, at: nat, p: Program, sp: StreamPid, cmd: byte) returns (n: nat)
    requires at + 6 <= buf.Length
    modifies buf
    ensures buf[..at] == old(buf[..at]) && at + n <= buf.Length
    ensures n == |FittingEntry(p, sp, cmd, buf.Length - at)| && buf[at..at + n] == FittingEntry(p, sp, cmd, buf.Length - at)
  {
    hide FittingDescriptors;
    ghost var head := [sp.kind] + Put16(sp.pid);
    Store(buf, at, [sp.kind] + Put16(sp.pid) + [0, 0]);
    assert buf[at..at + 3] == buf[at..at + 5][..3] == head;
    n := 5;
    if p.cas != [] {
      n := WriteCas(buf, at, p, cmd);
    }
  }

  /** The command id and the CA descriptors that fit, and their length in front of them. */
  method WriteCas(buf: array<byte>, at: nat, p: Program, cmd: byte) returns (n: nat)
    requires at + 6 <= buf.Length
    modifies buf
    ensures buf[..at] == old(buf[..at]) && at + n <= buf.Length
    ensures var ca := FittingDescriptors(p, p.cas, buf.Length - at - 6);
            n == 6 + |ca| && buf[at..at + n] == old(buf[at..at + 3]) + Put16(|ca| + 1) + [cmd] + ca
  {
    hide FittingDescriptors;
    buf[at + 5] := cmd;
    ghost var head := buf[..at + 6];
    assert head[at..at + 3] == old(buf[at..at + 3]);
    var piLen := PmtAddCaDescriptor(buf, at + 6, buf.Length - at - 6, p);
    n := 6 + piLen;
    assert buf[..at + 6] == head;
    ghost var tail := buf[at + 6..at + n];
    buf[at + 3], buf[at + 4] := High(piLen + 1), Low(piLen + 1);
    assert buf[at + 6..at + n] == tail;
    assert buf[..at] == head[..at] && buf[at..at + 3] == head[at..at + 3];
    assert buf[at..at + 6] == head[at..at + 3] + Put16(piLen + 1) + [cmd];
    assert buf[at..at + n] == buf[at..at + 6] + tail;
  }

  /** The loop of one place: its program's, or the kept one of a left program. */
  method WritePlace(buf: array<byte>, pos: nat, e: Entry, progs: Programs, place: nat, cmd: byte, addedOnly: bool, kept: bool)
    returns (end: nat)
    requires place < MAX_PMT_PER_CAPMT && pos <= buf.Length
    modifies buf
    ensures buf[..pos] == old(buf[..pos]) && pos <= end <= buf.Length
    ensures buf[pos..end] == FittingPlace(e, progs, place, cmd, addedOnly, kept, buf.Length - pos)
  {
    hide FittingLoop;
    var id := e.ids[place];
    if id in progs {
      end := CapmtAddPmt(buf, pos, progs[id], cmd, addedOnly);
    } else if kept && !IsValidId(id) && 0 < |e.sent[place]| <= CAPMT_KEPT_ES_MAX && pos + |e.sent[place]| <= buf.Length {
      Store(buf, pos, e.sent[place]);
      end := pos + |e.sent[place]|;
    } else {
      end := pos;
      assert buf[pos..end] == [];
    }
  }

  lemma FourParts(s: Data, h: Data, l0: Data, l1: Data, l2: Data)
    requires s == h + l0 + l1 + l2
    ensures s == h + (l0 + l1 + l2)
    ensures var a, b := |h| + |l0|, |h| + |l0| + |l1|; s[|h|..a] == l0 && s[a..b] == l1
  {
  }

  /** create_capmt: the CAPMT of an entry, as far as it fits, and where the loop of each place ends. */
  method CreateCapmt(buf: array<byte>, e: Entry, progs: Programs, listmgmt: byte, cmd: byte, addedOnly: bool, kept: bool)
    returns (size: nat, ends: (nat, nat))
    requires buf.Length == CAPMT_SIZE
    modifies buf
    ensures 6 <= ends.0 <= ends.1 <= size <= buf.Length
    ensures var ls := FittingLoops(e, progs, cmd, addedOnly, kept);
            && buf[..size] == Header(listmgmt, e.sid, e.version) + (ls.0 + ls.1 + ls.2)
            && buf[6..ends.0] == ls.0 && buf[ends.0..ends.1] == ls.1 && buf[ends.1..size] == ls.2
    ensures EntryFits(e, progs, cmd, addedOnly, kept) ==>
              && buf[..size] == Capmt(e, progs, listmgmt, cmd, addedOnly, kept)
              && buf[6..ends.0] == PlaceLoop(e, progs, 0, cmd, addedOnly, kept)
              && buf[ends.0..ends.1] == PlaceLoop(e, progs, 1, cmd, addedOnly, kept)
              && buf[ends.1..size] == PlaceLoop(e, progs, 2, cmd, addedOnly, kept)
  {
    hide PlaceLoop, FittingPlace, EntryFits;
    Store(buf, 0, [listmgmt] + Put16(e.sid % 0x10000) + [e.version % 0x10 * 2 + 1, 0, 0]);
    ghost var h := buf[..6];
    assert h == Header(listmgmt, e.sid, e.version);
    var a := WritePlace(buf, 6, e, progs, 0, cmd, addedOnly, kept);
    ghost var l0 := buf[6..a];
    assert buf[..a] == h + l0 by { assert buf[..6] == h; }
    var b := WritePlace(buf, a, e, progs, 1, cmd, addedOnly, kept);
    ghost var l1 := buf[a..b];
    assert buf[..b] == h + l0 + l1 by { assert buf[..a] == h + l0; }
    size := WritePlace(buf, b, e, progs, 2, cmd, addedOnly, kept);
    ghost var l2 := buf[b..size];
    assert buf[..size] == h + l0 + l1 + l2 by { assert buf[..b] == h + l0 + l1; }
    FourParts(buf[..size], h, l0, l1, l2);
    assert buf[6..a] == buf[..size][6..a] && buf[a..b] == buf[..size][a..b];
    ends := (a, b);
    if EntryFits(e, progs, cmd, addedOnly, kept) { NothingIsTruncated(e, progs, cmd, addedOnly, kept); }
  }

  // ----- searching the table -----

  lemma {:induction false} FirstEntryFrom(entries: seq<Entry>, i: nat, p: Entry -> bool, k: nat)
    requires i <= k <= |entries| && (forall j :: i <= j < k ==> !p(entries[j])) && (k < |entries| ==> p(entries[k]))
    ensures FirstEntry(entries, i, p) == k
    decreases k - i
  {
  }

  // ----- the device -----

  class CaDevice {
    const id: nat
    const multiple: nat
    const capmt: array<Entry>
    /** The CAM: what it last accepted for each entry. */
    const cam: array<Option<Data>>

    ghost predicate Valid()
      reads this, cam, capmt
    {
      && capmt.Length == cam.Length <= MAX_CA_PMT && (capmt as object) != cam
      && View().Fits()
    }

    ghost function View(): Device
      reads this, cam, capmt
    {
      Device(id, multiple, capmt[..], cam[..])
    }

    constructor (id: nat, multiple: nat, maxCaPmt: nat)
      requires maxCaPmt <= MAX_CA_PMT
      ensures Valid() && fresh(capmt) && fresh(cam)
      ensures View() == Release(View()) && this.id == id && this.multiple == multiple
    {
      this.id, this.multiple := id, multiple;
      capmt := new Entry[maxCaPmt](_ => WIPED);
      cam := new Option<Data>[maxCaPmt](_ => None);
    }

    /** ca_release_pmts. */
    method CaReleasePmts()
      requires Valid()
      modifies capmt, cam
      ensures Valid() && View() == Release(old(View()))
    {
      ghost var r := Release(View());
      for i := 0 to capmt.Length
        invariant forall k :: 0 <= k < i ==> capmt[k] == WIPED && cam[k] == None
      {
        capmt[i] := WIPED;
        cam[i] := None;
      }
      assert capmt[..] == r.entries && cam[..] == r.accepted;
    }

    /** send_capmt; the CA session may be missing and the write may fail. */
    method SendCapmt(i: nat, progs: Programs, listmgmt: byte, reason: byte, force: bool, session: bool, written: bool)
      returns (rc: int)
      requires Valid() && i < capmt.Length && EntryFits(capmt[i], progs, reason, multiple != 0, true)
      modifies capmt, cam
      ensures Valid()
      ensures (View(), rc) == Send(old(View()), progs, i, listmgmt, reason, force, session && written)
    {
      hide LoopOf, Masked, Loops, Header, Rewrite;
      var buf := new byte[CAPMT_SIZE](_ => 0);
      var size, ends := CreateCapmt(buf, capmt[i], progs, listmgmt, reason, multiple != 0, true);
      if !force && capmt[i].hashValid && capmt[i].hash == Of(Masked(buf[..size])) {
        return RESULT_OK;
      }
      rc := RewriteCapmt(i, progs, listmgmt, reason, session, written);
    }

    /** The sending half of send_capmt: close the gaps, bump the version, write, and keep what was sent. */
    method RewriteCapmt(i: nat, progs: Programs, listmgmt: byte, reason: byte, session: bool, written: bool)
      returns (rc: int)
      requires Valid() && i < capmt.Length && EntryFits(capmt[i], progs, reason, multiple != 0, true)
      modifies capmt, cam
      ensures Valid()
      ensures (View(), rc) == Rewrite(old(View()), progs, i, listmgmt, reason, session && written)
    {
      hide LoopOf, Masked, Loops, Header, Entry.Compacted;
      ghost var r := Rewrite(View(), progs, i, listmgmt, reason, session && written);
      var ids := capmt[i].Compacted();
      CompactedFits(capmt[i], progs, reason, multiple != 0, (capmt[i].version + 1) % 0x10);
      var e := capmt[i].(ids := ids, version := (capmt[i].version + 1) % 0x10);
      capmt[i] := e;
      var buf := new byte[CAPMT_SIZE](_ => 0);
      var size, ends := CreateCapmt(buf, e, progs, listmgmt, reason, multiple != 0, false);
      if !session || !written {
        capmt[i] := e.(sent := [[], [], []]);
        assert capmt[..] == r.0.entries;
        return RESULT_RETRY;
      }
      cam[i] := Some(buf[..size]);
      var sent := [KeepIfFits(buf[6..ends.0]), KeepIfFits(buf[ends.0..ends.1]), KeepIfFits(buf[ends.1..size])];
      capmt[i] := e.(hash := Of(Masked(buf[..size])), hashValid := true, sent := sent);
      assert capmt[..] == r.0.entries && cam[..] == r.0.accepted;
      return RESULT_OK;
    }

    /** remove_pmt_from_device. */
    method RemovePmtFromDevice(id: int)
      requires Valid()
      modifies capmt
      ensures Valid() && View() == RemovePmt(old(View()), id)
    {
      ghost var d, r := View(), RemovePmt(View(), id);
      hide Entry.Has, Entry.Count;
      for i := 0 to capmt.Length
        invariant forall k :: 0 <= k < i ==> capmt[k] == d.entries[k].Without(id)
        invariant forall k :: i <= k < capmt.Length ==> capmt[k] == d.entries[k]
      {
        if !capmt[i].Has(id) { continue; }
        var e := capmt[i].(ids := [Blank(capmt[i].ids[0], id), Blank(capmt[i].ids[1], id), Blank(capmt[i].ids[2], id)]);
        if e.Count() == 0 {
          e := e.(hash := Bits(0), hashValid := false, sent := [[], [], []]);
        }
        capmt[i] := e;
      }
      assert capmt[..] == r.entries;
    }

    /** First entry of the table satisfying a test, or the table's length. */
    method FindEntry(p: Entry -> bool) returns (i: nat)
      requires Valid()
      ensures i == FirstEntry(capmt[..], 0, p) && i <= capmt.Length
    {
      i := 0;
      while i < capmt.Length
        invariant 0 <= i <= capmt.Length && forall k :: 0 <= k < i ==> !p(capmt[k])
      {
        if p(capmt[i]) { break; }
        i := i + 1;
      }
      FirstEntryFrom(capmt[..], 0, p, i);
    }

    /** add_pmt_to_capmt: already in, a kept place with the same streams, an empty entry, or the least
        loaded entry; -1 when there is no room. */
    method AddPmtToCapmt(progs: Programs, id: int) returns (index: int, rejoined: bool)
      requires Valid() && id in progs
      modifies capmt
      ensures Valid() && View() == AddPmt(old(View()), id, FindPlace(old(View()), progs, id))
      ensures match FindPlace(old(View()), progs, id)
              case AlreadyIn(i) => index == i && !rejoined
              case Placement(i, _, r) => index == i && rejoined == r
              case NoRoom => index == -1
    {
      hide LoopOf, Entry.Has, Entry.Count, Entry.PlaceKeeping, Entry.FreePlace, FirstEntry, LeastLoaded;
      ghost var d := View();
      rejoined := false;
      var at := FindEntry((e: Entry) => e.Has(id));
      if at < capmt.Length { return at, false; }
      var loop := LoopOf(progs[id], OK_DESCRAMBLING, multiple != 0);
      if 0 < |loop| <= CAPMT_KEPT_ES_MAX {
        at := FindEntry((e: Entry) => e.PlaceKeeping(loop) < MAX_PMT_PER_CAPMT);
        if at < capmt.Length {
          capmt[at] := capmt[at].Put(capmt[at].PlaceKeeping(loop), id);
          assert capmt[..] == AddPmt(d, id, FindPlace(d, progs, id)).entries;
          return at, true;
        }
      }
      at := FindEntry((e: Entry) => e.Count() == 0);
      if at < capmt.Length {
        capmt[at] := capmt[at].Put(0, id);
        assert capmt[..] == AddPmt(d, id, FindPlace(d, progs, id)).entries;
        return at, false;
      }
      index := -1;
      if multiple > 0 {
        index := FindLeastLoaded();
        if index >= 0 {
          PlaceOfLeastLoaded(d, index);
          capmt[index] := capmt[index].Put(capmt[index].FreePlace(), id);
          assert capmt[..] == AddPmt(d, id, FindPlace(d, progs, id)).entries;
        }
      }
    }

    /** The first of the least loaded entries below the program limit. */
    method FindLeastLoaded() returns (best: int)
      requires Valid()
      ensures best == LeastLoaded(capmt[..], capmt.Length, View().Limit())
      ensures best < capmt.Length
    {
      hide Entry.Count, Entry.KeptCount;
      var limit := if multiple + 1 < MAX_PMT_PER_CAPMT then multiple + 1 else MAX_PMT_PER_CAPMT;
      best := -1;
      for i := 0 to capmt.Length
        invariant best == LeastLoaded(capmt[..], i, limit)
      {
        if capmt[i].Count() < limit && (best < 0 || LoadBelow(capmt[i], capmt[best])) { best := i; }
      }
    }

    method GetActiveCapmts() returns (active: nat)
      requires Valid()
      ensures active == Active(capmt[..], capmt.Length)
    {
      hide Entry.Count;
      active := 0;
      for i := 0 to capmt.Length
        invariant active == Active(capmt[..], i)
      {
        if capmt[i].Count() > 0 { active := active + 1; }
      }
    }

    /** Choose the program numbers and the list management of the next send. */
    method ChooseNumbers(i: nat, progs: Programs, wasMember: bool) returns (listmgmt: byte)
      requires Valid() && i < capmt.Length && capmt[i].First() in progs
      modifies capmt
      ensures Valid() && (View(), listmgmt) == Numbered(old(View()), progs, i, wasMember)
    {
      hide Entry.Count, Entry.First;
      ghost var d := View();
      var firstSid := progs[capmt[i].First()].sid;
      var isNew := !wasMember && capmt[i].Count() == 1;
      var active := GetActiveCapmts();
      listmgmt := if active == 1 then CLM_ONLY else CLM_UPDATE;
      if listmgmt == CLM_ONLY {
        if !isNew || capmt[i].sid == firstSid { listmgmt := CLM_UPDATE; }
        if isNew { capmt[i] := capmt[i].(sid := firstSid); }
        ghost var r := Renumbered(d, i, if isNew then firstSid else d.entries[i].sid);
        for j := 0 to capmt.Length
          invariant forall k :: 0 <= k < j ==> capmt[k] == r.entries[k]
          invariant forall k :: j <= k < capmt.Length && k != i ==> capmt[k] == d.entries[k]
          invariant capmt[i] == r.entries[i]
        {
          if j != i {
            capmt[j] := capmt[j].(sid := if capmt[i].sid == SlotSid(id, j) then SlotSid(id, MAX_CA_PMT) else SlotSid(id, j));
          }
        }
        assert capmt[..] == r.entries;
      }
    }

    /** dvbca_process_pmt on an initialized device. */
    method DvbcaProcessPmt(progs: Programs, spmt: int, update: bool, session: bool, written: bool) returns (rc: int)
      requires Valid() && spmt in progs
      requires var w := FindPlace(View(), progs, spmt);
               !w.NoRoom? ==> EntryFits(AddPmt(View(), spmt, w).entries[w.index], progs, OK_DESCRAMBLING, multiple != 0, true)
      modifies capmt, cam
      ensures Valid() && (View(), rc) == Process(old(View()), progs, spmt, update, session && written)
    {
      hide FindPlace, Numbered, Send, RemovePmt, Entry.First, Entry.Has;
      ghost var d := View();
      var at := FindEntry((e: Entry) => e.Has(spmt));
      MemberIsAlreadyIn(d, progs, spmt);
      var wasMember := at < capmt.Length;
      var index, rejoined := AddPmtToCapmt(progs, spmt);
      if index < 0 { return RESULT_RETRY; }
      if capmt[index].First() !in progs { return RESULT_NORETRY; }
      NumberedFits(View(), progs, index, wasMember);
      var listmgmt := ChooseNumbers(index, progs, wasMember);
      rc := SendCapmt(index, progs, listmgmt, OK_DESCRAMBLING, !update && !rejoined, session, written);
      if rc != 0 {
        if !update { RemovePmtFromDevice(spmt); }
      }
    }

    /** dvbca_del_pmt: the last program of an entry is announced to the CAM, a partner leaves silently. */
    method DvbcaDelPmt(progs: Programs, spmt: int, session: bool, written: bool)
      requires Valid()
      requires forall i :: 0 <= i < capmt.Length && capmt[i].Has(spmt) && capmt[i].Count() == 1 ==>
                 EntryFits(capmt[i], progs, NOT_SELECTED, multiple != 0, true)
      modifies capmt, cam
      ensures Valid() && View() == Del(old(View()), progs, spmt, session && written)
    {
      hide Send, RemovePmt, Entry.Has, Entry.Count;
      var at := FindEntry((e: Entry) => e.Has(spmt));
      if at == capmt.Length { return; }
      if capmt[at].Count() == 1 {
        var rc := SendCapmt(at, progs, CLM_UPDATE, NOT_SELECTED, true, session, written);
      }
      RemovePmtFromDevice(spmt);
    }
  }

  /** Program numbers do not reach the loops. */
  lemma NumberedFits(d: Device, progs: Programs, i: nat, wasMember: bool)
    requires d.Fits() && i < |d.entries| && d.entries[i].First() in progs
    ensures EntryFits(Numbered(d, progs, i, wasMember).0.entries[i], progs, OK_DESCRAMBLING, d.multiple != 0, true)
            == EntryFits(d.entries[i], progs, OK_DESCRAMBLING, d.multiple != 0, true)
  {
    hide LoopOf, Entry.First, Entry.Count;
  }

  function KeepIfFits(loop: Data): Data { if |loop| <= CAPMT_KEPT_ES_MAX then loop else [] }

  lemma MemberIsAlreadyIn(d: Device, progs: Programs, id: int)
    requires d.Fits() && id in progs
    ensures FindPlace(d, progs, id).AlreadyIn? <==> FirstEntry(d.entries, 0, (e: Entry) => e.Has(id)) < |d.entries|
  {
  }

  lemma PlaceOfLeastLoaded(d: Device, index: int)
    requires d.Fits() && index == LeastLoaded(d.entries, |d.entries|, d.Limit()) && 0 <= index
    ensures d.entries[index].FreePlace() < MAX_PMT_PER_CAPMT
  {
  }
}
