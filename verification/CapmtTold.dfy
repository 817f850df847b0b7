/** What the CAM is told (src/ca.cpp:936-1045, 1055-1140, 1240-1420): the CAPMTs it accepts, read by section 8.4.3.4 of
    EN 50221, name the programs' streams and CA entries, under the numbers and commands meant for them. */
module CapmtTold {
  import opened Bytes
  import opened CapmtRead
  import opened CapmtRuns
  import opened CapmtSpec
  import opened CapmtTable
  import opened Wrappers

  ghost predicate AllWritable(progs: Programs) { forall id :: id in progs ==> IsWritable(progs[id]) }

  ghost predicate IsReadable(e: Entry) { forall p :: 0 <= p < 3 ==> ReadLoop(e.sent[p]).Some? }

  ghost predicate AllReadable(d: Device) { forall i :: 0 <= i < |d.entries| ==> IsReadable(d.entries[i]) }

  /** The streams of a live program, or those kept of a left one. */
  function Told(e: Entry, progs: Programs, command: byte, addedOnly: bool, place: nat): seq<Es>
    requires place < 3
  {
    var id := e.ids[place];
    if id in progs then Announced(progs[id], progs[id].streams, command, addedOnly)
    else if id < 0 && |e.sent[place]| <= 1024 && ReadLoop(e.sent[place]).Some? then ReadLoop(e.sent[place]).value
    else []
  }

  lemma PlaceReads(e: Entry, progs: Programs, command: byte, addedOnly: bool, kept: bool, place: nat)
    requires AllWritable(progs) && IsReadable(e) && place < 3 && (!kept ==> e.ids[place] in progs || e.sent[place] == [])
    ensures ReadLoop(PlaceLoop(e, progs, place, command, addedOnly, kept)) == Some(Told(e, progs, command, addedOnly, place))
  {
    hide IsWritable, LoopOf, ReadLoop, Announced;
    NothingRead();
    var id := e.ids[place];
    if id in progs { LoopReadsBack(progs[id], command, addedOnly); }
  }

  lemma LoopsRead(e: Entry, progs: Programs, command: byte, addedOnly: bool, kept: bool)
    requires AllWritable(progs) && IsReadable(e)
    requires !kept ==> forall p :: 0 <= p < 3 ==> e.ids[p] in progs || e.sent[p] == []
    ensures ReadLoop(Loops(e, progs, command, addedOnly, kept))
            == Some(Told(e, progs, command, addedOnly, 0) + Told(e, progs, command, addedOnly, 1)
                    + Told(e, progs, command, addedOnly, 2))
  {
    hide ReadLoop, PlaceLoop, Told, AllWritable, IsReadable;
    PlaceReads(e, progs, command, addedOnly, kept, 0);
    PlaceReads(e, progs, command, addedOnly, kept, 1);
    PlaceReads(e, progs, command, addedOnly, kept, 2);
    var l0, l1, l2 := PlaceLoop(e, progs, 0, command, addedOnly, kept), PlaceLoop(e, progs, 1, command, addedOnly, kept),
                      PlaceLoop(e, progs, 2, command, addedOnly, kept);
    LoopsConcat(l0, l1);
    LoopsConcat(l0 + l1, l2);
  }

  // ----- one send -----

  /** The entry's three places in a row. */
  function ToldAll(e: Entry, progs: Programs, command: byte, addedOnly: bool): seq<Es> {
    Told(e, progs, command, addedOnly, 0) + Told(e, progs, command, addedOnly, 1) + Told(e, progs, command, addedOnly, 2)
  }

  /** The entry with its programs moved to the front and nothing kept. */
  function Packed(e: Entry): Entry { e.(ids := e.Compacted(), sent := [[], [], []]) }

  /** A write carries the list management asked for, the entry's number, the next version, and the command with the
      streams of the entry's live programs. */
  lemma WriteTells(d: Device, progs: Programs, i: nat, listmgmt: byte, command: byte)
    requires d.Fits() && i < |d.entries| && AllWritable(progs)
    ensures var e, r := d.entries[i], Rewrite(d, progs, i, listmgmt, command, true).0;
            && r.accepted[i].Some?
            && ReadCapmt(r.accepted[i].value)
               == Some(CaPmt(listmgmt, e.sid % 0x10000, (e.version + 1) % 0x10, true,
                             ToldAll(Packed(e), progs, command, d.AddedOnly())))
            && IsReadable(r.entries[i])
  {
    hide LoopOf, Header, ReadLoop, ReadCapmt, Told, IsWritable, Loops, KeptOf, Entry.Compacted;
    var e := d.entries[i];
    var e1 := e.(ids := e.Compacted(), version := (e.version + 1) % 0x10);
    PackedReads(e, e1, progs, command, d.AddedOnly());
    var body := Loops(e1, progs, command, d.AddedOnly(), false);
    HeaderReads(listmgmt, e.sid, e1.version, body);
    assert e1.version % 0x10 == e1.version;
    assert forall p :: 0 <= p < 3 ==> ReadLoop(KeptOf(e1, progs, p, command, d.AddedOnly())).Some?;
  }

  lemma PackedReads(e: Entry, e1: Entry, progs: Programs, command: byte, addedOnly: bool)
    requires AllWritable(progs) && e1.ids == e.Compacted()
    ensures ReadLoop(Loops(e1, progs, command, addedOnly, false)) == Some(ToldAll(Packed(e), progs, command, addedOnly))
    ensures forall p :: 0 <= p < 3 ==> ReadLoop(KeptOf(e1, progs, p, command, addedOnly)).Some?
  {
    hide LoopOf, ReadLoop, Told, IsWritable, Entry.Compacted;
    NothingRead();
    LoopsRead(Packed(e), progs, command, addedOnly, false);
    forall p | 0 <= p < 3 ensures ReadLoop(KeptOf(e1, progs, p, command, addedOnly)).Some? {
      PlaceReads(Packed(e), progs, command, addedOnly, false, p);
    }
  }

  /** Two CAPMTs with the same hashed bytes read alike, but for version and list management. */
  lemma SameMaskReadsAlike(c: Data, sid: int, body: Data)
    requires |c| > 4 && Masked(c) == [0] + Put16(sid % 0x10000) + [1, 0, 0] + body && ReadLoop(body).Some?
    ensures var t := ReadCapmt(c);
            t.Some? && t.value.programNumber == sid % 0x10000 && t.value.current && t.value.streams == ReadLoop(body).value
  {
    hide ReadLoop;
    SameMaskSameBody(c, sid, body);
    var m := Masked(c);
    assert m[1] == c[1] && m[2] == c[2] && m[4] == c[4] && m[5] == c[5];
    assert m[3] == c[3] / 0x40 * 0x40 + c[3] % 2 && m[3] == 1;
    assert Get16(c, 1) == sid % 0x10000 && Get16(c, 4) == 0 && c[3] % 2 == 1;
  }

  /** After a send that reports success, written or suppressed, the CAM's last CAPMT for the entry reads as its number and
      the streams of its programs, with the command to descramble. */
  lemma SendTells(d: Device, progs: Programs, i: nat, listmgmt: byte, force: bool, ok: bool)
    requires Inv(d) && i < |d.entries| && AllWritable(progs) && IsReadable(d.entries[i])
    ensures d.Fits()
    ensures var (r, rc) := Send(d, progs, i, listmgmt, OK_DESCRAMBLING, force, ok);
            && IsReadable(r.entries[i])
            && (ok || rc != 0 || r == d) && (ok ==> rc == 0)
            && (rc == 0 ==>
                  && r.accepted[i].Some?
                  && var t := ReadCapmt(r.accepted[i].value);
                     && t.Some? && t.value.programNumber == d.entries[i].sid % 0x10000 && t.value.current
                     && t.value.streams == ToldAll(r.entries[i], progs, 1, d.AddedOnly()))
            && (rc == 0 && force ==>
                  var t := ReadCapmt(r.accepted[i].value).value;
                  t.listManagement == listmgmt && t.version == (d.entries[i].version + 1) % 0x10)
  {
    hide LoopOf, Masked, EntryOk, ReadLoop, ReadCapmt, Told, IsWritable, Entry.Compacted, Header;
    NothingRead();
    var e := d.entries[i];
    var (r, rc) := Send(d, progs, i, listmgmt, OK_DESCRAMBLING, force, ok);
    if !force && IsSuppressed(e, progs, listmgmt, OK_DESCRAMBLING, d.AddedOnly()) {
      hide Loops;
      LoopsRead(e, progs, OK_DESCRAMBLING, d.AddedOnly(), true);
      var body := Loops(e, progs, OK_DESCRAMBLING, d.AddedOnly(), true);
      MaskedCapmt(listmgmt, e.sid, e.version, body);
      SameMaskReadsAlike(d.accepted[i].value, e.sid, body);
    } else if ok {
      WriteTells(d, progs, i, listmgmt, OK_DESCRAMBLING);
      hide Loops;
      WrittenLoops(d, progs, i, listmgmt);
      LoopsRead(r.entries[i], progs, OK_DESCRAMBLING, d.AddedOnly(), true);
      HeaderReads(listmgmt, e.sid, r.entries[i].version, Loops(r.entries[i], progs, OK_DESCRAMBLING, d.AddedOnly(), true));
    }
  }

  // ----- where a program goes -----

  ghost predicate Keeps(e: Entry, place: int, loop: Data) { 0 <= place < 3 && e.ids[place] < 0 && e.sent[place] == loop }

  ghost predicate IsEmpty(e: Entry) { e.ids[0] < 0 && e.ids[1] < 0 && e.ids[2] < 0 }

  function ProgramCount(e: Entry): nat {
    (if e.ids[0] >= 0 then 1 else 0) + (if e.ids[1] >= 0 then 1 else 0) + if e.ids[2] >= 0 then 1 else 0
  }

  /** Free places whose loop is kept for a program's return. */
  function KeptPlaces(e: Entry): nat {
    (if e.ids[0] < 0 && |e.sent[0]| > 0 then 1 else 0) + (if e.ids[1] < 0 && |e.sent[1]| > 0 then 1 else 0)
    + if e.ids[2] < 0 && |e.sent[2]| > 0 then 1 else 0
  }

  /** Fewer programs, or as many and fewer kept places, or the same of both and further ahead. */
  predicate LiesLighter(d: Device, i: nat, k: nat)
    requires i < |d.entries| && k < |d.entries|
  {
    var a, b := d.entries[i], d.entries[k];
    ProgramCount(a) < ProgramCount(b)
    || (ProgramCount(a) == ProgramCount(b) && (KeptPlaces(a) < KeptPlaces(b) || (KeptPlaces(a) == KeptPlaces(b) && i < k)))
  }

  /** Entry i has room for another program: at most one more than the CAM's multiple setting, and three. */
  ghost predicate HasRoom(d: Device, i: int) {
    0 <= i < |d.entries| && ProgramCount(d.entries[i]) <= d.multiple && ProgramCount(d.entries[i]) < 3
  }

  /** The entry it is in, else a place that keeps its loop, else an empty entry, else with multiple programs allowed the
      entry with the fewest programs, among these with the fewest kept places, the first of several; and no room only when there is none of these. */
  lemma PlacementRules(d: Device, progs: Programs, id: int)
    requires d.Fits() && id in progs
    ensures var w := FindPlace(d, progs, id);
            var loop := LoopOf(progs[id], OK_DESCRAMBLING, d.AddedOnly());
            if exists i, p :: 0 <= i < |d.entries| && 0 <= p < 3 && d.entries[i].ids[p] == id
            then w.AlreadyIn? && id in d.entries[w.index].ids
            else if 0 < |loop| <= 1024 && exists i, p :: 0 <= i < |d.entries| && Keeps(d.entries[i], p, loop)
            then w.Placement? && w.rejoined && Keeps(d.entries[w.index], w.place, loop)
            else if exists i :: 0 <= i < |d.entries| && IsEmpty(d.entries[i])
            then w.Placement? && !w.rejoined && IsEmpty(d.entries[w.index]) && w.place == 0
            else if d.multiple > 0 && exists i :: HasRoom(d, i)
            then w.Placement? && !w.rejoined && HasRoom(d, w.index) && d.entries[w.index].ids[w.place] < 0
                 && forall i: nat :: HasRoom(d, i) && i != w.index ==> LiesLighter(d, w.index, i)
            else w.NoRoom?
  {
    hide LoopOf, FindPlace, Entry.Has, Entry.Count, Entry.KeptCount, Entry.PlaceKeeping, IsEmpty, ProgramCount, KeptPlaces, HasRoom, Keeps;
    var loop := LoopOf(progs[id], OK_DESCRAMBLING, d.AddedOnly());
    PlacementSteps(d, progs, id, loop);
    forall i | 0 <= i < |d.entries|
      ensures d.entries[i].Has(id) <==> exists p :: 0 <= p < 3 && d.entries[i].ids[p] == id
      ensures d.entries[i].Count() == ProgramCount(d.entries[i]) && d.entries[i].KeptCount() == KeptPlaces(d.entries[i])
      ensures d.entries[i].Count() == 0 <==> IsEmpty(d.entries[i])
      ensures d.entries[i].PlaceKeeping(loop) < 3 <==> exists p :: Keeps(d.entries[i], p, loop)
      ensures d.entries[i].PlaceKeeping(loop) < 3 ==> Keeps(d.entries[i], d.entries[i].PlaceKeeping(loop), loop)
      ensures d.entries[i].Count() < d.Limit() <==> HasRoom(d, i)
      ensures d.entries[i].Count() < d.Limit() ==> d.entries[i].FreePlace() < 3 && d.entries[i].ids[d.entries[i].FreePlace()] < 0
    {
      EntryWords(d, i, loop, id);
    }
    forall i | HasRoom(d, i) ensures 0 <= i < |d.entries| { RoomIsInTable(d, i); }
  }

  lemma RoomIsInTable(d: Device, i: int)
    requires HasRoom(d, i)
    ensures 0 <= i < |d.entries|
  {
  }

  /** The four searches in their order. */
  lemma PlacementSteps(d: Device, progs: Programs, id: int, loop: Data)
    requires d.Fits() && id in progs && loop == LoopOf(progs[id], OK_DESCRAMBLING, d.AddedOnly())
    ensures var w, es := FindPlace(d, progs, id), d.entries;
            if exists i :: 0 <= i < |es| && es[i].Has(id) then w.AlreadyIn? && es[w.index].Has(id)
            else if 0 < |loop| <= 1024 && exists i :: 0 <= i < |es| && es[i].PlaceKeeping(loop) < 3
            then w.Placement? && w.rejoined && es[w.index].PlaceKeeping(loop) == w.place < 3
            else if exists i :: 0 <= i < |es| && es[i].Count() == 0
            then w.Placement? && !w.rejoined && es[w.index].Count() == 0 && w.place == 0
            else if d.multiple > 0 && exists i :: 0 <= i < |es| && es[i].Count() < d.Limit()
            then w.Placement? && !w.rejoined && es[w.index].Count() < d.Limit() && w.place == es[w.index].FreePlace()
                 && (forall i :: 0 <= i < |es| && es[i].Count() < d.Limit() && i != w.index ==>
                       es[w.index].Count() < es[i].Count()
                       || (es[w.index].Count() == es[i].Count()
                           && (es[w.index].KeptCount() < es[i].KeptCount()
                               || (es[w.index].KeptCount() == es[i].KeptCount() && w.index < i))))
            else w.NoRoom?
  {
    hide LoopOf, Entry.Has, Entry.Count, Entry.KeptCount, Entry.PlaceKeeping, Entry.FreePlace;
  }

  lemma EntryWords(d: Device, i: nat, loop: Data, id: int)
    requires i < |d.entries| && IsValidId(id)
    ensures d.entries[i].Has(id) <==> exists p :: 0 <= p < 3 && d.entries[i].ids[p] == id
    ensures d.entries[i].Count() == ProgramCount(d.entries[i]) && d.entries[i].KeptCount() == KeptPlaces(d.entries[i])
    ensures d.entries[i].Count() == 0 <==> IsEmpty(d.entries[i])
    ensures d.entries[i].PlaceKeeping(loop) < 3 <==> exists p :: Keeps(d.entries[i], p, loop)
    ensures d.entries[i].PlaceKeeping(loop) < 3 ==> Keeps(d.entries[i], d.entries[i].PlaceKeeping(loop), loop)
    ensures d.entries[i].Count() < d.Limit() <==> HasRoom(d, i)
    ensures d.entries[i].Count() < d.Limit() ==> d.entries[i].FreePlace() < 3 && d.entries[i].ids[d.entries[i].FreePlace()] < 0
  {
    var e := d.entries[i];
    assert Keeps(e, 0, loop) || Keeps(e, 1, loop) || Keeps(e, 2, loop) <==> exists p :: Keeps(e, p, loop);
    assert e.ids[0] == id || e.ids[1] == id || e.ids[2] == id <==> exists p :: 0 <= p < 3 && e.ids[p] == id;
  }

  // ----- registering -----

  ghost predicate IsPart(part: seq<Es>, whole: seq<Es>) { exists a, b :: whole == a + part + b }

  lemma ToldHas(e: Entry, progs: Programs, command: byte, addedOnly: bool, id: int)
    requires e.Has(id) && id in progs
    ensures IsPart(Announced(progs[id], progs[id].streams, command, addedOnly), ToldAll(e, progs, command, addedOnly))
  {
    hide Announced, ReadLoop;
    var t0, t1, t2 := Told(e, progs, command, addedOnly, 0), Told(e, progs, command, addedOnly, 1), Told(e, progs, command, addedOnly, 2);
    if e.ids[0] == id {
      assert t0 + t1 + t2 == [] + t0 + (t1 + t2);
    } else if e.ids[1] == id {
      assert t0 + t1 + t2 == t0 + t1 + t2;
    } else {
      assert t0 + t1 + t2 == (t0 + t1) + t2 + [];
    }
  }

  /** The CAM's last CAPMT for entry i reads as the entry's number and its programs' streams, to be descrambled. */
  ghost predicate IsTold(d: Device, progs: Programs, i: int) {
    && 0 <= i < |d.entries| == |d.accepted| && d.accepted[i].Some?
    && var t := ReadCapmt(d.accepted[i].value);
       && t.Some? && t.value.programNumber == d.entries[i].sid % 0x10000 && t.value.current
       && t.value.streams == ToldAll(d.entries[i], progs, 1, d.AddedOnly())
  }

  lemma NewNumbersRead(d: Device, r: Device)
    requires AllReadable(d) && |r.entries| == |d.entries|
    requires forall j :: 0 <= j < |d.entries| ==> r.entries[j] == d.entries[j].(sid := r.entries[j].sid)
    ensures AllReadable(r)
  {
    hide ReadLoop;
    forall j | 0 <= j < |r.entries| ensures IsReadable(r.entries[j]) { assert IsReadable(d.entries[j]); }
  }

  lemma PlacedIsReadable(d: Device, progs: Programs, id: int)
    requires d.Fits() && id in progs && AllReadable(d)
    ensures AllReadable(AddPmt(d, id, FindPlace(d, progs, id)))
  {
    hide ReadLoop, FindPlace;
    var w := FindPlace(d, progs, id);
    if w.Placement? { assert IsReadable(d.entries[w.index]); }
  }

  lemma RemovedIsReadable(d: Device, id: int)
    requires d.Fits() && AllReadable(d)
    ensures AllReadable(RemovePmt(d, id))
  {
    hide ReadLoop;
    NothingRead();
    forall i | 0 <= i < |d.entries| ensures IsReadable(d.entries[i].Without(id)) { assert IsReadable(d.entries[i]); }
  }

  lemma SentIsReadable(d: Device, progs: Programs, i: nat, listmgmt: byte, command: byte, force: bool, ok: bool)
    requires d.Fits() && i < |d.entries| && AllWritable(progs) && AllReadable(d)
    ensures AllReadable(Send(d, progs, i, listmgmt, command, force, ok).0)
  {
    hide ReadLoop, ReadCapmt, IsWritable, KeptOf, Entry.Compacted, Capmt, IsSuppressed, Told;
    NothingRead();
    if ok { WriteTells(d, progs, i, listmgmt, command); }
    var r := Send(d, progs, i, listmgmt, command, force, ok).0;
    forall j | 0 <= j < |d.entries| ensures IsReadable(r.entries[j]) { assert IsReadable(d.entries[j]); }
  }

  /** A registration with room whose CAPMT can be written succeeds, and success means that the CAM was told: its last
      CAPMT for the program's entry reads as that entry's programs, this one among them. A failed one leaves the program
      out, unless it was an update. */
  lemma ProcessTells(d: Device, progs: Programs, id: int, update: bool, ok: bool)
    requires Inv(d) && id in progs && AllWritable(progs) && AllReadable(d)
    ensures d.Fits()
    ensures var (r, rc) := Process(d, progs, id, update, ok); var w := FindPlace(d, progs, id);
            && AllReadable(r)
            && (rc == 0 ==> !w.NoRoom? && id in r.entries[w.index].ids && IsTold(r, progs, w.index)
                            && IsPart(Announced(progs[id], progs[id].streams, 1, d.multiple != 0),
                                      ReadCapmt(r.accepted[w.index].value).value.streams))
            && (w.NoRoom? ==> rc == 1 && r == d)
            && (!w.NoRoom? && AddPmt(d, id, w).entries[w.index].First() in progs ==>
                  (ok ==> rc == 0) && (rc != 0 && !update ==> forall i :: 0 <= i < |r.entries| ==> !r.entries[i].Has(id)))
  {
    hide Inv, FindPlace, AddPmt, Numbered, Send, RemovePmt, EntryOk, HashOk, Entry.Has, Entry.First, ReadLoop, ReadCapmt,
         Announced, IsWritable, ToldAll, IsReadable;
    FitsOf(d);
    var w := FindPlace(d, progs, id);
    if !w.NoRoom? {
      var d1 := AddPmt(d, id, w);
      AddKeepsInv(d, progs, id);
      PlacedIsReadable(d, progs, id);
      if d1.entries[w.index].First() in progs {
        NumberedKeepsInv(d1, progs, w.index, w.AlreadyIn?);
        var (d2, listmgmt) := Numbered(d1, progs, w.index, w.AlreadyIn?);
        NewNumbersRead(d1, d2);
        HasIgnoresSid(d1.entries[w.index], d2.entries[w.index].sid, id);
        var force := !update && !(w.Placement? && w.rejoined);
        SendTells(d2, progs, w.index, listmgmt, force, ok);
        SentIsReadable(d2, progs, w.index, listmgmt, OK_DESCRAMBLING, force, ok);
        SendKeepsInv(d2, progs, w.index, listmgmt, OK_DESCRAMBLING, force, ok);
        SendKeepsHas(d2, progs, w.index, listmgmt, force, ok, id);
        SendSids(d2, progs, w.index, listmgmt, OK_DESCRAMBLING, force, ok);
        var (d3, rc) := Send(d2, progs, w.index, listmgmt, OK_DESCRAMBLING, force, ok);
        RemovedIsReadable(d3, id);
        RemoveKeepsInv(d3, id);
        if rc == 0 {
          HasIsIn(d3.entries[w.index], id);
          ToldHas(d3.entries[w.index], progs, OK_DESCRAMBLING, d.AddedOnly(), id);
        }
      }
    }
  }

  lemma HasIsIn(e: Entry, id: int)
    requires e.Has(id)
    ensures id in e.ids
  {
  }

  /** The first program of a device is announced alone, under its own number: as the only program (3), or as an update (5)
      when the entry already went by that number. */
  lemma FirstProgramIsOnly(d: Device, progs: Programs, id: int)
    requires Inv(d) && id in progs && AllWritable(progs) && AllReadable(d) && NoPrograms(d) && |d.entries| > 0
    ensures d.Fits()
    ensures var r := Process(d, progs, id, false, true).0; var i := FindPlace(d, progs, id).index;
            && i < |r.entries| && r.accepted[i].Some?
            && ReadCapmt(r.accepted[i].value)
               == Some(CaPmt(if d.entries[i].sid == progs[id].sid then 5 else 3, progs[id].sid % 0x10000,
                             (d.entries[i].version + 1) % 0x10, true,
                             Announced(progs[id], progs[id].streams, 1, d.multiple != 0)))
  {
    hide Inv, HashOk, ReadLoop, ReadCapmt, Announced, IsWritable, LoopOf, Send, Entry.First;
    FitsOf(d);
    FirstOfNew(d, progs, id);
    hide FindPlace;
    var w := FindPlace(d, progs, id);
    FreshPlace(d, progs, id);
    var d1 := AddPmt(d, id, w);
    var e := d1.entries[w.index];
    OneActive(d1.entries, |d1.entries|, w.index);
    var (d2, listmgmt) := Numbered(d1, progs, w.index, false);
    WriteTells(d2, progs, w.index, listmgmt, OK_DESCRAMBLING);
    OneProgram(d2.entries[w.index], progs, OK_DESCRAMBLING, d.AddedOnly(), id);
    ForcedIsWritten(d2, progs, w.index, listmgmt, OK_DESCRAMBLING);
  }

  lemma FreshPlace(d: Device, progs: Programs, id: int)
    requires Inv(d) && id in progs && NoPrograms(d) && |d.entries| > 0
    ensures var w := FindPlace(d, progs, id);
            && w.Placement? && !w.rejoined && w.place == 0 && d.entries[w.index].ids[1] < 0 && d.entries[w.index].ids[2] < 0
            && AddPmt(d, id, w).entries[w.index].Count() == 1
  {
    hide LoopOf, HashOk;
    assert forall i :: 0 <= i < |d.entries| ==> EntryOk(d.entries[i], d.Limit());
  }

  lemma ForcedIsWritten(d: Device, progs: Programs, i: nat, listmgmt: byte, command: byte)
    requires d.Fits() && i < |d.entries|
    ensures Send(d, progs, i, listmgmt, command, true, true) == Rewrite(d, progs, i, listmgmt, command, true)
  {
    hide Capmt, KeptOf;
  }

  /** The announcement of an entry with one program. */
  lemma OneProgram(e: Entry, progs: Programs, command: byte, addedOnly: bool, id: int)
    requires e.Has(id) && e.Count() == 1 && id in progs
    ensures ToldAll(Packed(e), progs, command, addedOnly) == Announced(progs[id], progs[id].streams, command, addedOnly)
  {
    hide Announced, ReadLoop;
    CompactedIs(e);
    NothingRead();
    var a := Announced(progs[id], progs[id].streams, command, addedOnly);
    assert a + [] + [] == a;
  }

  /** While another entry carries a program, a registration is announced as an update under the entry's number. */
  lemma LaterProgramIsUpdate(d: Device, progs: Programs, id: int, j: nat)
    requires Inv(d) && id in progs && AllWritable(progs) && AllReadable(d)
    requires var w := FindPlace(d, progs, id);
             && w.Placement? && !w.rejoined && j < |d.entries| && j != w.index && d.entries[j].Count() > 0
             && AddPmt(d, id, w).entries[w.index].First() in progs
    ensures d.Fits()
    ensures var r := Process(d, progs, id, false, true).0; var i := FindPlace(d, progs, id).index;
            && r.accepted[i].Some? && ReadCapmt(r.accepted[i].value).Some?
            && var t := ReadCapmt(r.accepted[i].value).value;
               t.listManagement == 5 && t.programNumber == d.entries[i].sid % 0x10000
  {
    hide Inv, FindPlace, AddPmt, Send, RemovePmt, EntryOk, HashOk, Entry.Has, Entry.First, Entry.Count, ReadLoop, ReadCapmt,
         Announced, IsWritable, ToldAll, IsReadable;
    FitsOf(d);
    var w := FindPlace(d, progs, id);
    PlacedProgram(d, progs, id);
    var d1 := AddPmt(d, id, w);
    ActiveIsAlone(d1.entries, |d1.entries|, w.index, j);
    var (d2, listmgmt) := Numbered(d1, progs, w.index, false);
    WriteTells(d2, progs, w.index, listmgmt, OK_DESCRAMBLING);
    ForcedIsWritten(d2, progs, w.index, listmgmt, OK_DESCRAMBLING);
  }

  // ----- leaving -----

  /** The last program of an entry is announced to the CAM as no longer selected (4), in an update (5). */
  lemma LastLeaveIsTold(d: Device, progs: Programs, id: int, at: nat)
    requires Inv(d) && id in progs && AllWritable(progs)
    requires at < |d.entries| && d.entries[at].Has(id) && d.entries[at].Count() == 1
    ensures d.Fits()
    ensures var e, r := d.entries[at], Del(d, progs, id, true);
            && r.accepted[at].Some?
            && ReadCapmt(r.accepted[at].value)
               == Some(CaPmt(5, e.sid % 0x10000, (e.version + 1) % 0x10, true,
                             Announced(progs[id], progs[id].streams, 4, d.multiple != 0)))
  {
    hide Inv, ReadLoop, ReadCapmt, Announced, IsWritable, Send, Entry.Has, Entry.Count, Entry.Without;
    FitsOf(d);
    FoundAt(d, id, at);
    WriteTells(d, progs, at, CLM_UPDATE, NOT_SELECTED);
    ForcedIsWritten(d, progs, at, CLM_UPDATE, NOT_SELECTED);
    OneProgram(d.entries[at], progs, NOT_SELECTED, d.AddedOnly(), id);
  }

  lemma FoundAt(d: Device, id: int, at: nat)
    requires Inv(d) && at < |d.entries| && d.entries[at].Has(id)
    ensures FirstEntry(d.entries, 0, (e: Entry) => e.Has(id)) == at
  {
    hide Entry.Has, EntryOk, HashOk;
    assert Unique(d.entries);
    var k := FirstEntry(d.entries, 0, (e: Entry) => e.Has(id));
    assert k < |d.entries| ==> d.entries[k].Has(id);
  }

  /** A partner leaves silently, and whoever leaves, the CAM hears nothing about other entries. */
  lemma PartnersLeaveSilently(d: Device, progs: Programs, id: int, ok: bool, i: nat)
    requires Inv(d) && i < |d.entries|
    requires !d.entries[i].Has(id) || d.entries[i].Count() >= 2
    ensures d.Fits() && Del(d, progs, id, ok).accepted[i] == d.accepted[i] && !Del(d, progs, id, ok).entries[i].Has(id)
  {
    hide Inv, EntryOk, HashOk, Send, Entry.Has, Entry.Count, Entry.Without;
    FitsOf(d);
    var at := FirstEntry(d.entries, 0, (e: Entry) => e.Has(id));
    if d.entries[i].Has(id) { FoundAt(d, id, i); }
    if at < |d.entries| {
      if d.entries[at].Count() == 1 {
        OnlyItsEntry(d, progs, at, CLM_UPDATE, NOT_SELECTED, ok);
        SendKeepsInv(d, progs, at, CLM_UPDATE, NOT_SELECTED, true, ok);
        RemoveKeepsInv(Send(d, progs, at, CLM_UPDATE, NOT_SELECTED, true, ok).0, id);
      } else {
        RemoveKeepsInv(d, id);
      }
    }
  }

  lemma OnlyItsEntry(d: Device, progs: Programs, at: nat, listmgmt: byte, command: byte, ok: bool)
    requires d.Fits() && at < |d.entries|
    ensures forall j :: 0 <= j < |d.entries| && j != at ==>
              Send(d, progs, at, listmgmt, command, true, ok).0.accepted[j] == d.accepted[j]
  {
    hide Capmt, KeptOf;
  }

  // ----- runs -----

  ghost predicate WritesFit(ev: Event) {
    match ev
    case Join(progs, _, _, _) => AllWritable(progs)
    case Leave(progs, _, _) => AllWritable(progs)
    case Wipe => true
  }

  lemma DelIsReadable(d: Device, progs: Programs, id: int, ok: bool)
    requires d.Fits() && AllWritable(progs) && AllReadable(d)
    ensures AllReadable(Del(d, progs, id, ok))
  {
    hide Send, RemovePmt, AllReadable, AllWritable, Entry.Has, Entry.Count;
    var at := FirstEntry(d.entries, 0, (e: Entry) => e.Has(id));
    if at < |d.entries| {
      SentIsReadable(d, progs, at, CLM_UPDATE, NOT_SELECTED, true, ok);
      RemovedIsReadable(Send(d, progs, at, CLM_UPDATE, NOT_SELECTED, true, ok).0, id);
      RemovedIsReadable(d, id);
    }
  }

  lemma WipedIsReadable(d: Device)
    requires d.Fits()
    ensures AllReadable(Release(d))
  {
    hide ReadLoop;
    NothingRead();
  }

  /** Over every run from a wiped table with values that fit their fields, all kept loops read as streams, so that what is
      said of one registration above holds at every point of it. */
  lemma {:induction false} RunIsReadable(d: Device, events: seq<Event>)
    requires d.Fits() && AllCanHappen(events) && forall k :: 0 <= k < |events| ==> WritesFit(events[k])
    ensures Inv(Run(Release(d), events)) && AllReadable(Run(Release(d), events))
    decreases |events|
  {
    hide Inv, AllReadable, AllWritable, Happen;
    WipedIsInv(d);
    WipedIsReadable(d);
    RunInv(Release(d), events);
    if events != [] {
      var n := |events| - 1;
      RunIsReadable(d, events[..n]);
      HappenIsReadable(Run(Release(d), events[..n]), events[n]);
    }
  }

  lemma HappenIsReadable(d: Device, ev: Event)
    requires Inv(d) && CanHappen(ev) && WritesFit(ev) && AllReadable(d)
    ensures d.Fits() && AllReadable(Happen(d, ev))
  {
    hide Inv, Process, Del, Release, AllReadable, AllWritable;
    FitsOf(d);
    match ev
    case Join(progs, id, update, ok) => ProcessTells(d, progs, id, update, ok);
    case Leave(progs, id, ok) => DelIsReadable(d, progs, id, ok);
    case Wipe => WipedIsReadable(d);
  }
}
