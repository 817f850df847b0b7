/** Lazy leaves of the CAPMT table (src/ca.cpp:776-799, 987-1045, 1055-1140, 1351-1367): what an entry keeps of its
    last accepted CAPMT, and which events it lets pass without a write. One entry is followed; the others may do
    anything. */
module CapmtLazy {
  import opened CapmtSpec
  import opened CapmtTable
  import opened CapmtRuns
  import opened Bytes

  // ----- an entry and what it keeps -----

  /** The hashed content of a CAPMT built from the kept loops alone. */
  function KeptContent(e: Entry): Data {
    [0] + Put16(e.sid % 0x10000) + [1, 0, 0] + (e.sent[0] + e.sent[1] + e.sent[2])
  }

  /** The CAM runs exactly the loops the entry keeps. */
  predicate Calm(e: Entry) { e.hashValid && e.hash == Of(KeptContent(e)) }

  /** The programs of the entry are live, with the loops the entry keeps for them. */
  ghost predicate Current(e: Entry, progs: Programs, addedOnly: bool) {
    forall p :: 0 <= p < MAX_PMT_PER_CAPMT && IsValidId(e.ids[p]) ==>
      e.ids[p] in progs && e.sent[p] == LoopOf(progs[e.ids[p]], OK_DESCRAMBLING, addedOnly)
  }

  /** Events that leave entry i to itself: a leave that does not empty it, and a registration that finds no room, goes
      to another entry, takes a kept place of i, or is an update of one of its programs; the last two with the
      programs of i unchanged. Writes may fail or not. */
  ghost predicate Spares(d: Device, i: nat, ev: Event)
    requires d.Fits() && i < |d.entries| && CanHappen(ev)
  {
    match ev
    case Wipe => false
    case Leave(progs, id, ok) => d.entries[i].Has(id) ==> d.entries[i].Count() >= 2
    case Join(progs, id, update, ok) =>
      match FindPlace(d, progs, id)
      case NoRoom => true
      case AlreadyIn(j) => j == i ==> update && Current(d.entries[i], progs, d.AddedOnly())
      case Placement(j, _, rejoined) => j == i ==> rejoined && Current(d.entries[i], progs, d.AddedOnly())
  }

  /** Every event of the run does, where it happens. */
  ghost predicate SparesAll(d: Device, i: nat, events: seq<Event>)
    requires d.Fits() && i < |d.entries| && AllCanHappen(events)
    decreases |events|
  {
    events == []
    || var n := |events| - 1;
       SparesAll(d, i, events[..n]) && Spares(Run(d, events[..n]), i, events[n])
  }

  /** Entry i carries programs, and the CAM runs what it keeps. */
  ghost predicate AtRest(d: Device, i: nat)
    requires i < |d.entries|
  {
    d.entries[i].Count() > 0 && Calm(d.entries[i])
  }

  /** Nothing was written for entry i, and neither its version nor its number changed. */
  ghost predicate UnseenAt(d: Device, r: Device, i: nat)
    requires d.Fits() && r.Fits() && i < |d.entries| == |r.entries|
  {
    r.accepted[i] == d.accepted[i] && r.entries[i].version == d.entries[i].version && r.entries[i].sid == d.entries[i].sid
  }

  // ----- one event -----

  /** An entry at rest is not rewritten when nothing forces it. */
  lemma CalmSendIsSuppressed(d: Device, progs: Programs, i: nat, listmgmt: byte, ok: bool)
    requires d.Fits() && i < |d.entries| && EntryOk(d.entries[i], d.Limit())
    requires Calm(d.entries[i]) && Current(d.entries[i], progs, d.AddedOnly())
    ensures Send(d, progs, i, listmgmt, OK_DESCRAMBLING, false, ok) == (d, RESULT_OK)
  {
    hide LoopOf, Masked, Header;
    var e := d.entries[i];
    MaskedCapmt(listmgmt, e.sid, e.version, Loops(e, progs, OK_DESCRAMBLING, d.AddedOnly(), true));
  }

  lemma WithoutKeepsCalm(e: Entry, id: int, limit: nat)
    requires EntryOk(e, limit) && Calm(e) && e.Count() > 0 && (e.Has(id) ==> e.Count() >= 2)
    ensures var f := e.Without(id); Calm(f) && f.Count() > 0 && f.version == e.version && f.sid == e.sid
  {
  }

  /** A send to another entry. */
  lemma SendElsewhere(d: Device, progs: Programs, i: nat, j: nat, listmgmt: byte, cmd: byte, force: bool, ok: bool)
    requires d.Fits() && i < |d.entries| && j < |d.entries| && i != j
    ensures var r := Send(d, progs, j, listmgmt, cmd, force, ok).0;
            r.entries[i] == d.entries[i] && r.accepted[i] == d.accepted[i]
  {
  }

  /** A leave that does not empty entry i takes the program out of it and does nothing else to it. */
  lemma LeaveSpares(d: Device, i: nat, progs: Programs, id: int, ok: bool)
    requires d.Fits() && i < |d.entries| && (d.entries[i].Has(id) ==> d.entries[i].Count() >= 2)
    ensures var r := Del(d, progs, id, ok); r.entries[i] == d.entries[i].Without(id) && r.accepted[i] == d.accepted[i]
  {
    hide Send, Entry.Has, Entry.Count, Entry.Without;
    var at := FirstEntry(d.entries, 0, (e: Entry) => e.Has(id));
    if at < |d.entries| {
      if at != i { SendElsewhere(d, progs, i, at, CLM_UPDATE, NOT_SELECTED, true, ok); }
    } else {
      WithoutOthers(d.entries[i], id);
    }
  }

  lemma WithoutOthers(e: Entry, id: int)
    requires !e.Has(id)
    ensures e.Without(id) == e
  {
  }

  /** Choosing program numbers leaves an active entry alone, unless it is the one that starts fresh. */
  lemma NumberedSpares(d: Device, progs: Programs, i: nat, j: nat, wasMember: bool)
    requires d.Fits() && i < |d.entries| && j < |d.entries| && d.entries[j].First() in progs
    requires d.entries[i].Count() > 0 && d.entries[j].Count() > 0 && (i == j ==> wasMember || d.entries[i].Count() > 1)
    ensures var r := Numbered(d, progs, j, wasMember).0; r.entries[i] == d.entries[i] && r.accepted == d.accepted
  {
    hide Entry.First, Entry.Count;
    if i != j { ActiveIsAlone(d.entries, |d.entries|, i, j); }
  }

  lemma PutKeepsCalm(e: Entry, place: nat, id: int)
    requires Calm(e) && place < MAX_PMT_PER_CAPMT
    ensures var f := e.Put(place, id); Calm(f) && f.version == e.version && f.sid == e.sid && f.sent == e.sent
  {
  }

  lemma PutKeepsCurrent(e: Entry, progs: Programs, addedOnly: bool, place: nat, id: int)
    requires Current(e, progs, addedOnly) && place < MAX_PMT_PER_CAPMT && id in progs
    requires e.sent[place] == LoopOf(progs[id], OK_DESCRAMBLING, addedOnly)
    ensures Current(e.Put(place, id), progs, addedOnly)
  {
    hide LoopOf;
  }

  lemma FirstIsLive(e: Entry, progs: Programs, addedOnly: bool)
    requires Current(e, progs, addedOnly) && e.Count() > 0
    ensures e.First() in progs
  {
  }

  /** A kept place found is one that keeps exactly the program's loop. */
  lemma RejoinedPlace(d: Device, progs: Programs, id: int)
    requires d.Fits() && id in progs && FindPlace(d, progs, id).Placement? && FindPlace(d, progs, id).rejoined
    ensures var w := FindPlace(d, progs, id);
            d.entries[w.index].sent[w.place] == LoopOf(progs[id], OK_DESCRAMBLING, d.AddedOnly())
  {
    hide LoopOf;
  }

  /** A registration into another entry. */
  lemma JoinElsewhere(d: Device, i: nat, progs: Programs, id: int, update: bool, ok: bool)
    requires Inv(d) && d.Fits() && i < |d.entries| && d.entries[i].Count() > 0 && id in progs
    requires var w := FindPlace(d, progs, id); !w.NoRoom? && w.index != i
    ensures var r := Process(d, progs, id, update, ok).0; r.entries[i] == d.entries[i] && r.accepted[i] == d.accepted[i]
  {
    hide FindPlace, AddPmt, Numbered, Send, EntryOk, HashOk, Entry.Count, Entry.First, Entry.Has, Entry.Without;
    var w := FindPlace(d, progs, id);
    PlacedProgram(d, progs, id);
    NotIn(d, progs, i, id);
    WithoutOthers(d.entries[i], id);
    var d1 := AddPmt(d, id, w);
    if d1.entries[w.index].First() in progs {
      NumberedSpares(d1, progs, i, w.index, w.AlreadyIn?);
      var (d2, listmgmt) := Numbered(d1, progs, w.index, w.AlreadyIn?);
      var force := !update && !(w.Placement? && w.rejoined);
      SendElsewhere(d2, progs, i, w.index, listmgmt, OK_DESCRAMBLING, force, ok);
    }
  }

  lemma NotIn(d: Device, progs: Programs, i: nat, id: int)
    requires Inv(d) && i < |d.entries| && id in progs
    requires var w := FindPlace(d, progs, id); !w.NoRoom? && w.index != i
    ensures !d.entries[i].Has(id)
  {
    hide EntryOk, HashOk, Entry.Has, LoopOf;
  }

  /** A program back in one of the entry's kept places, or an update of one it carries. */
  lemma JoinHere(d: Device, i: nat, progs: Programs, id: int, update: bool, ok: bool)
    requires Inv(d) && d.Fits() && i < |d.entries| && AtRest(d, i) && id in progs
    requires Current(d.entries[i], progs, d.AddedOnly())
    requires match FindPlace(d, progs, id)
             case NoRoom => false
             case AlreadyIn(j) => j == i && update
             case Placement(j, _, rejoined) => j == i && rejoined
    ensures var (r, rc) := Process(d, progs, id, update, ok);
            AtRest(r, i) && UnseenAt(d, r, i) && rc == RESULT_OK && Current(r.entries[i], progs, d.AddedOnly())
  {
    hide FindPlace, Numbered, Send, EntryOk, HashOk, Calm, Current, Entry.Count, Entry.First, Entry.Has, Entry.Put;
    var w := FindPlace(d, progs, id);
    PlacedProgram(d, progs, id);
    AddKeepsInv(d, progs, id);
    var d1 := AddPmt(d, id, w);
    if w.Placement? {
      RejoinedPlace(d, progs, id);
      PutKeepsCalm(d.entries[i], w.place, id);
      PutKeepsCurrent(d.entries[i], progs, d.AddedOnly(), w.place, id);
    }
    FirstIsLive(d1.entries[i], progs, d.AddedOnly());
    NumberedSpares(d1, progs, i, i, w.AlreadyIn?);
    var (d2, listmgmt) := Numbered(d1, progs, i, w.AlreadyIn?);
    CalmSendIsSuppressed(d2, progs, i, listmgmt, ok);
  }

  lemma EventSpares(d: Device, i: nat, ev: Event)
    requires Inv(d) && d.Fits() && i < |d.entries| && AtRest(d, i) && CanHappen(ev) && Spares(d, i, ev)
    ensures AtRest(Happen(d, ev), i) && UnseenAt(d, Happen(d, ev), i)
  {
    hide Calm, EntryOk, HashOk, FindPlace, Current, Del, Process, Entry.Has, Entry.Count, Entry.Without;
    match ev
    case Leave(progs, id, ok) =>
      LeaveSpares(d, i, progs, id, ok);
      WithoutKeepsCalm(d.entries[i], id, d.Limit());
    case Join(progs, id, update, ok) =>
      var w := FindPlace(d, progs, id);
      if w.NoRoom? { NoRoomChangesNothing(d, progs, id, update, ok); }
      else if w.index == i { JoinHere(d, i, progs, id, update, ok); }
      else { JoinElsewhere(d, i, progs, id, update, ok); }
  }

  lemma NoRoomChangesNothing(d: Device, progs: Programs, id: int, update: bool, ok: bool)
    requires d.Fits() && id in progs && FindPlace(d, progs, id).NoRoom?
    ensures Process(d, progs, id, update, ok) == (d, RESULT_RETRY)
  {
    hide FindPlace;
  }

  // ----- runs -----

  /** Whatever the other entries do, events that leave entry i to itself cause no write to it, no new version and no
      new number. */
  lemma {:induction false} LazyLeavesAreUnseen(d: Device, i: nat, events: seq<Event>)
    requires Inv(d) && d.Fits() && i < |d.entries| && AtRest(d, i)
    requires AllCanHappen(events) && SparesAll(d, i, events)
    ensures AtRest(Run(d, events), i) && UnseenAt(d, Run(d, events), i)
    decreases |events|
  {
    hide Inv, AtRest, Spares, CanHappen, Happen;
    if events != [] {
      var n := |events| - 1;
      LazyLeavesAreUnseen(d, i, events[..n]);
      RunInv(d, events[..n]);
      EventSpares(Run(d, events[..n]), i, events[n]);
    }
  }

  /** An accepted CAPMT whose loops each fit the kept size leaves its entry calm, with its programs current. */
  lemma AcceptedIsCalm(d: Device, progs: Programs, i: nat, listmgmt: byte)
    requires Inv(d) && i < |d.entries|
    requires forall p :: 0 <= p < MAX_PMT_PER_CAPMT && IsValidId(d.entries[i].ids[p]) ==>
               d.entries[i].ids[p] in progs
               && |LoopOf(progs[d.entries[i].ids[p]], OK_DESCRAMBLING, d.AddedOnly())| <= CAPMT_KEPT_ES_MAX
    ensures var r := Send(d, progs, i, listmgmt, OK_DESCRAMBLING, true, true).0;
            && Calm(r.entries[i]) && Current(r.entries[i], progs, d.AddedOnly())
            && r.accepted[i].Some?
            && r.accepted[i].value == Header(listmgmt, d.entries[i].sid, r.entries[i].version)
                                      + (r.entries[i].sent[0] + r.entries[i].sent[1] + r.entries[i].sent[2])
  {
    hide LoopOf, EntryOk, HashOk, Header, Masked;
    var e := d.entries[i];
    var r := Send(d, progs, i, listmgmt, OK_DESCRAMBLING, true, true).0;
    CompactedIs(e);
    MaskedCapmt(listmgmt, e.sid, r.entries[i].version, r.entries[i].sent[0] + r.entries[i].sent[1] + r.entries[i].sent[2]);
  }

  /** Accepted, then any events that leave the entry to itself: the CAM's last CAPMT for it stays the accepted one. */
  lemma AcceptedThenUnseen(d: Device, progs: Programs, i: nat, listmgmt: byte, events: seq<Event>)
    requires Inv(d) && d.Fits() && i < |d.entries| && d.entries[i].Count() > 0
    requires forall p :: 0 <= p < MAX_PMT_PER_CAPMT && IsValidId(d.entries[i].ids[p]) ==>
               d.entries[i].ids[p] in progs
               && |LoopOf(progs[d.entries[i].ids[p]], OK_DESCRAMBLING, d.AddedOnly())| <= CAPMT_KEPT_ES_MAX
    requires AllCanHappen(events) && SparesAll(Send(d, progs, i, listmgmt, OK_DESCRAMBLING, true, true).0, i, events)
    ensures var sent := Send(d, progs, i, listmgmt, OK_DESCRAMBLING, true, true).0;
            sent.accepted[i].Some? && UnseenAt(sent, Run(sent, events), i)
  {
    hide Inv, LoopOf, EntryOk, HashOk, Calm, SparesAll, Entry.Count;
    var sent := Send(d, progs, i, listmgmt, OK_DESCRAMBLING, true, true).0;
    AcceptedIsCalm(d, progs, i, listmgmt);
    SendKeepsInv(d, progs, i, listmgmt, OK_DESCRAMBLING, true, true);
    SentCount(d, progs, i, listmgmt);
    LazyLeavesAreUnseen(sent, i, events);
  }

  lemma SentCount(d: Device, progs: Programs, i: nat, listmgmt: byte)
    requires Inv(d) && i < |d.entries|
    ensures Send(d, progs, i, listmgmt, OK_DESCRAMBLING, true, true).0.entries[i].Count() == d.entries[i].Count()
  {
    hide Send, EntryOk, HashOk, Entry.Count;
    SentEntry(d, progs, i, listmgmt, OK_DESCRAMBLING, true, true);
  }

  // ----- zapping: which runs leave an entry to itself -----

  /** A program that some entry has just let go of, with its loop as it was, comes back. */
  ghost predicate Returns(d: Device, progs: Programs, id: int) {
    && id in progs && (forall j :: 0 <= j < |d.entries| ==> !d.entries[j].Has(id))
    && var loop := LoopOf(progs[id], OK_DESCRAMBLING, d.AddedOnly());
       0 < |loop| <= CAPMT_KEPT_ES_MAX
       && exists j :: 0 <= j < |d.entries| && d.entries[j].PlaceKeeping(loop) < MAX_PMT_PER_CAPMT
  }

  /** A returning program takes a kept place. */
  lemma BackTakesKeptPlace(d: Device, progs: Programs, id: int)
    requires d.Fits() && Returns(d, progs, id)
    ensures var w := FindPlace(d, progs, id);
            && w.Placement? && w.rejoined
            && d.entries[w.index].sent[w.place] == LoopOf(progs[id], OK_DESCRAMBLING, d.AddedOnly())
  {
    hide LoopOf;
  }

  /** Zapping with unchanged programs: leaves that do not empty entry i, and programs coming back to the places that
      keep them. */
  ghost predicate IsZap(d: Device, progs: Programs, i: nat, ev: Event)
    requires d.Fits() && i < |d.entries|
  {
    match ev
    case Wipe => false
    case Leave(_, id, _) => d.entries[i].Has(id) ==> d.entries[i].Count() >= 2
    case Join(ps, id, update, _) => ps == progs && !update && Returns(d, progs, id)
  }

  ghost predicate AllZaps(d: Device, progs: Programs, i: nat, events: seq<Event>)
    requires d.Fits() && i < |d.entries| && AllCanHappen(events)
    decreases |events|
  {
    events == []
    || var n := |events| - 1;
       AllZaps(d, progs, i, events[..n]) && IsZap(Run(d, events[..n]), progs, i, events[n])
  }

  lemma WithoutKeepsCurrent(e: Entry, progs: Programs, addedOnly: bool, id: int)
    requires Current(e, progs, addedOnly) && (e.Has(id) ==> e.Count() >= 2)
    requires forall p, q | 0 <= p < q < MAX_PMT_PER_CAPMT && IsValidId(e.ids[p]) :: e.ids[p] != e.ids[q]
    ensures Current(e.Without(id), progs, addedOnly)
  {
    hide LoopOf;
  }

  lemma ZapSpares(d: Device, progs: Programs, i: nat, ev: Event)
    requires Inv(d) && d.Fits() && i < |d.entries| && AtRest(d, i) && Current(d.entries[i], progs, d.AddedOnly())
    requires CanHappen(ev) && IsZap(d, progs, i, ev)
    ensures Spares(d, i, ev) && Current(Happen(d, ev).entries[i], progs, d.AddedOnly())
  {
    hide Calm, EntryOk, HashOk, FindPlace, Current, Del, Process, Returns, Entry.Has, Entry.Count, Entry.Without;
    match ev
    case Leave(ps, id, ok) =>
      LeaveSpares(d, i, ps, id, ok);
      DistinctPlaces(d, i);
      WithoutKeepsCurrent(d.entries[i], progs, d.AddedOnly(), id);
    case Join(ps, id, update, ok) =>
      BackTakesKeptPlace(d, progs, id);
      if FindPlace(d, progs, id).index == i { JoinHere(d, i, progs, id, update, ok); }
      else { JoinElsewhere(d, i, progs, id, update, ok); }
  }

  lemma DistinctPlaces(d: Device, i: nat)
    requires Inv(d) && i < |d.entries|
    ensures forall p, q | 0 <= p < q < MAX_PMT_PER_CAPMT && IsValidId(d.entries[i].ids[p]) ::
              d.entries[i].ids[p] != d.entries[i].ids[q]
  {
    assert EntryOk(d.entries[i], d.Limit());
  }

  lemma {:induction false} ZapsSpare(d: Device, progs: Programs, i: nat, events: seq<Event>)
    requires Inv(d) && d.Fits() && i < |d.entries| && AtRest(d, i) && Current(d.entries[i], progs, d.AddedOnly())
    requires AllCanHappen(events) && AllZaps(d, progs, i, events)
    ensures SparesAll(d, i, events) && Current(Run(d, events).entries[i], progs, d.AddedOnly())
    decreases |events|
  {
    hide Inv, AtRest, Spares, IsZap, CanHappen, Current, Happen;
    if events != [] {
      var n := |events| - 1;
      ZapsSpare(d, progs, i, events[..n]);
      LazyLeavesAreUnseen(d, i, events[..n]);
      RunInv(d, events[..n]);
      ZapSpares(Run(d, events[..n]), progs, i, events[n]);
    }
  }

  /** Accepted, then any zapping: while programs leave without emptying entry i and come back with unchanged loops, the
      CAM sees no write and no new version for it, whatever the other entries carry and whether or not their
      writes succeed. */
  lemma ZapsAreUnseen(d: Device, progs: Programs, i: nat, listmgmt: byte, events: seq<Event>)
    requires Inv(d) && d.Fits() && i < |d.entries| && d.entries[i].Count() > 0
    requires forall p :: 0 <= p < MAX_PMT_PER_CAPMT && IsValidId(d.entries[i].ids[p]) ==>
               d.entries[i].ids[p] in progs
               && |LoopOf(progs[d.entries[i].ids[p]], OK_DESCRAMBLING, d.AddedOnly())| <= CAPMT_KEPT_ES_MAX
    requires AllCanHappen(events) && AllZaps(Send(d, progs, i, listmgmt, OK_DESCRAMBLING, true, true).0, progs, i, events)
    ensures var sent := Send(d, progs, i, listmgmt, OK_DESCRAMBLING, true, true).0;
            sent.accepted[i].Some? && UnseenAt(sent, Run(sent, events), i)
  {
    hide Inv, LoopOf, EntryOk, HashOk, Calm, Current, AllZaps, SparesAll, Entry.Count;
    var sent := Send(d, progs, i, listmgmt, OK_DESCRAMBLING, true, true).0;
    AcceptedIsCalm(d, progs, i, listmgmt);
    SendKeepsInv(d, progs, i, listmgmt, OK_DESCRAMBLING, true, true);
    SentCount(d, progs, i, listmgmt);
    ZapsSpare(sent, progs, i, events);
    AcceptedThenUnseen(d, progs, i, listmgmt, events);
  }
}
