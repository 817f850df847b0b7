/** What holds over whole runs of a CAM's CAPMT table: delivery and program numbers. */
module CapmtRuns {
  import opened CapmtSpec
  import opened CapmtTable
  import opened Bytes

  // ----- delivery after dvbca_process_pmt -----

  /** Whenever dvbca_process_pmt returns 0 the program is in an entry whose last accepted CAPMT carries
      the current stream loop of every program of that entry. */
  lemma ProcessDelivers(d: Device, progs: Programs, id: int, update: bool, ok: bool)
    requires Inv(d) && id in progs
    ensures var (r, rc) := Process(d, progs, id, update, ok);
            rc == RESULT_OK ==> exists i :: 0 <= i < |r.entries| && r.entries[i].Has(id) && Delivered(r, progs, i)
  {
    hide Inv, FindPlace, AddPmt, Numbered, Send, RemovePmt, Delivered, Entry.Has;
    FitsOf(d);
    var (r, rc) := Process(d, progs, id, update, ok);
    var where := FindPlace(d, progs, id);
    if rc == RESULT_OK && !where.NoRoom? {
      AddKeepsInv(d, progs, id);
      var d1 := AddPmt(d, id, where);
      NumberedKeepsInv(d1, progs, where.index, where.AlreadyIn?);
      var (d2, listmgmt) := Numbered(d1, progs, where.index, where.AlreadyIn?);
      HasIgnoresSid(d1.entries[where.index], d2.entries[where.index].sid, id);
      var force := !update && !(where.Placement? && where.rejoined);
      SendKeepsHas(d2, progs, where.index, listmgmt, force, ok, id);
      SuccessfulSendDelivers(d2, progs, where.index, listmgmt, force, ok);
      assert r.entries[where.index].Has(id) && Delivered(r, progs, where.index);
    }
  }

  lemma HasIgnoresSid(e: Entry, sid: int, id: int)
    ensures e.(sid := sid).Has(id) <==> e.Has(id)
    ensures e.(sid := sid).Count() == e.Count()
  {
  }

  lemma SendKeepsHas(d: Device, progs: Programs, i: nat, listmgmt: byte, force: bool, ok: bool, id: int)
    requires Inv(d) && i < |d.entries|
    ensures Send(d, progs, i, listmgmt, OK_DESCRAMBLING, force, ok).0.entries[i].Has(id) <==> d.entries[i].Has(id)
  {
    hide Send, EntryOk, HashOk, Entry.Has, Entry.Count, Entry.First;
    SentEntry(d, progs, i, listmgmt, OK_DESCRAMBLING, force, ok);
  }

  // ----- runs -----

  datatype Event =
    | Join(progs: Programs, id: int, update: bool, ok: bool)
    | Leave(progs: Programs, id: int, ok: bool)
    | Wipe

  predicate CanHappen(ev: Event) { ev.Join? ==> ev.id in ev.progs }

  function Happen(d: Device, ev: Event): (r: Device)
    requires d.Fits() && CanHappen(ev)
    ensures r.Fits() && |r.entries| == |d.entries| && r.id == d.id && r.multiple == d.multiple
  {
    match ev
    case Join(progs, id, update, ok) => Process(d, progs, id, update, ok).0
    case Leave(progs, id, ok) => Del(d, progs, id, ok)
    case Wipe => Release(d)
  }

  predicate AllCanHappen(events: seq<Event>) { forall k :: 0 <= k < |events| ==> CanHappen(events[k]) }

  function Run(d: Device, events: seq<Event>): (r: Device)
    requires d.Fits() && AllCanHappen(events)
    ensures r.Fits() && |r.entries| == |d.entries| && r.id == d.id && r.multiple == d.multiple
    decreases |events|
  {
    if events == [] then d else Happen(Run(d, events[..|events| - 1]), events[|events| - 1])
  }

  lemma WipedIsInv(d: Device)
    requires d.Fits()
    ensures Inv(Release(d))
  {
  }

  lemma HappenKeepsInv(d: Device, ev: Event)
    requires Inv(d) && CanHappen(ev)
    ensures Inv(Happen(d, ev))
  {
    hide Inv, Process, Del, Release;
    FitsOf(d);
    match ev
    case Join(progs, id, update, ok) => ProcessKeepsInv(d, progs, id, update, ok);
    case Leave(progs, id, ok) => DelKeepsInv(d, progs, id, ok);
    case Wipe => WipedIsInv(d);
  }

  /** Over every run from a wiped table: no program sits in two places, no entry exceeds its program limit,
      and a valid hash is that of the last accepted content, also across failed sends. */
  lemma {:induction false} RunKeepsInv(d: Device, events: seq<Event>)
    requires d.Fits() && AllCanHappen(events)
    ensures var r := Run(Release(d), events);
            && Inv(r)
            && (forall i :: 0 <= i < |r.entries| ==> r.entries[i].Count() <= r.Limit())
            && (forall i :: 0 <= i < |r.entries| && r.entries[i].hashValid && r.accepted[i].Some? ==>
                  r.entries[i].hash == Of(Masked(r.accepted[i].value)))
    decreases |events|
  {
    hide Happen, EntryOk, Masked, Entry.Count;
    if events == [] {
      WipedIsInv(d);
    } else {
      var n := |events| - 1;
      RunKeepsInv(d, events[..n]);
      HappenKeepsInv(Run(Release(d), events[..n]), events[n]);
    }
    var r := Run(Release(d), events);
    forall i | 0 <= i < |r.entries| ensures r.entries[i].Count() <= r.Limit() {
      CountBelowLimit(r.entries[i], r.Limit());
    }
  }

  // ----- program numbers -----

  ghost predicate DistinctSids(d: Device) {
    forall i, j :: 0 <= i < j < |d.entries| ==> d.entries[i].sid != d.entries[j].sid
  }

  ghost predicate NoPrograms(d: Device) { forall i :: 0 <= i < |d.entries| ==> d.entries[i].Count() == 0 }

  /** Numbers of other entries are the device's own, kept clear of the active entry's number. */
  lemma RenumberedIsDistinct(d: Device, i: nat, sid: int)
    requires d.Fits() && i < |d.entries|
    ensures DistinctSids(Renumbered(d, i, sid))
  {
  }

  lemma {:induction false} OneActive(entries: seq<Entry>, n: nat, i: nat)
    requires n <= |entries| && i < |entries| && entries[i].Count() > 0
    requires forall j :: 0 <= j < n && j != i ==> entries[j].Count() == 0
    ensures Active(entries, n) == if i < n then 1 else 0
  {
    hide Entry.Count;
    if n > 0 { OneActive(entries, n - 1, i); }
  }

  /** The only active entry is the given one when exactly one is active. */
  lemma {:induction false} ActiveIsAlone(entries: seq<Entry>, n: nat, i: nat, j: nat)
    requires i < n <= |entries| && j < n && i != j && entries[i].Count() > 0 && entries[j].Count() > 0
    ensures Active(entries, n) >= 2
  {
    hide Entry.Count;
    if i < n - 1 && j < n - 1 {
      ActiveIsAlone(entries, n - 1, i, j);
    } else {
      ActiveIsPositive(entries, n - 1, if i < n - 1 then i else j);
    }
  }

  lemma {:induction false} ActiveIsPositive(entries: seq<Entry>, n: nat, i: nat)
    requires i < n <= |entries| && entries[i].Count() > 0
    ensures Active(entries, n) >= 1
  {
    hide Entry.Count;
    if i < n - 1 { ActiveIsPositive(entries, n - 1, i); }
  }

  /** An update or join renumbers only entries without programs, and keeps all numbers different. */
  lemma NumberedSids(d: Device, progs: Programs, i: nat, wasMember: bool)
    requires d.Fits() && i < |d.entries| && d.entries[i].First() in progs && d.entries[i].Count() > 0
    ensures var r := Numbered(d, progs, i, wasMember).0;
            && (DistinctSids(d) || (forall j :: 0 <= j < |d.entries| && j != i ==> d.entries[j].Count() == 0)
                ==> DistinctSids(r))
            && (forall j :: 0 <= j < |d.entries| && j != i && d.entries[j].Count() > 0 ==> r.entries[j].sid == d.entries[j].sid)
            && (wasMember || d.entries[i].Count() > 1 ==> r.entries[i].sid == d.entries[i].sid)
  {
    hide Entry.Count, Entry.First;
    if Active(d.entries, |d.entries|) == 1 {
      var e := d.entries[i];
      var sid := if !wasMember && e.Count() == 1 then progs[e.First()].sid else e.sid;
      RenumberedIsDistinct(d, i, sid);
      forall j | 0 <= j < |d.entries| && j != i ensures d.entries[j].Count() == 0 {
        if d.entries[j].Count() > 0 { ActiveIsAlone(d.entries, |d.entries|, i, j); }
      }
    } else if forall j :: 0 <= j < |d.entries| && j != i ==> d.entries[j].Count() == 0 {
      OneActive(d.entries, |d.entries|, i);
    }
  }

  lemma SendSids(d: Device, progs: Programs, i: nat, listmgmt: byte, cmd: byte, force: bool, ok: bool)
    requires d.Fits() && i < |d.entries|
    ensures var r := Send(d, progs, i, listmgmt, cmd, force, ok).0;
            forall j :: 0 <= j < |d.entries| ==> r.entries[j].sid == d.entries[j].sid
  {
  }

  lemma RemoveSids(d: Device, id: int)
    requires d.Fits()
    ensures forall j :: 0 <= j < |d.entries| ==> RemovePmt(d, id).entries[j].sid == d.entries[j].sid
  {
  }

  lemma DelSids(d: Device, progs: Programs, id: int, ok: bool)
    requires d.Fits()
    ensures var r := Del(d, progs, id, ok);
            && (forall j :: 0 <= j < |d.entries| ==> r.entries[j].sid == d.entries[j].sid)
            && (DistinctSids(d) ==> DistinctSids(r))
  {
    hide Send, RemovePmt, Entry.Has, Entry.Count;
    var at := FirstEntry(d.entries, 0, (e: Entry) => e.Has(id));
    if at < |d.entries| {
      var d1 := if d.entries[at].Count() == 1 then Send(d, progs, at, CLM_UPDATE, NOT_SELECTED, true, ok).0 else d;
      if d.entries[at].Count() == 1 { SendSids(d, progs, at, CLM_UPDATE, NOT_SELECTED, true, ok); }
      RemoveSids(d1, id);
    }
  }

  lemma PutCount(e: Entry, place: nat, id: int)
    requires place < MAX_PMT_PER_CAPMT && IsValidId(id)
    ensures var f := e.Put(place, id);
            && f.Count() == e.Count() + (if IsValidId(e.ids[place]) then 0 else 1) && f.Count() > 0
            && f.sid == e.sid && f.version == e.version && IsValidId(f.First())
  {
  }

  lemma HasCounts(e: Entry, id: int)
    ensures e.Has(id) ==> e.Count() > 0 && IsValidId(e.First())
  {
  }

  /** Placing a program changes no number and fills only the chosen entry. */
  lemma PlacedProgram(d: Device, progs: Programs, id: int)
    requires Inv(d) && id in progs && !FindPlace(d, progs, id).NoRoom?
    ensures var where := FindPlace(d, progs, id); var r := AddPmt(d, id, where);
            && r.entries[where.index].Count() > 0 && IsValidId(r.entries[where.index].First())
            && (forall j :: 0 <= j < |d.entries| ==> r.entries[j].sid == d.entries[j].sid)
            && (forall j :: 0 <= j < |d.entries| && j != where.index ==> r.entries[j] == d.entries[j])
            && (where.Placement? ==> r.entries[where.index].Count() == d.entries[where.index].Count() + 1)
  {
    hide FindPlace, Entry.Count, Entry.First, Entry.Has, Entry.Put, EntryOk, HashOk;
    var where := FindPlace(d, progs, id);
    HasCounts(d.entries[where.index], id);
    if where.Placement? {
      PlacementIsFree(d, progs, id);
      PutCount(d.entries[where.index], where.place, id);
    }
  }

  /** One registration: the number of an entry that carries a program does not change, and from the first
      registration on all numbers differ. */
  lemma ProcessSids(d: Device, progs: Programs, id: int, update: bool, ok: bool)
    requires Inv(d) && id in progs
    ensures d.Fits()
    ensures var r := Process(d, progs, id, update, ok).0;
            && (forall j :: 0 <= j < |d.entries| && d.entries[j].Count() > 0 ==> r.entries[j].sid == d.entries[j].sid)
            && (DistinctSids(d) || (NoPrograms(d) && |d.entries| > 0) ==> DistinctSids(r))
  {
    hide Inv, FindPlace, AddPmt, Numbered, Send, RemovePmt, Entry.Count, Entry.First, Entry.Has;
    FitsOf(d);
    var where := FindPlace(d, progs, id);
    if NoPrograms(d) && |d.entries| > 0 { FirstOfNew(d, progs, id); }
    if !where.NoRoom? {
      PlacedProgram(d, progs, id);
      var d1 := AddPmt(d, id, where);
      if d1.entries[where.index].First() in progs {
        NumberedSids(d1, progs, where.index, where.AlreadyIn?);
        var (d2, listmgmt) := Numbered(d1, progs, where.index, where.AlreadyIn?);
        var force := !update && !(where.Placement? && where.rejoined);
        SendSids(d2, progs, where.index, listmgmt, OK_DESCRAMBLING, force, ok);
        RemoveSids(Send(d2, progs, where.index, listmgmt, OK_DESCRAMBLING, force, ok).0, id);
      }
    }
  }

  lemma FirstOfNew(d: Device, progs: Programs, id: int)
    requires Inv(d) && id in progs && NoPrograms(d) && |d.entries| > 0
    ensures var w := FindPlace(d, progs, id); w.Placement? && AddPmt(d, id, w).entries[w.index].First() == id
  {
  }

  // ----- program numbers over runs -----

  ghost predicate IsQuietRun(events: seq<Event>) {
    AllCanHappen(events) && forall k :: 0 <= k < |events| ==> !events[k].Wipe?
  }

  lemma {:induction false} RunInv(d: Device, events: seq<Event>)
    requires Inv(d) && AllCanHappen(events)
    ensures d.Fits() && Inv(Run(d, events))
    decreases |events|
  {
    hide Happen, Inv;
    FitsOf(d);
    if events != [] {
      RunInv(d, events[..|events| - 1]);
      HappenKeepsInv(Run(d, events[..|events| - 1]), events[|events| - 1]);
    }
  }

  /** From the first registration on, the numbers of all entries stay pairwise different. */
  lemma {:induction false} NumbersStayDistinct(d: Device, first: Event, events: seq<Event>)
    requires Inv(d) && NoPrograms(d) && |d.entries| > 0
    requires first.Join? && CanHappen(first) && IsQuietRun(events)
    ensures d.Fits() && DistinctSids(Run(Happen(d, first), events))
    decreases |events|
  {
    hide Inv, Process, Del, DistinctSids, NoPrograms;
    FitsOf(d);
    if events == [] {
      ProcessSids(d, first.progs, first.id, first.update, first.ok);
    } else {
      var n := |events| - 1;
      NumbersStayDistinct(d, first, events[..n]);
      HappenKeepsInv(d, first);
      RunInv(Happen(d, first), events[..n]);
      var before := Run(Happen(d, first), events[..n]);
      match events[n]
      case Join(progs, id, update, ok) => ProcessSids(before, progs, id, update, ok);
      case Leave(progs, id, ok) => DelSids(before, progs, id, ok);
    }
  }

  /** While an entry carries a program its number does not change. */
  lemma {:induction false} NumberIsStable(d: Device, events: seq<Event>, i: nat)
    requires Inv(d) && i < |d.entries| && IsQuietRun(events)
    requires d.Fits() && forall n :: 0 <= n < |events| ==> Run(d, events[..n]).entries[i].Count() > 0
    ensures Run(d, events).entries[i].sid == d.entries[i].sid
    decreases |events|
  {
    hide Inv, Process, Del, Entry.Count;
    if events != [] {
      var n := |events| - 1;
      assert forall m :: 0 <= m < n ==> events[..n][..m] == events[..m];
      NumberIsStable(d, events[..n], i);
      RunInv(d, events[..n]);
      var before := Run(d, events[..n]);
      match events[n]
      case Join(progs, id, update, ok) => ProcessSids(before, progs, id, update, ok);
      case Leave(progs, id, ok) => DelSids(before, progs, id, ok);
    }
  }
}
