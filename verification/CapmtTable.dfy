/** Properties of the CAPMT table that hold over every run of joins, updates, leaves and wipes. */
module CapmtTable {
  import opened CapmtSpec
  import opened Bytes
  import opened Wrappers

  // ----- the invariant -----

  /** Programs and kept loops stay below the program limit, no program sits in two places, and an entry
      without programs keeps nothing. */
  ghost predicate EntryOk(e: Entry, limit: nat) {
    && (forall p, q | 0 <= p < q < MAX_PMT_PER_CAPMT && IsValidId(e.ids[p]) :: e.ids[p] != e.ids[q])
    && (forall p :: 0 <= p < MAX_PMT_PER_CAPMT && (IsValidId(e.ids[p]) || e.sent[p] != []) ==> p < limit)
    && (forall p :: 0 <= p < MAX_PMT_PER_CAPMT ==> |e.sent[p]| <= CAPMT_KEPT_ES_MAX)
    && (e.Count() == 0 ==> forall p :: 0 <= p < MAX_PMT_PER_CAPMT ==> e.sent[p] == [])
  }

  /** A valid stored hash is that of the last accepted content, or the wiped pattern if there is none. */
  ghost predicate HashOk(e: Entry, accepted: Option<Data>)
    requires accepted.Some? ==> |accepted.value| > 4
  {
    e.hashValid ==> e.hash == if accepted.Some? then Of(Masked(accepted.value)) else Bits(ALL_ONES)
  }

  /** No program sits in two entries. */
  ghost predicate Unique(entries: seq<Entry>) {
    forall i, j, id | 0 <= i < |entries| && 0 <= j < |entries| && entries[i].Has(id) && entries[j].Has(id) :: i == j
  }

  ghost predicate Inv(d: Device) {
    && d.Fits() && Unique(d.entries)
    && forall i :: 0 <= i < |d.entries| ==> EntryOk(d.entries[i], d.Limit()) && HashOk(d.entries[i], d.accepted[i])
  }

  // ----- compaction -----

  lemma CompactedIs(e: Entry)
    ensures var a, b, c := IsValidId(e.ids[0]), IsValidId(e.ids[1]), IsValidId(e.ids[2]);
            e.Compacted() ==
              (if a && b && c then e.ids else if a && b then [e.ids[0], e.ids[1], -1]
               else if a && c then [e.ids[0], e.ids[2], -1] else if b && c then [e.ids[1], e.ids[2], -1]
               else if a then [e.ids[0], -1, -1] else if b then [e.ids[1], -1, -1]
               else if c then [e.ids[2], -1, -1] else [-1, -1, -1])
  {
    assert Live(e.ids, 0) == [];
    assert Live(e.ids, 1) == if IsValidId(e.ids[0]) then [e.ids[0]] else [];
    assert Live(e.ids, 2) == Live(e.ids, 1) + if IsValidId(e.ids[1]) then [e.ids[1]] else [];
    assert Live(e.ids, 3) == Live(e.ids, 2) + if IsValidId(e.ids[2]) then [e.ids[2]] else [];
  }

  /** Compaction keeps the programs, in order, and their number. */
  lemma CompactionKeepsPrograms(e: Entry, f: Entry)
    requires f.ids == e.Compacted()
    ensures forall id :: f.Has(id) <==> e.Has(id)
    ensures f.Count() == e.Count() && f.First() == e.First()
    ensures forall p :: 0 <= p < MAX_PMT_PER_CAPMT ==> (IsValidId(f.ids[p]) <==> p < e.Count())
    ensures (forall p, q | 0 <= p < q < MAX_PMT_PER_CAPMT && IsValidId(e.ids[p]) :: e.ids[p] != e.ids[q]) ==>
              forall p, q | 0 <= p < q < MAX_PMT_PER_CAPMT && IsValidId(f.ids[p]) :: f.ids[p] != f.ids[q]
  {
    CompactedIs(e);
  }

  // ----- masking -----

  /** Version and list management do not reach the hash, the rest does. */
  lemma MaskedCapmt(listmgmt: byte, sid: int, version: int, body: Data)
    ensures var c := Header(listmgmt, sid, version) + body;
            Masked(c) == [0] + Put16(sid % 0x10000) + [1, 0, 0] + body
  {
  }

  lemma SameMaskSameBody(c: Data, sid: int, body: Data)
    requires |c| > 4 && Masked(c) == [0] + Put16(sid % 0x10000) + [1, 0, 0] + body
    ensures |c| >= 6 && c[6..] == body
  {
    var m := Masked(c);
    assert |m| == 6 + |body| && m[6..] == body;
    assert forall k :: 6 <= k < |c| ==> c[k] == m[k];
    assert c[6..] == m[6..];
  }

  // ----- every operation keeps the invariant -----

  lemma PutKeepsEntry(e: Entry, place: nat, id: int, limit: nat)
    requires EntryOk(e, limit) && place < MAX_PMT_PER_CAPMT && place < limit && !IsValidId(e.ids[place])
    requires IsValidId(id) && !e.Has(id)
    ensures var f := e.Put(place, id);
            && EntryOk(f, limit) && f.Count() == e.Count() + 1 && (forall x :: f.Has(x) <==> x == id || e.Has(x))
  {
  }

  lemma PlacementIsFree(d: Device, progs: Programs, id: int)
    requires Inv(d) && id in progs && FindPlace(d, progs, id).Placement?
    ensures var w := FindPlace(d, progs, id);
            && !IsValidId(d.entries[w.index].ids[w.place]) && w.place < d.Limit()
            && (w.rejoined ==> d.entries[w.index].Count() > 0)
            && (forall i :: 0 <= i < |d.entries| ==> !d.entries[i].Has(id))
  {
    hide LoopOf, Masked, HashOk;
  }

  lemma AddKeepsInv(d: Device, progs: Programs, id: int)
    requires Inv(d) && id in progs
    ensures var where := FindPlace(d, progs, id); var r := AddPmt(d, id, where);
            && Inv(r) && (!where.NoRoom? ==> r.entries[where.index].Has(id))
  {
    hide FindPlace, Masked, EntryOk, Entry.Has;
    var where := FindPlace(d, progs, id);
    if where.Placement? {
      PlacementIsFree(d, progs, id);
      PutKeepsEntry(d.entries[where.index], where.place, id, d.Limit());
    }
  }

  lemma WithoutKeepsEntry(e: Entry, id: int, limit: nat, accepted: Option<Data>)
    requires EntryOk(e, limit) && (accepted.Some? ==> |accepted.value| > 4) && HashOk(e, accepted)
    ensures var f := e.Without(id);
            && EntryOk(f, limit) && HashOk(f, accepted) && f.sid == e.sid && f.version == e.version
            && (forall x :: f.Has(x) <==> x != id && e.Has(x))
            && f.Count() == e.Count() - if e.Has(id) then 1 else 0
  {
    hide Masked;
  }

  lemma RemoveKeepsInv(d: Device, id: int)
    requires Inv(d)
    ensures Inv(RemovePmt(d, id)) && forall i :: 0 <= i < |d.entries| ==> !RemovePmt(d, id).entries[i].Has(id)
  {
    hide EntryOk, HashOk, Entry.Has, Entry.Without;
    forall i | 0 <= i < |d.entries|
      ensures var f := d.entries[i].Without(id);
              && EntryOk(f, d.Limit()) && HashOk(f, d.accepted[i])
              && (forall x :: f.Has(x) <==> x != id && d.entries[i].Has(x))
    {
      WithoutKeepsEntry(d.entries[i], id, d.Limit(), d.accepted[i]);
    }
  }

  /** The entry a send leaves behind, whether or not the write succeeded. */
  lemma SentEntry(d: Device, progs: Programs, i: nat, listmgmt: byte, cmd: byte, force: bool, ok: bool)
    requires d.Fits() && i < |d.entries| && EntryOk(d.entries[i], d.Limit()) && HashOk(d.entries[i], d.accepted[i])
    ensures var e, r := d.entries[i], Send(d, progs, i, listmgmt, cmd, force, ok).0;
            && EntryOk(r.entries[i], d.Limit()) && HashOk(r.entries[i], r.accepted[i])
            && r.entries[i].sid == e.sid && r.entries[i].Count() == e.Count() && r.entries[i].First() == e.First()
            && (forall x :: r.entries[i].Has(x) <==> e.Has(x))
            && (forall j :: 0 <= j < |d.entries| && j != i ==> r.entries[j] == d.entries[j] && r.accepted[j] == d.accepted[j])
  {
    hide LoopOf, Masked, Header, Loops;
    var e, r := d.entries[i], Send(d, progs, i, listmgmt, cmd, force, ok).0;
    if r.entries[i] != e {
      CompactionKeepsPrograms(e, r.entries[i]);
      CountBelowLimit(e, d.Limit());
    }
  }

  lemma CountBelowLimit(e: Entry, limit: nat)
    requires EntryOk(e, limit)
    ensures e.Count() <= limit
  {
  }

  lemma SendKeepsInv(d: Device, progs: Programs, i: nat, listmgmt: byte, cmd: byte, force: bool, ok: bool)
    requires Inv(d) && i < |d.entries|
    ensures Inv(Send(d, progs, i, listmgmt, cmd, force, ok).0)
  {
    hide Send, EntryOk, HashOk, Entry.Has, Entry.Count, Entry.First;
    SentEntry(d, progs, i, listmgmt, cmd, force, ok);
  }

  lemma NumberedKeepsInv(d: Device, progs: Programs, i: nat, wasMember: bool)
    requires Inv(d) && i < |d.entries| && d.entries[i].First() in progs
    ensures var r := Numbered(d, progs, i, wasMember).0;
            && Inv(r) && r.accepted == d.accepted
            && forall j :: 0 <= j < |d.entries| ==> r.entries[j] == d.entries[j].(sid := r.entries[j].sid)
  {
    hide Masked;
    var r := Numbered(d, progs, i, wasMember).0;
    forall j | 0 <= j < |d.entries| ensures r.entries[j] == d.entries[j].(sid := r.entries[j].sid) {
    }
    NewSidsKeepInv(d, r);
  }

  lemma NewSidsKeepInv(d: Device, r: Device)
    requires Inv(d) && r.Fits() && |r.entries| == |d.entries| && r.multiple == d.multiple && r.accepted == d.accepted
    requires forall j :: 0 <= j < |d.entries| ==> r.entries[j] == d.entries[j].(sid := r.entries[j].sid)
    ensures Inv(r)
  {
    hide Masked;
    forall j | 0 <= j < |d.entries|
      ensures EntryOk(r.entries[j], r.Limit()) && HashOk(r.entries[j], r.accepted[j])
              && forall x :: r.entries[j].Has(x) <==> d.entries[j].Has(x)
    {
    }
    hide Entry.Has, EntryOk, HashOk;
  }

  lemma ProcessKeepsInv(d: Device, progs: Programs, id: int, update: bool, ok: bool)
    requires Inv(d) && id in progs
    ensures Inv(Process(d, progs, id, update, ok).0)
  {
    hide Inv, FindPlace, AddPmt, Numbered, Send, RemovePmt;
    AddKeepsInv(d, progs, id);
    var where := FindPlace(d, progs, id);
    if !where.NoRoom? {
      var d1 := AddPmt(d, id, where);
      assert d1.Fits();
      if d1.entries[where.index].First() in progs {
        NumberedKeepsInv(d1, progs, where.index, where.AlreadyIn?);
        var (d2, listmgmt) := Numbered(d1, progs, where.index, where.AlreadyIn?);
        var force := !update && !(where.Placement? && where.rejoined);
        SendKeepsInv(d2, progs, where.index, listmgmt, OK_DESCRAMBLING, force, ok);
        RemoveKeepsInv(Send(d2, progs, where.index, listmgmt, OK_DESCRAMBLING, force, ok).0, id);
      }
    }
  }

  lemma DelKeepsInv(d: Device, progs: Programs, id: int, ok: bool)
    requires Inv(d)
    ensures Inv(Del(d, progs, id, ok))
  {
    hide Inv, Send, RemovePmt;
    assert d.Fits() by { assert Inv(d); FitsOf(d); }
    var at := FirstEntry(d.entries, 0, (e: Entry) => e.Has(id));
    if at < |d.entries| {
      if d.entries[at].Count() == 1 {
        SendKeepsInv(d, progs, at, CLM_UPDATE, NOT_SELECTED, true, ok);
        RemoveKeepsInv(Send(d, progs, at, CLM_UPDATE, NOT_SELECTED, true, ok).0, id);
      } else {
        RemoveKeepsInv(d, id);
      }
    }
  }

  lemma FitsOf(d: Device)
    requires Inv(d)
    ensures d.Fits()
  {
  }

  // ----- delivery -----

  ghost predicate Contains(bytes: Data, part: Data) { exists a, b :: bytes == a + part + b }

  /** The last accepted CAPMT of entry i carries exactly the loops the table would build now. */
  ghost predicate Delivered(d: Device, progs: Programs, i: nat)
    requires d.Fits() && i < |d.entries|
  {
    && d.accepted[i].Some? && |d.accepted[i].value| >= 6
    && d.accepted[i].value[6..] == Loops(d.entries[i], progs, OK_DESCRAMBLING, d.AddedOnly(), true)
  }

  lemma DeliveredContainsEveryLoop(d: Device, progs: Programs, i: nat, place: nat)
    requires d.Fits() && i < |d.entries| && Delivered(d, progs, i) && place < MAX_PMT_PER_CAPMT
    requires d.entries[i].ids[place] in progs
    ensures Contains(d.accepted[i].value, LoopOf(progs[d.entries[i].ids[place]], OK_DESCRAMBLING, d.AddedOnly()))
  {
    hide LoopOf;
    var e, c := d.entries[i], d.accepted[i].value;
    var l0 := PlaceLoop(e, progs, 0, OK_DESCRAMBLING, d.AddedOnly(), true);
    var l1 := PlaceLoop(e, progs, 1, OK_DESCRAMBLING, d.AddedOnly(), true);
    var l2 := PlaceLoop(e, progs, 2, OK_DESCRAMBLING, d.AddedOnly(), true);
    assert c == c[..6] + c[6..];
    if place == 0 {
      assert c == c[..6] + l0 + (l1 + l2);
    } else if place == 1 {
      assert c == (c[..6] + l0) + l1 + l2;
    } else {
      assert c == (c[..6] + l0 + l1) + l2 + [];
    }
  }

  /** A send that reports success, written or suppressed, leaves the entry delivered. */
  lemma SuccessfulSendDelivers(d: Device, progs: Programs, i: nat, listmgmt: byte, force: bool, ok: bool)
    requires Inv(d) && i < |d.entries|
    ensures var (r, rc) := Send(d, progs, i, listmgmt, OK_DESCRAMBLING, force, ok);
            rc == RESULT_OK ==> Delivered(r, progs, i)
  {
    hide LoopOf, Masked, EntryOk, Entry.Compacted;
    var e := d.entries[i];
    var body := Loops(e, progs, OK_DESCRAMBLING, d.AddedOnly(), true);
    var (r, rc) := Send(d, progs, i, listmgmt, OK_DESCRAMBLING, force, ok);
    if !force && IsSuppressed(e, progs, listmgmt, OK_DESCRAMBLING, d.AddedOnly()) {
      hide Loops, Header;
      MaskedCapmt(listmgmt, e.sid, e.version, body);
      SameMaskSameBody(d.accepted[i].value, e.sid, body);
    } else if ok {
      WrittenLoops(d, progs, i, listmgmt);
    }
  }

  /** After a write no place keeps the loop of a left program. */
  lemma WrittenLoops(d: Device, progs: Programs, i: nat, listmgmt: byte)
    requires d.Fits() && i < |d.entries|
    ensures var e := d.entries[i];
            var r := Rewrite(d, progs, i, listmgmt, OK_DESCRAMBLING, true).0;
            && r.accepted[i] == Some(Header(listmgmt, e.sid, r.entries[i].version)
                                     + Loops(r.entries[i], progs, OK_DESCRAMBLING, d.AddedOnly(), true))
            && r.entries[i].version == (e.version + 1) % 0x10
  {
  }
}
