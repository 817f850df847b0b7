/** The CAPMT table of a CAM (src/ca.cpp:720-1418, src/ca.h:139-161): which programs travel in which
    CA_PMT object (section 8.4.3.4 of EN 50221), what was last sent, and when a send can be spared.
    The CAM itself is modelled by the last CAPMT it accepted for each entry. */
module CapmtSpec {
  import opened Bytes
  import opened PmtData
  import opened Wrappers

  const MAX_CA_PMT: nat := 8
  const MAX_PMT_PER_CAPMT: nat := 3
  const CAPMT_KEPT_ES_MAX: nat := 1024
  const PMT_INVALID: int := -1
  const CLM_ONLY: byte := 3
  const CLM_UPDATE: byte := 5
  const OK_DESCRAMBLING: byte := 1
  const NOT_SELECTED: byte := 4
  const ALL_ONES: nat := 0xFFFFFFFF

  predicate IsValidId(id: int) { id > PMT_INVALID }

  // ----- programs and their stream loops -----

  /** What CAPMT_add_PMT reads of a PMT: its streams and CA entries, the pids opened on its adapter
      (`find_pid`) and the CAIDs this CA handles (`match_ca_caid`). */
  datatype Program = Program(sid: nat, streams: seq<StreamPid>, cas: seq<CaEntry>, found: set<Pid>, handled: set<nat>)

  /** The live PMTs, by id. */
  type Programs = m: map<int, Program> | forall id :: id in m ==> IsValidId(id)

  function CaDescriptor(ca: CaEntry): Data {
    [0x09, Low(4 + |ca.privateData|)] + Put16(ca.id) + Put16(ca.pid) + ca.privateData
  }

  function CaDescriptors(p: Program, cas: seq<CaEntry>): Data {
    if cas == [] then []
    else
      var n := |cas| - 1;
      CaDescriptors(p, cas[..n]) + if cas[n].id in p.handled then CaDescriptor(cas[n]) else []
  }

  function StreamEntry(p: Program, sp: StreamPid, cmd: byte): Data {
    var ca := CaDescriptors(p, p.cas);
    [sp.kind] + Put16(sp.pid) + if p.cas == [] then [0, 0] else Put16(|ca| + 1) + [cmd] + ca
  }

  predicate IsSent(p: Program, sp: StreamPid, addedOnly: bool) {
    (addedOnly ==> sp.pid in p.found) && sp.IsAv()
  }

  function StreamLoop(p: Program, streams: seq<StreamPid>, cmd: byte, addedOnly: bool): Data {
    if streams == [] then []
    else
      var n := |streams| - 1;
      StreamLoop(p, streams[..n], cmd, addedOnly)
      + if IsSent(p, streams[n], addedOnly) then StreamEntry(p, streams[n], cmd) else []
  }

  function LoopOf(p: Program, cmd: byte, addedOnly: bool): Data { StreamLoop(p, p.streams, cmd, addedOnly) }

  // ----- entries -----

  type Places = s: seq<int> | |s| == MAX_PMT_PER_CAPMT witness [-1, -1, -1]
  type Kept = s: seq<Data> | |s| == MAX_PMT_PER_CAPMT witness [[], [], []]

  /** The stored checksum: a checksum of content (assumed free of collisions), or a bit pattern. */
  datatype Hash = Of(content: Data) | Bits(value: nat)

  /** `ids` are pmt_id and other_id; `sent[place]` is the loop kept from the last send, empty for none. */
  datatype Entry = Entry(ids: Places, version: int, sid: int, hash: Hash, hashValid: bool, sent: Kept)
  {
    predicate Has(id: int) { IsValidId(id) && (ids[0] == id || ids[1] == id || ids[2] == id) }

    function Count(): (n: nat)
      ensures n <= MAX_PMT_PER_CAPMT
    {
      One(ids[0]) + One(ids[1]) + One(ids[2])
    }

    function KeptCount(): nat { KeptOne(0) + KeptOne(1) + KeptOne(2) }

    function KeptOne(place: nat): nat
      requires place < MAX_PMT_PER_CAPMT
    {
      if !IsValidId(ids[place]) && sent[place] != [] then 1 else 0
    }

    function First(): int {
      if IsValidId(ids[0]) then ids[0] else if IsValidId(ids[1]) then ids[1]
      else if IsValidId(ids[2]) then ids[2] else PMT_INVALID
    }

    /** Programs moved to the front. */
    function Compacted(): (r: Places) {
      var live := Live(ids, 3);
      assert |live| <= 3;
      live + seq(3 - |live|, _ => PMT_INVALID)
    }

    function Put(place: nat, id: int): Entry
      requires place < MAX_PMT_PER_CAPMT
    {
      this.(ids := ids[place := id])
    }

    /** The first place without a program, 3 when there is none. */
    function FreePlace(): (place: nat)
      ensures place <= MAX_PMT_PER_CAPMT
    {
      if !IsValidId(ids[0]) then 0 else if !IsValidId(ids[1]) then 1 else if !IsValidId(ids[2]) then 2 else 3
    }

    /** The first empty place keeping exactly this loop, 3 when there is none. */
    function PlaceKeeping(loop: Data): (place: nat)
      ensures place <= MAX_PMT_PER_CAPMT
      ensures place < MAX_PMT_PER_CAPMT ==> !IsValidId(ids[place]) && sent[place] == loop
    {
      if !IsValidId(ids[0]) && sent[0] == loop then 0
      else if !IsValidId(ids[1]) && sent[1] == loop then 1
      else if !IsValidId(ids[2]) && sent[2] == loop then 2
      else 3
    }

    function Without(id: int): Entry {
      if !Has(id) then this
      else
        var e := this.(ids := [Blank(ids[0], id), Blank(ids[1], id), Blank(ids[2], id)]);
        if e.Count() == 0 then e.(hash := Bits(0), hashValid := false, sent := [[], [], []]) else e
    }
  }

  function One(id: int): nat { if IsValidId(id) then 1 else 0 }

  function Blank(at: int, id: int): int { if at == id then PMT_INVALID else at }

  function Live(ids: seq<int>, n: nat): (r: seq<int>)
    requires n <= |ids|
    ensures |r| <= n
  {
    if n == 0 then [] else Live(ids, n - 1) + if IsValidId(ids[n - 1]) then [ids[n - 1]] else []
  }

  // ----- building a CAPMT -----

  /** What one place contributes; with kept, a left program's streams count as still there. */
  function PlaceLoop(e: Entry, progs: Programs, place: nat, cmd: byte, addedOnly: bool, kept: bool): Data
    requires place < MAX_PMT_PER_CAPMT
  {
    if e.ids[place] in progs then LoopOf(progs[e.ids[place]], cmd, addedOnly)
    else if kept && !IsValidId(e.ids[place]) && |e.sent[place]| <= CAPMT_KEPT_ES_MAX then e.sent[place]
    else []
  }

  function Loops(e: Entry, progs: Programs, cmd: byte, addedOnly: bool, kept: bool): Data {
    PlaceLoop(e, progs, 0, cmd, addedOnly, kept) + PlaceLoop(e, progs, 1, cmd, addedOnly, kept)
    + PlaceLoop(e, progs, 2, cmd, addedOnly, kept)
  }

  function Header(listmgmt: byte, sid: int, version: int): (h: Data)
    ensures |h| == 6
  {
    [listmgmt] + Put16(sid % 0x10000) + [version % 0x10 * 2 + 1, 0, 0]
  }

  function Capmt(e: Entry, progs: Programs, listmgmt: byte, cmd: byte, addedOnly: bool, kept: bool): Data {
    Header(listmgmt, e.sid, e.version) + Loops(e, progs, cmd, addedOnly, kept)
  }

  /** The bytes capmt_content_hash looks at: list management and version cleared. */
  function Masked(capmt: Data): Data
    requires |capmt| > 4
  {
    capmt[0 := 0][3 := capmt[3] / 0x40 * 0x40 + capmt[3] % 2]
  }

  // ----- the device -----

  /** `accepted[i]` is the last CAPMT the CAM accepted for entry i since the table was last wiped. */
  datatype Device = Device(id: nat, multiple: nat, entries: seq<Entry>, accepted: seq<Option<Data>>)
  {
    predicate Fits() {
      && |entries| == |accepted| <= MAX_CA_PMT
      && forall i :: 0 <= i < |accepted| && accepted[i].Some? ==> |accepted[i].value| > 4
    }

    function Limit(): nat { if multiple + 1 < MAX_PMT_PER_CAPMT then multiple + 1 else MAX_PMT_PER_CAPMT }

    function AddedOnly(): bool { multiple != 0 }

    function Set(i: nat, e: Entry): Device
      requires i < |entries|
    {
      this.(entries := entries[i := e])
    }
  }

  const WIPED: Entry := Entry([-1, -1, -1], -1, -1, Bits(ALL_ONES), true, [[], [], []])

  /** ca_release_pmts: every byte of the table becomes 0xFF, and the CAM is gone. */
  function Release(d: Device): Device {
    d.(entries := seq(|d.entries|, _ => WIPED), accepted := seq(|d.entries|, _ => None))
  }

  function KeptOf(e: Entry, progs: Programs, place: nat, cmd: byte, addedOnly: bool): Data
    requires place < MAX_PMT_PER_CAPMT
  {
    var loop := PlaceLoop(e, progs, place, cmd, addedOnly, false);
    if |loop| <= CAPMT_KEPT_ES_MAX then loop else []
  }

  /** Result codes of the tables layer. */
  const RESULT_OK: int := 0
  const RESULT_RETRY: int := 1
  const RESULT_NORETRY: int := 2

  /** The built content, counting left programs as still there, is the one already delivered. */
  predicate IsSuppressed(e: Entry, progs: Programs, listmgmt: byte, cmd: byte, addedOnly: bool) {
    e.hashValid && e.hash == Of(Masked(Capmt(e, progs, listmgmt, cmd, addedOnly, true)))
  }

  /** Compact, bump the version and write; `ok` says whether the session exists and the write succeeds. */
  function Rewrite(d: Device, progs: Programs, i: nat, listmgmt: byte, cmd: byte, ok: bool): (r: (Device, int))
    requires d.Fits() && i < |d.entries|
    ensures r.0.Fits() && |r.0.entries| == |d.entries| && r.0.id == d.id && r.0.multiple == d.multiple
  {
    var e := d.entries[i];
    var e1 := e.(ids := e.Compacted(), version := (e.version + 1) % 0x10);
    var bytes := Capmt(e1, progs, listmgmt, cmd, d.AddedOnly(), false);
    if !ok then (d.Set(i, e1.(sent := [[], [], []])), RESULT_RETRY)
    else
      var e2 := e1.(hash := Of(Masked(bytes)), hashValid := true,
                    sent := [KeptOf(e1, progs, 0, cmd, d.AddedOnly()), KeptOf(e1, progs, 1, cmd, d.AddedOnly()),
                             KeptOf(e1, progs, 2, cmd, d.AddedOnly())]);
      (d.Set(i, e2).(accepted := d.accepted[i := Some(bytes)]), RESULT_OK)
  }

  /** send_capmt. */
  function Send(d: Device, progs: Programs, i: nat, listmgmt: byte, cmd: byte, force: bool, ok: bool): (r: (Device, int))
    requires d.Fits() && i < |d.entries|
    ensures r.0.Fits() && |r.0.entries| == |d.entries| && r.0.id == d.id && r.0.multiple == d.multiple
  {
    if !force && IsSuppressed(d.entries[i], progs, listmgmt, cmd, d.AddedOnly()) then (d, RESULT_OK)
    else Rewrite(d, progs, i, listmgmt, cmd, ok)
  }

  // ----- finding a place -----

  /** First index in [i, |entries|) satisfying p, or |entries|. */
  function FirstEntry(entries: seq<Entry>, i: nat, p: Entry -> bool): (r: nat)
    requires i <= |entries|
    ensures i <= r <= |entries|
    ensures r < |entries| ==> p(entries[r])
    ensures forall k :: i <= k < r ==> !p(entries[k])
    decreases |entries| - i
  {
    if i == |entries| || p(entries[i]) then i else FirstEntry(entries, i + 1, p)
  }

  predicate LoadBelow(a: Entry, b: Entry) {
    a.Count() < b.Count() || (a.Count() == b.Count() && a.KeptCount() < b.KeptCount())
  }

  /** First of the least loaded entries below the limit among the first n, or n's bound when all are full. */
  function LeastLoaded(entries: seq<Entry>, n: nat, limit: nat): (best: int)
    requires n <= |entries|
    ensures -1 <= best < n
    ensures best >= 0 ==> entries[best].Count() < limit
    ensures best < 0 ==> forall k :: 0 <= k < n ==> entries[k].Count() >= limit
    ensures best >= 0 ==> forall k :: 0 <= k < n && entries[k].Count() < limit ==>
                            && entries[best].Count() <= entries[k].Count()
                            && (entries[best].Count() == entries[k].Count() ==>
                                  && entries[best].KeptCount() <= entries[k].KeptCount()
                                  && (entries[best].KeptCount() == entries[k].KeptCount() ==> best <= k))
  {
    if n == 0 then -1
    else
      var best := LeastLoaded(entries, n - 1, limit);
      if entries[n - 1].Count() < limit && (best < 0 || LoadBelow(entries[n - 1], entries[best])) then n - 1 else best
  }

  datatype Placement = Placement(index: nat, place: nat, rejoined: bool) | AlreadyIn(index: nat) | NoRoom

  predicate PlacementFits(d: Device, p: Placement) {
    match p
    case Placement(index, place, _) => index < |d.entries| && place < MAX_PMT_PER_CAPMT
    case AlreadyIn(index) => index < |d.entries|
    case NoRoom => true
  }

  /** Where add_pmt_to_capmt puts program id. */
  function FindPlace(d: Device, progs: Programs, id: int): (p: Placement)
    requires d.Fits() && id in progs && IsValidId(id)
    ensures PlacementFits(d, p)
    ensures p.AlreadyIn? ==> d.entries[p.index].Has(id)
  {
    var es, n := d.entries, |d.entries|;
    var loop := LoopOf(progs[id], OK_DESCRAMBLING, d.AddedOnly());
    var at := FirstEntry(es, 0, (e: Entry) => e.Has(id));
    if at < n then AlreadyIn(at)
    else
      var kept := if 0 < |loop| <= CAPMT_KEPT_ES_MAX
                  then FirstEntry(es, 0, (e: Entry) => e.PlaceKeeping(loop) < MAX_PMT_PER_CAPMT) else n;
      if kept < n then Placement(kept, es[kept].PlaceKeeping(loop), true)
      else
        var empty := FirstEntry(es, 0, (e: Entry) => e.Count() == 0);
        if empty < n then Placement(empty, 0, false)
        else
          var best := if d.multiple > 0 then LeastLoaded(es, n, d.Limit()) else -1;
          if best >= 0 then Placement(best, es[best].FreePlace(), false) else NoRoom
  }

  function AddPmt(d: Device, id: int, p: Placement): (r: Device)
    requires d.Fits() && PlacementFits(d, p)
    ensures r.Fits() && |r.entries| == |d.entries| && r.id == d.id && r.multiple == d.multiple
    ensures r.accepted == d.accepted
  {
    if p.Placement? then d.Set(p.index, d.entries[p.index].Put(p.place, id)) else d
  }

  function Active(entries: seq<Entry>, n: nat): (a: nat)
    requires n <= |entries|
    ensures a <= n
  {
    if n == 0 then 0 else Active(entries, n - 1) + if entries[n - 1].Count() > 0 then 1 else 0
  }

  function SlotSid(device: nat, index: nat): int { device * 100 + index }

  /** Program numbers when entry i is the only active one. */
  function Renumbered(d: Device, i: nat, sid: int): (r: Device)
    requires d.Fits() && i < |d.entries|
    ensures r.Fits() && |r.entries| == |d.entries| && r.id == d.id && r.multiple == d.multiple
  {
    d.(entries := seq(|d.entries|, j requires 0 <= j < |d.entries| =>
         d.entries[j].(sid := if j == i then sid
                              else if sid == SlotSid(d.id, j) then SlotSid(d.id, MAX_CA_PMT)
                              else SlotSid(d.id, j))))
  }

  function RemovePmt(d: Device, id: int): (r: Device)
    requires d.Fits()
    ensures r.Fits() && |r.entries| == |d.entries| && r.id == d.id && r.multiple == d.multiple && r.accepted == d.accepted
  {
    d.(entries := seq(|d.entries|, j requires 0 <= j < |d.entries| => d.entries[j].Without(id)))
  }

  /** The device after placing the program and choosing program numbers, with the list management to send. */
  function Numbered(d: Device, progs: Programs, i: nat, wasMember: bool): (r: (Device, byte))
    requires d.Fits() && i < |d.entries| && d.entries[i].First() in progs
    ensures r.0.Fits() && |r.0.entries| == |d.entries| && r.0.id == d.id && r.0.multiple == d.multiple
  {
    var e := d.entries[i];
    var isNew := !wasMember && e.Count() == 1;
    var firstSid := progs[e.First()].sid;
    if Active(d.entries, |d.entries|) != 1 then (d, CLM_UPDATE)
    else (Renumbered(d, i, if isNew then firstSid else e.sid),
          if !isNew || e.sid == firstSid then CLM_UPDATE else CLM_ONLY)
  }

  /** dvbca_process_pmt on an initialized device. */
  function Process(d: Device, progs: Programs, id: int, update: bool, ok: bool): (r: (Device, int))
    requires d.Fits() && id in progs && IsValidId(id)
    ensures r.0.Fits() && |r.0.entries| == |d.entries| && r.0.id == d.id && r.0.multiple == d.multiple
  {
    var where := FindPlace(d, progs, id);
    if where.NoRoom? then (d, RESULT_RETRY)
    else
      var d1 := AddPmt(d, id, where);
      if d1.entries[where.index].First() !in progs then (d1, RESULT_NORETRY)
      else
        var (d2, listmgmt) := Numbered(d1, progs, where.index, where.AlreadyIn?);
        var force := !update && !(where.Placement? && where.rejoined);
        var (d3, rc) := Send(d2, progs, where.index, listmgmt, OK_DESCRAMBLING, force, ok);
        if rc != 0 && !update then (RemovePmt(d3, id), rc) else (d3, rc)
  }

  /** dvbca_del_pmt. */
  function Del(d: Device, progs: Programs, id: int, ok: bool): (r: Device)
    requires d.Fits()
    ensures r.Fits() && |r.entries| == |d.entries| && r.id == d.id && r.multiple == d.multiple
  {
    var at := FirstEntry(d.entries, 0, (e: Entry) => e.Has(id));
    if at == |d.entries| then d
    else
      var d1 := if d.entries[at].Count() == 1 then Send(d, progs, at, CLM_UPDATE, NOT_SELECTED, true, ok).0 else d;
      RemovePmt(d1, id)
  }
}
