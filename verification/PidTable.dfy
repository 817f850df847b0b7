/** The pid slots of an adapter as a value (src/adapter.cpp:939-1050, 1148-1279, 1337-1361): which pids are wanted,
    by which streams, and which are open in the demux. */
module PidTable {

  const MAX_PIDS: nat := 128
  const MIN_ADAPTER_PIDS: nat := 16
  const MAX_STREAMS: nat := 256
  const ALL_PIDS: int := 8192
  const NO_STREAM: int := -1
  const ORDER_MODULUS: nat := 0x1_0000_0000

  datatype Flag = Inactive | Active | New | Deleted

  /** fd is the demux handle, positive while the pid is open; order is 0 without a client. */
  datatype Slot = Slot(flag: Flag, pid: int, fd: int, sids: set<int>, order: nat, packets: nat)

  type Slots = seq<Slot>

  /** The slots, the counters, and the pids open in the demux. */
  datatype Table = Table(slots: Slots, active: nat, maxPids: nat, maxActive: nat, orderSeq: nat, open: set<int>)

  predicate IsLive(s: Slot) { !s.flag.Inactive? }

  predicate IsClient(sid: int) { 0 <= sid < MAX_STREAMS }

  predicate HasClient(s: Slot) { exists sid :: sid in s.sids && IsClient(sid) }

  predicate IsAt(s: Slots, i: int, pid: int) { 0 <= i < |s| && IsLive(s[i]) && s[i].pid == pid }

  /** find_pid: the first live slot of the pid. */
  function FindFrom(s: Slots, pid: int, from: nat): (r: int)
    ensures r == -1 || (from <= r && IsAt(s, r, pid))
    ensures forall i :: from <= i && (r == -1 || i < r) ==> !IsAt(s, i, pid)
    decreases |s| - from
  {
    if from >= |s| then -1 else if IsAt(s, from, pid) then from else FindFrom(s, pid, from + 1)
  }

  function FreeFrom(s: Slots, from: nat): (r: int)
    ensures r == -1 || (from <= r < |s| && !IsLive(s[r]))
    ensures forall i :: from <= i < (if r == -1 then |s| else r) ==> IsLive(s[i])
    decreases |s| - from
  {
    if from >= |s| then -1 else if !IsLive(s[from]) then from else FreeFrom(s, from + 1)
  }

  /** next_pid_order: never 0. */
  function NextOrder(seqNo: nat): (r: nat)
    ensures 0 < r < ORDER_MODULUS
  {
    var n := (seqNo + 1) % ORDER_MODULUS;
    if n == 0 then 1 else n
  }

  // ----- marking -----

  /** Slot s joined by stream sid. */
  function Joined(s: Slot, sid: int, order: nat): Slot {
    if sid == NO_STREAM then s
    else s.(sids := s.sids + {sid}, order := if !HasClient(s) && IsClient(sid) then order else s.order)
  }

  /** mark_pid_add: whether the pid could be noted, and the table with it. */
  function MarkAdd(t: Table, sid: int, pid: int): (Table, bool) {
    if pid < 0 || pid > ALL_PIDS then (t, false)
    else
      var i, f, order := FindFrom(t.slots, pid, 0), FreeFrom(t.slots, 0), NextOrder(t.orderSeq);
      if i != -1 then
        var s := Joined(t.slots[i], sid, order);
        (t.(slots := t.slots[i := s.(flag := if s.flag.Deleted? then New else s.flag)],
            orderSeq := if sid != NO_STREAM && !HasClient(t.slots[i]) && IsClient(sid) then order else t.orderSeq), true)
      else if f != -1 then
        (t.(slots := t.slots[f := Joined(Slot(New, pid, t.slots[f].fd, {}, 0, t.slots[f].packets), sid, order)],
            orderSeq := if IsClient(sid) then order else t.orderSeq), true)
      else (t, false)
  }

  /** mark_pid_deleted on one slot; `keep` tells that a filter needs the pid. */
  function Left(s: Slot, sid: int, keep: bool): Slot {
    if sid == NO_STREAM then s.(flag := if IsLive(s) then Deleted else s.flag, sids := {}, order := 0)
    else
      var r := s.(sids := s.sids - {sid});
      var r1 := r.(order := if HasClient(r) then r.order else 0);
      r1.(flag := if r1.sids == {} && IsLive(s) && !keep then Deleted else s.flag)
  }

  function MarkDeleted(t: Table, sid: int, pid: int, keep: bool): Table {
    var i := FindFrom(t.slots, pid, 0);
    if i == -1 then t else t.(slots := t.slots[i := Left(t.slots[i], sid, keep)])
  }

  /** mark_pids_deleted for all pids. */
  function MarkAllDeleted(t: Table, sid: int, keep: int -> bool): Table {
    t.(slots := seq(|t.slots|, i requires 0 <= i < |t.slots| => Left(t.slots[i], sid, keep(t.slots[i].pid))))
  }

  // ----- sync_pids -----

  /** The slots stream sid no longer wants, left. */
  function LeaveUnwanted(t: Table, sid: int, want: seq<int>, keep: int -> bool): Table {
    t.(slots := seq(|t.slots|, i requires 0 <= i < |t.slots| =>
      var s := t.slots[i];
      if IsLive(s) && sid in s.sids && s.pid !in want then Left(s, sid, keep(s.pid)) else s))
  }

  predicate NeedsJoin(t: Table, sid: int, pid: int) {
    var i := FindFrom(t.slots, pid, 0);
    i == -1 || sid !in t.slots[i].sids || t.slots[i].flag.Deleted?
  }

  function JoinWanted(t: Table, sid: int, want: seq<int>): (Table, bool)
    decreases |want|
  {
    if want == [] then (t, true)
    else
      var (t1, ok) := if NeedsJoin(t, sid, want[0]) then MarkAdd(t, sid, want[0]) else (t, true);
      if ok then JoinWanted(t1, sid, want[1..]) else (t1, false)
  }

  function Sync(t: Table, sid: int, want: seq<int>, keep: int -> bool): (Table, bool) {
    JoinWanted(LeaveUnwanted(t, sid, want, keep), sid, want)
  }

  // ----- update_pids -----

  /** Close and free slot i if it is marked deleted. */
  function CloseSlot(t: Table, i: nat): Table
    requires i < |t.slots|
  {
    var s := t.slots[i];
    if !s.flag.Deleted? then t
    else
      t.(slots := t.slots[i := Slot(Inactive, s.pid, 0, s.sids, 0, 0)],
         active := if s.fd > 0 && t.active > 0 then t.active - 1 else t.active,
         open := if s.fd > 0 then t.open - {s.pid} else t.open)
  }

  /** The first n slots, from the last to the first. */
  function CloseBelow(t: Table, n: nat): Table
    requires n <= |t.slots|
    decreases n
  {
    if n == 0 then t else CloseBelow(CloseSlot(t, n - 1), n - 1)
  }

  /** What the demux answers to opening a pid: a positive handle or a negative error. */
  type SetPid = int -> int

  predicate LimitReached(t: Table) { t.maxPids != 0 && t.maxPids < t.active }

  function OpenSlot(t: Table, i: nat, h: int): Table
    requires i < |t.slots|
  {
    var s := t.slots[i];
    if s.fd > 0 then t.(slots := t.slots[i := s.(flag := Active, packets := 0)])
    else if h < 0 then
      t.(slots := t.slots[i := s.(fd := h)],
         maxPids := if t.maxActive <= MIN_ADAPTER_PIDS then MIN_ADAPTER_PIDS else t.maxActive - 1)
    else
      t.(slots := t.slots[i := s.(flag := Active, fd := h, packets := 0)],
         active := t.active + 1, open := t.open + {s.pid},
         maxActive := if t.maxActive < t.active + 1 then t.active + 1 else t.maxActive)
  }

  /** Whether the pass ends at slot i. */
  predicate StopsAt(t: Table, i: nat, h: int)
    requires i < |t.slots|
  {
    LimitReached(t) || (t.slots[i].fd <= 0 && h < 0)
  }

  /** Open the new pids from slot i on, and tell whether the pass reached the end. */
  function OpenFrom(t: Table, i: nat, setPid: SetPid): (Table, bool)
    decreases |t.slots| - i
  {
    if i >= |t.slots| then (t, true)
    else if !t.slots[i].flag.New? then OpenFrom(t, i + 1, setPid)
    else if LimitReached(t) then (t, false)
    else
      var h := setPid(t.slots[i].pid);
      if StopsAt(t, i, h) then (OpenSlot(t, i, h), false) else OpenFrom(OpenSlot(t, i, h), i + 1, setPid)
  }

  /** Closing and opening of update_pids, and whether it went through. */
  function Update(t: Table, setPid: SetPid): (Table, bool) {
    OpenFrom(CloseBelow(t, |t.slots|), 0, setPid)
  }

  // ----- the invariant -----

  ghost predicate Distinct(s: Slots) {
    forall i, j | 0 <= i < j < |s| && IsLive(s[i]) && IsLive(s[j]) :: s[i].pid != s[j].pid
  }

  predicate SlotOk(s: Slot) {
    && (s.flag.Inactive? ==> s.fd <= 0) && (s.flag.Active? ==> s.fd > 0)
    && (IsLive(s) ==> 0 <= s.pid <= ALL_PIDS)
  }

  predicate IsOpen(s: Slots, i: int, pid: int) { 0 <= i < |s| && s[i].fd > 0 && s[i].pid == pid }

  ghost predicate OpenIs(s: Slots, open: set<int>) { forall p :: p in open <==> exists i :: IsOpen(s, i, p) }

  /** No pid sits in two live slots, the open pids are those of the slots with a handle, and `active` counts
      them. */
  ghost predicate Inv(t: Table) {
    && Distinct(t.slots) && (forall i :: 0 <= i < |t.slots| ==> SlotOk(t.slots[i]))
    && OpenIs(t.slots, t.open) && t.active == |t.open|
  }

  lemma FreshInv(t: Table)
    requires (forall i :: 0 <= i < |t.slots| ==> t.slots[i].flag.Inactive? && t.slots[i].fd <= 0) && t.active == 0 && t.open == {}
    ensures Inv(t)
  {
  }

  /** Changing slot i without touching its handle: allowed when it stays in order and adds no second slot for
      its pid. */
  lemma ReplaceKeepsInv(t: Table, r: Table, i: nat)
    requires Inv(t) && i < |t.slots| && |r.slots| == |t.slots| && r.open == t.open && r.active == t.active
    requires forall j :: 0 <= j < |t.slots| && j != i ==> r.slots[j] == t.slots[j]
    requires r.slots[i].fd == t.slots[i].fd && SlotOk(r.slots[i]) && (t.slots[i].fd > 0 ==> r.slots[i].pid == t.slots[i].pid)
    requires IsLive(r.slots[i]) ==> forall j :: j != i ==> !IsAt(t.slots, j, r.slots[i].pid)
    ensures Inv(r)
  {
    forall p ensures p in r.open <==> exists j :: IsOpen(r.slots, j, p) {
      if j :| IsOpen(t.slots, j, p) { assert IsOpen(r.slots, j, p); }
      if j :| IsOpen(r.slots, j, p) { assert IsOpen(t.slots, j, p); }
    }
    forall a, b | 0 <= a < b < |r.slots| && IsLive(r.slots[a]) && IsLive(r.slots[b]) ensures r.slots[a].pid != r.slots[b].pid {
      if a == i { assert !IsAt(t.slots, b, r.slots[i].pid); }
      if b == i { assert !IsAt(t.slots, a, r.slots[i].pid); }
    }
  }

  lemma NoSecondSlot(s: Slots, i: int, pid: int)
    requires Distinct(s) && IsAt(s, i, pid)
    ensures forall j :: j != i ==> !IsAt(s, j, pid)
  {
  }

  lemma MarkAddKeepsInv(t: Table, sid: int, pid: int)
    requires Inv(t)
    ensures Inv(MarkAdd(t, sid, pid).0)
  {
    hide FindFrom, FreeFrom, Inv, NextOrder, HasClient, IsClient;
    var (r, ok) := MarkAdd(t, sid, pid);
    var i, f := FindFrom(t.slots, pid, 0), FreeFrom(t.slots, 0);
    InvParts(t);
    if ok && i != -1 {
      NoSecondSlot(t.slots, i, pid);
      ReplaceKeepsInv(t, r, i);
    } else if ok {
      ReplaceKeepsInv(t, r, f);
    }
  }

  lemma InvParts(t: Table)
    requires Inv(t)
    ensures Distinct(t.slots) && forall i :: 0 <= i < |t.slots| ==> SlotOk(t.slots[i])
  {
  }

  predicate Stays(s: Slot, r: Slot) {
    r.pid == s.pid && r.fd == s.fd && (r.flag == s.flag || (IsLive(s) && r.flag.Deleted?))
  }

  lemma LeftStays(s: Slot, sid: int, keep: bool)
    ensures Stays(s, Left(s, sid, keep))
  {
  }

  /** Leaving changes no pid and no handle, and brings no slot to life. */
  lemma LeaveKeepsInv(t: Table, r: Table)
    requires Inv(t) && |r.slots| == |t.slots| && r.open == t.open && r.active == t.active
    requires forall i :: 0 <= i < |t.slots| ==> Stays(t.slots[i], r.slots[i])
    ensures Inv(r)
  {
    forall p ensures p in r.open <==> exists j :: IsOpen(r.slots, j, p) {
      if j :| IsOpen(t.slots, j, p) { assert IsOpen(r.slots, j, p); }
      if j :| IsOpen(r.slots, j, p) { assert IsOpen(t.slots, j, p); }
    }
  }

  lemma MarkDeletedKeepsInv(t: Table, sid: int, pid: int, keep: bool)
    requires Inv(t)
    ensures Inv(MarkDeleted(t, sid, pid, keep))
  {
    hide Inv, FindFrom, HasClient;
    LeaveKeepsInv(t, MarkDeleted(t, sid, pid, keep));
  }

  lemma MarkAllDeletedKeepsInv(t: Table, sid: int, keep: int -> bool)
    requires Inv(t)
    ensures Inv(MarkAllDeleted(t, sid, keep))
  {
    hide Inv, Left;
    forall i | 0 <= i < |t.slots| ensures Stays(t.slots[i], MarkAllDeleted(t, sid, keep).slots[i]) {
      LeftStays(t.slots[i], sid, keep(t.slots[i].pid));
    }
    LeaveKeepsInv(t, MarkAllDeleted(t, sid, keep));
  }

  lemma {:induction false} JoinKeepsInv(t: Table, sid: int, want: seq<int>)
    requires Inv(t)
    ensures Inv(JoinWanted(t, sid, want).0)
    decreases |want|
  {
    hide Inv, MarkAdd, NeedsJoin;
    if want != [] {
      MarkAddKeepsInv(t, sid, want[0]);
      var (t1, ok) := if NeedsJoin(t, sid, want[0]) then MarkAdd(t, sid, want[0]) else (t, true);
      JoinKeepsInv(t1, sid, want[1..]);
    }
  }

  lemma LeaveUnwantedKeepsInv(t: Table, sid: int, want: seq<int>, keep: int -> bool)
    requires Inv(t)
    ensures Inv(LeaveUnwanted(t, sid, want, keep))
  {
    hide Inv, Left;
    forall i | 0 <= i < |t.slots| ensures Stays(t.slots[i], LeaveUnwanted(t, sid, want, keep).slots[i]) {
      LeftStays(t.slots[i], sid, keep(t.slots[i].pid));
    }
    LeaveKeepsInv(t, LeaveUnwanted(t, sid, want, keep));
  }

  lemma SyncKeepsInv(t: Table, sid: int, want: seq<int>, keep: int -> bool)
    requires Inv(t)
    ensures Inv(Sync(t, sid, want, keep).0)
  {
    hide Inv, LeaveUnwanted, JoinWanted;
    LeaveUnwantedKeepsInv(t, sid, want, keep);
    JoinKeepsInv(LeaveUnwanted(t, sid, want, keep), sid, want);
  }

  // ----- closing and opening keep the invariant -----

  lemma CloseSlotKeepsInv(t: Table, i: nat)
    requires Inv(t) && i < |t.slots|
    ensures Inv(CloseSlot(t, i))
  {
    var s, r := t.slots[i], CloseSlot(t, i);
    if s.flag.Deleted? {
      if s.fd > 0 { assert IsOpen(t.slots, i, s.pid); }
      NoSecondSlot(t.slots, i, s.pid);
      forall p ensures p in r.open <==> exists j :: IsOpen(r.slots, j, p) {
        if j :| IsOpen(t.slots, j, p) {
          if p != s.pid { assert IsOpen(r.slots, j, p); }
        }
        if j :| IsOpen(r.slots, j, p) { assert IsOpen(t.slots, j, p) && IsAt(t.slots, j, p); }
      }
    }
  }

  lemma OpenSlotKeepsInv(t: Table, i: nat, h: int)
    requires Inv(t) && i < |t.slots| && t.slots[i].flag.New? && h != 0
    ensures Inv(OpenSlot(t, i, h))
  {
    var s, r := t.slots[i], OpenSlot(t, i, h);
    forall p ensures p in r.open <==> exists j :: IsOpen(r.slots, j, p) {
      if j :| IsOpen(t.slots, j, p) { assert j != i || s.fd > 0; assert IsOpen(r.slots, j, p); }
      if j :| IsOpen(r.slots, j, p) { assert IsOpen(t.slots, j, p) || (j == i && h > 0 && s.fd <= 0); }
      if h > 0 { assert IsOpen(r.slots, i, s.pid); }
    }
    if s.fd <= 0 { NotOpenYet(t, i); }
  }

  /** A live slot without a handle: its pid is not open. */
  lemma NotOpenYet(t: Table, i: nat)
    requires Inv(t) && i < |t.slots| && IsLive(t.slots[i]) && t.slots[i].fd <= 0
    ensures t.slots[i].pid !in t.open
  {
  }

  ghost predicate Answers(setPid: SetPid) { forall p :: setPid(p) != 0 }

  lemma {:induction false} CloseBelowKeepsInv(t: Table, n: nat)
    requires Inv(t) && n <= |t.slots|
    ensures Inv(CloseBelow(t, n))
    decreases n
  {
    hide Inv, CloseSlot;
    if n > 0 {
      CloseSlotSize(t, n - 1);
      CloseSlotKeepsInv(t, n - 1);
      CloseBelowKeepsInv(CloseSlot(t, n - 1), n - 1);
    }
  }

  lemma CloseSlotSize(t: Table, i: nat)
    requires i < |t.slots|
    ensures |CloseSlot(t, i).slots| == |t.slots|
  {
  }

  lemma {:induction false} OpenFromKeepsInv(t: Table, i: nat, setPid: SetPid)
    requires Inv(t) && Answers(setPid)
    ensures Inv(OpenFrom(t, i, setPid).0)
    decreases |t.slots| - i
  {
    hide Inv, OpenSlot, LimitReached;
    if i < |t.slots| {
      if t.slots[i].flag.New? {
        OpenSlotKeepsInv(t, i, setPid(t.slots[i].pid));
        OpenSlotSize(t, i, setPid(t.slots[i].pid));
        OpenFromKeepsInv(OpenSlot(t, i, setPid(t.slots[i].pid)), i + 1, setPid);
      } else {
        OpenFromKeepsInv(t, i + 1, setPid);
      }
    }
  }

  lemma OpenSlotSize(t: Table, i: nat, h: int)
    requires i < |t.slots|
    ensures |OpenSlot(t, i, h).slots| == |t.slots|
  {
  }

  lemma UpdateKeepsInv(t: Table, setPid: SetPid)
    requires Inv(t) && Answers(setPid)
    ensures Inv(Update(t, setPid).0)
  {
    hide Inv, CloseBelow, OpenFrom;
    CloseBelowKeepsInv(t, |t.slots|);
    OpenFromKeepsInv(CloseBelow(t, |t.slots|), 0, setPid);
  }
}
