/** What passes, syncs and whole runs over the pid slots achieve. */
module PidRuns {
  import opened PidTable
  import opened PidSort

  // ----- what a pass achieves -----

  lemma {:induction false} CloseBelowFrees(t: Table, n: nat)
    requires n <= |t.slots|
    ensures var r := CloseBelow(t, n);
            && |r.slots| == |t.slots|
            && forall j :: 0 <= j < |t.slots| ==>
                 r.slots[j] == (if j < n && t.slots[j].flag.Deleted?
                                then Slot(Inactive, t.slots[j].pid, 0, t.slots[j].sids, 0, 0) else t.slots[j])
    decreases n
  {
    if n > 0 { CloseBelowFrees(CloseSlot(t, n - 1), n - 1); }
  }

  predicate Settled(s: Slot) { s.flag.Inactive? || s.flag.Active? }

  /** A pass that goes through leaves no new slot behind; one that stops leaves the slot it stopped at. */
  lemma {:induction false} OpenFromSettles(t: Table, i: nat, setPid: SetPid)
    requires i <= |t.slots|
    ensures var (r, done) := OpenFrom(t, i, setPid);
            && |r.slots| == |t.slots|
            && (forall j :: 0 <= j < |t.slots| ==> r.slots[j].pid == t.slots[j].pid && r.slots[j].sids == t.slots[j].sids)
            && (forall j :: 0 <= j < |t.slots| && !t.slots[j].flag.New? ==> r.slots[j] == t.slots[j])
            && (forall j :: 0 <= j < i ==> r.slots[j] == t.slots[j])
            && (done <==> forall j :: i <= j < |t.slots| ==> !r.slots[j].flag.New?)
            && (done ==> forall j :: i <= j < |t.slots| && t.slots[j].flag.New? ==> r.slots[j].flag.Active?)
    decreases |t.slots| - i
  {
    hide LimitReached;
    if i < |t.slots| {
      if t.slots[i].flag.New? && !LimitReached(t) && !StopsAt(t, i, setPid(t.slots[i].pid)) {
        OpenFromSettles(OpenSlot(t, i, setPid(t.slots[i].pid)), i + 1, setPid);
      } else if !t.slots[i].flag.New? {
        OpenFromSettles(t, i + 1, setPid);
      }
    }
  }

  predicate Wanted(s: Slot) { s.flag.Active? || s.flag.New? }

  /** A pass goes through exactly when it leaves only settled slots, and then the pids open in the demux are those
      that were wanted before it. */
  lemma UpdateSettles(t: Table, setPid: SetPid)
    requires Inv(t) && Answers(setPid)
    ensures var (r, done) := Update(t, setPid);
            && |r.slots| == |t.slots|
            && (done <==> forall j :: 0 <= j < |t.slots| ==> Settled(r.slots[j]))
            && (done ==> forall j :: 0 <= j < |t.slots| ==> (r.slots[j].flag.Active? <==> Wanted(t.slots[j])))
            && (done ==> forall p :: p in r.open <==> exists j :: 0 <= j < |t.slots| && Wanted(t.slots[j]) && t.slots[j].pid == p)
  {
    hide CloseBelow, OpenFrom;
    var c := CloseBelow(t, |t.slots|);
    var (r, done) := Update(t, setPid);
    CloseBelowFrees(t, |t.slots|);
    OpenFromSettles(c, 0, setPid);
    UpdateKeepsInv(t, setPid);
    assert forall j :: 0 <= j < |t.slots| ==> !c.slots[j].flag.Deleted?;
    if done {
      forall p ensures p in r.open <==> exists j :: 0 <= j < |t.slots| && Wanted(t.slots[j]) && t.slots[j].pid == p {
        OpenAreActive(r, t, p);
      }
    }
  }

  lemma OpenAreActive(r: Table, t: Table, p: int)
    requires Inv(r) && |r.slots| == |t.slots|
    requires forall j :: 0 <= j < |t.slots| ==>
               && r.slots[j].pid == t.slots[j].pid && Settled(r.slots[j])
               && (r.slots[j].flag.Active? <==> Wanted(t.slots[j]))
    ensures p in r.open <==> exists j :: 0 <= j < |t.slots| && Wanted(t.slots[j]) && t.slots[j].pid == p
  {
    hide Wanted;
    if p in r.open {
      var j :| IsOpen(r.slots, j, p);
      assert Wanted(t.slots[j]) && t.slots[j].pid == p;
    }
    if j :| 0 <= j < |t.slots| && Wanted(t.slots[j]) && t.slots[j].pid == p {
      assert IsOpen(r.slots, j, p);
    }
  }

  // ----- when a pass goes through -----

  function ToClose(s: Slots): nat {
    if s == [] then 0 else ToClose(s[..|s| - 1]) + if s[|s| - 1].flag.Deleted? && s[|s| - 1].fd > 0 then 1 else 0
  }

  function ToOpen(s: Slots): nat {
    if s == [] then 0 else (if s[0].flag.New? && s[0].fd <= 0 then 1 else 0) + ToOpen(s[1..])
  }

  /** Known before the pass: at every new slot the pids left open and those opened before it are within the limit, and
      the demux takes the pid unless it is still open. */
  ghost predicate GoesThrough(t: Table, setPid: SetPid) {
    forall j :: 0 <= j < |t.slots| && t.slots[j].flag.New? ==>
      && (t.maxPids == 0 || t.active - ToClose(t.slots) + ToOpen(t.slots[..j]) <= t.maxPids)
      && (t.slots[j].fd > 0 || setPid(t.slots[j].pid) >= 0)
  }

  lemma {:induction false} CloseBelowCounts(t: Table, n: nat)
    requires Inv(t) && n <= |t.slots|
    ensures var c := CloseBelow(t, n); c.active == t.active - ToClose(t.slots[..n]) && c.maxPids == t.maxPids
    decreases n
  {
    hide Inv;
    if n > 0 {
      var c := CloseSlot(t, n - 1);
      CloseSlotKeepsInv(t, n - 1);
      if t.slots[n - 1].fd > 0 { OpenIsCounted(t, n - 1); }
      CloseBelowCounts(c, n - 1);
      assert c.slots[..n - 1] == t.slots[..n - 1] == t.slots[..n][..n - 1];
    }
  }

  lemma OpenIsCounted(t: Table, i: nat)
    requires Inv(t) && i < |t.slots| && t.slots[i].fd > 0
    ensures t.active > 0
  {
    assert IsOpen(t.slots, i, t.slots[i].pid);
    assert t.slots[i].pid in t.open && t.open != {};
  }

  lemma {:induction false} OpenFromGoes(t: Table, i: nat, setPid: SetPid)
    requires i <= |t.slots|
    ensures OpenFrom(t, i, setPid).1 <==>
              forall j :: i <= j < |t.slots| && t.slots[j].flag.New? ==>
                && (t.maxPids == 0 || t.active + ToOpen(t.slots[i..j]) <= t.maxPids)
                && (t.slots[j].fd > 0 || setPid(t.slots[j].pid) >= 0)
    decreases |t.slots| - i
  {
    if i < |t.slots| {
      var r := if t.slots[i].flag.New? then OpenSlot(t, i, setPid(t.slots[i].pid)) else t;
      assert ToOpen(t.slots[i..i]) == 0;
      if !t.slots[i].flag.New? || !StopsAt(t, i, setPid(t.slots[i].pid)) {
        OpenFromGoes(r, i + 1, setPid);
        forall j | i < j < |t.slots|
          ensures r.slots[j] == t.slots[j] && r.active + ToOpen(r.slots[i + 1..j]) == t.active + ToOpen(t.slots[i..j])
        {
          assert t.slots[i..j][0] == t.slots[i] && t.slots[i..j][1..] == t.slots[i + 1..j] == r.slots[i + 1..j];
        }
      }
    }
  }

  lemma {:induction false} SameToOpen(s: Slots, r: Slots)
    requires |s| == |r| && forall j :: 0 <= j < |s| ==> r[j] == s[j] || (s[j].flag.Deleted? && r[j].flag.Inactive?)
    ensures ToOpen(s) == ToOpen(r)
    decreases |s|
  {
    if s != [] { SameToOpen(s[1..], r[1..]); }
  }

  /** A pass goes through exactly when the table, the limit and the demux's answers allow it. */
  lemma UpdateGoesThroughIff(t: Table, setPid: SetPid)
    requires Inv(t)
    ensures Update(t, setPid).1 <==> GoesThrough(t, setPid)
  {
    hide Inv, ToClose, ToOpen, OpenFrom, CloseBelow;
    var n, c := |t.slots|, CloseBelow(t, |t.slots|);
    CloseBelowFrees(t, n);
    CloseBelowCounts(t, n);
    assert t.slots[..n] == t.slots;
    OpenFromGoes(c, 0, setPid);
    forall j | 0 <= j < n ensures ToOpen(c.slots[0..j]) == ToOpen(t.slots[..j]) {
      SameToOpen(t.slots[..j], c.slots[0..j]);
    }
  }

  // ----- what a stream asks for -----

  predicate HoldsAt(s: Slots, i: int, sid: int, pid: int) { IsAt(s, i, pid) && sid in s[i].sids }

  /** Stream sid holds the pid. */
  ghost predicate IsHeld(s: Slots, sid: int, pid: int) { exists i :: HoldsAt(s, i, sid, pid) }

  /** Stream sid holds the pid, and it is not about to be closed. */
  ghost predicate IsFirm(s: Slots, sid: int, pid: int) { exists i :: HoldsAt(s, i, sid, pid) && Wanted(s[i]) }

  /** Streams other than sid hold what they held. */
  ghost predicate OthersHold(s: Slots, r: Slots, sid: int) {
    forall o, p :: o != sid ==> (IsHeld(s, o, p) <==> IsHeld(r, o, p))
  }

  lemma LeftSids(s: Slot, sid: int, keep: bool)
    requires sid != NO_STREAM
    ensures Left(s, sid, keep).sids == s.sids - {sid}
  {
  }

  lemma LeaveUnwantedHolds(t: Table, sid: int, want: seq<int>, keep: int -> bool, o: int, p: int)
    requires sid != NO_STREAM
    ensures IsHeld(LeaveUnwanted(t, sid, want, keep).slots, o, p) <==> IsHeld(t.slots, o, p) && (o != sid || p in want)
  {
    hide Left;
    var s, r := t.slots, LeaveUnwanted(t, sid, want, keep).slots;
    forall i ensures HoldsAt(r, i, o, p) <==> HoldsAt(s, i, o, p) && (o != sid || p in want) {
      if 0 <= i < |s| && IsLive(s[i]) && sid in s[i].sids && s[i].pid !in want {
        LeftStays(s[i], sid, keep(s[i].pid));
        LeftSids(s[i], sid, keep(s[i].pid));
      }
    }
    if i :| HoldsAt(s, i, o, p) && (o != sid || p in want) { assert HoldsAt(r, i, o, p); }
  }

  /** What one successful mark_pid_add changes: the stream holds the pid firmly, and nothing else. */
  lemma MarkAddHolds(t: Table, sid: int, pid: int, o: int, p: int)
    requires Distinct(t.slots) && sid != NO_STREAM && MarkAdd(t, sid, pid).1
    ensures var r := MarkAdd(t, sid, pid).0.slots;
            && IsFirm(r, sid, pid)
            && (IsHeld(r, o, p) <==> IsHeld(t.slots, o, p) || (o == sid && p == pid))
            && (IsFirm(t.slots, o, p) ==> IsFirm(r, o, p))
  {
    hide FindFrom, FreeFrom, HasClient, NextOrder, IsClient;
    var s, r := t.slots, MarkAdd(t, sid, pid).0.slots;
    var i, f := FindFrom(s, pid, 0), FreeFrom(s, 0);
    var at := if i != -1 then i else f;
    assert HoldsAt(r, at, sid, pid) && Wanted(r[at]);
    if j :| HoldsAt(s, j, o, p) { assert HoldsAt(r, j, o, p); }
    if j :| HoldsAt(s, j, o, p) && Wanted(s[j]) { assert HoldsAt(r, j, o, p) && Wanted(r[j]); }
    if j :| HoldsAt(r, j, o, p) { assert HoldsAt(s, j, o, p) || (j == at && o == sid && p == pid); }
  }

  lemma NoNeedIsFirm(t: Table, sid: int, pid: int)
    requires !NeedsJoin(t, sid, pid)
    ensures IsFirm(t.slots, sid, pid) && IsHeld(t.slots, sid, pid)
  {
  }

  lemma {:induction false} JoinHolds(t: Table, sid: int, want: seq<int>, o: int, p: int)
    requires Inv(t) && sid != NO_STREAM && JoinWanted(t, sid, want).1
    ensures var r := JoinWanted(t, sid, want).0.slots;
            && (p in want ==> IsFirm(r, sid, p))
            && (IsHeld(r, o, p) <==> IsHeld(t.slots, o, p) || (o == sid && p in want))
            && (IsFirm(t.slots, o, p) ==> IsFirm(r, o, p))
    decreases |want|
  {
    hide IsHeld, IsFirm, MarkAdd, NeedsJoin, Inv;
    if want != [] {
      var t1 := (if NeedsJoin(t, sid, want[0]) then MarkAdd(t, sid, want[0]) else (t, true)).0;
      InvParts(t);
      if NeedsJoin(t, sid, want[0]) {
        MarkAddKeepsInv(t, sid, want[0]);
        MarkAddHolds(t, sid, want[0], o, p);
        MarkAddHolds(t, sid, want[0], sid, p);
      } else {
        NoNeedIsFirm(t, sid, want[0]);
      }
      JoinHolds(t1, sid, want[1..], o, p);
      JoinHolds(t1, sid, want[1..], sid, p);
      assert p in want <==> p == want[0] || p in want[1..];
    }
  }

  /** After a successful sync the stream holds exactly the pids it wants, each of them open or to be opened, and
      every other stream holds what it held. */
  lemma SyncHolds(t: Table, sid: int, want: seq<int>, keep: int -> bool)
    requires Inv(t) && sid != NO_STREAM && Sync(t, sid, want, keep).1
    ensures var r := Sync(t, sid, want, keep).0.slots;
            && (forall p :: IsHeld(r, sid, p) <==> p in want)
            && (forall p :: p in want ==> IsFirm(r, sid, p))
            && OthersHold(t.slots, r, sid)
  {
    hide IsHeld, IsFirm, JoinWanted, LeaveUnwanted, Inv;
    var t1, r := LeaveUnwanted(t, sid, want, keep), Sync(t, sid, want, keep).0.slots;
    LeaveUnwantedKeepsInv(t, sid, want, keep);
    forall p ensures (IsHeld(r, sid, p) <==> p in want) && (p in want ==> IsFirm(r, sid, p)) {
      LeaveUnwantedHolds(t, sid, want, keep, sid, p);
      JoinHolds(t1, sid, want, sid, p);
    }
    forall o, p | o != sid ensures IsHeld(t.slots, o, p) <==> IsHeld(r, o, p) {
      LeaveUnwantedHolds(t, sid, want, keep, o, p);
      JoinHolds(t1, sid, want, o, p);
    }
  }

  /** No slot can take the pid: it is none, or it has no slot and none is free. */
  ghost predicate IsRefused(s: Slots, pid: int) {
    pid < 0 || pid > 8192 || forall i :: 0 <= i < |s| ==> !s[i].flag.Inactive? && s[i].pid != pid
  }

  lemma RefusedIsNotHeld(t: Table, sid: int, pid: int)
    requires Inv(t) && IsRefused(t.slots, pid)
    ensures !IsHeld(t.slots, sid, pid)
  {
    InvParts(t);
  }

  lemma {:induction false} JoinAnswers(t: Table, sid: int, want: seq<int>)
    requires Inv(t) && sid != NO_STREAM
    ensures var (r, ok) := JoinWanted(t, sid, want); Inv(r) && (!ok ==> exists p :: p in want && IsRefused(r.slots, p))
    decreases |want|
  {
    hide Inv, NeedsJoin, IsHeld, FindFrom, FreeFrom, Joined;
    if want != [] {
      var (t1, ok) := if NeedsJoin(t, sid, want[0]) then MarkAdd(t, sid, want[0]) else (t, true);
      MarkAddKeepsInv(t, sid, want[0]);
      if ok {
        JoinAnswers(t1, sid, want[1..]);
        var (r, done) := JoinWanted(t1, sid, want[1..]);
        if !done {
          var p :| p in want[1..] && IsRefused(r.slots, p);
          assert p in want;
        }
      } else {
        NoSlotFor(t, sid, want[0]);
      }
    }
  }

  lemma NoSlotFor(t: Table, sid: int, pid: int)
    requires !MarkAdd(t, sid, pid).1
    ensures MarkAdd(t, sid, pid).0 == t && IsRefused(t.slots, pid)
  {
    hide FindFrom, FreeFrom;
    if 0 <= pid <= 8192 {
      forall i | 0 <= i < |t.slots| ensures !t.slots[i].flag.Inactive? && t.slots[i].pid != pid {
        assert !IsAt(t.slots, i, pid);
      }
    }
  }

  /** A sync succeeds exactly when the stream then holds every pid it wants, and fails only for want of a slot or for a
      pid that is none. */
  lemma SyncAnswers(t: Table, sid: int, want: seq<int>, keep: int -> bool)
    requires Inv(t) && sid != NO_STREAM
    ensures var (r, ok) := Sync(t, sid, want, keep);
            && (ok <==> forall p :: p in want ==> IsHeld(r.slots, sid, p))
            && (!ok ==> exists p :: p in want && IsRefused(r.slots, p))
  {
    hide Inv, IsHeld, JoinWanted, LeaveUnwanted, IsRefused;
    var (r, ok) := Sync(t, sid, want, keep);
    LeaveUnwantedKeepsInv(t, sid, want, keep);
    JoinAnswers(LeaveUnwanted(t, sid, want, keep), sid, want);
    if ok {
      SyncHolds(t, sid, want, keep);
    } else {
      var p :| p in want && IsRefused(r.slots, p);
      RefusedIsNotHeld(r, sid, p);
    }
  }

  // ----- the limit -----

  /** A new slot that is still open is used as it is; a pid the demux takes is counted, and one it refuses stays new and
      sets the limit below the most pids ever open, but not below 16. */
  lemma OpenSlotIs(t: Table, i: nat, h: int)
    requires i < |t.slots| && t.slots[i].flag.New? && h != 0
    ensures var s, r := t.slots[i], OpenSlot(t, i, h);
            && |r.slots| == |t.slots| && (forall j :: 0 <= j < |t.slots| && j != i ==> r.slots[j] == t.slots[j])
            && r.slots[i].pid == s.pid && r.slots[i].sids == s.sids && r.slots[i].order == s.order
            && (if s.fd > 0 || h > 0
                then r.slots[i].flag == Active && r.slots[i].packets == 0 && r.maxPids == t.maxPids
                else r.slots[i].flag == New && r.slots[i].packets == s.packets && r.maxActive == t.maxActive
                     && r.maxPids >= 16 && (r.maxPids == 16 || r.maxPids == t.maxActive - 1) && t.maxActive <= r.maxPids + 1)
            && (if s.fd <= 0 && h > 0
                then r.slots[i].fd == h && r.active == t.active + 1 && r.open == t.open + {s.pid}
                     && r.maxActive >= t.maxActive && r.maxActive >= r.active && r.maxActive in {t.maxActive, r.active}
                else r.active == t.active && r.open == t.open && r.maxActive == t.maxActive
                     && r.slots[i].fd == if s.fd > 0 then s.fd else h)
  {
  }

  // ----- runs -----

  datatype Op =
    | OpAdd(sid: int, pid: int)
    | OpDelete(sid: int, pid: int, kept: bool)
    | OpDeleteAll(sid: int, keep: int -> bool)
    | OpSync(sid: int, want: seq<int>, keep: int -> bool)
    | OpUpdate(setPid: SetPid)

  function Apply(t: Table, op: Op): Table {
    match op
    case OpAdd(sid, pid) => MarkAdd(t, sid, pid).0
    case OpDelete(sid, pid, kept) => MarkDeleted(t, sid, pid, kept)
    case OpDeleteAll(sid, keep) => MarkAllDeleted(t, sid, keep)
    case OpSync(sid, want, keep) => Sync(t, sid, want, keep).0
    case OpUpdate(setPid) => var r := Update(t, setPid).0; r.(slots := Bubble(r.slots))
  }

  function Run(t: Table, ops: seq<Op>): Table {
    if ops == [] then t else Apply(Run(t, ops[..|ops| - 1]), ops[|ops| - 1])
  }

  /** Over every run of requests and passes the demux has open exactly the pids of the slots with a handle, the
      counter counts them, and no pid sits in two live slots. */
  lemma {:induction false} RunKeepsInv(t: Table, ops: seq<Op>)
    requires Inv(t) && forall i :: 0 <= i < |ops| && ops[i].OpUpdate? ==> Answers(ops[i].setPid)
    ensures Inv(Run(t, ops))
    decreases |ops|
  {
    hide Inv, MarkAdd, MarkDeleted, MarkAllDeleted, Sync, Update, Bubble, Answers;
    if ops != [] {
      var n := |ops| - 1;
      RunKeepsInv(t, ops[..n]);
      var u, op := Run(t, ops[..n]), ops[n];
      match op {
        case OpAdd(sid, pid) => MarkAddKeepsInv(u, sid, pid);
        case OpDelete(sid, pid, kept) => MarkDeletedKeepsInv(u, sid, pid, kept);
        case OpDeleteAll(sid, keep) => MarkAllDeletedKeepsInv(u, sid, keep);
        case OpSync(sid, want, keep) => SyncKeepsInv(u, sid, want, keep);
        case OpUpdate(setPid) =>
          UpdateKeepsInv(u, setPid);
          BubbleKeepsInv(Update(u, setPid).0);
      }
    }
  }
}
