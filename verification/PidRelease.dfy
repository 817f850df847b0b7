/** Leaving pids (src/adapter.cpp:968-1043, 1173-1236, 1337-1361): the last stream's leave closes a pid, unless a filter
    needs it, and nobody else's leave does. */
module PidRelease {
  import opened PidTable
  import opened PidRuns
  import opened PidSort

  // ----- one leave -----

  /** Stream sid leaves the pid of slot i: the slot is marked for closing exactly when it was the last stream and no
      filter keeps the pid; nothing else of the slot but the order of a pid without clients changes, and no other slot. */
  lemma LeaveIs(t: Table, sid: int, pid: int, keep: bool, i: nat)
    requires Inv(t) && sid != NO_STREAM && IsAt(t.slots, i, pid)
    ensures var s, r := t.slots[i], MarkDeleted(t, sid, pid, keep).slots;
            && |r| == |t.slots| && (forall j :: 0 <= j < |r| && j != i ==> r[j] == t.slots[j])
            && r[i].sids == s.sids - {sid} && r[i].pid == s.pid && r[i].fd == s.fd && r[i].packets == s.packets
            && ((forall o :: o in s.sids ==> o == sid) && !keep ==> r[i].flag.Deleted?)
            && (keep || (exists o :: o in s.sids && o != sid) ==> r[i].flag == s.flag)
            && r[i].order == if exists o :: o in s.sids && o != sid && 0 <= o < 256 then s.order else 0
  {
    hide FindFrom;
    var s := t.slots[i];
    var at := FindFrom(t.slots, pid, 0);
    InvParts(t);
    NoSecondSlot(t.slots, i, pid);
    assert at == i;
    var left := s.sids - {sid};
    assert forall o :: o in left <==> o in s.sids && o != sid;
    assert left == {} <==> forall o :: o in s.sids ==> o == sid;
    assert (exists o :: o in left && IsClient(o)) <==> exists o :: o in s.sids && o != sid && 0 <= o < 256;
  }

  /** Without a stream every stream leaves, whatever filters need. */
  lemma LeaveAllIs(t: Table, pid: int, keep: bool, i: nat)
    requires Inv(t) && IsAt(t.slots, i, pid)
    ensures var r := MarkDeleted(t, NO_STREAM, pid, keep).slots;
            && |r| == |t.slots| && (forall j :: 0 <= j < |r| && j != i ==> r[j] == t.slots[j])
            && r[i] == t.slots[i].(flag := Deleted, sids := {}, order := 0)
  {
    hide FindFrom;
    InvParts(t);
    NoSecondSlot(t.slots, i, pid);
  }

  // ----- who is wanted after leaving -----

  /** Slots marked for closing have no stream. */
  predicate ClosingIsIdle(s: Slots) { forall i :: 0 <= i < |s| && s[i].flag.Deleted? ==> s[i].sids == {} }

  /** The slot stays open exactly when a stream holds it or a filter keeps it. */
  predicate IsJustified(s: Slot, keep: bool) { Wanted(s) <==> s.sids != {} || keep }

  lemma LeftIsJustified(s: Slot, sid: int, keep: bool)
    requires sid != NO_STREAM && Wanted(s) && s.sids != {}
    ensures var r := Left(s, sid, keep); IsJustified(r, keep) && IsLive(r) && r.pid == s.pid && r.sids == s.sids - {sid}
  {
  }

  /** Joining the pid or another leaves it justified. */
  lemma AddStaysJustified(t: Table, sid: int, pid: int, keep: bool, i: nat, p: int)
    requires Inv(t) && IsAt(t.slots, i, p) && IsJustified(t.slots[i], keep) && sid != NO_STREAM
    ensures var r := MarkAdd(t, sid, pid).0.slots; i < |r| && IsAt(r, i, p) && IsJustified(r[i], keep)
  {
    hide FindFrom, FreeFrom, HasClient, IsClient, NextOrder;
    InvParts(t);
    NoSecondSlot(t.slots, i, p);
    var at := FindFrom(t.slots, pid, 0);
    if at == i { assert sid in MarkAdd(t, sid, pid).0.slots[i].sids; }
  }

  lemma {:induction false} JoinStaysJustified(t: Table, sid: int, want: seq<int>, keep: bool, i: nat, p: int)
    requires Inv(t) && IsAt(t.slots, i, p) && IsJustified(t.slots[i], keep) && sid != NO_STREAM
    ensures var r := JoinWanted(t, sid, want).0.slots; i < |r| && IsAt(r, i, p) && IsJustified(r[i], keep)
    decreases |want|
  {
    hide Inv, MarkAdd, NeedsJoin, IsJustified;
    if want != [] {
      var (t1, ok) := if NeedsJoin(t, sid, want[0]) then MarkAdd(t, sid, want[0]) else (t, true);
      MarkAddKeepsInv(t, sid, want[0]);
      AddStaysJustified(t, sid, want[0], keep, i, p);
      JoinStaysJustified(t1, sid, want[1..], keep, i, p);
    }
  }

  // ----- leaving and the next pass -----

  /** A pass that goes through leaves a pid open exactly when its slot was wanted. */
  lemma PassOpens(t: Table, setPid: SetPid, i: nat, p: int)
    requires Inv(t) && Answers(setPid) && Update(t, setPid).1 && IsAt(t.slots, i, p)
    ensures p in Update(t, setPid).0.open <==> Wanted(t.slots[i])
  {
    hide Update;
    UpdateSettles(t, setPid);
    InvParts(t);
    NoSecondSlot(t.slots, i, p);
    if j :| 0 <= j < |t.slots| && Wanted(t.slots[j]) && t.slots[j].pid == p { assert IsAt(t.slots, j, p); }
  }

  lemma SomeMember<T>(s: set<T>) returns (x: T)
    requires s != {}
    ensures x in s
  {
    x :| x in s;
  }

  /** Stream o holds the pid of slot i exactly when it is among the slot's streams. */
  lemma HeldIsAt(s: Slots, i: nat, p: int)
    requires Distinct(s) && IsAt(s, i, p)
    ensures (exists o :: IsHeld(s, o, p)) <==> s[i].sids != {}
  {
    NoSecondSlot(s, i, p);
    if s[i].sids != {} {
      var o := SomeMember(s[i].sids);
      assert HoldsAt(s, i, o, p) && IsHeld(s, o, p);
    }
    if o :| IsHeld(s, o, p) {
      var j :| HoldsAt(s, j, o, p);
      assert j == i && o in s[i].sids;
    }
  }

  /** What leaving and the next pass come to, once the slot is justified. */
  lemma JustifiedIsOpen(t: Table, setPid: SetPid, i: nat, p: int, keep: bool)
    requires Inv(t) && Answers(setPid) && Update(t, setPid).1 && IsAt(t.slots, i, p) && IsJustified(t.slots[i], keep)
    ensures p in Update(t, setPid).0.open <==> (exists o :: IsHeld(t.slots, o, p)) || keep
  {
    hide Update, Inv;
    PassOpens(t, setPid, i, p);
    InvParts(t);
    HeldIsAt(t.slots, i, p);
  }

  /** A stream leaves a pid, and a pass goes through: the pid is open exactly when some stream still holds it or a filter
      keeps it. */
  lemma LeaveThenPass(t: Table, sid: int, pid: int, keep: bool, setPid: SetPid, o: int)
    requires Inv(t) && ClosingIsIdle(t.slots) && sid != NO_STREAM && IsHeld(t.slots, o, pid) && Answers(setPid)
    requires Update(MarkDeleted(t, sid, pid, keep), setPid).1
    ensures var u := MarkDeleted(t, sid, pid, keep);
            pid in Update(u, setPid).0.open <==> (exists x :: IsHeld(u.slots, x, pid)) || keep
  {
    hide Inv, FindFrom, Left, Update;
    var i: nat :| HoldsAt(t.slots, i, o, pid);
    InvParts(t);
    NoSecondSlot(t.slots, i, pid);
    LeftIsJustified(t.slots[i], sid, keep);
    MarkDeletedKeepsInv(t, sid, pid, keep);
    JustifiedIsOpen(MarkDeleted(t, sid, pid, keep), setPid, i, pid, keep);
  }

  /** A stream leaves all its pids, and a pass goes through: of the pids somebody held exactly those are open that some
      stream still holds or a filter keeps. */
  lemma LeaveAllThenPass(t: Table, sid: int, keep: int -> bool, setPid: SetPid, o: int, p: int)
    requires Inv(t) && ClosingIsIdle(t.slots) && sid != NO_STREAM && IsHeld(t.slots, o, p) && Answers(setPid)
    requires Update(MarkAllDeleted(t, sid, keep), setPid).1
    ensures var u := MarkAllDeleted(t, sid, keep);
            p in Update(u, setPid).0.open <==> (exists x :: IsHeld(u.slots, x, p)) || keep(p)
  {
    hide Inv, Left, Update;
    var i: nat :| HoldsAt(t.slots, i, o, p);
    LeftIsJustified(t.slots[i], sid, keep(p));
    MarkAllDeletedKeepsInv(t, sid, keep);
    JustifiedIsOpen(MarkAllDeleted(t, sid, keep), setPid, i, p, keep(p));
  }

  /** A stream asks for a new set of pids, and a pass goes through: of the pids somebody held, exactly those are open that
      some stream holds now or a filter keeps; even if the table had no room for all the new ones. */
  lemma SyncThenPass(t: Table, sid: int, want: seq<int>, keep: int -> bool, setPid: SetPid, o: int, p: int)
    requires Inv(t) && ClosingIsIdle(t.slots) && sid != NO_STREAM && IsHeld(t.slots, o, p) && Answers(setPid)
    requires Update(Sync(t, sid, want, keep).0, setPid).1
    ensures var u := Sync(t, sid, want, keep).0;
            p in Update(u, setPid).0.open <==> (exists x :: IsHeld(u.slots, x, p)) || keep(p)
  {
    hide Inv, Left, Update, JoinWanted;
    var i: nat :| HoldsAt(t.slots, i, o, p);
    var s, u := t.slots[i], LeaveUnwanted(t, sid, want, keep);
    LeaveUnwantedKeepsInv(t, sid, want, keep);
    if sid in s.sids && p !in want {
      LeftIsJustified(s, sid, keep(p));
    }
    JoinStaysJustified(u, sid, want, keep(p), i, p);
    SyncKeepsInv(t, sid, want, keep);
    JustifiedIsOpen(Sync(t, sid, want, keep).0, setPid, i, p, keep(p));
  }

  // ----- over runs -----

  lemma AddKeepsIdle(t: Table, sid: int, pid: int)
    requires ClosingIsIdle(t.slots)
    ensures ClosingIsIdle(MarkAdd(t, sid, pid).0.slots)
  {
    hide FindFrom, FreeFrom, HasClient;
  }

  lemma {:induction false} JoinKeepsIdle(t: Table, sid: int, want: seq<int>)
    requires ClosingIsIdle(t.slots)
    ensures ClosingIsIdle(JoinWanted(t, sid, want).0.slots)
    decreases |want|
  {
    hide MarkAdd, NeedsJoin, ClosingIsIdle;
    if want != [] {
      var (t1, ok) := if NeedsJoin(t, sid, want[0]) then MarkAdd(t, sid, want[0]) else (t, true);
      AddKeepsIdle(t, sid, want[0]);
      JoinKeepsIdle(t1, sid, want[1..]);
    }
  }

  lemma LeftIsIdle(s: Slot, sid: int, keep: bool)
    requires s.flag.Deleted? ==> s.sids == {}
    ensures Left(s, sid, keep).flag.Deleted? ==> Left(s, sid, keep).sids == {}
  {
  }

  lemma {:induction false} OpenFromKeepsIdle(t: Table, i: nat, setPid: SetPid)
    requires ClosingIsIdle(t.slots)
    ensures ClosingIsIdle(OpenFrom(t, i, setPid).0.slots)
    decreases |t.slots| - i
  {
    hide LimitReached;
    if i < |t.slots| {
      var h := setPid(t.slots[i].pid);
      if !t.slots[i].flag.New? {
        OpenFromKeepsIdle(t, i + 1, setPid);
      } else if !LimitReached(t) && !StopsAt(t, i, h) {
        OpenFromKeepsIdle(OpenSlot(t, i, h), i + 1, setPid);
      }
    }
  }

  lemma {:induction false} PassPermutes(s: Slots, i: nat)
    requires i < |s| || i == 0
    ensures forall x :: x in Pass(s, i) ==> x in s
  {
    hide Weight;
    if i > 0 { PassPermutes(s, i - 1); }
  }

  lemma {:induction false} BubblePermutes(s: Slots)
    ensures forall x :: x in Bubble(s) ==> x in s
    decreases Potential(s)
  {
    hide Potential, Pass, Weight;
    var n := if s == [] then 0 else |s| - 1;
    PassLowers(s, n);
    PassPermutes(s, n);
    if FullPass(s) != s { BubblePermutes(FullPass(s)); }
  }

  lemma PassKeepsIdle(t: Table, setPid: SetPid)
    requires ClosingIsIdle(t.slots)
    ensures ClosingIsIdle(Bubble(Update(t, setPid).0.slots))
  {
    hide Bubble, CloseBelow, OpenFrom;
    CloseBelowFrees(t, |t.slots|);
    OpenFromKeepsIdle(CloseBelow(t, |t.slots|), 0, setPid);
    var u := Update(t, setPid).0.slots;
    BubblePermutes(u);
    forall i | 0 <= i < |Bubble(u)| && Bubble(u)[i].flag.Deleted? ensures Bubble(u)[i].sids == {} {
      assert Bubble(u)[i] in u;
    }
  }

  lemma ApplyKeepsIdle(t: Table, op: Op)
    requires ClosingIsIdle(t.slots)
    ensures ClosingIsIdle(Apply(t, op).slots)
  {
    hide Left, MarkAdd, JoinWanted, Bubble, Update, FindFrom;
    forall s: Slot, sid, keep | s.flag.Deleted? ==> s.sids == {}
      ensures Left(s, sid, keep).flag.Deleted? ==> Left(s, sid, keep).sids == {} {
      LeftIsIdle(s, sid, keep);
    }
    match op {
      case OpAdd(sid, pid) => AddKeepsIdle(t, sid, pid);
      case OpDelete(_, _, _) =>
      case OpDeleteAll(_, _) =>
      case OpSync(sid, want, keep) => JoinKeepsIdle(LeaveUnwanted(t, sid, want, keep), sid, want);
      case OpUpdate(setPid) => PassKeepsIdle(t, setPid);
    }
  }

  /** Over every run the slots marked for closing have no stream, so that the three theorems above hold at every point. */
  lemma {:induction false} RunKeepsIdle(t: Table, ops: seq<Op>)
    requires ClosingIsIdle(t.slots)
    ensures ClosingIsIdle(Run(t, ops).slots)
    decreases |ops|
  {
    hide Apply, ClosingIsIdle;
    if ops != [] {
      RunKeepsIdle(t, ops[..|ops| - 1]);
      ApplyKeepsIdle(Run(t, ops[..|ops| - 1]), ops[|ops| - 1]);
    }
  }
}
