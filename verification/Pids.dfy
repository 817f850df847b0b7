/** The pid slots of an adapter changed in place (src/adapter.cpp:939-1050, 1148-1279, 1337-1361, 1546-1570),
    proved equal to modules PidTable and PidSort. The PMT and filter fields of a slot are left out. */
module Pids {
  import opened PidTable
  import opened PidSort
  import opened PidRuns

  class AdapterPids {
    const pids: array<Slot>
    var activePids: nat
    var maxPids: nat
    var maxActivePids: nat
    var pidOrderSeq: nat
    /** The pids open in the demux. */
    var open: set<int>

    ghost predicate Valid()
      reads this, pids
    {
      pids.Length == MAX_PIDS && Inv(View())
    }

    function View(): Table
      reads this, pids
    {
      Table(pids[..], activePids, maxPids, maxActivePids, pidOrderSeq, open)
    }

    constructor (limit: nat)
      ensures Valid() && fresh(pids) && activePids == 0 && open == {}
    {
      pids := new Slot[MAX_PIDS](_ => Slot(Inactive, 0, 0, {}, 0, 0));
      activePids, maxPids, maxActivePids, pidOrderSeq, open := 0, limit, 0, 0, {};
      new;
      FreshInv(View());
    }

    /** find_pid. */
    method FindPid(pid: int) returns (i: int)
      requires pids.Length == MAX_PIDS
      ensures i == FindFrom(pids[..], pid, 0)
    {
      for k := 0 to MAX_PIDS
        invariant FindFrom(pids[..], pid, 0) == FindFrom(pids[..], pid, k)
      {
        if IsLive(pids[k]) && pids[k].pid == pid { return k; }
      }
      return -1;
    }

    method FindFree() returns (i: int)
      requires pids.Length == MAX_PIDS
      ensures i == FreeFrom(pids[..], 0)
    {
      for k := 0 to MAX_PIDS
        invariant FreeFrom(pids[..], 0) == FreeFrom(pids[..], k)
      {
        if !IsLive(pids[k]) { return k; }
      }
      return -1;
    }

    /** Let stream sid join slot i; its first client gives the slot its place in the subscription order. */
    method JoinSlot(i: nat, sid: int)
      requires pids.Length == MAX_PIDS && i < MAX_PIDS
      modifies this`pidOrderSeq, pids
      ensures pids[..] == old(pids[..])[i := Joined(old(pids[i]), sid, NextOrder(old(pidOrderSeq)))]
      ensures pidOrderSeq == if sid != NO_STREAM && !HasClient(old(pids[i])) && IsClient(sid)
                             then NextOrder(old(pidOrderSeq)) else old(pidOrderSeq)
    {
      if sid != NO_STREAM {
        var hadClient := HasClient(pids[i]);
        pids[i] := pids[i].(sids := pids[i].sids + {sid});
        if !hadClient && HasClient(pids[i]) {
          assert IsClient(sid);
          pidOrderSeq := NextOrder(pidOrderSeq);
          pids[i] := pids[i].(order := pidOrderSeq);
        } else if IsClient(sid) {
          assert hadClient;
        }
      }
    }

    /** mark_pid_add. */
    method MarkPidAdd(sid: int, pid: int) returns (ok: bool)
      requires Valid()
      modifies this`pidOrderSeq, pids
      ensures Valid() && (View(), ok) == MarkAdd(old(View()), sid, pid)
    {
      hide Inv, FindFrom, FreeFrom, HasClient, NextOrder;
      MarkAddKeepsInv(View(), sid, pid);
      if pid < 0 || pid > ALL_PIDS {
        return false;
      }
      var i := FindPid(pid);
      if i != -1 {
        ghost var before := pids[..];
        JoinSlot(i, sid);
        if pids[i].flag.Deleted? {
          pids[i] := pids[i].(flag := New);
        }
        assert pids[..] == before[i := pids[i]];
        return true;
      }
      var f := FindFree();
      if f == -1 {
        return false;
      }
      ghost var start := pids[..];
      pids[f] := Slot(New, pid, pids[f].fd, {}, 0, pids[f].packets);
      NoClient(pids[f]);
      JoinSlot(f, sid);
      assert pids[..] == start[f := pids[f]];
      return true;
    }

    /** mark_pid_deleted on a slot. */
    method LeaveSlot(i: nat, sid: int, keep: bool)
      requires pids.Length == MAX_PIDS && i < MAX_PIDS
      modifies pids
      ensures pids[..] == old(pids[..])[i := Left(old(pids[i]), sid, keep)]
    {
      hide HasClient;
      if sid == NO_STREAM {
        if IsLive(pids[i]) { pids[i] := pids[i].(flag := Deleted); }
        pids[i] := pids[i].(sids := {}, order := 0);
        return;
      }
      pids[i] := pids[i].(sids := pids[i].sids - {sid});
      if !HasClient(pids[i]) { pids[i] := pids[i].(order := 0); }
      if pids[i].sids == {} && IsLive(pids[i]) && !keep { pids[i] := pids[i].(flag := Deleted); }
    }

    /** mark_pid_deleted. */
    method MarkPidDeleted(sid: int, pid: int, keep: bool)
      requires Valid()
      modifies pids
      ensures Valid() && View() == MarkDeleted(old(View()), sid, pid, keep)
    {
      hide Inv, FindFrom, Left;
      MarkDeletedKeepsInv(View(), sid, pid, keep);
      var i := FindPid(pid);
      if i != -1 { LeaveSlot(i, sid, keep); }
    }

    /** mark_pids_deleted for all pids. */
    method MarkPidsDeleted(sid: int, keep: int -> bool)
      requires Valid()
      modifies pids
      ensures Valid() && View() == MarkAllDeleted(old(View()), sid, keep)
    {
      hide Inv, Left;
      MarkAllDeletedKeepsInv(View(), sid, keep);
      ghost var start := View();
      for i := 0 to MAX_PIDS
        invariant forall j :: i <= j < MAX_PIDS ==> pids[j] == start.slots[j]
        invariant forall j :: 0 <= j < i ==> pids[j] == Left(start.slots[j], sid, keep(start.slots[j].pid))
      {
        LeaveSlot(i, sid, keep(pids[i].pid));
      }
      assert pids[..] == MarkAllDeleted(start, sid, keep).slots;
    }

    /** sync_pids: `want` lists the pids of the transponder. */
    method SyncPids(sid: int, want: seq<int>, keep: int -> bool) returns (ok: bool)
      requires Valid()
      modifies this`pidOrderSeq, pids
      ensures Valid() && (View(), ok) == Sync(old(View()), sid, want, keep)
    {
      hide Inv, Left, MarkAdd, JoinWanted, NeedsJoin;
      ghost var start := View();
      LeaveUnwantedKeepsInv(start, sid, want, keep);
      ghost var left := LeaveUnwanted(start, sid, want, keep);
      for i := 0 to MAX_PIDS
        invariant pidOrderSeq == start.orderSeq
        invariant forall j :: i <= j < MAX_PIDS ==> pids[j] == start.slots[j]
        invariant forall j :: 0 <= j < i ==> pids[j] == left.slots[j]
      {
        if IsLive(pids[i]) && sid in pids[i].sids && pids[i].pid !in want {
          LeaveSlot(i, sid, keep(pids[i].pid));
        }
      }
      assert pids[..] == left.slots;
      assert View() == left;
      ok := JoinAll(sid, want);
    }

    method JoinAll(sid: int, want: seq<int>) returns (ok: bool)
      requires Valid()
      modifies this`pidOrderSeq, pids
      ensures Valid() && (View(), ok) == JoinWanted(old(View()), sid, want)
    {
      hide Inv, MarkAdd, FindFrom;
      assert want[0..] == want;
      for k := 0 to |want|
        invariant Valid() && JoinWanted(old(View()), sid, want) == JoinWanted(View(), sid, want[k..])
      {
        assert want[k..][0] == want[k] && want[k..][1..] == want[k + 1..];
        var i := FindPid(want[k]);
        if i == -1 || sid !in pids[i].sids || pids[i].flag.Deleted? {
          ok := MarkPidAdd(sid, want[k]);
          if !ok { return; }
        }
      }
      assert want[|want|..] == [];
      return true;
    }

    /** The deleted slots of update_pids, from the last to the first. */
    method CloseDeleted()
      requires Valid()
      modifies this`activePids, this`open, pids
      ensures Valid() && View() == CloseBelow(old(View()), MAX_PIDS)
    {
      hide Inv;
      var i := MAX_PIDS;
      while i > 0
        invariant 0 <= i <= MAX_PIDS && Valid()
        invariant CloseBelow(old(View()), MAX_PIDS) == CloseBelow(View(), i)
      {
        i := i - 1;
        CloseSlotKeepsInv(View(), i);
        if pids[i].flag.Deleted? {
          if pids[i].fd > 0 {
            if activePids > 0 { activePids := activePids - 1; }
            open := open - {pids[i].pid};
          }
          pids[i] := Slot(Inactive, pids[i].pid, 0, pids[i].sids, 0, 0);
        }
      }
    }

    /** The new slots of update_pids. */
    method OpenNew(setPid: SetPid) returns (done: bool)
      requires Valid() && Answers(setPid)
      modifies this`activePids, this`maxPids, this`maxActivePids, this`open, pids
      ensures Valid() && (View(), done) == OpenFrom(old(View()), 0, setPid)
    {
      hide Inv, OpenSlot;
      var i := 0;
      while i < MAX_PIDS
        invariant 0 <= i <= MAX_PIDS && Valid()
        invariant OpenFrom(old(View()), 0, setPid) == OpenFrom(View(), i, setPid)
      {
        if pids[i].flag.New? {
          if maxPids != 0 && maxPids < activePids {
            return false;
          }
          OpenSlotKeepsInv(View(), i, setPid(pids[i].pid));
          var isOpen := OpenOne(i, setPid(pids[i].pid));
          if !isOpen {
            return false;
          }
        }
        i := i + 1;
      }
      return true;
    }

    /** Open one new slot, or lower the limit when the demux refuses. */
    method OpenOne(i: nat, h: int) returns (isOpen: bool)
      requires pids.Length == MAX_PIDS && i < MAX_PIDS && pids[i].flag.New? && h != 0
      modifies this`activePids, this`maxPids, this`maxActivePids, this`open, pids
      ensures View() == OpenSlot(old(View()), i, h) && isOpen == !(old(pids[i]).fd <= 0 && h < 0)
    {
      ghost var start := pids[..];
      if pids[i].fd <= 0 {
        pids[i] := pids[i].(fd := h);
        if h < 0 {
          maxPids := if maxActivePids - 1 < MIN_ADAPTER_PIDS then MIN_ADAPTER_PIDS else maxActivePids - 1;
          assert pids[..] == start[i := pids[i]];
          return false;
        }
        open := open + {pids[i].pid};
        activePids := activePids + 1;
        if maxActivePids < activePids { maxActivePids := activePids; }
      }
      pids[i] := pids[i].(flag := Active, packets := 0);
      assert pids[..] == start[i := pids[i]];
      return true;
    }

    /** update_pids, without the PMT hooks. */
    method UpdatePids(setPid: SetPid) returns (done: bool)
      requires Valid() && Answers(setPid)
      modifies this`activePids, this`maxPids, this`maxActivePids, this`open, pids
      ensures Valid() && View() == Apply(old(View()), OpUpdate(setPid)) && done == Update(old(View()), setPid).1
    {
      hide Inv, CloseBelow, OpenFrom, Bubble;
      CloseDeleted();
      done := OpenNew(setPid);
      SortPids();
    }

    /** sort_pids. */
    method SortPids()
      requires Valid()
      modifies pids
      ensures Valid() && View() == old(View()).(slots := Bubble(old(pids[..]))) && Sorted(pids[..])
      ensures forall w :: OfWeight(pids[..], w) == OfWeight(old(pids[..]), w)
    {
      hide Inv, Weight, OfWeight, Potential, Pass, Sorted;
      BubbleKeepsInv(View());
      BubbleIsSorted(pids[..]);
      forall w ensures OfWeight(Bubble(pids[..]), w) == OfWeight(pids[..], w) { BubbleIsStable(pids[..], w); }
      var swapped := true;
      while swapped
        invariant Bubble(pids[..]) == Bubble(old(pids[..]))
        invariant !swapped ==> FullPass(pids[..]) == pids[..]
        decreases Potential(pids[..]), if swapped then 1 else 0
      {
        PassLowers(pids[..], MAX_PIDS - 1);
        swapped := OnePass();
      }
    }

    /** One pass over all neighbours. */
    method OnePass() returns (swapped: bool)
      requires pids.Length == MAX_PIDS
      modifies pids
      ensures pids[..] == FullPass(old(pids[..])) && swapped == (pids[..] != old(pids[..]))
    {
      hide Potential;
      swapped := false;
      ghost var start := pids[..];
      for i := 0 to MAX_PIDS - 1
        invariant pids[..] == Pass(start, i)
        invariant swapped == (Pass(start, i) != start)
      {
        PassLowers(start, i);
        PassLowers(start, i + 1);
        if !IsLive(pids[i + 1]) {
          continue;
        }
        if !IsLive(pids[i]) || pids[i].packets < pids[i + 1].packets {
          PotentialAfterSwap(pids[..], i);
          swapped := true;
          pids[i], pids[i + 1] := pids[i + 1], pids[i];
        }
      }
    }
  }

  lemma NoClient(s: Slot)
    requires s.sids == {}
    ensures !HasClient(s)
  {
  }
}
