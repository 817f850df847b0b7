/** Joining pids and the order of their first clients (src/adapter.cpp:1005-1032, 1238-1283, 1337-1361;
    src/adapter.h:94-98), by which the election tells the earlier subscriber. */
module PidOrder {
  import opened PidTable
  import opened PidRuns
  import opened PidSort
  import opened PidRelease

  // ----- one join -----

  /** Some client stream holds the slot. */
  ghost predicate IsServed(s: Slot) { exists o :: o in s.sids && 0 <= o < 256 }

  /** What stream sid makes of slot s when it joins the pid: a free slot is taken over for it, a live one keeps all but its
      streams, and one marked for closing is wanted again. Only the first client is given an order. */
  ghost predicate JoinedTo(s: Slot, r: Slot, sid: int, pid: int, order: nat) {
    && r.pid == pid && r.fd == s.fd && r.packets == s.packets
    && r.sids == (if s.flag.Inactive? then {} else s.sids) + (if sid == -1 then {} else {sid})
    && r.flag == (match s.flag case Inactive => New case Deleted => New case Active => Active case New => New)
    && r.order == if IsServed(r) && (s.flag.Inactive? || !IsServed(s)) then order else if s.flag.Inactive? then 0 else s.order
  }

  lemma NextOrderIs(seqNo: nat)
    requires seqNo < 0x1_0000_0000
    ensures NextOrder(seqNo) == if seqNo == 0xFFFF_FFFF then 1 else seqNo + 1
  {
  }

  lemma JoinedIs(s: Slot, sid: int, order: nat)
    requires IsLive(s)
    ensures var j := Joined(s, sid, order);
            j.flag == s.flag && JoinedTo(s, j.(flag := if s.flag.Deleted? then New else s.flag), sid, s.pid, order)
  {
    var j := Joined(s, sid, order);
    assert IsServed(s) <==> HasClient(s);
    assert IsServed(j) <==> HasClient(s) || IsClient(sid);
  }

  lemma TakenIs(s: Slot, sid: int, pid: int, order: nat)
    requires !IsLive(s)
    ensures JoinedTo(s, Joined(Slot(New, pid, s.fd, {}, 0, s.packets), sid, order), sid, pid, order)
  {
    var n := Slot(New, pid, s.fd, {}, 0, s.packets);
    assert !HasClient(n) && n.sids == {};
    assert IsServed(Joined(n, sid, order)) <==> IsClient(sid);
  }

  /** The slot a join of the pid goes to: the pid's own, or else the first free one. */
  ghost predicate TakesPid(s: Slots, i: nat, pid: int) {
    && i < |s|
    && (IsAt(s, i, pid)
        || (s[i].flag.Inactive? && (forall j :: !IsAt(s, j, pid)) && forall j :: 0 <= j < i ==> !s[j].flag.Inactive?))
  }

  /** Whether joining slot i gives it an order. */
  ghost predicate IsFirstClient(s: Slot, sid: int) { 0 <= sid < 256 && (s.flag.Inactive? || !IsServed(s)) }

  /** A pid is noted exactly when it is a pid and has a slot or finds one; only that slot changes, and the order counter
      moves with the first client alone. */
  lemma JoinIs(t: Table, sid: int, pid: int)
    requires Inv(t)
    ensures var (r, ok) := MarkAdd(t, sid, pid);
            && (ok <==> 0 <= pid <= 8192 && exists i: nat :: TakesPid(t.slots, i, pid))
            && (!ok ==> r == t)
            && (ok ==> forall i: nat :: TakesPid(t.slots, i, pid) ==>
                  && r == t.(slots := r.slots, orderSeq := r.orderSeq) && |r.slots| == |t.slots|
                  && JoinedTo(t.slots[i], r.slots[i], sid, pid, NextOrder(t.orderSeq))
                  && (forall j :: 0 <= j < |t.slots| && j != i ==> r.slots[j] == t.slots[j])
                  && r.orderSeq == if IsFirstClient(t.slots[i], sid) then NextOrder(t.orderSeq) else t.orderSeq)
  {
    hide Inv, FindFrom, FreeFrom, NextOrder, Joined, JoinedTo;
    InvParts(t);
    var (r, ok) := MarkAdd(t, sid, pid);
    var i, f, order := FindFrom(t.slots, pid, 0), FreeFrom(t.slots, 0), NextOrder(t.orderSeq);
    if i != -1 {
      NoSecondSlot(t.slots, i, pid);
      assert TakesPid(t.slots, i, pid);
      JoinedIs(t.slots[i], sid, order);
      assert IsServed(t.slots[i]) <==> HasClient(t.slots[i]);
    } else if f != -1 {
      assert TakesPid(t.slots, f, pid);
      TakenIs(t.slots[f], sid, pid, order);
    }
  }

  // ----- the order over runs -----

  /** A pid has an order exactly while a client holds it; orders tell pids apart and come from the counter. */
  ghost predicate IsOrdered(t: Table) {
    && (forall s :: s in t.slots && IsLive(s) ==> (IsServed(s) <==> s.order > 0) && s.order <= t.orderSeq)
    && forall s, x :: s in t.slots && x in t.slots && IsLive(s) && IsLive(x) && s.pid != x.pid && s.order > 0 ==> s.order != x.order
  }

  /** The order of a pid, 0 when it has none. */
  function OrderOf(t: Table, p: int): nat {
    var i := FindFrom(t.slots, p, 0);
    if i == -1 then 0 else t.slots[i].order
  }

  /** The slot was there before, with the same order unless it has none now. */
  ghost predicate ComesFrom(s: Slot, was: Slots) {
    (IsServed(s) <==> s.order > 0) && exists x :: x in was && IsLive(x) && x.pid == s.pid && (s.order == 0 || s.order == x.order)
  }

  ghost predicate AllComeFrom(now: Slots, was: Slots) { forall s :: s in now && IsLive(s) ==> ComesFrom(s, was) }

  lemma OrderOfSlot(t: Table, s: Slot)
    requires Distinct(t.slots) && s in t.slots && IsLive(s)
    ensures OrderOf(t, s.pid) == s.order
  {
    var i :| 0 <= i < |t.slots| && t.slots[i] == s;
    assert IsAt(t.slots, i, s.pid);
    NoSecondSlot(t.slots, i, s.pid);
  }

  /** Leaving and passing give no orders. */
  lemma FewerOrders(t: Table, r: Table)
    requires Distinct(t.slots) && IsOrdered(t) && r.orderSeq == t.orderSeq && AllComeFrom(r.slots, t.slots)
    ensures IsOrdered(r) && forall p :: OrderOf(r, p) == 0 || OrderOf(r, p) == OrderOf(t, p)
  {
    hide IsServed, Distinct, FindFrom;
    forall p ensures OrderOf(r, p) == 0 || OrderOf(r, p) == OrderOf(t, p) {
      var i := FindFrom(r.slots, p, 0);
      if i != -1 {
        assert r.slots[i] in r.slots && ComesFrom(r.slots[i], t.slots);
        var x :| x in t.slots && IsLive(x) && x.pid == p && (r.slots[i].order == 0 || r.slots[i].order == x.order);
        OrderOfSlot(t, x);
      }
    }
    forall s | s in r.slots && IsLive(s) ensures (IsServed(s) <==> s.order > 0) && s.order <= r.orderSeq {
      assert ComesFrom(s, t.slots);
    }
    forall s, x | s in r.slots && x in r.slots && IsLive(s) && IsLive(x) && s.pid != x.pid && s.order > 0 ensures s.order != x.order {
      assert ComesFrom(s, t.slots) && ComesFrom(x, t.slots);
    }
  }

  lemma LeftComesFrom(s: Slot, sid: int, keep: bool, was: Slots)
    requires s in was && (IsLive(s) ==> (IsServed(s) <==> s.order > 0))
    ensures var r := Left(s, sid, keep); IsLive(r) ==> ComesFrom(r, was)
  {
    var r := Left(s, sid, keep);
    assert IsServed(r) <==> HasClient(r);
    assert HasClient(r) ==> HasClient(s);
    assert IsServed(s) <==> HasClient(s);
  }

  lemma SameComesFrom(s: Slot, was: Slots)
    requires s in was && (IsLive(s) ==> (IsServed(s) <==> s.order > 0))
    ensures IsLive(s) ==> ComesFrom(s, was)
  {
  }

  /** Each slot stays as it was, or a stream leaves it. */
  lemma LeavesKeepOrder(t: Table, r: Table, sid: int)
    requires Inv(t) && IsOrdered(t) && r.orderSeq == t.orderSeq && |r.slots| == |t.slots|
    requires forall i :: 0 <= i < |t.slots| ==>
               r.slots[i] == t.slots[i] || r.slots[i] == Left(t.slots[i], sid, true) || r.slots[i] == Left(t.slots[i], sid, false)
    ensures IsOrdered(r) && forall p :: OrderOf(r, p) == 0 || OrderOf(r, p) == OrderOf(t, p)
  {
    hide Left, IsServed, Inv, ComesFrom;
    InvParts(t);
    forall s | s in r.slots && IsLive(s) ensures ComesFrom(s, t.slots) {
      var i :| 0 <= i < |r.slots| && r.slots[i] == s;
      assert t.slots[i] in t.slots;
      LeftComesFrom(t.slots[i], sid, true, t.slots);
      LeftComesFrom(t.slots[i], sid, false, t.slots);
      SameComesFrom(t.slots[i], t.slots);
    }
    FewerOrders(t, r);
  }

  lemma {:induction false} CloseBelowKeepsCounter(t: Table, n: nat)
    requires n <= |t.slots|
    ensures CloseBelow(t, n).orderSeq == t.orderSeq
    decreases n
  {
    if n > 0 { CloseBelowKeepsCounter(CloseSlot(t, n - 1), n - 1); }
  }

  lemma {:induction false} OpenFromKeepsOrders(t: Table, i: nat, setPid: SetPid)
    ensures var r := OpenFrom(t, i, setPid).0;
            && r.orderSeq == t.orderSeq && |r.slots| == |t.slots|
            && forall j :: 0 <= j < |t.slots| ==>
                 && r.slots[j].pid == t.slots[j].pid && r.slots[j].sids == t.slots[j].sids && r.slots[j].order == t.slots[j].order
                 && (IsLive(r.slots[j]) <==> IsLive(t.slots[j]))
    decreases |t.slots| - i
  {
    hide LimitReached;
    if i < |t.slots| {
      var h := setPid(t.slots[i].pid);
      if !t.slots[i].flag.New? {
        OpenFromKeepsOrders(t, i + 1, setPid);
      } else if !LimitReached(t) && !StopsAt(t, i, h) {
        OpenFromKeepsOrders(OpenSlot(t, i, h), i + 1, setPid);
      }
    }
  }

  /** A pass and the sorting after it give and take no orders of wanted pids. */
  lemma PassKeepsOrder(t: Table, setPid: SetPid)
    requires Inv(t) && IsOrdered(t)
    ensures var u := Update(t, setPid).0; var r := u.(slots := Bubble(u.slots));
            && r.orderSeq == t.orderSeq && IsOrdered(r) && forall p :: OrderOf(r, p) == 0 || OrderOf(r, p) == OrderOf(t, p)
  {
    hide CloseBelow, OpenFrom, Bubble, Inv, IsServed;
    var u := Update(t, setPid).0;
    var r := u.(slots := Bubble(u.slots));
    CloseBelowFrees(t, |t.slots|);
    CloseBelowKeepsCounter(t, |t.slots|);
    OpenFromKeepsOrders(CloseBelow(t, |t.slots|), 0, setPid);
    BubblePermutes(u.slots);
    InvParts(t);
    forall s | s in r.slots && IsLive(s) ensures ComesFrom(s, t.slots) {
      var i :| 0 <= i < |u.slots| && u.slots[i] == s;
      var x := t.slots[i];
      assert x in t.slots && IsLive(x) && x.pid == s.pid && x.order == s.order && x.sids == s.sids;
      SameService(s, x);
    }
    FewerOrders(t, r);
  }

  lemma SameService(s: Slot, x: Slot)
    requires s.sids == x.sids
    ensures IsServed(s) <==> IsServed(x)
  {
  }

  /** How orders move when streams join pids: what has one keeps it, a new one is beyond all before, and other pids get
      none. */
  ghost predicate OnlyLater(t: Table, r: Table, pids: seq<int>) {
    forall p :: if OrderOf(t, p) > 0 || p !in pids then OrderOf(r, p) == OrderOf(t, p)
                else OrderOf(r, p) == 0 || t.orderSeq < OrderOf(r, p)
  }

  lemma AddKeepsOrder(t: Table, sid: int, pid: int)
    requires Inv(t) && IsOrdered(t) && t.orderSeq + 1 < 0x1_0000_0000
    ensures var r := MarkAdd(t, sid, pid).0; IsOrdered(r) && t.orderSeq <= r.orderSeq <= t.orderSeq + 1 && OnlyLater(t, r, [pid])
  {
    hide Inv, MarkAdd;
    JoinIs(t, sid, pid);
    NextOrderIs(t.orderSeq);
    InvParts(t);
    MarkAddKeepsInv(t, sid, pid);
    var (r, ok) := MarkAdd(t, sid, pid);
    InvParts(r);
    if ok {
      var i: nat :| TakesPid(t.slots, i, pid);
      JoinsInOrder(t, r, i, sid, pid);
    }
  }

  lemma JoinsInOrder(t: Table, r: Table, i: nat, sid: int, pid: int)
    requires Distinct(t.slots) && Distinct(r.slots) && IsOrdered(t) && TakesPid(t.slots, i, pid) && |r.slots| == |t.slots|
    requires JoinedTo(t.slots[i], r.slots[i], sid, pid, t.orderSeq + 1)
    requires forall j :: 0 <= j < |t.slots| && j != i ==> r.slots[j] == t.slots[j]
    requires r.orderSeq == if IsFirstClient(t.slots[i], sid) then t.orderSeq + 1 else t.orderSeq
    ensures IsOrdered(r) && OnlyLater(t, r, [pid])
  {
    hide FindFrom, Distinct;
    forall p
      ensures if OrderOf(t, p) > 0 || p !in [pid] then OrderOf(r, p) == OrderOf(t, p)
              else OrderOf(r, p) == 0 || t.orderSeq < OrderOf(r, p)
    {
      OrderAfterJoin(t, r, i, p);
      if p == pid && IsLive(t.slots[i]) { OrderOfSlot(t, t.slots[i]); }
    }
  }

  lemma OrderAfterJoin(t: Table, r: Table, i: nat, p: int)
    requires Distinct(t.slots) && Distinct(r.slots) && |r.slots| == |t.slots| && i < |t.slots| && IsLive(r.slots[i])
    requires TakesPid(t.slots, i, r.slots[i].pid)
    requires forall j :: 0 <= j < |t.slots| && j != i ==> r.slots[j] == t.slots[j]
    ensures OrderOf(r, p) == if p == r.slots[i].pid then r.slots[i].order else OrderOf(t, p)
    ensures p == r.slots[i].pid && !IsLive(t.slots[i]) ==> OrderOf(t, p) == 0
  {
    hide Distinct;
    assert IsAt(r.slots, i, r.slots[i].pid);
    NoSecondSlot(r.slots, i, r.slots[i].pid);
    var a, b := FindFrom(t.slots, p, 0), FindFrom(r.slots, p, 0);
    if p != r.slots[i].pid {
      if b != -1 { NoSecondSlot(r.slots, b, p); assert IsAt(t.slots, b, p); NoSecondSlot(t.slots, b, p); }
      if a != -1 { assert IsAt(r.slots, a, p); }
    }
  }

  lemma {:induction false} JoinWantedKeepsOrder(t: Table, sid: int, want: seq<int>)
    requires Inv(t) && IsOrdered(t) && t.orderSeq + |want| < 0x1_0000_0000
    ensures var r := JoinWanted(t, sid, want).0;
            IsOrdered(r) && t.orderSeq <= r.orderSeq <= t.orderSeq + |want| && OnlyLater(t, r, want)
    decreases |want|
  {
    hide Inv, IsOrdered, MarkAdd, NeedsJoin, OrderOf;
    if want != [] {
      var (t1, ok) := if NeedsJoin(t, sid, want[0]) then MarkAdd(t, sid, want[0]) else (t, true);
      MarkAddKeepsInv(t, sid, want[0]);
      AddKeepsOrder(t, sid, want[0]);
      JoinWantedKeepsOrder(t1, sid, want[1..]);
    }
  }

  /** How many orders an operation may give. */
  function Joins(ops: seq<Op>): nat {
    if ops == [] then 0
    else Joins(ops[..|ops| - 1]) + match ops[|ops| - 1] case OpAdd(_, _) => 1 case OpSync(_, want, _) => |want| case _ => 0
  }

  /** How orders move in general: an order stays or is lost, and a new one is beyond all before. */
  ghost predicate LostOrLater(t: Table, r: Table) {
    forall p :: OrderOf(r, p) == 0 || if OrderOf(t, p) > 0 then OrderOf(r, p) == OrderOf(t, p) else t.orderSeq < OrderOf(r, p)
  }

  ghost predicate AllAnswer(ops: seq<Op>) { forall i :: 0 <= i < |ops| && ops[i].OpUpdate? ==> Answers(ops[i].setPid) }

  /** The pids a stream goes on wanting keep their order. */
  lemma WantedKeepOrder(t: Table, sid: int, want: seq<int>, keep: int -> bool, p: int)
    requires Distinct(t.slots) && p in want
    ensures OrderOf(LeaveUnwanted(t, sid, want, keep), p) == OrderOf(t, p)
  {
    hide Left, Distinct, FindFrom;
    var u := LeaveUnwanted(t, sid, want, keep);
    forall i | 0 <= i < |t.slots| ensures Stays(t.slots[i], u.slots[i]) && (IsLive(t.slots[i]) <==> IsLive(u.slots[i])) {
      LeftStays(t.slots[i], sid, keep(t.slots[i].pid));
    }
    var a, b := FindFrom(t.slots, p, 0), FindFrom(u.slots, p, 0);
    if a != -1 { assert IsAt(u.slots, a, p); NoSecondSlot(t.slots, a, p); }
    if b != -1 { assert IsAt(t.slots, b, p); }
  }

  lemma ApplyKeepsOrder(t: Table, op: Op)
    requires Inv(t) && IsOrdered(t) && t.orderSeq + Joins([op]) < 0x1_0000_0000
    ensures var r := Apply(t, op); IsOrdered(r) && t.orderSeq <= r.orderSeq <= t.orderSeq + Joins([op]) && LostOrLater(t, r)
  {
    hide Inv, IsOrdered, MarkAdd, JoinWanted, Update, Bubble, Left, OrderOf, FindFrom;
    assert [op][..0] == [] && Joins([]) == 0;
    match op {
      case OpAdd(sid, pid) => AddKeepsOrder(t, sid, pid);
      case OpDelete(sid, pid, kept) => LeavesKeepOrder(t, Apply(t, op), sid);
      case OpDeleteAll(sid, keep) => LeavesKeepOrder(t, Apply(t, op), sid);
      case OpSync(sid, want, keep) =>
        var u := LeaveUnwanted(t, sid, want, keep);
        LeavesKeepOrder(t, u, sid);
        LeaveUnwantedKeepsInv(t, sid, want, keep);
        JoinWantedKeepsOrder(u, sid, want);
        InvParts(t);
        forall p | p in want ensures OrderOf(u, p) == OrderOf(t, p) { WantedKeepOrder(t, sid, want, keep, p); }
      case OpUpdate(setPid) => PassKeepsOrder(t, setPid);
    }
  }

  lemma ApplyKeepsInv(t: Table, op: Op)
    requires Inv(t) && (op.OpUpdate? ==> Answers(op.setPid))
    ensures Inv(Apply(t, op))
  {
    hide Inv, Apply, Answers;
    assert [op][..0] == [];
    assert Run(t, [op]) == Apply(t, op);
    RunKeepsInv(t, [op]);
  }

  lemma JoinsSplit(ops: seq<Op>)
    requires ops != []
    ensures Joins(ops) == Joins(ops[..|ops| - 1]) + Joins([ops[|ops| - 1]])
  {
    assert [ops[|ops| - 1]][..0] == [] && Joins([]) == 0;
  }

  /** While the counter does not wrap, a pid has an order exactly while a client holds it, and no two pids the same. */
  lemma {:induction false} RunKeepsOrder(t: Table, ops: seq<Op>)
    requires Inv(t) && IsOrdered(t) && AllAnswer(ops) && t.orderSeq + Joins(ops) < 0x1_0000_0000
    ensures var r := Run(t, ops); Inv(r) && IsOrdered(r) && t.orderSeq <= r.orderSeq <= t.orderSeq + Joins(ops)
    decreases |ops|
  {
    hide Inv, IsOrdered, Apply, Answers, LostOrLater, Joins;
    if ops == [] {
      assert Joins(ops) >= 0;
    } else {
      var n := |ops| - 1;
      JoinsSplit(ops);
      RunKeepsOrder(t, ops[..n]);
      ApplyKeepsInv(Run(t, ops[..n]), ops[n]);
      ApplyKeepsOrder(Run(t, ops[..n]), ops[n]);
    }
  }

  /** First come, first in order: of two pids, one that had a client before the other had any, and never lost its clients
      since, has the smaller order for as long as the other one has a client. */
  lemma {:induction false} EarlierIsSmaller(t: Table, ops: seq<Op>, p: int, q: int)
    requires Inv(t) && IsOrdered(t) && AllAnswer(ops) && t.orderSeq + Joins(ops) < 0x1_0000_0000
    requires OrderOf(t, q) == 0 && forall k :: 0 <= k <= |ops| ==> OrderOf(Run(t, ops[..k]), p) > 0
    ensures var r := Run(t, ops);
            && OrderOf(r, p) == OrderOf(t, p) <= t.orderSeq
            && (OrderOf(r, q) > 0 ==> OrderOf(r, p) < OrderOf(r, q))
    decreases |ops|
  {
    hide Inv, IsOrdered, Apply, Answers, Joins, OrderOf;
    assert ops[..|ops|] == ops;
    if ops == [] {
      OrderIsCounted(t, p);
    } else {
      var n := |ops| - 1;
      JoinsSplit(ops);
      forall k | 0 <= k <= n ensures OrderOf(Run(t, ops[..n][..k]), p) > 0 { assert ops[..n][..k] == ops[..k]; }
      EarlierIsSmaller(t, ops[..n], p, q);
      RunKeepsOrder(t, ops[..n]);
      ApplyKeepsOrder(Run(t, ops[..n]), ops[n]);
    }
  }

  lemma OrderIsCounted(t: Table, p: int)
    requires IsOrdered(t)
    ensures OrderOf(t, p) <= t.orderSeq
  {
  }

  /** A pid has an order exactly when a client holds it. */
  lemma OrderIffClient(t: Table, p: int)
    requires Inv(t) && IsOrdered(t)
    ensures OrderOf(t, p) > 0 <==> exists o :: 0 <= o < 256 && IsHeld(t.slots, o, p)
  {
    InvParts(t);
    hide Inv, FindFrom, HasClient;
    var i := FindFrom(t.slots, p, 0);
    if i != -1 {
      NoSecondSlot(t.slots, i, p);
      assert t.slots[i] in t.slots && (IsServed(t.slots[i]) <==> t.slots[i].order > 0);
      if IsServed(t.slots[i]) {
        var o :| o in t.slots[i].sids && 0 <= o < 256;
        assert HoldsAt(t.slots, i, o, p) && IsHeld(t.slots, o, p);
      }
      if o :| 0 <= o < 256 && IsHeld(t.slots, o, p) {
        var j :| HoldsAt(t.slots, j, o, p);
        assert j == i && o in t.slots[i].sids;
      }
    }
  }
}
