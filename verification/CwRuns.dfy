/** What holds of the control-word cache over every interleaving of its operations. */
module CwRuns {
  import opened Bytes
  import opened Wrappers
  import opened CwTable

  type Word = d: Data | |d| >= 16 witness seq(16, _ => 0)

  datatype Op =
    | OpSend(pmt: nat, algo: Option<Algo>, parity: Parity, word: Word, expiry: int, now: int)
    | OpUpdate(pmt: nat, validated: bool, now: int, test: Cw -> bool)
    | OpClear(pmt: nat, parity: Parity)
    | OpDisable(pmt: nat)
    | OpPacket(pmt: nat, parity: Parity)
    | OpAdd(pmt: nat)
    | OpDel(pmt: nat)

  function Apply(t: Table, op: Op): Table {
    match op
    case OpSend(pmt, algo, parity, word, expiry, now) => SendCw(t, pmt, algo, parity, word, expiry, now).0
    case OpUpdate(pmt, validated, now, test) => if IsLive(t, pmt) then UpdateCw(t, pmt, validated, now, test) else t
    case OpClear(pmt, parity) => ClearCw(t, pmt, parity)
    case OpDisable(pmt) => DisableCw(t, pmt)
    case OpPacket(pmt, parity) => SeePacket(t, pmt, parity)
    case OpAdd(pmt) => if pmt < |t.pmts| then PmtAdd(t, pmt) else t
    case OpDel(pmt) => PmtDel(t, pmt)
  }

  function Run(t: Table, ops: seq<Op>): Table {
    if ops == [] then t else Apply(Run(t, ops[..|ops| - 1]), ops[|ops| - 1])
  }

  lemma ApplyKeepsInv(t: Table, op: Op)
    requires Inv(t)
    ensures Inv(Apply(t, op)) && KeysKept(t, Apply(t, op))
  {
    hide Inv, KeysKept, SendCw, UpdateCw, ClearCw, PmtAdd, PmtDel;
    NothingChanges(t);
    match op {
      case OpSend(pmt, algo, parity, word, expiry, now) => SendKeepsInv(t, pmt, algo, parity, word, expiry, now);
      case OpUpdate(pmt, validated, now, test) => if IsLive(t, pmt) { UpdateKeepsInv(t, pmt, validated, now, test); }
      case OpClear(pmt, parity) => ClearKeepsInv(t, pmt, parity);
      case OpDisable(pmt) => SamePointersKeepInv(t, DisableCw(t, pmt));
      case OpPacket(pmt, parity) => SamePointersKeepInv(t, SeePacket(t, pmt, parity));
      case OpAdd(pmt) => if pmt < |t.pmts| { AddKeepsInv(t, pmt); }
      case OpDel(pmt) => DelKeepsInv(t, pmt);
    }
  }

  lemma NothingChanges(t: Table)
    requires Inv(t)
    ensures KeysKept(t, t)
  {
    hide Inv;
    AllKept(t, t);
  }

  /** In every interleaving: a key in use belongs to its PMT, every enabled key lies below ncws, and only live PMTs
      have enabled keys. */
  lemma {:induction false} RunKeepsInv(t: Table, ops: seq<Op>)
    requires Inv(t)
    ensures Inv(Run(t, ops))
    decreases |ops|
  {
    hide Inv, Apply, KeysKept;
    if ops != [] {
      RunKeepsInv(t, ops[..|ops| - 1]);
      ApplyKeepsInv(Run(t, ops[..|ops| - 1]), ops[|ops| - 1]);
    }
  }

  /** Operations that may give PMT p another key. */
  predicate Rekeys(op: Op, p: nat) { (op.OpUpdate? && op.pmt == p) || (op.OpDel? && op.pmt == p) }

  lemma PointerStays(t: Table, op: Op, p: nat)
    requires Inv(t) && p < |t.pmts| && t.pmts[p].cw.Some? && !Rekeys(op, p)
    ensures p < |Apply(t, op).pmts| && Apply(t, op).pmts[p].cw == t.pmts[p].cw
  {
    hide Inv, NewCw, FirstKnown, FirstReusable, Pick, Off, Used;
    KeyIsThere(t, p);
    match op {
      case OpSend(_, _, _, _, _, _) =>
      case OpUpdate(_, _, _, _) =>
      case OpClear(_, _) =>
      case OpDisable(_) =>
      case OpPacket(_, _) =>
      case OpAdd(_) =>
      case OpDel(_) =>
    }
  }

  /** The key a live PMT decrypts with is never overwritten: until the PMT looks for another key or is deleted, it
      points at the same slot with the same word, even when the key is disabled or expires meanwhile. */
  lemma {:induction false} ActiveKeyStays(t: Table, ops: seq<Op>, p: nat)
    requires Inv(t) && p < |t.pmts| && t.pmts[p].cw.Some? && forall i :: 0 <= i < |ops| ==> !Rekeys(ops[i], p)
    ensures var r, k := Run(t, ops), t.pmts[p].cw.value;
            && p < |r.pmts| && r.pmts[p].cw == Some(k) && k < |t.slots| == |r.slots| && SameKey(t.slots[k], r.slots[k])
    decreases |ops|
  {
    hide Inv, Apply, Rekeys, SameKey;
    KeyIsThere(t, p);
    var k := t.pmts[p].cw.value;
    if ops == [] {
      SameKeyRefl(t.slots[k]);
    } else {
      var u, op := Run(t, ops[..|ops| - 1]), ops[|ops| - 1];
      ActiveKeyStays(t, ops[..|ops| - 1], p);
      RunKeepsInv(t, ops[..|ops| - 1]);
      ApplyKeepsInv(u, op);
      PointerStays(u, op, p);
      SameKeyChains(t.slots[k], u.slots[k], Apply(u, op).slots[k]);
    }
  }

  /** An enabled, unexpired key of the PMT and its current parity. */
  predicate Fits(t: Table, p: nat, i: int, now: int)
    requires p < |t.pmts|
  {
    IsEnabled(t, i) && t.slots[i].value.pmt == p && t.slots[i].value.parity == t.pmts[p].parity && now <= t.slots[i].value.expiry
  }

  lemma FitsIsCandidate(t: Table, p: nat, i: int, now: int)
    requires Inv(t) && p < |t.pmts|
    ensures Fits(t, p, i, now) <==> IsCandidate(t, p, i, now)
  {
  }

  /** A search without packets to test takes the newest key that fits, the first of several, and none exactly when
      none fits. */
  lemma UnvalidatedPicksNewest(t: Table, p: nat, now: int, test: Cw -> bool)
    requires Inv(t) && IsLive(t, p) && IsDue(t, p, false)
    ensures var k := UpdateCw(t, p, false, now, test).pmts[p].cw;
            && (k.None? <==> forall i :: !Fits(t, p, i, now))
            && (k.Some? ==> Fits(t, p, k.value, now) && forall i :: Fits(t, p, i, now) ==>
                  t.slots[i].value.time <= t.slots[k.value].value.time
                  && (t.slots[i].value.time == t.slots[k.value].value.time ==> k.value <= i))
  {
    hide Newest, Inv, IsCandidate;
    forall i ensures Fits(t, p, i, now) <==> IsCandidate(t, p, i, now) { FitsIsCandidate(t, p, i, now); }
    var k := UpdateCw(t, p, false, now, test).pmts[p].cw;
    assert k == Newest(t, p, now, |t.slots|);
  }

  /** A search with packets takes the first key that decrypts them, and none exactly when none does; keys used
      before for the parity end within the grace time. */
  lemma ValidatedPicksWorking(t: Table, p: nat, now: int, test: Cw -> bool)
    requires Inv(t) && IsLive(t, p) && IsDue(t, p, true)
    ensures var r := UpdateCw(t, p, true, now, test); var k := r.pmts[p].cw;
            && (k.None? <==> forall i :: Fits(t, p, i, now) ==> !test(t.slots[i].value))
            && (k.Some? ==> Fits(t, p, k.value, now) && test(t.slots[k.value].value)
                            && forall i :: Fits(t, p, i, now) && i < k.value ==> !test(t.slots[i].value))
            && (k.Some? ==> forall i :: Fits(t, p, i, now) && i != k.value && t.slots[i].value.setTime > 0 ==>
                  r.slots[i].Some? && r.slots[i].value.expiry <= now + GRACE)
  {
  }

  /** A reused PMT id starts without any key of its predecessor, without a parity, and with its search called for. */
  lemma NewPmtHasNoKeys(t: Table, p: nat, now: int, test: Cw -> bool)
    requires Inv(t) && p < |t.pmts| && !IsLive(t, p)
    ensures var r := PmtAdd(t, p);
            && IsLive(r, p) && r.pmts[p].cw == None && r.pmts[p].parity == -1 && IsDue(r, p, false)
            && (forall i :: IsEnabled(r, i) ==> r.slots[i].value.pmt != p)
            && UpdateCw(r, p, false, now, test).pmts[p].cw == None
  {
  }

  /** A key that comes late for the parity in use does not displace the key in use in an unvalidated search. */
  lemma LateKeyStaysBehind(t: Table, p: nat, algo: Option<Algo>, word: Word, expiry: int, now: int, later: int, test: Cw -> bool)
    requires Inv(t) && IsLive(t, p) && t.pmts[p].cw.Some? && t.pmts[p].lastUpdate > 0 && !t.pmts[p].updateCw
    requires t.pmts[p].parity in {0, 1} && SendCw(t, p, algo, t.pmts[p].parity, word, expiry, now).1.Ok?
    requires Fits(t, p, t.pmts[p].cw.value, later)
    ensures var r := SendCw(t, p, algo, t.pmts[p].parity, word, expiry, now).0;
            var k := UpdateCw(DisableCw(r, p), p, false, later, test).pmts[p].cw;
            k.Some? && k.value != FirstReusable(t, algo.value, now, 0)
  {
    hide FirstKnown, FirstReusable, Newest, Inv;
    var i, cur := FirstReusable(t, algo.value, now, 0), t.pmts[p].cw.value;
    var r := SendCw(t, p, algo, t.pmts[p].parity, word, expiry, now).0;
    var due := DisableCw(r, p);
    KeyIsThere(t, p);
    SendKeepsInv(t, p, algo, t.pmts[p].parity, word, expiry, now);
    SamePointersKeepInv(r, due);
    assert i != cur;
    assert r.slots[i].value.time == t.slots[cur].value.time - 1000;
    assert Fits(due, p, cur, later);
    UnvalidatedPicksNewest(due, p, later, test);
  }
}
