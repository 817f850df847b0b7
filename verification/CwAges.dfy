/** The age of keys (src/pmt.cpp:721-817, 826-910, 979-996): what a send stores, and that a search without packets to test
    takes the key sent last. */
module CwAges {
  import opened Wrappers
  import opened CwTable
  import opened CwRuns

  /** A key for the parity in use that comes while no search is due. */
  predicate IsLate(t: Table, p: nat, parity: Parity)
    requires p < |t.pmts|
  {
    parity == t.pmts[p].parity && t.pmts[p].cw.Some? && t.pmts[p].lastUpdate > 0 && !t.pmts[p].updateCw
  }

  function ExpiryOf(expiry: int, now: int): int { if expiry == 0 then now + 45000 else now + 1000 * expiry }

  /** Slot i holds the word that was sent, cut to what its algorithm uses. */
  ghost predicate Stores(t: Table, i: nat, p: nat, algo: Algo, parity: Parity, word: Word, expiry: int) {
    && i < |t.slots| && t.slots[i].Some?
    && var c := t.slots[i].value;
       && c.enabled && c.pmt == p && c.parity == parity && c.algo == algo && c.expiry == expiry
       && c.word == if algo == Aes then word[..16] else word[..8]
  }

  /** A send that succeeds stores the word in one slot, as not used yet, dated now unless it is late, when it is dated a
      second before the key in use; all other slots stay. */
  lemma SendStores(t: Table, p: nat, algo: Option<Algo>, parity: Parity, word: Word, expiry: int, now: int)
    requires Inv(t) && SendCw(t, p, algo, parity, word, expiry, now).1.Ok?
    ensures var r := SendCw(t, p, algo, parity, word, expiry, now).0;
            && algo.Some? && p < |t.pmts| == |r.pmts| && |r.slots| == |t.slots|
            && exists i: nat :: Stores(r, i, p, algo.value, parity, word, ExpiryOf(expiry, now))
                 && (forall j :: 0 <= j < |t.slots| && j != i ==> r.slots[j] == t.slots[j])
                 && (t.slots[i].Some? && t.slots[i].value.enabled ==> now > t.slots[i].value.expiry)
                 && r.slots[i].value.setTime == 0
                 && (if IsLate(t, p, parity)
                     then t.pmts[p].cw.value < |t.slots| && t.slots[t.pmts[p].cw.value].Some? && t.pmts[p].cw != Some(i)
                          && r.slots[i].value.time == t.slots[t.pmts[p].cw.value].value.time - 1000
                     else r.slots[i].value.time == now)
  {
    hide FirstKnown, FirstReusable, Inv;
    var i := FirstReusable(t, algo.value, now, 0);
    var r := SendCw(t, p, algo, parity, word, expiry, now).0;
    if t.pmts[p].cw.Some? { KeyIsThere(t, p); }
    assert Stores(r, i, p, algo.value, parity, word, ExpiryOf(expiry, now));
  }

  // ----- the key sent last -----

  function NowOf(op: Op, last: int): int {
    match op
    case OpSend(_, _, _, _, _, now) => now
    case OpUpdate(_, _, now, _) => now
    case _ => last
  }

  /** The clock does not run backwards. */
  predicate IsClocked(ops: seq<Op>, start: int)
    decreases |ops|
  {
    ops == [] || var n := |ops| - 1; IsClocked(ops[..n], start) && Clock(ops[..n], start) <= NowOf(ops[n], Clock(ops[..n], start))
  }

  function Clock(ops: seq<Op>, start: int): int {
    if ops == [] then start else NowOf(ops[|ops| - 1], Clock(ops[..|ops| - 1], start))
  }

  /** No key is dated after the given time. */
  ghost predicate NoneAfter(t: Table, time: int) { forall i :: 0 <= i < |t.slots| && t.slots[i].Some? ==> t.slots[i].value.time <= time }

  lemma ApplyKeepsDates(t: Table, op: Op, last: int)
    requires Inv(t) && NoneAfter(t, last) && last <= NowOf(op, last)
    ensures NoneAfter(Apply(t, op), NowOf(op, last))
  {
    hide Inv, FirstKnown, FirstReusable, Pick, Used;
    match op {
      case OpSend(p, algo, parity, word, expiry, now) =>
        if SendCw(t, p, algo, parity, word, expiry, now).1.Ok? { SendStores(t, p, algo, parity, word, expiry, now); }
      case OpUpdate(p, validated, now, test) => if IsLive(t, p) { UpdateKeepsSlots(t, p, validated, now, test); }
      case OpClear(_, _) =>
      case OpDisable(_) =>
      case OpPacket(_, _) =>
      case OpAdd(_) =>
      case OpDel(_) =>
    }
  }

  lemma {:induction false} RunKeepsDates(t: Table, ops: seq<Op>, start: int)
    requires Inv(t) && NoneAfter(t, start) && IsClocked(ops, start)
    ensures Inv(Run(t, ops)) && NoneAfter(Run(t, ops), Clock(ops, start))
    decreases |ops|
  {
    hide Inv, Apply, NoneAfter;
    if ops != [] {
      var n := |ops| - 1;
      RunKeepsDates(t, ops[..n], start);
      ApplyKeepsInv(Run(t, ops[..n]), ops[n]);
      ApplyKeepsDates(Run(t, ops[..n]), ops[n], Clock(ops[..n], start));
    }
  }

  /** Slot i holds the key, and it is newer than every other key of its PMT and parity. */
  ghost predicate IsNewest(t: Table, i: nat, p: nat, algo: Algo, parity: Parity, word: Word, expiry: int, time: int) {
    && Stores(t, i, p, algo, parity, word, expiry) && t.slots[i].value.time == time
    && forall j :: j != i && IsEnabled(t, j) && t.slots[j].value.pmt == p && t.slots[j].value.parity == parity ==>
         t.slots[j].value.time < time
  }

  /** Operations after which the key need not be there: another send for the same PMT and parity, a clearing of it, the
      PMT's deletion, and a search of the PMT with packets, which may end keys early. */
  predicate Disturbs(op: Op, p: nat, parity: Parity) {
    match op
    case OpSend(q, _, x, _, _, _) => q == p && x == parity
    case OpUpdate(q, validated, _, _) => q == p && validated
    case OpClear(q, x) => q == p && x == parity
    case OpDel(q) => q == p
    case _ => false
  }

  lemma NewestStays(t: Table, op: Op, last: int, i: nat, p: nat, algo: Algo, parity: Parity, word: Word, expiry: int, time: int)
    requires Inv(t) && IsNewest(t, i, p, algo, parity, word, expiry, time) && IsLive(t, p)
    requires !Disturbs(op, p, parity) && NowOf(op, last) <= expiry
    ensures IsNewest(Apply(t, op), i, p, algo, parity, word, expiry, time) && IsLive(Apply(t, op), p)
  {
    hide Inv, FirstKnown, FirstReusable, Pick, ClearCw;
    match op {
      case OpSend(q, a, x, w, e, now) =>
        if SendCw(t, q, a, x, w, e, now).1.Ok? { SendStores(t, q, a, x, w, e, now); }
      case OpUpdate(q, validated, now, test) => if IsLive(t, q) { UpdateKeepsSlots(t, q, validated, now, test); }
      case OpClear(q, x) =>
        EnabledAreUsed(t);
        ClearIs(t, q, x);
      case OpDisable(_) =>
      case OpPacket(_, _) =>
      case OpAdd(_) =>
      case OpDel(q) =>
        EnabledAreUsed(t);
        DelLeaves(t, q, i);
    }
  }

  lemma EnabledAreUsed(t: Table)
    requires Inv(t)
    ensures forall i :: IsEnabled(t, i) ==> i < t.ncws
  {
  }

  /** Deleting a PMT leaves other PMTs' keys as they are. */
  lemma DelLeaves(t: Table, q: nat, i: nat)
    requires forall i :: IsEnabled(t, i) ==> i < t.ncws
    ensures var r := PmtDel(t, q);
            && |r.slots| == |t.slots| && |r.pmts| == |t.pmts|
            && (forall j :: IsEnabled(r, j) ==> IsEnabled(t, j) && r.slots[j] == t.slots[j])
            && (forall j :: IsEnabled(t, j) && t.slots[j].value.pmt != q ==> IsEnabled(r, j) && r.slots[j] == t.slots[j])
            && (forall p :: 0 <= p < |t.pmts| && p != q ==> r.pmts[p] == t.pmts[p])
  {
    hide ClearCw;
    if IsLive(t, q) {
      var t0 := t.(pmts := t.pmts[q := t.pmts[q].(enabled := false)]);
      assert forall i :: IsEnabled(t0, i) <==> IsEnabled(t, i);
      ClearIs(t0, q, 0);
      ClearIs(ClearCw(t0, q, 0), q, 1);
    }
  }

  /** Nothing of the run disturbs the key, and the key does not expire in it. */
  predicate IsQuietFor(ops: seq<Op>, start: int, p: nat, parity: Parity, expiry: int) {
    IsClocked(ops, start) && Clock(ops, start) <= expiry && forall k :: 0 <= k < |ops| ==> !Disturbs(ops[k], p, parity)
  }

  lemma {:induction false} NewestStaysOver(t: Table, ops: seq<Op>, start: int, i: nat, p: nat, algo: Algo, parity: Parity,
                                           word: Word, expiry: int, time: int)
    requires Inv(t) && IsNewest(t, i, p, algo, parity, word, expiry, time) && IsLive(t, p)
    requires IsQuietFor(ops, start, p, parity, expiry)
    ensures Inv(Run(t, ops)) && IsNewest(Run(t, ops), i, p, algo, parity, word, expiry, time) && IsLive(Run(t, ops), p)
    decreases |ops|
  {
    hide Inv, Apply, IsNewest, Disturbs, IsLive;
    if ops != [] {
      var n := |ops| - 1;
      NewestStaysOver(t, ops[..n], start, i, p, algo, parity, word, expiry, time);
      ApplyKeepsInv(Run(t, ops[..n]), ops[n]);
      NewestStays(Run(t, ops[..n]), ops[n], Clock(ops[..n], start), i, p, algo, parity, word, expiry, time);
    }
  }

  /** A key sent after all others, and not late, is the one that a later search without packets takes, whatever happens in
      between short of another send for the PMT and parity, while it has not expired. */
  lemma LastSentIsPicked(t: Table, before: seq<Op>, start: int, p: nat, algo: Algo, parity: Parity, word: Word, expiry: int,
                         now: int, between: seq<Op>, later: int, test: Cw -> bool)
    requires Inv(t) && NoneAfter(t, start) && IsClocked(before, start) && Clock(before, start) < now
    requires SendCw(Run(t, before), p, Some(algo), parity, word, expiry, now).1.Ok? && p < |Run(t, before).pmts|
    requires !IsLate(Run(t, before), p, parity)
    requires IsQuietFor(between, now, p, parity, ExpiryOf(expiry, now))
    requires var u := Run(SendCw(Run(t, before), p, Some(algo), parity, word, expiry, now).0, between);
             p < |u.pmts| ==> u.pmts[p].parity == parity && IsDue(u, p, false)
    requires Clock(between, now) <= later <= ExpiryOf(expiry, now)
    ensures var u := Run(SendCw(Run(t, before), p, Some(algo), parity, word, expiry, now).0, between);
            && p < |u.pmts|
            && var r := UpdateCw(u, p, false, later, test);
               && r.pmts[p].cw.Some?
               && Stores(r, r.pmts[p].cw.value, p, algo, parity, word, ExpiryOf(expiry, now))
               && r.slots[r.pmts[p].cw.value].value.time == now
  {
    hide Inv, NoneAfter, SendCw, IsNewest, UpdateCw, Disturbs, IsDue, Stores;
    var t0 := Run(t, before);
    var (t1, code) := SendCw(t0, p, Some(algo), parity, word, expiry, now);
    RunKeepsDates(t, before, start);
    var i := SentIsNewest(t0, Clock(before, start), p, algo, parity, word, expiry, now);
    SendKeepsInv(t0, p, Some(algo), parity, word, expiry, now);
    NewestStaysOver(t1, between, now, i, p, algo, parity, word, ExpiryOf(expiry, now), now);
    NewestIsPicked(Run(t1, between), i, p, algo, parity, word, ExpiryOf(expiry, now), now, later, test);
  }

  lemma SentIsNewest(t: Table, last: int, p: nat, algo: Algo, parity: Parity, word: Word, expiry: int, now: int) returns (i: nat)
    requires Inv(t) && NoneAfter(t, last) && last < now && p < |t.pmts|
    requires SendCw(t, p, Some(algo), parity, word, expiry, now).1.Ok? && !IsLate(t, p, parity)
    ensures var r := SendCw(t, p, Some(algo), parity, word, expiry, now).0;
            IsNewest(r, i, p, algo, parity, word, ExpiryOf(expiry, now), now) && IsLive(r, p)
  {
    SendStores(t, p, Some(algo), parity, word, expiry, now);
    hide Inv, FirstKnown, FirstReusable, Stores;
    var r := SendCw(t, p, Some(algo), parity, word, expiry, now).0;
    i :| Stores(r, i, p, algo, parity, word, ExpiryOf(expiry, now))
         && (forall j :: 0 <= j < |t.slots| && j != i ==> r.slots[j] == t.slots[j]) && r.slots[i].value.time == now;
  }

  lemma NewestIsPicked(t: Table, i: nat, p: nat, algo: Algo, parity: Parity, word: Word, expiry: int, time: int, now: int,
                       test: Cw -> bool)
    requires Inv(t) && IsNewest(t, i, p, algo, parity, word, expiry, time) && IsLive(t, p)
    requires t.pmts[p].parity == parity && IsDue(t, p, false) && now <= expiry
    ensures var r := UpdateCw(t, p, false, now, test);
            r.pmts[p].cw == Some(i) && Stores(r, i, p, algo, parity, word, expiry) && r.slots[i].value.time == time
  {
    hide Newest, Inv, IsDue;
    UnvalidatedPicksNewest(t, p, now, test);
    assert Fits(t, p, i, now);
  }

  /** After a search with packets no search is due, so that a key for the parity in use is late; after one without
      packets the next one is due. */
  lemma SearchLeaves(t: Table, p: nat, validated: bool, now: int, test: Cw -> bool)
    requires Inv(t) && IsLive(t, p) && IsDue(t, p, validated) && now > 0
    ensures var r := UpdateCw(t, p, validated, now, test);
            && (validated && r.pmts[p].cw.Some? ==> forall x: Parity :: IsLate(r, p, x) <==> x == t.pmts[p].parity)
            && (!validated ==> IsDue(r, p, false) && forall x: Parity :: !IsLate(r, p, x))
  {
    hide Pick, Expired;
  }
}
