/** The control-word cache as a value (src/pmt.cpp:580-598, 721-916, 1575-1670): a fixed pool of keys, each PMT
    pointing at the key it decrypts with. Decryption tests and key schedules are foreign code. */
module CwTable {
  import opened Bytes
  import opened Wrappers

  const MAX_CW: nat := 200
  const MAX_CW_TIME: int := 45000
  const GRACE: int := 10000

  type Parity = p: int | 0 <= p <= 1

  datatype Algo = Csa | CsaIcam | Des | Aes

  /** `word` holds the bytes that count for the algorithm; setTime is 0 until a PMT uses the key. */
  datatype Cw = Cw(enabled: bool, pmt: nat, parity: Parity, algo: Algo, word: Data, time: int, expiry: int, setTime: int)

  /** parity is -1 before the first scrambled packet; cw is the slot of the key in use. */
  datatype Pmt = Pmt(enabled: bool, parity: int, updateCw: bool, lastUpdate: int, cw: Option<nat>)

  datatype Table = Table(slots: seq<Option<Cw>>, ncws: nat, pmts: seq<Pmt>)

  function CwLen(algo: Algo): nat { if algo.Aes? then 16 else 8 }

  predicate IsEnabled(t: Table, i: int) { 0 <= i < |t.slots| && t.slots[i].Some? && t.slots[i].value.enabled }

  /** get_pmt finds something. */
  predicate IsLive(t: Table, p: int) { 0 <= p < |t.pmts| && t.pmts[p].enabled }

  /** cw_in_use. */
  predicate InUse(t: Table, i: nat)
    requires i < |t.slots| && t.slots[i].Some?
  {
    var p := t.slots[i].value.pmt;
    IsLive(t, p) && t.pmts[p].cw == Some(i)
  }

  // ----- send_cw -----

  predicate IsKnown(t: Table, i: int, pmt: nat, parity: Parity, word: Data, now: int) {
    IsEnabled(t, i) &&
    var c := t.slots[i].value;
    c.pmt == pmt && c.parity == parity && now < c.expiry && c.word <= word
  }

  /** Slot i can take a new key: empty, or of the same algorithm, not in use, and disabled or expired. */
  predicate IsReusable(t: Table, i: nat, algo: Algo, now: int)
    requires i < |t.slots|
  {
    t.slots[i].None?
    || (t.slots[i].value.algo == algo && !InUse(t, i) && (!t.slots[i].value.enabled || now > t.slots[i].value.expiry))
  }

  function FirstKnown(t: Table, pmt: nat, parity: Parity, word: Data, now: int, from: nat): (r: int)
    ensures r == -1 || (from <= r < |t.slots| && IsKnown(t, r, pmt, parity, word, now))
    ensures forall i :: from <= i && (r == -1 || i < r) ==> !IsKnown(t, i, pmt, parity, word, now)
    decreases |t.slots| - from
  {
    if from >= |t.slots| then -1
    else if IsKnown(t, from, pmt, parity, word, now) then from else FirstKnown(t, pmt, parity, word, now, from + 1)
  }

  function FirstReusable(t: Table, algo: Algo, now: int, from: nat): (r: int)
    ensures r == -1 || (from <= r < |t.slots| && IsReusable(t, r, algo, now))
    ensures forall i :: from <= i < |t.slots| && (r == -1 || i < r) ==> !IsReusable(t, i, algo, now)
    decreases |t.slots| - from
  {
    if from >= |t.slots| then -1
    else if IsReusable(t, from, algo, now) then from else FirstReusable(t, algo, now, from + 1)
  }

  datatype Code = Ok | Refused | UnknownAlgo

  /** A key that arrives for the parity in use, while no search is due, is dated before the key in use. */
  function TimeOf(t: Table, pmt: nat, parity: Parity, now: int): int
    requires IsLive(t, pmt)
  {
    var p := t.pmts[pmt];
    if parity == p.parity && p.cw.Some? && p.lastUpdate > 0 && !p.updateCw && p.cw.value < |t.slots| && t.slots[p.cw.value].Some?
    then t.slots[p.cw.value].value.time - 1000 else now
  }

  function NewCw(t: Table, pmt: nat, algo: Algo, parity: Parity, word: Data, expiry: int, now: int): Cw
    requires IsLive(t, pmt) && |word| >= 16
  {
    Cw(true, pmt, parity, algo, word[..CwLen(algo)], TimeOf(t, pmt, parity, now),
       if expiry == 0 then now + MAX_CW_TIME else now + expiry * 1000, 0)
  }

  function SendCw(t: Table, pmt: nat, algo: Option<Algo>, parity: Parity, word: Data, expiry: int, now: int): (Table, Code)
    requires |word| >= 16
  {
    if !IsLive(t, pmt) then (t, Refused)
    else if algo.None? then (t, UnknownAlgo)
    else if FirstKnown(t, pmt, parity, word, now, 0) != -1 then (t, Refused)
    else
      var i := FirstReusable(t, algo.value, now, 0);
      if i == -1 then (t, Refused)
      else
        var p := t.pmts[pmt];
        (Table(t.slots[i := Some(NewCw(t, pmt, algo.value, parity, word, expiry, now))],
               if i >= t.ncws then i + 1 else t.ncws,
               t.pmts[pmt := p.(updateCw := p.updateCw || p.cw.None?)]), Ok)
  }

  // ----- update_cw -----

  /** Slot i holds an unexpired key of the PMT and its current parity. */
  predicate IsCandidate(t: Table, pmt: nat, i: int, now: int)
    requires pmt < |t.pmts|
  {
    IsEnabled(t, i) && i < t.ncws &&
    var c := t.slots[i].value;
    c.parity == t.pmts[pmt].parity && c.pmt == pmt && now <= c.expiry
  }

  /** The first candidate that decrypts the packets at hand. */
  function FirstValid(t: Table, pmt: nat, now: int, test: Cw -> bool, from: nat): (r: Option<nat>)
    requires pmt < |t.pmts|
    ensures r.Some? ==> from <= r.value && IsCandidate(t, pmt, r.value, now) && test(t.slots[r.value].value)
    ensures forall i :: from <= i && IsCandidate(t, pmt, i, now) && (r.None? || i < r.value) ==> !test(t.slots[i].value)
    decreases |t.slots| - from
  {
    if from >= |t.slots| then None
    else if IsCandidate(t, pmt, from, now) && test(t.slots[from].value) then Some(from)
    else FirstValid(t, pmt, now, test, from + 1)
  }

  /** The latest of the first n candidates, the first of several. */
  function Newest(t: Table, pmt: nat, now: int, n: nat): (r: Option<nat>)
    requires pmt < |t.pmts|
    ensures r.Some? ==> r.value < n && IsCandidate(t, pmt, r.value, now)
    ensures r.None? ==> forall i :: 0 <= i < n ==> !IsCandidate(t, pmt, i, now)
    ensures r.Some? ==> forall i :: 0 <= i < n && IsCandidate(t, pmt, i, now) ==>
                          t.slots[i].value.time <= t.slots[r.value].value.time
                          && (t.slots[i].value.time == t.slots[r.value].value.time ==> r.value <= i)
  {
    if n == 0 then None
    else
      var best := Newest(t, pmt, now, n - 1);
      if !IsCandidate(t, pmt, n - 1, now) then best
      else if best.None? || t.slots[best.value].value.time < t.slots[n - 1].value.time then Some(n - 1) else best
  }

  function Pick(t: Table, pmt: nat, validated: bool, now: int, test: Cw -> bool): Option<nat>
    requires pmt < |t.pmts|
  {
    if validated then FirstValid(t, pmt, now, test, 0) else Newest(t, pmt, now, |t.slots|)
  }

  predicate IsDue(t: Table, pmt: nat, validated: bool)
    requires pmt < |t.pmts|
  {
    t.pmts[pmt].updateCw || (t.pmts[pmt].cw.None? && validated)
  }

  /** Keys used before the one now validated expire soon. */
  function Expired(t: Table, pmt: nat, k: nat, i: nat, now: int): Option<Cw>
    requires i < |t.slots| && k < |t.slots| && t.slots[k].Some?
  {
    if IsEnabled(t, i) && i != k && i < t.ncws && t.slots[i].value.expiry > now && t.slots[i].value.pmt == pmt
       && t.slots[i].value.parity == t.slots[k].value.parity && t.slots[i].value.setTime > 0
    then Some(t.slots[i].value.(expiry := now + GRACE)) else t.slots[i]
  }

  function Touched(c: Cw, now: int): Cw { if c.setTime == 0 then c.(setTime := now) else c }

  function UpdateCw(t: Table, pmt: nat, validated: bool, now: int, test: Cw -> bool): Table
    requires pmt < |t.pmts|
  {
    if !IsDue(t, pmt, validated) then t
    else
      var k := Pick(t, pmt, validated, now, test);
      var pmts := t.pmts[pmt := t.pmts[pmt].(updateCw := !validated, lastUpdate := now, cw := k)];
      if k.None? then t.(pmts := pmts)
      else
        Table(seq(|t.slots|, i requires 0 <= i < |t.slots| =>
                if i == k.value then Some(Touched(t.slots[i].value, now))
                else if validated then Expired(t, pmt, k.value, i, now) else t.slots[i]),
              t.ncws, pmts)
  }

  // ----- clear_cw_for_pmt, pmt_add, pmt_del -----

  function Off(t: Table, pmt: nat, parity: Parity, i: nat): Option<Cw>
    requires i < |t.slots|
  {
    if IsEnabled(t, i) && i < t.ncws && t.slots[i].value.pmt == pmt && t.slots[i].value.parity == parity
    then Some(t.slots[i].value.(enabled := false)) else t.slots[i]
  }

  /** One more than the last enabled slot. */
  function Used(slots: seq<Option<Cw>>): (n: nat)
    ensures n <= |slots|
    ensures forall i :: n <= i < |slots| ==> !(slots[i].Some? && slots[i].value.enabled)
    ensures n > 0 ==> slots[n - 1].Some? && slots[n - 1].value.enabled
  {
    if slots == [] then 0
    else if slots[|slots| - 1].Some? && slots[|slots| - 1].value.enabled then |slots| else Used(slots[..|slots| - 1])
  }

  function ClearCw(t: Table, pmt: nat, parity: Parity): Table {
    var slots := seq(|t.slots|, i requires 0 <= i < |t.slots| => Off(t, pmt, parity, i));
    t.(slots := slots, ncws := Used(slots))
  }

  function PmtAdd(t: Table, pmt: nat): Table
    requires pmt < |t.pmts|
  {
    if t.pmts[pmt].enabled then t else t.(pmts := t.pmts[pmt := Pmt(true, -1, true, 0, None)])
  }

  function PmtDel(t: Table, pmt: nat): Table {
    if !IsLive(t, pmt) then t
    else
      var u := ClearCw(ClearCw(t.(pmts := t.pmts[pmt := t.pmts[pmt].(enabled := false)]), pmt, 0), pmt, 1);
      u.(pmts := u.pmts[pmt := u.pmts[pmt].(cw := None)])
  }

  // ----- what makes a search due -----

  /** disable_cw. */
  function DisableCw(t: Table, pmt: nat): Table {
    if IsLive(t, pmt) then t.(pmts := t.pmts[pmt := t.pmts[pmt].(updateCw := true)]) else t
  }

  /** A scrambled packet of the PMT: the first one sets the parity, one of the other parity calls for its key. */
  function SeePacket(t: Table, pmt: nat, parity: Parity): Table {
    if !IsLive(t, pmt) then t
    else if t.pmts[pmt].parity == -1 then t.(pmts := t.pmts[pmt := t.pmts[pmt].(parity := parity)])
    else if t.pmts[pmt].parity != parity
    then t.(pmts := t.pmts[pmt := t.pmts[pmt].(parity := parity, updateCw := true)])
    else t
  }

  // ----- the invariant -----

  /** A PMT's key is a key of that PMT; a deleted PMT has none. */
  predicate OwnKey(t: Table, p: nat)
    requires p < |t.pmts|
  {
    match t.pmts[p].cw
    case None => true
    case Some(k) => t.pmts[p].enabled && k < |t.slots| && t.slots[k].Some? && t.slots[k].value.pmt == p
  }

  ghost predicate Inv(t: Table) {
    && t.ncws <= |t.slots|
    && (forall p :: 0 <= p < |t.pmts| ==> OwnKey(t, p))
    && (forall i :: IsEnabled(t, i) ==> i < t.ncws && IsLive(t, t.slots[i].value.pmt))
  }

  /** The slot keeps its key; its dates and the enabled flag may change. */
  predicate SameKey(a: Option<Cw>, b: Option<Cw>) {
    a.Some? && b.Some? && a.value.pmt == b.value.pmt && a.value.parity == b.value.parity && a.value.algo == b.value.algo
    && a.value.word == b.value.word && a.value.time == b.value.time
  }

  /** Every key some PMT decrypts with is still there. */
  ghost predicate KeysKept(t: Table, r: Table) {
    |r.slots| == |t.slots| && |r.pmts| == |t.pmts|
    && forall p :: 0 <= p < |t.pmts| && t.pmts[p].cw.Some? ==>
         t.pmts[p].cw.value < |t.slots| && SameKey(t.slots[t.pmts[p].cw.value], r.slots[t.pmts[p].cw.value])
  }

  lemma KeyIsThere(t: Table, p: nat)
    requires Inv(t) && p < |t.pmts| && t.pmts[p].cw.Some?
    ensures var k := t.pmts[p].cw.value;
            t.pmts[p].enabled && k < |t.slots| && t.slots[k].Some? && t.slots[k].value.pmt == p
  {
    assert OwnKey(t, p);
  }

  lemma AllKept(t: Table, r: Table)
    requires Inv(t) && |r.slots| == |t.slots| && |r.pmts| == |t.pmts|
    requires forall i :: 0 <= i < |t.slots| && t.slots[i].Some? ==> SameKey(t.slots[i], r.slots[i])
    ensures KeysKept(t, r)
  {
    hide Inv, SameKey;
    forall p | 0 <= p < |t.pmts| && t.pmts[p].cw.Some? ensures t.pmts[p].cw.value < |t.slots| && t.slots[t.pmts[p].cw.value].Some? {
      KeyIsThere(t, p);
    }
  }

  /** When keys stay and PMTs point at their old key or nothing, every PMT still owns its key. */
  lemma StillOwn(t: Table, r: Table)
    requires Inv(t) && KeysKept(t, r)
    requires forall p :: 0 <= p < |t.pmts| && r.pmts[p].cw.Some? ==> r.pmts[p].cw == t.pmts[p].cw && r.pmts[p].enabled
    ensures forall p :: 0 <= p < |r.pmts| ==> OwnKey(r, p)
  {
    forall p | 0 <= p < |r.pmts| ensures OwnKey(r, p) {
      if r.pmts[p].cw.Some? { KeyIsThere(t, p); }
    }
  }

  lemma SendKeepsInv(t: Table, pmt: nat, algo: Option<Algo>, parity: Parity, word: Data, expiry: int, now: int)
    requires Inv(t) && |word| >= 16
    ensures var r := SendCw(t, pmt, algo, parity, word, expiry, now).0; Inv(r) && KeysKept(t, r)
  {
    hide FirstKnown, FirstReusable, NewCw;
    var (r, code) := SendCw(t, pmt, algo, parity, word, expiry, now);
    if code.Ok? {
      var i := FirstReusable(t, algo.value, now, 0);
      FreshKeyIs(t, pmt, algo.value, parity, word, expiry, now);
      forall p | 0 <= p < |t.pmts| && t.pmts[p].cw.Some?
        ensures t.pmts[p].cw.value < |t.slots| && SameKey(t.slots[t.pmts[p].cw.value], r.slots[t.pmts[p].cw.value])
      {
        KeyIsThere(t, p);
        assert t.pmts[p].cw.value != i;
      }
      forall p | 0 <= p < |t.pmts| && r.pmts[p].cw.Some? ensures r.pmts[p].enabled { KeyIsThere(t, p); }
      StillOwn(t, r);
      forall j | IsEnabled(r, j) ensures j < r.ncws && IsLive(r, r.slots[j].value.pmt) {
        assert j == i || IsEnabled(t, j);
      }
    } else {
      AllKept(t, t);
    }
  }

  lemma FreshKeyIs(t: Table, pmt: nat, algo: Algo, parity: Parity, word: Data, expiry: int, now: int)
    requires IsLive(t, pmt) && |word| >= 16
    ensures var c := NewCw(t, pmt, algo, parity, word, expiry, now); c.enabled && c.pmt == pmt && c.parity == parity
  {
  }

  /** A search changes dates only. */
  lemma UpdateKeepsSlots(t: Table, pmt: nat, validated: bool, now: int, test: Cw -> bool)
    requires pmt < |t.pmts|
    ensures var r := UpdateCw(t, pmt, validated, now, test);
            && |r.slots| == |t.slots| && |r.pmts| == |t.pmts| && r.ncws == t.ncws
            && (forall i :: 0 <= i < |t.slots| && t.slots[i].Some? ==>
                  SameKey(t.slots[i], r.slots[i]) && r.slots[i].value.enabled == t.slots[i].value.enabled)
            && (forall i :: 0 <= i < |t.slots| ==> (r.slots[i].Some? <==> t.slots[i].Some?))
            && (forall i :: IsEnabled(r, i) <==> IsEnabled(t, i))
            && (forall p :: 0 <= p < |t.pmts| && p != pmt ==> r.pmts[p] == t.pmts[p])
  {
  }

  lemma UpdateKeepsInv(t: Table, pmt: nat, validated: bool, now: int, test: Cw -> bool)
    requires Inv(t) && IsLive(t, pmt)
    ensures var r := UpdateCw(t, pmt, validated, now, test); Inv(r) && KeysKept(t, r)
  {
    hide FirstValid, Newest, Expired, Touched;
    UpdateKeepsSlots(t, pmt, validated, now, test);
    var r := UpdateCw(t, pmt, validated, now, test);
    AllKept(t, r);
    forall p | 0 <= p < |r.pmts| ensures OwnKey(r, p) {
      if r.pmts[p].cw == t.pmts[p].cw {
        if r.pmts[p].cw.Some? { KeyIsThere(t, p); }
      }
    }
    forall i | IsEnabled(r, i) ensures i < r.ncws && IsLive(r, r.slots[i].value.pmt) {
      assert IsEnabled(t, i) && SameKey(t.slots[i], r.slots[i]);
    }
  }

  predicate IsKeyOf(c: Cw, pmt: nat, parity: Parity) { c.pmt == pmt && c.parity == parity }

  /** Clearing turns off exactly the keys of that PMT and parity. */
  lemma ClearIs(t: Table, pmt: nat, parity: Parity)
    requires forall i :: IsEnabled(t, i) ==> i < t.ncws
    ensures var r := ClearCw(t, pmt, parity);
            && |r.slots| == |t.slots| && r.pmts == t.pmts && r.ncws <= |r.slots|
            && (forall i :: 0 <= i < |t.slots| && t.slots[i].Some? ==> SameKey(t.slots[i], r.slots[i]))
            && (forall i :: IsEnabled(r, i) <==> IsEnabled(t, i) && !IsKeyOf(t.slots[i].value, pmt, parity))
            && (forall i :: IsEnabled(r, i) ==> i < r.ncws && r.slots[i] == t.slots[i])
  {
  }

  lemma ClearKeepsInv(t: Table, pmt: nat, parity: Parity)
    requires Inv(t)
    ensures var r := ClearCw(t, pmt, parity); Inv(r) && KeysKept(t, r)
  {
    hide ClearCw, SameKey;
    ClearIs(t, pmt, parity);
    var r := ClearCw(t, pmt, parity);
    AllKept(t, r);
    forall p | 0 <= p < |t.pmts| && r.pmts[p].cw.Some? ensures r.pmts[p].enabled { KeyIsThere(t, p); }
    StillOwn(t, r);
  }

  lemma AddKeepsInv(t: Table, pmt: nat)
    requires Inv(t) && pmt < |t.pmts|
    ensures var r := PmtAdd(t, pmt); Inv(r) && KeysKept(t, r)
  {
    var r := PmtAdd(t, pmt);
    AllKept(t, r);
    forall p | 0 <= p < |t.pmts| && r.pmts[p].cw.Some? ensures r.pmts[p].enabled { KeyIsThere(t, p); }
    StillOwn(t, r);
    forall i | IsEnabled(r, i) ensures i < r.ncws && IsLive(r, r.slots[i].value.pmt) { assert IsEnabled(t, i); }
  }

  /** A table with the same keys, in which each PMT keeps its key and its life. */
  lemma SamePointersKeepInv(t: Table, r: Table)
    requires Inv(t) && r.slots == t.slots && r.ncws == t.ncws && |r.pmts| == |t.pmts|
    requires forall p :: 0 <= p < |t.pmts| ==> r.pmts[p].enabled == t.pmts[p].enabled && r.pmts[p].cw == t.pmts[p].cw
    ensures Inv(r) && KeysKept(t, r)
  {
    AllKept(t, r);
    forall p | 0 <= p < |r.pmts| ensures OwnKey(r, p) { assert OwnKey(t, p); }
    forall i | IsEnabled(r, i) ensures i < r.ncws && IsLive(r, r.slots[i].value.pmt) { assert IsEnabled(t, i); }
  }

  /** Deleting a PMT leaves it no key and no enabled key behind; other PMTs keep theirs. */
  lemma DelKeepsInv(t: Table, pmt: nat)
    requires Inv(t)
    ensures var r := PmtDel(t, pmt); Inv(r) && KeysKept(t, r) && !IsLive(r, pmt)
  {
    hide ClearCw, SameKey;
    if IsLive(t, pmt) {
      var t0 := t.(pmts := t.pmts[pmt := t.pmts[pmt].(enabled := false)]);
      assert forall i :: IsEnabled(t0, i) <==> IsEnabled(t, i);
      ClearIs(t0, pmt, 0);
      var t1 := ClearCw(t0, pmt, 0);
      ClearIs(t1, pmt, 1);
      var r := PmtDel(t, pmt);
      forall i | 0 <= i < |t.slots| && t.slots[i].Some? ensures SameKey(t.slots[i], r.slots[i]) {
        SameKeySamePmt(t.slots[i], t1.slots[i]);
        SameKeyChains(t.slots[i], t1.slots[i], r.slots[i]);
      }
      AllKept(t, r);
      forall p | 0 <= p < |t.pmts| && r.pmts[p].cw.Some? ensures r.pmts[p].enabled { KeyIsThere(t, p); }
      StillOwn(t, r);
      forall i | IsEnabled(r, i) ensures i < r.ncws && IsLive(r, r.slots[i].value.pmt) {
        EnabledAfterDel(t, t0, t1, r, pmt, i);
      }
    } else {
      forall i | 0 <= i < |t.slots| && t.slots[i].Some? ensures SameKey(t.slots[i], t.slots[i]) { SameKeyRefl(t.slots[i]); }
      AllKept(t, t);
    }
  }

  lemma EnabledAfterDel(t: Table, t0: Table, t1: Table, r: Table, pmt: nat, i: nat)
    requires Inv(t) && t0.slots == t.slots && IsEnabled(r, i) && |r.pmts| == |t.pmts|
    requires IsEnabled(r, i) ==> IsEnabled(t1, i) && r.slots[i] == t1.slots[i] && !IsKeyOf(t1.slots[i].value, pmt, 1)
    requires IsEnabled(t1, i) ==> IsEnabled(t0, i) && t1.slots[i] == t0.slots[i] && !IsKeyOf(t0.slots[i].value, pmt, 0)
    requires forall p :: 0 <= p < |t.pmts| && p != pmt ==> r.pmts[p].enabled == t.pmts[p].enabled
    ensures IsLive(r, r.slots[i].value.pmt)
  {
  }

  lemma SameKeySamePmt(a: Option<Cw>, b: Option<Cw>)
    requires SameKey(a, b)
    ensures a.Some? && b.Some? && a.value.pmt == b.value.pmt
  {
  }

  lemma SameKeyRefl(a: Option<Cw>)
    requires a.Some?
    ensures SameKey(a, a)
  {
  }

  lemma SameKeyChains(a: Option<Cw>, b: Option<Cw>, c: Option<Cw>)
    requires SameKey(a, b) && SameKey(b, c)
    ensures SameKey(a, c)
  {
  }
}
