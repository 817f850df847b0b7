/** Which keys the cache takes and what a search changes (src/pmt.cpp:721-817, 826-910, 979-996), said of the slots
    themselves. */
module CwMeaning {
  import opened Wrappers
  import opened CwTable
  import opened CwRuns
  import opened CwAges

  // ----- which keys are taken -----

  /** Slot i holds an enabled, unexpired key of the PMT and parity whose word begins the given one. */
  ghost predicate HasWord(t: Table, i: nat, p: nat, parity: Parity, word: Word, now: int) {
    && i < |t.slots| && t.slots[i].Some?
    && var c := t.slots[i].value;
       c.enabled && c.pmt == p && c.parity == parity && now < c.expiry && |c.word| <= |word| && c.word == word[..|c.word|]
  }

  /** Slot i is empty, or holds a key of the same algorithm that no PMT decrypts with and that is off or expired. */
  ghost predicate HasRoom(t: Table, i: nat, algo: Algo, now: int) {
    && i < |t.slots|
    && match t.slots[i]
       case None => true
       case Some(c) => c.algo == algo && (c.enabled ==> c.expiry < now) && forall q :: 0 <= q < |t.pmts| ==> t.pmts[q].cw != Some(i)
  }

  lemma KnownIffHasWord(t: Table, p: nat, parity: Parity, word: Word, now: int)
    ensures FirstKnown(t, p, parity, word, now, 0) != -1 <==> exists i :: HasWord(t, i, p, parity, word, now)
  {
    var k := FirstKnown(t, p, parity, word, now, 0);
    if k != -1 { assert HasWord(t, k, p, parity, word, now); }
    if i: nat :| HasWord(t, i, p, parity, word, now) { assert IsKnown(t, i, p, parity, word, now); }
  }

  lemma ReusableIffHasRoom(t: Table, i: nat, algo: Algo, now: int)
    requires Inv(t) && i < |t.slots|
    ensures IsReusable(t, i, algo, now) <==> HasRoom(t, i, algo, now)
  {
    if t.slots[i].Some? && !InUse(t, i) {
      forall q | 0 <= q < |t.pmts| ensures t.pmts[q].cw != Some(i) { assert OwnKey(t, q); }
    }
  }

  /** The first slot with room. */
  ghost predicate IsFirstRoom(t: Table, i: nat, algo: Algo, now: int) {
    HasRoom(t, i, algo, now) && forall j: nat :: j < i ==> !HasRoom(t, j, algo, now)
  }

  lemma FirstRoomIs(t: Table, algo: Algo, now: int)
    requires Inv(t)
    ensures var i := FirstReusable(t, algo, now, 0);
            if i == -1 then forall j :: !HasRoom(t, j, algo, now) else IsFirstRoom(t, i, algo, now)
  {
    hide Inv, IsReusable, HasRoom;
    var i := FirstReusable(t, algo, now, 0);
    forall j: nat | j < |t.slots| ensures IsReusable(t, j, algo, now) <==> HasRoom(t, j, algo, now) {
      ReusableIffHasRoom(t, j, algo, now);
    }
    forall j: nat | |t.slots| <= j ensures !HasRoom(t, j, algo, now) { NoRoomOutside(t, j, algo, now); }
  }

  lemma NoRoomOutside(t: Table, j: nat, algo: Algo, now: int)
    requires |t.slots| <= j
    ensures !HasRoom(t, j, algo, now)
  {
  }

  /** A key is taken exactly when its PMT lives, its algorithm is known, the word is not there yet and some slot has room;
      it then lies in the first such slot, and a PMT without a key is told to search. A refused key changes nothing. */
  lemma SendAnswers(t: Table, p: nat, algo: Option<Algo>, parity: Parity, word: Word, expiry: int, now: int)
    requires Inv(t)
    ensures var (r, code) := SendCw(t, p, algo, parity, word, expiry, now);
            && (code == Ok <==> p < |t.pmts| && t.pmts[p].enabled && algo.Some?
                                && (forall i :: !HasWord(t, i, p, parity, word, now)) && exists i :: HasRoom(t, i, algo.value, now))
            && (code == UnknownAlgo <==> p < |t.pmts| && t.pmts[p].enabled && algo.None?)
            && (code != Ok ==> r == t)
            && (code == Ok ==>
                  exists i: nat :: && IsFirstRoom(t, i, algo.value, now) && |r.slots| == |t.slots|
                              && (forall j :: 0 <= j < |t.slots| && j != i ==> r.slots[j] == t.slots[j])
                              && r.ncws == (if i < t.ncws then t.ncws else i + 1))
            && (code == Ok ==> |r.pmts| == |t.pmts| && forall q :: 0 <= q < |t.pmts| ==>
                  r.pmts[q] == if q == p && t.pmts[q].cw.None? then t.pmts[q].(updateCw := true) else t.pmts[q])
  {
    hide FirstKnown, FirstReusable, Inv, HasWord, HasRoom, NewCw;
    KnownIffHasWord(t, p, parity, word, now);
    if algo.Some? { FirstRoomIs(t, algo.value, now); }
  }

  // ----- what a search changes -----

  /** A search takes place when one was called for, or when the PMT has no key and there are packets to test. It remembers
      when, stays called for when it had no packets, and changes no other PMT. */
  lemma SearchIs(t: Table, p: nat, validated: bool, now: int, test: Cw -> bool)
    requires IsLive(t, p)
    ensures var r, q := UpdateCw(t, p, validated, now, test), t.pmts[p];
            if q.updateCw || (q.cw == None && validated) then
              && |r.pmts| == |t.pmts| && (forall o :: 0 <= o < |t.pmts| && o != p ==> r.pmts[o] == t.pmts[o])
              && r.pmts[p] == q.(updateCw := !validated, lastUpdate := now, cw := r.pmts[p].cw)
            else r == t
  {
    hide Pick;
  }

  /** The key found is dated at its first use. Packets that prove it end the other used keys of the PMT and parity ten
      seconds later. Nothing else of any key changes. */
  lemma SearchDates(t: Table, p: nat, validated: bool, now: int, test: Cw -> bool, i: nat)
    requires Inv(t) && IsLive(t, p) && IsDue(t, p, validated) && i < |t.slots| && t.slots[i].Some?
    ensures var r := UpdateCw(t, p, validated, now, test);
            && i < |r.slots| && r.slots[i].Some?
            && var c, d, k := t.slots[i].value, r.slots[i].value, r.pmts[p].cw;
               && d == c.(setTime := d.setTime, expiry := d.expiry)
               && d.setTime == (if k == Some(i) && c.setTime == 0 then now else c.setTime)
               && d.expiry == if validated && k.Some? && k != Some(i) && c.enabled && now < c.expiry && c.pmt == p
                                 && c.parity == t.pmts[p].parity && 0 < c.setTime
                              then now + 10000 else c.expiry
  {
    hide FirstValid, Newest;
    var k := UpdateCw(t, p, validated, now, test).pmts[p].cw;
    assert k == Pick(t, p, validated, now, test);
    assert k.Some? ==> IsCandidate(t, p, k.value, now);
  }

  // ----- the parity of the packets -----

  /** A scrambled packet makes its parity the PMT's; a change of parity calls for a search, the first packet does not. */
  lemma PacketIs(t: Table, p: nat, parity: Parity)
    requires IsLive(t, p)
    ensures var r, q := SeePacket(t, p, parity), t.pmts[p];
            && r == t.(pmts := r.pmts) && |r.pmts| == |t.pmts| && (forall o :: 0 <= o < |t.pmts| && o != p ==> r.pmts[o] == t.pmts[o])
            && r.pmts[p] == q.(parity := parity, updateCw := q.updateCw || (q.parity != -1 && q.parity != parity))
  {
  }

  /** The key for the next parity takes over: sent while the other parity is on air and not replaced before its own
      packets come, it is the key of the first search after the change, even one without packets to test. */
  lemma NextKeyTakesOver(t: Table, before: seq<Op>, start: int, p: nat, algo: Algo, parity: Parity, word: Word, expiry: int,
                         now: int, between: seq<Op>, later: int, test: Cw -> bool)
    requires Inv(t) && NoneAfter(t, start) && IsClocked(before, start) && Clock(before, start) < now
    requires var u := Run(t, before); p < |u.pmts| && u.pmts[p].parity == 1 - parity
    requires SendCw(Run(t, before), p, Some(algo), parity, word, expiry, now).1.Ok?
    requires IsQuietFor(between, now, p, parity, ExpiryOf(expiry, now))
    requires var u := Run(SendCw(Run(t, before), p, Some(algo), parity, word, expiry, now).0, between);
             p < |u.pmts| ==> u.pmts[p].parity == 1 - parity
    requires Clock(between, now) <= later <= ExpiryOf(expiry, now)
    ensures var u := SeePacket(Run(SendCw(Run(t, before), p, Some(algo), parity, word, expiry, now).0, between), p, parity);
            && p < |u.pmts|
            && var r := UpdateCw(u, p, false, later, test);
               r.pmts[p].cw.Some? && Stores(r, r.pmts[p].cw.value, p, algo, parity, word, ExpiryOf(expiry, now))
  {
    hide Inv, NoneAfter, SendCw, IsNewest, UpdateCw, IsDue, Stores, IsClocked, SeePacket, Disturbs, IsQuietFor, Clock, Run;
    var t1 := SendCw(Run(t, before), p, Some(algo), parity, word, expiry, now).0;
    PacketRuns(t1, between, p, parity, now, ExpiryOf(expiry, now));
    LivesOn(t, before, start, p, algo, parity, word, expiry, now, between);
    PacketCalls(Run(t1, between), p, parity);
    LastSentIsPicked(t, before, start, p, algo, parity, word, expiry, now, between + [OpPacket(p, parity)], later, test);
  }

  lemma LivesOn(t: Table, before: seq<Op>, start: int, p: nat, algo: Algo, parity: Parity, word: Word, expiry: int, now: int,
                between: seq<Op>)
    requires Inv(t) && NoneAfter(t, start) && IsClocked(before, start) && Clock(before, start) < now
    requires var u := Run(t, before); p < |u.pmts| && u.pmts[p].parity == 1 - parity
    requires SendCw(Run(t, before), p, Some(algo), parity, word, expiry, now).1.Ok?
    requires IsQuietFor(between, now, p, parity, ExpiryOf(expiry, now))
    ensures IsLive(Run(SendCw(Run(t, before), p, Some(algo), parity, word, expiry, now).0, between), p)
            && !IsLate(Run(t, before), p, parity)
  {
    hide Inv, NoneAfter, SendCw, IsNewest, IsClocked, IsQuietFor, Clock, Run, IsLive;
    var t0 := Run(t, before);
    RunKeepsDates(t, before, start);
    var i := SentIsNewest(t0, Clock(before, start), p, algo, parity, word, expiry, now);
    SendKeepsInv(t0, p, Some(algo), parity, word, expiry, now);
    NewestStaysOver(SendCw(t0, p, Some(algo), parity, word, expiry, now).0, between, now, i, p, algo, parity, word,
                    ExpiryOf(expiry, now), now);
  }

  lemma PacketRuns(t: Table, ops: seq<Op>, p: nat, parity: Parity, start: int, expiry: int)
    requires IsQuietFor(ops, start, p, parity, expiry)
    ensures var all := ops + [OpPacket(p, parity)];
            && IsQuietFor(all, start, p, parity, expiry) && Clock(all, start) == Clock(ops, start)
            && Run(t, all) == SeePacket(Run(t, ops), p, parity)
  {
    var all := ops + [OpPacket(p, parity)];
    assert all[..|all| - 1] == ops;
  }

  lemma PacketCalls(t: Table, p: nat, parity: Parity)
    ensures var r := SeePacket(t, p, parity);
            IsLive(t, p) && t.pmts[p].parity == 1 - parity ==> p < |r.pmts| && r.pmts[p].parity == parity && IsDue(r, p, false)
  {
  }
}
