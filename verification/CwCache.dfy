/** The control-word cache changed in place (src/pmt.cpp:580-598, 721-916, 1575-1670), proved equal to module
    CwTable. One reading of the clock stands for all those of one call. */
module CwCache {
  import opened Wrappers
  import opened CwTable
  import opened CwRuns

  const MAX_PMT: nat := 256

  class Cache {
    const slots: array<Option<Cw>>
    var ncws: nat
    const pmts: array<Pmt>

    ghost predicate Valid()
      reads this, slots, pmts
    {
      slots.Length == MAX_CW && pmts.Length == MAX_PMT && Inv(View())
    }

    function View(): Table
      reads this, slots, pmts
    {
      Table(slots[..], ncws, pmts[..])
    }

    constructor ()
      ensures Valid() && fresh(slots) && fresh(pmts) && ncws == 0
    {
      slots := new Option<Cw>[MAX_CW](_ => None);
      pmts := new Pmt[MAX_PMT](_ => Pmt(false, -1, false, 0, None));
      ncws := 0;
    }

    /** cw_in_use. */
    method CwInUse(i: nat) returns (used: bool)
      requires Valid() && i < MAX_CW && slots[i].Some?
      ensures used == InUse(View(), i)
    {
      var p := slots[i].value.pmt;
      used := p < MAX_PMT && pmts[p].enabled && pmts[p].cw == Some(i);
    }

    method FindKnown(pmt: nat, parity: Parity, word: Word, now: int) returns (r: int)
      requires Valid()
      ensures r == FirstKnown(View(), pmt, parity, word, now, 0)
    {
      hide Inv;
      for i := 0 to MAX_CW
        invariant FirstKnown(View(), pmt, parity, word, now, 0) == FirstKnown(View(), pmt, parity, word, now, i)
      {
        if slots[i].Some? {
          var c := slots[i].value;
          if c.enabled && c.pmt == pmt && c.parity == parity && now < c.expiry && c.word <= word { return i; }
        }
      }
      return -1;
    }

    method FindReusable(algo: Algo, now: int) returns (r: int)
      requires Valid()
      ensures r == FirstReusable(View(), algo, now, 0)
    {
      hide Inv;
      for i := 0 to MAX_CW
        invariant FirstReusable(View(), algo, now, 0) == FirstReusable(View(), algo, now, i)
      {
        if slots[i].None? { return i; }
        var used := CwInUse(i);
        if slots[i].value.algo == algo && !used && (!slots[i].value.enabled || now > slots[i].value.expiry) { return i; }
      }
      return -1;
    }

    /** send_cw; `algo` is absent when no operations are registered for it. */
    method SendCw(pmt: nat, algo: Option<Algo>, parity: Parity, word: Word, expiry: int, now: int) returns (code: Code)
      requires Valid()
      modifies this`ncws, slots, pmts
      ensures Valid() && (View(), code) == CwTable.SendCw(old(View()), pmt, algo, parity, word, expiry, now)
    {
      hide FirstKnown, FirstReusable, Inv;
      ghost var t := View();
      SendKeepsInv(t, pmt, algo, parity, word, expiry, now);
      if !(pmt < MAX_PMT && pmts[pmt].enabled) {
        return Refused;
      }
      if algo.None? {
        return UnknownAlgo;
      }
      var known := FindKnown(pmt, parity, word, now);
      if known != -1 {
        return Refused;
      }
      var i := FindReusable(algo.value, now);
      if i == -1 {
        return Refused;
      }
      var time := now;
      var p := pmts[pmt];
      if p.cw.Some? { KeyIsThere(View(), pmt); }
      if parity == p.parity && p.cw.Some? && p.lastUpdate > 0 && !p.updateCw {
        time := slots[p.cw.value].value.time - 1000;
      }
      var until := if expiry == 0 then now + MAX_CW_TIME else now + expiry * 1000;
      var cwLen := if algo.value.Aes? then 16 else 8;
      slots[i] := Some(Cw(true, pmt, parity, algo.value, word[..cwLen], time, until, 0));
      if p.cw.None? {
        pmts[pmt] := p.(updateCw := true);
      }
      if i >= ncws {
        ncws := i + 1;
      }
      assert slots[..] == t.slots[i := slots[i]] && pmts[..] == t.pmts[pmt := p.(updateCw := p.updateCw || p.cw.None?)];
      return Ok;
    }

    /** The search of update_cw: with packets the first key that decrypts them, without the newest. */
    method Search(pmt: nat, validated: bool, now: int, test: Cw -> bool) returns (k: Option<nat>)
      requires Valid() && pmt < MAX_PMT
      ensures k == Pick(View(), pmt, validated, now, test)
    {
      hide Inv, FirstValid, Newest;
      ghost var t := View();
      k := None;
      NcwsBound(t);
      SearchStarts(t, pmt, now);
      for i := 0 to ncws
        invariant validated ==> k == None && FirstValid(t, pmt, now, test, 0) == FirstValid(t, pmt, now, test, i)
        invariant !validated ==> k == Newest(t, pmt, now, i)
      {
        SearchStep(t, pmt, now, test, i);
        if slots[i].Some? && slots[i].value.enabled && slots[i].value.parity == pmts[pmt].parity && slots[i].value.pmt == pmt {
          assert IsCandidate(t, pmt, i, now) <==> now <= slots[i].value.expiry;
          if now > slots[i].value.expiry {
            continue;
          }
          if validated && test(slots[i].value) {
            return Some(i);
          }
          if validated {
            continue;
          }
          if k.None? || slots[k.value].value.time < slots[i].value.time {
            k := Some(i);
          }
        }
      }
      SearchEnds(t, pmt, now, test, ncws);
    }

    /** update_cw; `validated` tells that there are packets to test keys on, `test` what testing them says. */
    method UpdateCw(pmt: nat, validated: bool, now: int, test: Cw -> bool)
      requires Valid() && IsLive(View(), pmt)
      modifies slots, pmts
      ensures Valid() && View() == CwTable.UpdateCw(old(View()), pmt, validated, now, test)
    {
      hide Inv, FirstValid, Newest, Expired;
      ghost var t := View();
      UpdateKeepsInv(t, pmt, validated, now, test);
      NcwsBound(t);
      var due := pmts[pmt].updateCw || (pmts[pmt].cw.None? && validated);
      if !due {
        return;
      }
      var k := Search(pmt, validated, now, test);
      pmts[pmt] := pmts[pmt].(updateCw := !validated, lastUpdate := now, cw := k);
      if k.Some? {
        if slots[k.value].value.setTime == 0 {
          slots[k.value] := Some(slots[k.value].value.(setTime := now));
        }
        if validated {
          ExpireOthers(pmt, k.value, now, t);
        }
        assert slots[..] == CwTable.UpdateCw(t, pmt, validated, now, test).slots;
      }
    }

    /** Every key of the PMT and parity used before slot k's ends soon; t is the cache before k was touched. */
    method ExpireOthers(pmt: nat, k: nat, now: int, ghost t: Table)
      requires slots.Length == MAX_CW == |t.slots| && k < MAX_CW && ncws == t.ncws <= MAX_CW
      requires t.slots[k].Some? && slots[k] == Some(Touched(t.slots[k].value, now))
      requires forall i :: 0 <= i < MAX_CW && i != k ==> slots[i] == t.slots[i]
      modifies slots
      ensures slots[k] == old(slots[k])
      ensures forall i :: 0 <= i < MAX_CW && i != k ==> slots[i] == Expired(t, pmt, k, i, now)
    {
      for i := 0 to ncws
        invariant slots[k] == Some(Touched(t.slots[k].value, now))
        invariant forall j :: 0 <= j < i && j != k ==> slots[j] == Expired(t, pmt, k, j, now)
        invariant forall j :: i <= j < MAX_CW && j != k ==> slots[j] == t.slots[j]
      {
        if slots[i].Some? && i != k {
          var c := slots[i].value;
          if c.enabled && c.expiry > now && c.pmt == pmt && c.parity == slots[k].value.parity && c.setTime > 0 {
            slots[i] := Some(c.(expiry := now + GRACE));
          }
        }
      }
    }

    /** clear_cw_for_pmt. */
    method ClearCwForPmt(pmt: nat, parity: Parity)
      requires slots.Length == MAX_CW && ncws <= MAX_CW
      modifies this`ncws, slots
      ensures ncws <= MAX_CW && View() == ClearCw(old(View()), pmt, parity)
    {
      hide Used;
      ghost var t := View();
      for i := 0 to ncws
        invariant forall j :: 0 <= j < i ==> slots[j] == Off(t, pmt, parity, j)
        invariant forall j :: i <= j < MAX_CW ==> slots[j] == t.slots[j]
      {
        if slots[i].Some? && slots[i].value.enabled && slots[i].value.pmt == pmt && slots[i].value.parity == parity {
          slots[i] := Some(slots[i].value.(enabled := false));
        }
      }
      ghost var off := slots[..];
      assert off == ClearCw(t, pmt, parity).slots;
      var i := MAX_CW;
      assert off[..MAX_CW] == off;
      while i > 0 && !(slots[i - 1].Some? && slots[i - 1].value.enabled)
        invariant 0 <= i <= MAX_CW && slots[..] == off && Used(off[..i]) == Used(off)
      {
        UsedStep(off[..i]);
        assert off[..i][..i - 1] == off[..i - 1];
        i := i - 1;
      }
      UsedStop(off[..i]);
      ncws := i;
    }

    /** disable_cw. */
    method DisableCw(pmt: nat)
      requires Valid()
      modifies pmts
      ensures Valid() && View() == CwTable.DisableCw(old(View()), pmt)
    {
      hide Inv;
      SamePointersKeepInv(View(), CwTable.DisableCw(View(), pmt));
      if pmt < MAX_PMT && pmts[pmt].enabled {
        pmts[pmt] := pmts[pmt].(updateCw := true);
      }
    }

    /** The parity test of the decrypt loop, for one scrambled packet of the PMT. */
    method SeePacket(pmt: nat, parity: Parity)
      requires Valid()
      modifies pmts
      ensures Valid() && View() == CwTable.SeePacket(old(View()), pmt, parity)
    {
      hide Inv;
      SamePointersKeepInv(View(), CwTable.SeePacket(View(), pmt, parity));
      if pmt >= MAX_PMT || !pmts[pmt].enabled { return; }
      if pmts[pmt].parity == -1 {
        pmts[pmt] := pmts[pmt].(parity := parity);
      }
      if pmts[pmt].parity != parity {
        pmts[pmt] := pmts[pmt].(parity := parity, updateCw := true);
      }
    }

    /** pmt_add on a free PMT slot: what concerns keys. */
    method PmtAdd(pmt: nat)
      requires Valid() && pmt < MAX_PMT
      modifies pmts
      ensures Valid() && View() == CwTable.PmtAdd(old(View()), pmt)
    {
      hide Inv;
      AddKeepsInv(View(), pmt);
      if !pmts[pmt].enabled {
        pmts[pmt] := Pmt(true, -1, true, 0, None);
      }
    }

    /** pmt_del: what concerns keys. */
    method PmtDel(pmt: nat)
      requires Valid()
      modifies this`ncws, slots, pmts
      ensures Valid() && View() == CwTable.PmtDel(old(View()), pmt)
    {
      hide Inv, ClearCw;
      DelKeepsInv(View(), pmt);
      NcwsBound(View());
      if pmt < MAX_PMT && pmts[pmt].enabled {
        pmts[pmt] := pmts[pmt].(enabled := false);
        ClearCwForPmt(pmt, 0);
        ClearCwForPmt(pmt, 1);
        pmts[pmt] := pmts[pmt].(cw := None);
      }
    }
  }

  lemma NcwsBound(t: Table)
    requires Inv(t)
    ensures t.ncws <= |t.slots|
  {
  }

  lemma SearchStarts(t: Table, pmt: nat, now: int)
    requires pmt < |t.pmts|
    ensures Newest(t, pmt, now, 0) == None
  {
  }

  lemma SearchStep(t: Table, pmt: nat, now: int, test: Cw -> bool, i: nat)
    requires pmt < |t.pmts| && i < |t.slots|
    ensures FirstValid(t, pmt, now, test, i) ==
            if IsCandidate(t, pmt, i, now) && test(t.slots[i].value) then Some(i) else FirstValid(t, pmt, now, test, i + 1)
    ensures var best := Newest(t, pmt, now, i);
            Newest(t, pmt, now, i + 1) ==
            if !IsCandidate(t, pmt, i, now) then best
            else if best.None? || t.slots[best.value].value.time < t.slots[i].value.time then Some(i) else best
    ensures Newest(t, pmt, now, i).Some? ==> Newest(t, pmt, now, i).value < i && t.slots[Newest(t, pmt, now, i).value].Some?
  {
  }

  /** Slots from ncws on hold no candidates. */
  lemma {:induction false} SearchEnds(t: Table, pmt: nat, now: int, test: Cw -> bool, n: nat)
    requires pmt < |t.pmts| && t.ncws <= n <= |t.slots|
    ensures FirstValid(t, pmt, now, test, n) == None && Newest(t, pmt, now, |t.slots|) == Newest(t, pmt, now, n)
    decreases |t.slots| - n
  {
  }

  lemma UsedStep(s: seq<Option<Cw>>)
    requires s != [] && !(s[|s| - 1].Some? && s[|s| - 1].value.enabled)
    ensures Used(s) == Used(s[..|s| - 1])
  {
  }

  lemma UsedStop(s: seq<Option<Cw>>)
    requires s == [] || (s[|s| - 1].Some? && s[|s| - 1].value.enabled)
    ensures Used(s) == |s|
  {
  }
}
