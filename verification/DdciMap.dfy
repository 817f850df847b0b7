/** The pid mapping of a DDCI device (src/ddci.cpp:72-299, 511-606, 608-683): pids of several adapters packed
    into the one pid space of a CAM, each entry shared by the PMTs charged to it. */
module DdciMap {

  const MAX_PID: nat := 8191
  const NO_PMT: int := -1

  /** Adapter and pid: MAKE_KEY. */
  datatype Key = Key(ad: nat, pid: nat)

  /** ddciPid is -1 when no pid was free; `users` are the PMT ids charged to the entry. */
  datatype Mapping = Mapping(ddciPid: int, rewrite: bool, users: set<int>, pidAdded: bool)

  type Table = map<Key, Mapping>

  /** The mapping, the protected EMM pids, and the pids subscribed for DDCI on the CI adapter (`onCi`) and on
      the source adapters (`onSource`). */
  datatype Maps = Maps(table: Table, emm: set<Key>, onCi: set<int>, onSource: set<Key>)

  /** What the mapping code reads of a PMT. */
  datatype Service = Service(id: int, ad: nat, pid: nat, cas: seq<nat>, streams: seq<nat>)

  // ----- choosing a pid -----

  predicate InUse(t: Table, q: int) { exists k :: k in t && t[k].ddciPid == q }

  /** The first free DDCI pid from q on, -1 when there is none. */
  function FreeFrom(t: Table, q: nat): (r: int)
    requires q <= MAX_PID
    ensures r == -1 || (q <= r < MAX_PID && !InUse(t, r))
    ensures r == -1 ==> forall x :: q <= x < MAX_PID ==> InUse(t, x)
    ensures forall x :: q <= x < r ==> InUse(t, x)
    decreases MAX_PID - q
  {
    if q == MAX_PID then -1 else if InUse(t, q) then FreeFrom(t, q + 1) else q
  }

  function FindDdciPid(t: Table, pid: nat): (r: int) { if pid > MAX_PID then -1 else FreeFrom(t, pid) }

  /** safe_get_pid_mapping: the DDCI pid of a mapped pid, any other pid as it is. */
  function SafeDdciPid(t: Table, ad: nat, pid: nat): int {
    if Key(ad, pid) in t then t[Key(ad, pid)].ddciPid else pid
  }

  // ----- adding -----

  /** The table with an entry for k, a new one taking the first free pid. */
  function WithEntry(t: Table, k: Key): (r: Table)
    ensures k in r
  {
    if k in t then t else t[k := Mapping(FindDdciPid(t, k.pid), true, {}, false)]
  }

  /** add_pid_mapping_table: charge PMT `pmt` for pid k, subscribing the pids for the first user. */
  function Add(m: Maps, k: Key, pmt: int, force: bool): Maps {
    var t := WithEntry(m.table, k);
    var e := t[k];
    if e.ddciPid == -1 || pmt in e.users then m.(table := t)
    else
      var first := e.users == {};
      m.(table := t[k := e.(users := e.users + {pmt}, pidAdded := e.pidAdded || (first && force))],
         onCi := if first then m.onCi + {e.ddciPid} else m.onCi,
         onSource := if first && force then m.onSource + {k} else m.onSource)
  }

  function AddAll(m: Maps, ad: nat, pids: seq<nat>, pmt: int, force: bool): Maps
    decreases |pids|
  {
    if pids == [] then m
    else Add(AddAll(m, ad, pids[..|pids| - 1], pmt, force), Key(ad, pids[|pids| - 1]), pmt, force)
  }

  /** Pids 1 and 20 are mapped once per adapter. */
  function AddMandatory(m: Maps, ad: nat, pid: nat, pmt: int): Maps {
    if Key(ad, pid) in m.table then m else Add(m, Key(ad, pid), pmt, true)
  }

  /** Keep the PMT pid itself out of the stream to the CAM. */
  function NoRewrite(m: Maps, k: Key): Maps {
    if k in m.table then m.(table := m.table[k := m.table[k].(rewrite := false)]) else m
  }

  // ----- removing -----

  /** Take PMT `pmt` off every entry of `from` and drop those left without users, with their subscriptions. */
  ghost function Discharge(m: Maps, from: set<Key>, pmt: int): Maps {
    var gone := set k | k in m.table && k in from && m.table[k].users <= {pmt};
    Maps(map k | k in m.table && k !in gone :: if k in from then m.table[k].(users := m.table[k].users - {pmt}) else m.table[k],
         m.emm,
         set q | q in m.onCi && !(exists k :: k in gone && m.table[k].ddciPid == q),
         set k | k in m.onSource && !(k in gone && m.table[k].pidAdded))
  }

  predicate StillNeeded(m: Maps, s: Service, k: Key) {
    k.pid == s.pid || k.pid == 1 || k.pid == 20 || k in m.emm || k.pid in s.streams || k.pid in s.cas
  }

  /** Entries of pids the PMT no longer carries. */
  function Dropped(m: Maps, s: Service): set<Key> {
    set k | k in m.table && k.ad == s.ad && s.id in m.table[k].users && !StillNeeded(m, s, k)
  }

  /** unmap_removed_pids: drop the charges of pids the PMT no longer carries. */
  ghost function UnmapRemoved(m: Maps, s: Service): Maps {
    Discharge(m, Dropped(m, s), s.id)
  }

  /** drop_orphan_emm: EMM pids leave with the last PMT of their adapter. */
  ghost function DropOrphanEmm(m: Maps, ad: nat): Maps {
    if exists k :: k in m.table && k.ad == ad && k !in m.emm then m
    else
      var gone := set k | k in m.table && k.ad == ad;
      Maps(map k | k in m.table && k !in gone :: m.table[k],
           set k | k in m.emm && k.ad != ad,
           set q | q in m.onCi && !(exists k :: k in gone && m.table[k].ddciPid == q),
           set k | k in m.onSource && !(k in gone && m.table[k].pidAdded))
  }

  /** del_pmt_mapping_table. */
  ghost function DelPmt(m: Maps, ad: nat, pmt: int): Maps {
    DropOrphanEmm(Discharge(m, (set k | k in m.table && k.ad == ad && k !in m.emm), pmt), ad)
  }

  /** The mapping part of ddci_process_pmt. */
  function MapService(m: Maps, s: Service): Maps {
    var m1 := AddMandatory(AddMandatory(m, s.ad, 1, s.id), s.ad, 20, s.id);
    var m2 := NoRewrite(Add(m1, Key(s.ad, s.pid), s.id, false), Key(s.ad, s.pid));
    AddAll(AddAll(m2, s.ad, s.cas, s.id, true), s.ad, s.streams, s.id, false)
  }

  ghost function ProcessPmt(m: Maps, s: Service): Maps { UnmapRemoved(MapService(m, s), s) }

  /** The EMM pids of a CAT, charged to the PMT of slot 0, unless one of them is already a DDCI pid. */
  function AddEmm(m: Maps, ad: nat, pids: seq<nat>, pmt: int): Maps
    decreases |pids|
  {
    if pids == [] then m
    else
      var n := |pids| - 1;
      var r := Add(AddEmm(m, ad, pids[..n], pmt), Key(ad, pids[n]), pmt, true);
      r.(emm := r.emm + {Key(ad, pids[n])})
  }

  ghost function ProcessCat(m: Maps, ad: nat, pids: seq<nat>, pmt: int): Maps {
    if exists i :: 0 <= i < |pids| && InUse(m.table, pids[i]) then m
    else AddEmm(m.(emm := set k | k in m.emm && k.ad != ad), ad, pids, pmt)
  }

  // ----- the invariant -----

  /** A valid DDCI pid belongs to one entry only, across all adapters, and is not below the pid it stands
      for; only entries with a valid pid have users. */
  ghost predicate TableOk(t: Table) {
    && (forall j, k | j in t && k in t && t[j].ddciPid == t[k].ddciPid != -1 :: j == k)
    && (forall k :: k in t && t[k].ddciPid != -1 ==> k.pid <= t[k].ddciPid < MAX_PID)
    && (forall k :: k in t && t[k].users != {} ==> t[k].ddciPid != -1)
  }

  /** The subscriptions are exactly those the entries account for. */
  ghost predicate Subscribed(m: Maps) {
    && (forall q :: q in m.onCi <==> exists k :: k in m.table && m.table[k].users != {} && m.table[k].ddciPid == q)
    && (forall k :: k in m.onSource <==> k in m.table && m.table[k].pidAdded)
  }

  ghost predicate Inv(m: Maps) { TableOk(m.table) && Subscribed(m) }

  lemma WithEntryKeepsInv(m: Maps, k: Key)
    requires Inv(m)
    ensures Inv(m.(table := WithEntry(m.table, k)))
  {
    hide FreeFrom;
    var t, r := m.table, WithEntry(m.table, k);
    var q := FindDdciPid(t, k.pid);
    forall j | j in t ensures k in t || q == -1 || t[j].ddciPid != q {
    }
    forall x | x in m.onCi ensures exists j :: j in r && r[j].users != {} && r[j].ddciPid == x {
      var j :| j in t && t[j].users != {} && t[j].ddciPid == x;
      assert j in r && r[j] == t[j];
    }
  }

  lemma SamePidKeepsTable(t: Table, k: Key, e: Mapping)
    requires TableOk(t) && k in t && e.ddciPid == t[k].ddciPid != -1
    ensures TableOk(t[k := e])
  {
  }

  lemma ChargeKeepsInv(m: Maps, k: Key, pmt: int, force: bool)
    requires Inv(m) && k in m.table && m.table[k].ddciPid != -1 && pmt !in m.table[k].users
    ensures Inv(Add(m, k, pmt, force))
  {
    hide FindDdciPid, TableOk;
    var r := Add(m, k, pmt, force);
    assert pmt in r.table[k].users;
    SamePidKeepsTable(m.table, k, r.table[k]);
    forall q ensures q in r.onCi <==> exists j :: j in r.table && r.table[j].users != {} && r.table[j].ddciPid == q {
      OnCiAfterCharge(m, r, k, q);
    }
  }

  lemma OnCiAfterCharge(m: Maps, r: Maps, k: Key, q: int)
    requires Subscribed(m) && k in m.table && r.table.Keys == m.table.Keys && r.table[k].users != {}
    requires forall j :: j in m.table ==> r.table[j].ddciPid == m.table[j].ddciPid
    requires forall j :: j in m.table && j != k ==> r.table[j] == m.table[j]
    requires r.onCi == if m.table[k].users == {} then m.onCi + {m.table[k].ddciPid} else m.onCi
    ensures q in r.onCi <==> exists j :: j in r.table && r.table[j].users != {} && r.table[j].ddciPid == q
  {
    if q in m.onCi {
      var j :| j in m.table && m.table[j].users != {} && m.table[j].ddciPid == q;
      assert j in r.table && r.table[j].users != {} && r.table[j].ddciPid == q;
    }
    if j :| j in r.table && r.table[j].users != {} && r.table[j].ddciPid == q {
      assert j != k ==> m.table[j].users != {} && m.table[j].ddciPid == q;
    }
  }

  lemma AddKeepsInv(m: Maps, k: Key, pmt: int, force: bool)
    requires Inv(m)
    ensures Inv(Add(m, k, pmt, force))
  {
    hide Inv;
    WithEntryKeepsInv(m, k);
    var m1 := m.(table := WithEntry(m.table, k));
    assert Add(m, k, pmt, force) == Add(m1, k, pmt, force);
    if m1.table[k].ddciPid != -1 && pmt !in m1.table[k].users { ChargeKeepsInv(m1, k, pmt, force); }
  }

  lemma {:induction false} AddAllKeepsInv(m: Maps, ad: nat, pids: seq<nat>, pmt: int, force: bool)
    requires Inv(m)
    ensures Inv(AddAll(m, ad, pids, pmt, force))
    decreases |pids|
  {
    hide Inv, Add;
    if pids != [] {
      var n := |pids| - 1;
      AddAllKeepsInv(m, ad, pids[..n], pmt, force);
      AddKeepsInv(AddAll(m, ad, pids[..n], pmt, force), Key(ad, pids[n]), pmt, force);
    }
  }

  lemma NoRewriteKeepsInv(m: Maps, k: Key)
    requires Inv(m)
    ensures Inv(NoRewrite(m, k))
  {
    var r := NoRewrite(m, k);
    forall q ensures q in r.onCi <==> exists j :: j in r.table && r.table[j].users != {} && r.table[j].ddciPid == q {
      if q in m.onCi {
        var j :| j in m.table && m.table[j].users != {} && m.table[j].ddciPid == q;
        assert j in r.table && r.table[j].users != {} && r.table[j].ddciPid == q;
      }
    }
  }

  lemma MapServiceKeepsInv(m: Maps, s: Service)
    requires Inv(m)
    ensures Inv(MapService(m, s))
  {
    hide Inv, Add, NoRewrite, AddAll;
    AddKeepsInv(m, Key(s.ad, 1), s.id, true);
    var m0 := AddMandatory(m, s.ad, 1, s.id);
    AddKeepsInv(m0, Key(s.ad, 20), s.id, true);
    var m1 := AddMandatory(m0, s.ad, 20, s.id);
    AddKeepsInv(m1, Key(s.ad, s.pid), s.id, false);
    NoRewriteKeepsInv(Add(m1, Key(s.ad, s.pid), s.id, false), Key(s.ad, s.pid));
    var m2 := NoRewrite(Add(m1, Key(s.ad, s.pid), s.id, false), Key(s.ad, s.pid));
    AddAllKeepsInv(m2, s.ad, s.cas, s.id, true);
    AddAllKeepsInv(AddAll(m2, s.ad, s.cas, s.id, true), s.ad, s.streams, s.id, false);
  }

  lemma DischargeKeepsInv(m: Maps, from: set<Key>, pmt: int)
    requires Inv(m)
    ensures Inv(Discharge(m, from, pmt))
  {
  }

  lemma DropOrphanKeepsInv(m: Maps, ad: nat)
    requires Inv(m)
    ensures Inv(DropOrphanEmm(m, ad))
  {
  }

  lemma {:induction false} AddEmmKeepsInv(m: Maps, ad: nat, pids: seq<nat>, pmt: int)
    requires Inv(m)
    ensures Inv(AddEmm(m, ad, pids, pmt))
    decreases |pids|
  {
    hide TableOk, Add;
    if pids != [] {
      var n := |pids| - 1;
      AddEmmKeepsInv(m, ad, pids[..n], pmt);
      AddKeepsInv(AddEmm(m, ad, pids[..n], pmt), Key(ad, pids[n]), pmt, true);
    }
  }

  // ----- what one PMT add or update does -----

  predicate IsCharged(m: Maps, k: Key, pmt: int) { k in m.table && pmt in m.table[k].users }

  /** r keeps every entry of m that it still has, with its DDCI pid, and every charge of other PMTs. */
  ghost predicate KeepsOthers(m: Maps, r: Maps, pmt: int) {
    && (forall k :: k in m.table && k in r.table ==> r.table[k].ddciPid == m.table[k].ddciPid)
    && (forall k, p :: p != pmt ==> (IsCharged(m, k, p) <==> IsCharged(r, k, p)))
  }

  /** Adding only ever adds: entries stay, and the only new charge is the one asked for. */
  lemma AddCharges(m: Maps, k: Key, pmt: int, force: bool)
    ensures var r := Add(m, k, pmt, force);
            && KeepsOthers(m, r, pmt) && k in r.table && m.table.Keys <= r.table.Keys && r.emm == m.emm
            && (r.table[k].ddciPid != -1 ==> IsCharged(r, k, pmt))
            && (forall j :: IsCharged(m, j, pmt) ==> IsCharged(r, j, pmt))
            && (forall j :: j != k && IsCharged(r, j, pmt) ==> IsCharged(m, j, pmt))
  {
    hide FindDdciPid;
  }

  lemma {:induction false} AddAllCharges(m: Maps, ad: nat, pids: seq<nat>, pmt: int, force: bool)
    ensures var r := AddAll(m, ad, pids, pmt, force);
            && KeepsOthers(m, r, pmt) && m.table.Keys <= r.table.Keys && r.emm == m.emm
            && (forall i :: 0 <= i < |pids| ==>
                  Key(ad, pids[i]) in r.table && (r.table[Key(ad, pids[i])].ddciPid != -1 ==> IsCharged(r, Key(ad, pids[i]), pmt)))
            && (forall j :: IsCharged(m, j, pmt) ==> IsCharged(r, j, pmt))
            && (forall j :: IsCharged(r, j, pmt) ==> IsCharged(m, j, pmt) || (j.ad == ad && j.pid in pids))
    decreases |pids|
  {
    hide Add, IsCharged;
    if pids != [] {
      var n := |pids| - 1;
      AddAllCharges(m, ad, pids[..n], pmt, force);
      var m1 := AddAll(m, ad, pids[..n], pmt, force);
      AddCharges(m1, Key(ad, pids[n]), pmt, force);
      assert forall i :: 0 <= i < n ==> pids[..n][i] == pids[i];
    }
  }

  /** The pids a PMT needs mapped. */
  predicate Needs(s: Service, pid: nat) { pid == s.pid || pid in s.cas || pid in s.streams }

  lemma NoRewriteCharges(m: Maps, k: Key, pmt: int)
    ensures var r := NoRewrite(m, k);
            KeepsOthers(m, r, pmt) && r.table.Keys == m.table.Keys && r.emm == m.emm
            && (forall j :: IsCharged(r, j, pmt) <==> IsCharged(m, j, pmt))
            && (forall j :: j in m.table ==> r.table[j].ddciPid == m.table[j].ddciPid)
  {
  }

  lemma MandatoryCharges(m: Maps, ad: nat, pid: nat, pmt: int)
    ensures var r := AddMandatory(m, ad, pid, pmt);
            && KeepsOthers(m, r, pmt) && m.table.Keys <= r.table.Keys && r.emm == m.emm
            && (forall j :: IsCharged(m, j, pmt) ==> IsCharged(r, j, pmt))
            && (forall j :: j != Key(ad, pid) && IsCharged(r, j, pmt) ==> IsCharged(m, j, pmt))
  {
  }

  lemma KeepsOthersChains(a: Maps, b: Maps, c: Maps, pmt: int)
    requires KeepsOthers(a, b, pmt) && KeepsOthers(b, c, pmt) && a.table.Keys <= b.table.Keys
    ensures KeepsOthers(a, c, pmt)
  {
  }

  /** Mapping a service charges every pid it needs that got a DDCI pid, and only those and 1 and 20. */
  lemma MapServiceCharges(m: Maps, s: Service)
    ensures var r := MapService(m, s);
            && KeepsOthers(m, r, s.id) && m.table.Keys <= r.table.Keys && r.emm == m.emm
            && (forall pid :: Needs(s, pid) ==> Key(s.ad, pid) in r.table
                                                && (r.table[Key(s.ad, pid)].ddciPid != -1 ==> IsCharged(r, Key(s.ad, pid), s.id)))
            && (forall j :: IsCharged(m, j, s.id) ==> IsCharged(r, j, s.id))
  {
    hide Add, AddMandatory, NoRewrite, AddAll, IsCharged, KeepsOthers;
    var m0 := AddMandatory(m, s.ad, 1, s.id);
    var m1 := AddMandatory(m0, s.ad, 20, s.id);
    var k := Key(s.ad, s.pid);
    var m2 := Add(m1, k, s.id, false);
    var m3 := NoRewrite(m2, k);
    var m4 := AddAll(m3, s.ad, s.cas, s.id, true);
    var r := AddAll(m4, s.ad, s.streams, s.id, false);
    MandatoryCharges(m, s.ad, 1, s.id);
    MandatoryCharges(m0, s.ad, 20, s.id);
    AddCharges(m1, k, s.id, false);
    NoRewriteCharges(m2, k, s.id);
    AddAllCharges(m3, s.ad, s.cas, s.id, true);
    AddAllCharges(m4, s.ad, s.streams, s.id, false);
    KeepsOthersChains(m, m0, m1, s.id);
    KeepsOthersChains(m, m1, m2, s.id);
    KeepsOthersChains(m, m2, m3, s.id);
    KeepsOthersChains(m, m3, m4, s.id);
    KeepsOthersChains(m, m4, r, s.id);
    SamePids(m3, m4, s.id);
    SamePids(m4, r, s.id);
    assert r.table[k].ddciPid == m2.table[k].ddciPid;
    forall i | 0 <= i < |s.cas| ensures r.table[Key(s.ad, s.cas[i])].ddciPid == m4.table[Key(s.ad, s.cas[i])].ddciPid {
    }
  }

  lemma SamePids(a: Maps, b: Maps, pmt: int)
    requires KeepsOthers(a, b, pmt) && a.table.Keys <= b.table.Keys
    ensures forall k :: k in a.table ==> b.table[k].ddciPid == a.table[k].ddciPid
  {
  }

  lemma DischargeCharges(m: Maps, from: set<Key>, pmt: int)
    ensures var r := Discharge(m, from, pmt);
            && r.emm == m.emm && r.table.Keys <= m.table.Keys
            && KeepsOthers(m, r, pmt)
            && (forall k :: IsCharged(r, k, pmt) <==> IsCharged(m, k, pmt) && k !in from)
  {
  }

  /** After a PMT add or update the entries of its adapter charged to it are exactly the pids it needs, as far as a DDCI pid
      was left for them, plus those of pids 1, 20 and the adapter's EMM pids that were charged to it before or are new;
      surviving entries keep their DDCI pid, other PMTs their charges, and entries not charged to it stay as they are. */
  lemma ProcessPmtCharges(m: Maps, s: Service)
    ensures forall pid :: Needs(s, pid) ==> Key(s.ad, pid) in MapService(m, s).table
    ensures var r := ProcessPmt(m, s);
            && KeepsOthers(m, r, s.id) && r.emm == m.emm
            && (forall pid :: Needs(s, pid) && MapService(m, s).table[Key(s.ad, pid)].ddciPid != -1 ==>
                  IsCharged(r, Key(s.ad, pid), s.id))
            && (forall k :: IsCharged(r, k, s.id) <==>
                  IsCharged(MapService(m, s), k, s.id)
                  && (k.ad == s.ad ==> Needs(s, k.pid) || k.pid == 1 || k.pid == 20 || k in m.emm))
            && (forall k :: k in MapService(m, s).table && !IsCharged(MapService(m, s), k, s.id) ==>
                  k in r.table && r.table[k] == MapService(m, s).table[k])
  {
    hide MapService, Discharge, IsCharged;
    MapServiceCharges(m, s);
    var m1 := MapService(m, s);
    DischargeCharges(m1, Dropped(m1, s), s.id);
    var r := ProcessPmt(m, s);
    assert KeepsOthers(m, r, s.id);
    forall k | IsCharged(m1, k, s.id) ensures k in m1.table && s.id in m1.table[k].users { ChargedIsInTable(m1, k, s.id); }
    UnchargedStay(m1, s);
  }

  lemma UnchargedStay(m: Maps, s: Service)
    ensures var r := Discharge(m, Dropped(m, s), s.id);
            forall k :: k in m.table && !IsCharged(m, k, s.id) ==> k in r.table && r.table[k] == m.table[k]
  {
    hide StillNeeded;
  }

  lemma ChargedIsInTable(m: Maps, k: Key, pmt: int)
    requires IsCharged(m, k, pmt)
    ensures k in m.table && pmt in m.table[k].users
  {
  }

  // ----- what a registration subscribes and rewrites -----

  /** The entry has its users, or never got a pid: further users change no subscription. */
  predicate IsTaken(m: Maps, k: Key) { k in m.table && (m.table[k].users != {} || m.table[k].ddciPid == -1) }

  ghost predicate IsUnknown(m: Maps, k: Key) { k !in m.table && k !in m.onSource }

  ghost predicate SameUse(m: Maps, r: Maps, k: Key) {
    && IsTaken(m, k) && IsTaken(r, k) && (k in r.onSource <==> k in m.onSource)
    && r.table[k].rewrite == m.table[k].rewrite && r.table[k].ddciPid == m.table[k].ddciPid
  }

  /** The entry is new, in the stream to the CAM, and subscribed on its adapter if asked for. */
  ghost predicate IsNew(r: Maps, k: Key, force: bool) {
    IsTaken(r, k) && r.table[k].rewrite && (k in r.onSource <==> force && r.table[k].ddciPid != -1)
  }

  lemma AddSubscribes(m: Maps, j: Key, pmt: int, force: bool, k: Key)
    ensures var r := Add(m, j, pmt, force);
            && (IsUnknown(m, k) ==> if k == j then IsNew(r, k, force) else IsUnknown(r, k))
            && (IsTaken(m, k) ==> SameUse(m, r, k))
  {
    hide FindDdciPid;
  }

  lemma {:induction false} AddAllSubscribes(m: Maps, ad: nat, pids: seq<nat>, pmt: int, force: bool, k: Key)
    requires k.ad == ad
    ensures var r := AddAll(m, ad, pids, pmt, force);
            && (IsUnknown(m, k) ==> if k.pid in pids then IsNew(r, k, force) else IsUnknown(r, k))
            && (IsTaken(m, k) ==> SameUse(m, r, k))
    decreases |pids|
  {
    hide Add;
    if pids != [] {
      var n := |pids| - 1;
      AddAllSubscribes(m, ad, pids[..n], pmt, force, k);
      AddSubscribes(AddAll(m, ad, pids[..n], pmt, force), Key(ad, pids[n]), pmt, force, k);
      assert k.pid in pids <==> k.pid in pids[..n] || k.pid == pids[n];
    }
  }

  /** Registering a service subscribes on its adapter, for DDCI, the pids 1 and 20 and the ECM pids that are new to the
      mapping, and no stream pid: those are the clients' matter. The PMT pid stays out of the stream to the CAM, every
      other new pid goes into it, and pids that have users keep both as they are. */
  lemma MapServiceSubscribes(m: Maps, s: Service, k: Key)
    requires k.ad == s.ad
    ensures var r := MapService(m, s);
            && (IsUnknown(m, k) && k in r.table && r.table[k].ddciPid != -1 ==>
                  && (k in r.onSource <==> k.pid in {1, 20} || (k.pid in s.cas && k.pid != s.pid))
                  && (r.table[k].rewrite <==> k.pid != s.pid))
            && (IsTaken(m, k) ==>
                  && k in r.table && (k in r.onSource <==> k in m.onSource)
                  && (r.table[k].rewrite <==> m.table[k].rewrite && k.pid != s.pid))
  {
    hide Add, AddAll;
    var own := Key(s.ad, s.pid);
    var m0 := AddMandatory(m, s.ad, 1, s.id);
    AddSubscribes(m, Key(s.ad, 1), s.id, true, k);
    var m1 := AddMandatory(m0, s.ad, 20, s.id);
    AddSubscribes(m0, Key(s.ad, 20), s.id, true, k);
    var m2 := Add(m1, own, s.id, false);
    AddSubscribes(m1, own, s.id, false, k);
    var m3 := NoRewrite(m2, own);
    var m4 := AddAll(m3, s.ad, s.cas, s.id, true);
    AddAllSubscribes(m3, s.ad, s.cas, s.id, true, k);
    AddAllSubscribes(m4, s.ad, s.streams, s.id, false, k);
  }

  // ----- what a removal leaves -----

  /** A PMT other than the given one is charged to an entry of the adapter that is no EMM pid. */
  ghost predicate OthersUse(m: Maps, ad: nat, pmt: int) {
    exists k: Key, u :: k.ad == ad && k !in m.emm && u != pmt && IsCharged(m, k, u)
  }

  /** Users of an entry besides the given PMT. */
  predicate IsShared(e: Mapping, pmt: int) { e.users - {pmt} != {} }

  /** Unregistering a PMT takes it off the adapter's entries. While another PMT uses one of them, the shared entries and all
      EMM entries stay; without one, nothing of the adapter stays mapped, so that its next CAT is taken. Other adapters are
      not touched, and what stays mapped stays subscribed. */
  lemma DelPmtLeaves(m: Maps, ad: nat, pmt: int)
    requires Inv(m)
    ensures var r := DelPmt(m, ad, pmt);
            && r.table.Keys <= m.table.Keys && r.onSource == (set k | k in m.onSource && k in r.table)
            && (forall k: Key :: k.ad != ad ==> (k in m.table <==> k in r.table) && (k in m.emm <==> k in r.emm))
            && (forall k :: k in r.table && k.ad != ad ==> r.table[k] == m.table[k])
            && (if OthersUse(m, ad, pmt) then
                  && r.emm == m.emm
                  && (forall k :: k in m.table && k.ad == ad ==> (k in r.table <==> k in m.emm || IsShared(m.table[k], pmt)))
                  && (forall k :: k in r.table && k.ad == ad ==>
                        r.table[k] == if k in m.emm then m.table[k] else m.table[k].(users := m.table[k].users - {pmt}))
                else forall k: Key :: k.ad == ad ==> k !in r.table && k !in r.emm)
  {
    var from := set k | k in m.table && k.ad == ad && k !in m.emm;
    var d := Discharge(m, from, pmt);
    forall k | k in m.table ensures m.table[k].users <= {pmt} <==> !IsShared(m.table[k], pmt) {
      assert m.table[k].users <= {pmt} <==> m.table[k].users - {pmt} == {};
    }
    if OthersUse(m, ad, pmt) {
      var k: Key, u :| k.ad == ad && k !in m.emm && u != pmt && IsCharged(m, k, u);
      assert u in m.table[k].users - {pmt};
      assert k in d.table;
    } else {
      forall k | k in d.table && k.ad == ad ensures k in d.emm {
        if k !in m.emm { EmmOrUnused(m, ad, pmt, k); }
      }
    }
  }

  lemma EmmOrUnused(m: Maps, ad: nat, pmt: int, k: Key)
    requires !OthersUse(m, ad, pmt) && k in m.table && k.ad == ad && k !in m.emm
    ensures m.table[k].users <= {pmt}
  {
    forall u | u in m.table[k].users ensures u == pmt { assert u != pmt ==> IsCharged(m, k, u); }
  }

  // ----- what a CAT maps -----

  predicate IsOf(k: Key, ad: nat, pids: seq<nat>) { k.ad == ad && k.pid in pids }

  lemma {:induction false} AddEmmMaps(m: Maps, ad: nat, pids: seq<nat>, pmt: int, k: Key)
    ensures var r := AddEmm(m, ad, pids, pmt);
            && KeepsOthers(m, r, pmt) && m.table.Keys <= r.table.Keys
            && (k in r.emm <==> k in m.emm || IsOf(k, ad, pids))
            && (k in r.table <==> k in m.table || IsOf(k, ad, pids))
            && (if IsOf(k, ad, pids) then r.table[k].ddciPid != -1 ==> IsCharged(r, k, pmt)
                else IsCharged(r, k, pmt) <==> IsCharged(m, k, pmt))
            && (IsCharged(m, k, pmt) ==> IsCharged(r, k, pmt))
            && (IsUnknown(m, k) && IsOf(k, ad, pids) ==> IsNew(r, k, true))
            && (IsUnknown(m, k) && !IsOf(k, ad, pids) ==> IsUnknown(r, k))
            && (IsTaken(m, k) ==> SameUse(m, r, k))
    decreases |pids|
  {
    hide Add, IsCharged, KeepsOthers, IsUnknown;
    if pids == [] {
      ChargesStay(m, pmt);
      assert IsTaken(m, k) ==> SameUse(m, m, k);
    } else {
      var n := |pids| - 1;
      var m1, j := AddEmm(m, ad, pids[..n], pmt), Key(ad, pids[n]);
      AddEmmMaps(m, ad, pids[..n], pmt, k);
      AddCharges(m1, j, pmt, true);
      AddSubscribes(m1, j, pmt, true, k);
      AddKeys(m1, j, pmt, true);
      var m2 := Add(m1, j, pmt, true);
      SameTable(m2, AddEmm(m, ad, pids, pmt), pmt);
      KeepsOthersChains(m, m1, m2, pmt);
      KeepsOthersChains(m, m2, AddEmm(m, ad, pids, pmt), pmt);
      SamePids(m1, m2, pmt);
      assert k.pid in pids <==> k.pid in pids[..n] || k.pid == pids[n];
    }
  }

  lemma ChargesStay(m: Maps, pmt: int)
    ensures KeepsOthers(m, m, pmt)
  {
  }

  lemma AddKeys(m: Maps, k: Key, pmt: int, force: bool)
    ensures Add(m, k, pmt, force).table.Keys == m.table.Keys + {k}
  {
  }

  lemma SameTable(m: Maps, r: Maps, pmt: int)
    requires r.table == m.table && r.onSource == m.onSource
    ensures KeepsOthers(m, r, pmt) && (forall k, p :: IsCharged(m, k, p) <==> IsCharged(r, k, p))
            && (forall k :: IsUnknown(m, k) <==> IsUnknown(r, k))
  {
  }

  /** A CAT is refused when one of its EMM pids is some entry's DDCI pid. Otherwise its EMM pids are those of the adapter
      from now on, each mapped, charged to the given PMT as far as a DDCI pid was left for it, and subscribed if new;
      nothing else is mapped or charged. */
  lemma CatMaps(m: Maps, ad: nat, pids: seq<nat>, pmt: int, k: Key)
    ensures var r := ProcessCat(m, ad, pids, pmt);
            if exists j, pid :: j in m.table && pid in pids && m.table[j].ddciPid == pid then r == m
            else
              && KeepsOthers(m, r, pmt) && m.table.Keys <= r.table.Keys
              && (k in r.emm <==> if k.ad == ad then k.pid in pids else k in m.emm)
              && (k in r.table <==> k in m.table || (k.ad == ad && k.pid in pids))
              && (if k.ad == ad && k.pid in pids then r.table[k].ddciPid != -1 ==> IsCharged(r, k, pmt)
                  else IsCharged(r, k, pmt) <==> IsCharged(m, k, pmt))
              && (IsUnknown(m, k) && k.ad == ad && k.pid in pids ==> IsNew(r, k, true))
              && (IsTaken(m, k) ==> SameUse(m, r, k))
  {
    hide IsCharged, KeepsOthers, IsUnknown, AddEmm;
    if j, pid :| j in m.table && pid in pids && m.table[j].ddciPid == pid {
      var i :| 0 <= i < |pids| && pids[i] == pid;
      assert InUse(m.table, pids[i]);
    } else {
      forall i | 0 <= i < |pids| ensures !InUse(m.table, pids[i]) { assert pids[i] in pids; }
      var m1 := m.(emm := set k | k in m.emm && k.ad != ad);
      SameTable(m, m1, pmt);
      AddEmmMaps(m1, ad, pids, pmt, k);
      KeepsOthersChains(m, m1, AddEmm(m1, ad, pids, pmt), pmt);
    }
  }
}
