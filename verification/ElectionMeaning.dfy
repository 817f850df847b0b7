/** The notions of the election in terms of the slots and streams alone, and who wins by them: the earliest subscriber,
    then the most complete PMT (src/pmt.cpp:1027-1100, 1212-1333). */
module ElectionMeaning {
  import opened ElectionSpec
  import opened ElectionOrder
  import opened ElectionOutcome
  import opened ElectionOwners
  import opened PmtData
  import opened StreamMatch

  // ----- slots -----

  /** Slot i is the one the election looks at for the pid: the last ACTIVE one. */
  ghost predicate Serves(slots: seq<Slot>, pid: Pid, i: int) {
    && 0 <= i < |slots| && slots[i].active && slots[i].pid == pid
    && forall j :: i < j < |slots| ==> !(slots[j].active && slots[j].pid == pid)
  }

  lemma {:induction false} ActiveSlotServes(slots: seq<Slot>, pid: Pid, i: int)
    ensures Serves(slots, pid, i) <==> i >= 0 && ActiveSlot(slots, pid) == i
    decreases |slots|
  {
    if slots != [] {
      var n := |slots| - 1;
      ActiveSlotServes(slots[..n], pid, i);
      if !(slots[n].active && slots[n].pid == pid) && 0 <= i < n {
        assert Serves(slots, pid, i) <==> Serves(slots[..n], pid, i);
      }
    }
  }

  /** A client subscribes slot i, or DDCI does on a CI adapter. */
  ghost predicate IsWatched(env: Env, i: int) {
    0 <= i < |env.slots| && ((exists sid :: 0 <= sid < 256 && sid in env.slots[i].sids) || (env.isCi && 257 in env.slots[i].sids))
  }

  ghost predicate CarriesClient(env: Env, pid: Pid) {
    exists i :: Serves(env.slots, pid, i) && exists sid :: 0 <= sid < 256 && sid in env.slots[i].sids
  }

  lemma SubscribedIsWatched(env: Env, i: int)
    ensures Subscribed(env, i) <==> IsWatched(env, i)
  {
  }

  /** Stream k of PMT id puts its pid on slot i. */
  ghost predicate StreamAt(env: Env, id: int, k: int, i: int) {
    env.Live(id) && 0 <= k < |env.pmts[id].content.streams| && Serves(env.slots, env.pmts[id].content.streams[k].pid, i)
  }

  ghost predicate AvAt(env: Env, id: int, k: int, i: int) {
    StreamAt(env, id, k, i) && (env.pmts[id].content.streams[k].isAudio || env.pmts[id].content.streams[k].isVideo)
  }

  lemma ListsIff(env: Env, id: int, i: nat)
    ensures Lists(env, id, i) <==> exists k :: StreamAt(env, id, k, i)
    ensures ListsAsAv(env, id, i) <==> exists k :: AvAt(env, id, k, i)
  {
    hide ActiveSlot, Serves;
    if env.Live(id) {
      var streams := env.pmts[id].content.streams;
      forall k | 0 <= k < |streams| ensures StreamAt(env, id, k, i) <==> ActiveSlot(env.slots, streams[k].pid) == i {
        ActiveSlotServes(env.slots, streams[k].pid, i);
      }
      if k :| 0 <= k < |streams| && streams[k].IsAv() && ActiveSlot(env.slots, streams[k].pid) == i {
        assert AvAt(env, id, k, i);
      }
      if k :| AvAt(env, id, k, i) { assert StreamAt(env, id, k, i); }
    }
  }

  /** A PMT can be elected exactly when an audio/video pid of it is watched, and its own pid is or it runs already. */
  lemma CandidateIff(env: Env, c: Claims, id: int)
    requires c.Fits(env)
    ensures IsStartCandidate(env, c, id) <==>
              && 0 <= id < |env.pmts| && env.pmts[id].enabled
              && (c.state[id] == Running || exists i :: Serves(env.slots, env.pmts[id].pid, i) && IsWatched(env, i))
              && exists k, i :: AvAt(env, id, k, i) && IsWatched(env, i)
  {
    hide ActiveSlot, Serves, Subscribed, IsWatched;
    if env.Live(id) {
      var streams := env.pmts[id].content.streams;
      var own := ActiveSlot(env.slots, env.pmts[id].pid);
      WatchedSlot(env, env.pmts[id].pid);
      forall k | 0 <= k < |streams|
        ensures Subscribed(env, ActiveSlot(env.slots, streams[k].pid)) <==> exists i :: StreamAt(env, id, k, i) && IsWatched(env, i)
      {
        WatchedSlot(env, streams[k].pid);
        if i :| Serves(env.slots, streams[k].pid, i) && IsWatched(env, i) { assert StreamAt(env, id, k, i); }
      }
      if k :| 0 <= k < |streams| && streams[k].IsAv() && Subscribed(env, ActiveSlot(env.slots, streams[k].pid)) {
        var i :| StreamAt(env, id, k, i) && IsWatched(env, i);
        assert AvAt(env, id, k, i);
      }
      if k, i :| AvAt(env, id, k, i) && IsWatched(env, i) {
        assert StreamAt(env, id, k, i);
      }
    }
  }

  lemma WatchedSlot(env: Env, pid: Pid)
    ensures Subscribed(env, ActiveSlot(env.slots, pid)) <==> exists i :: Serves(env.slots, pid, i) && IsWatched(env, i)
  {
    hide Serves, IsWatched, ActiveSlot;
    var s := ActiveSlot(env.slots, pid);
    SubscribedIsWatched(env, s);
    if s >= 0 { ActiveSlotServes(env.slots, pid, s); }
    if i :| Serves(env.slots, pid, i) && IsWatched(env, i) { ActiveSlotServes(env.slots, pid, i); }
  }

  /** A PMT holds its place exactly when it owns a watched audio/video slot of its own. */
  lemma HoldsAvIff(env: Env, owner: seq<int>, id: int)
    requires |owner| == |env.slots|
    ensures HoldsAv(env, owner, id) <==>
              exists k, i :: AvAt(env, id, k, i) && IsWatched(env, i) && 0 <= i < |owner| && owner[i] == id
  {
    hide ListsAsAv, AvAt, Subscribed, IsWatched;
    forall i: nat | i < |owner|
      ensures ListsAsAv(env, id, i) <==> exists k :: AvAt(env, id, k, i)
      ensures Subscribed(env, i) <==> IsWatched(env, i)
    {
      ListsIff(env, id, i);
      SubscribedIsWatched(env, i);
    }
  }

  // ----- rank -----

  /** The pid's subscription order is o; 0 stands for none. */
  ghost predicate SubscribedAs(env: Env, pid: Pid, o: nat) {
    o != 0 && exists i :: Serves(env.slots, pid, i) && env.slots[i].order == o
  }

  /** Pid p was subscribed before q, or q is not subscribed; the largest order counts as none. */
  ghost predicate IsEarlier(env: Env, p: Pid, q: Pid) {
    exists o: nat :: SubscribedAs(env, p, o) && o < 0xFFFF_FFFF && forall x: nat :: SubscribedAs(env, q, x) ==> o < x
  }

  ghost function Matched(env: Env, content: PmtContent): nat {
    |set k | 0 <= k < |content.streams| && CarriesClient(env, content.streams[k].pid)|
    + |set k | 0 <= k < |content.cas| && CarriesClient(env, content.cas[k].pid)|
  }

  /** p percent, rounded down, of the content's stream and ECM pids carry a client. */
  ghost predicate IsPercent(env: Env, content: PmtContent, p: nat) {
    var total := |content.streams| + |content.cas|;
    if total == 0 then p == 0 else p * total <= Matched(env, content) * 100 < (p + 1) * total
  }

  lemma OrderIs(env: Env, pid: Pid)
    requires forall i :: 0 <= i < |env.slots| ==> env.slots[i].order <= UINT32_MAX
    ensures OrderOf(env, pid) <= UINT32_MAX
    ensures forall o: nat :: o < UINT32_MAX ==> (SubscribedAs(env, pid, o) <==> OrderOf(env, pid) == o)
    ensures forall o: nat :: SubscribedAs(env, pid, o) ==> OrderOf(env, pid) == o
  {
    hide ActiveSlot, Serves;
    var s := ActiveSlot(env.slots, pid);
    if s >= 0 { ActiveSlotServes(env.slots, pid, s); }
    forall i: int | Serves(env.slots, pid, i) ensures i == s && i >= 0 { ActiveSlotServes(env.slots, pid, i); }
  }

  lemma ClientHasIs(env: Env, pid: Pid)
    ensures ClientHas(env, pid) <==> CarriesClient(env, pid)
  {
    hide ActiveSlot, Serves;
    var s := ActiveSlot(env.slots, pid);
    if s >= 0 { ActiveSlotServes(env.slots, pid, s); }
    forall i: int | Serves(env.slots, pid, i) ensures i == s && i >= 0 { ActiveSlotServes(env.slots, pid, i); }
  }

  lemma {:induction false} CountStreamsIs(env: Env, streams: seq<StreamPid>)
    ensures CountStreams(env, streams) == |set k | 0 <= k < |streams| && CarriesClient(env, streams[k].pid)|
    decreases |streams|
  {
    hide CarriesClient, ClientHas;
    if streams != [] {
      var n := |streams| - 1;
      var a := set k | 0 <= k < n && CarriesClient(env, streams[..n][k].pid);
      var b := set k | 0 <= k < |streams| && CarriesClient(env, streams[k].pid);
      CountStreamsIs(env, streams[..n]);
      ClientHasIs(env, streams[n].pid);
      assert b == if CarriesClient(env, streams[n].pid) then a + {n} else a;
    }
  }

  lemma {:induction false} CountCasIs(env: Env, cas: seq<CaEntry>)
    ensures CountCas(env, cas) == |set k | 0 <= k < |cas| && CarriesClient(env, cas[k].pid)|
    decreases |cas|
  {
    hide CarriesClient, ClientHas;
    if cas != [] {
      var n := |cas| - 1;
      var a := set k | 0 <= k < n && CarriesClient(env, cas[..n][k].pid);
      var b := set k | 0 <= k < |cas| && CarriesClient(env, cas[k].pid);
      CountCasIs(env, cas[..n]);
      ClientHasIs(env, cas[n].pid);
      assert b == if CarriesClient(env, cas[n].pid) then a + {n} else a;
    }
  }

  lemma AtLeastOnce(d: int, n: nat)
    requires d >= 1
    ensures d * n >= n
  {
  }

  lemma Floor(m: nat, n: nat, p: nat)
    requires n > 0
    ensures m / n == p <==> p * n <= m < (p + 1) * n
  {
    var d := m / n - p;
    assert m == p * n + d * n + m % n && (p + 1) * n == p * n + n;
    if d >= 1 { AtLeastOnce(d, n); } else if d <= -1 { AtLeastOnce(-d, n); }
  }

  lemma PercentIs(env: Env, content: PmtContent, p: nat)
    ensures Completeness(env, content) == p <==> IsPercent(env, content, p)
  {
    hide CountStreams, CountCas;
    CountStreamsIs(env, content.streams);
    CountCasIs(env, content.cas);
    var total := |content.streams| + |content.cas|;
    if total > 0 { Floor(Matched(env, content) * 100, total, p); }
  }

  /** PMT a goes before PMT b: subscribed earlier, or not later and more complete. */
  ghost predicate GoesBefore(env: Env, a: int, b: int)
    requires env.Live(a) && env.Live(b)
  {
    IsEarlier(env, env.pmts[a].pid, env.pmts[b].pid)
    || (!IsEarlier(env, env.pmts[b].pid, env.pmts[a].pid)
        && exists p: nat, q: nat :: p > q && IsPercent(env, env.pmts[a].content, p) && IsPercent(env, env.pmts[b].content, q))
  }

  ghost predicate OrdersFit(env: Env) { forall i :: 0 <= i < |env.slots| ==> env.slots[i].order <= 0xFFFF_FFFF }

  lemma EarlierIs(env: Env, p: Pid, q: Pid)
    requires OrdersFit(env)
    ensures IsEarlier(env, p, q) <==> OrderOf(env, p) < OrderOf(env, q)
  {
    hide OrderOf, SubscribedAs;
    OrderIs(env, p);
    OrderIs(env, q);
    if OrderOf(env, p) < OrderOf(env, q) {
      assert SubscribedAs(env, p, OrderOf(env, p));
    }
    if IsEarlier(env, p, q) && OrderOf(env, q) < UINT32_MAX { assert SubscribedAs(env, q, OrderOf(env, q)); }
  }

  lemma OutranksIff(env: Env, a: int, b: int)
    requires OrdersFit(env) && env.Live(a) && env.Live(b)
    ensures Outranks(env, a, b) <==> GoesBefore(env, a, b)
  {
    hide OrderOf, IsEarlier, Completeness, IsPercent;
    EarlierIs(env, env.pmts[a].pid, env.pmts[b].pid);
    EarlierIs(env, env.pmts[b].pid, env.pmts[a].pid);
    forall p: nat
      ensures Completeness(env, env.pmts[a].content) == p <==> IsPercent(env, env.pmts[a].content, p)
      ensures Completeness(env, env.pmts[b].content) == p <==> IsPercent(env, env.pmts[b].content, p)
    {
      PercentIs(env, env.pmts[a].content, p);
      PercentIs(env, env.pmts[b].content, p);
    }
    var p, q := Completeness(env, env.pmts[a].content), Completeness(env, env.pmts[b].content);
    assert IsPercent(env, env.pmts[a].content, p) && IsPercent(env, env.pmts[b].content, q);
  }

  // ----- who wins -----

  /** The same descriptors and the same streams, each in any order. */
  ghost predicate CarryTheSame(env: Env, a: int, b: int) {
    && 0 <= a < |env.pmts| && 0 <= b < |env.pmts|
    && multiset(env.pmts[a].content.descriptors) == multiset(env.pmts[b].content.descriptors)
    && multiset(KeysOf(env.pmts[a].content.streams)) == multiset(KeysOf(env.pmts[b].content.streams))
  }

  lemma CopyIff(env: Env, a: int, b: int)
    requires env.Live(a) && env.Live(b)
    ensures SamePmt(env, a, b) <==> CarryTheSame(env, a, b)
  {
  }

  /** Of PMTs that carry the same exactly one is elected, and it is one that no other of them goes before. */
  lemma OneOfEachIsElected(env: Env, c: Claims, id: int)
    requires c.Fits(env) && env.Valid() && OrdersFit(env) && id in env.listed && IsStartCandidate(env, c, id)
    ensures var e := Elected(env, c);
            && env.Live(id)
            && exists m :: 0 <= m < |e| && CarryTheSame(env, e[m], id) && env.Live(e[m]) && !GoesBefore(env, id, e[m])
                           && forall n :: 0 <= n < |e| && n != m ==> !CarryTheSame(env, e[n], id)
  {
    hide Outranks, GoesBefore, IsStartCandidate, SamePmt, Dedupe, StableSort, Filter;
    var candidates, e := Candidates(env, c), Elected(env, c);
    var sorted := StableSort(env, candidates);
    ElectedIsSorted(env, c);
    CandidatesAre(env, c);
    assert AllLive(env, candidates) by {
      forall x | x in candidates ensures env.Live(x) { CandidateIsLive(env, c, x); }
    }
    SortIsSortedPermutation(env, candidates);
    DedupeKeepsBestOfEach(env, sorted);
    assert id in sorted;
    var m :| 0 <= m < |e| && SamePmt(env, e[m], id) && !Outranks(env, id, e[m]);
    assert e[m] in e;
    CopyIff(env, e[m], id);
    OutranksIff(env, id, e[m]);
    forall n | 0 <= n < |e| && n != m ensures !CarryTheSame(env, e[n], id) {
      assert e[n] in e;
      CopyIff(env, e[n], id);
      CopyIff(env, e[if m < n then m else n], e[if m < n then n else m]);
      assert !SamePmt(env, e[if m < n then m else n], e[if m < n then n else m]);
    }
  }

  lemma CandidatesAre(env: Env, c: Claims)
    requires c.Fits(env)
    ensures forall id :: id in Candidates(env, c) <==> id in env.listed && IsStartCandidate(env, c, id)
  {
    hide IsStartCandidate;
  }

  /** Nobody on the elected list was subscribed later than somebody behind, and at the same time nobody behind is more
      complete. */
  lemma EarliestIsFirst(env: Env, c: Claims, m: nat, n: nat)
    requires c.Fits(env) && env.Valid() && OrdersFit(env) && m < n < |Elected(env, c)|
    ensures var a, b := Elected(env, c)[m], Elected(env, c)[n];
            env.Live(a) && env.Live(b) && !GoesBefore(env, b, a)
  {
    hide Outranks, Elected, GoesBefore;
    ElectedIsSorted(env, c);
    var a, b := Elected(env, c)[m], Elected(env, c)[n];
    assert a in Elected(env, c) && b in Elected(env, c);
    OutranksIff(env, b, a);
  }

  /** In a trace from a slot nobody live holds, the first lister takes it and keeps it. */
  lemma {:induction false} FirstListerWins(env: Env, i: nat, stopped: iset<int>, o: int, members: seq<int>, p: nat)
    requires Ranked(env, members) && p < |members| && !env.Live(o)
    requires Lists(env, members[p], i) && forall q :: 0 <= q < p ==> !Lists(env, members[q], i)
    requires forall k :: k in members && k in stopped ==> !Lists(env, k, i)
    ensures Trace(env, i, stopped, o, members) == members[p]
    decreases |members|
  {
    hide Outranks, Lists;
    var n := |members| - 1;
    assert members[n] in members && members[p] in members;
    RankedPrefix(env, members, n);
    if p < n {
      FirstListerWins(env, i, stopped, o, members[..n], p);
      assert !Outranks(env, members[n], members[p]);
    } else {
      NoListerNoOwner(env, i, stopped, o, members[..n]);
    }
  }

  lemma {:induction false} NoListerNoOwner(env: Env, i: nat, stopped: iset<int>, o: int, members: seq<int>)
    requires !env.Live(o) && AllLive(env, members) && forall k :: k in members ==> !Lists(env, k, i)
    ensures Trace(env, i, stopped, o, members) == o
    decreases |members|
  {
    hide Lists;
    if members != [] {
      var n := |members| - 1;
      assert members[n] in members;
      NoListerNoOwner(env, i, stopped, o, members[..n]);
    }
  }

  /** Nobody live holds the slot once the election has stopped those it does not elect. */
  ghost predicate IsOpen(env: Env, c: Claims, i: nat)
    requires c.Fits(env) && i < |c.owner|
  {
    var o := c.owner[i];
    env.Live(o) ==> o in env.listed && c.state[o] in {Running, Starting} && o !in Elected(env, c)
  }

  /** A watched pid that nobody holds and that elected PMTs list as audio/video goes to the first of them: none of the
      others was subscribed earlier, and none subscribed as early is more complete. */
  lemma EarliestSubscriberWins(env: Env, c: Claims, i: nat, p: nat)
    requires c.Fits(env) && env.Valid() && Settled(env, c) && OrdersFit(env)
    requires i < |c.owner| && IsWatched(env, i) && IsOpen(env, c, i)
    requires var e := Elected(env, c);
             && ListersSeeAv(env, i, e)
             && p < |e| && Lists(env, e[p], i) && forall q :: 0 <= q < p ==> !Lists(env, e[q], i)
    ensures var e, o := Elected(env, c), Elect(env, c).owner[i];
            && o == e[p] && env.Live(o)
            && forall k :: k in e && Lists(env, k, i) ==> env.Live(k) && !GoesBefore(env, k, o)
  {
    hide Outranks, Lists, ListsAsAv, HoldsAv, ClaimPass, Elected, Expelled, Trace, Step, GoesBefore, IsWatched;
    var e, c0 := Elected(env, c), AfterStops(env, c);
    SubscribedIsWatched(env, i);
    StopsSpareElected(env, c);
    ExpelledIs(env, c0, e);
    var stopped := iset k | k in Expelled(env, c0, e) && !Lists(env, k, i);
    PassIsTrace(env, c0, e, i, stopped);
    assert !env.Live(c0.owner[i]);
    FirstListerWins(env, i, stopped, c0.owner[i], e, p);
    forall k | k in e && Lists(env, k, i) ensures env.Live(k) && !GoesBefore(env, k, e[p]) {
      var q :| 0 <= q < |e| && e[q] == k;
      if q == p { OutranksIsStrictWeakOrder(env, k, k, k); OutranksIff(env, k, k); }
      else { EarliestIsFirst(env, c, p, q); }
    }
  }

  // ----- what an election leaves alone -----

  /** A claim pass gives a slot only to a member that lists it, and only if it is watched. */
  lemma {:induction false} PassGivesToListers(env: Env, c: Claims, elected: seq<int>, i: nat)
    requires c.Fits(env) && AllLive(env, elected) && i < |c.owner|
    ensures var o := ClaimPass(env, c, elected).owner[i];
            o == c.owner[i] || o == -1 || (o in elected && Subscribed(env, i) && Lists(env, o, i))
    decreases |elected|
  {
    hide Outranks, Lists, Subscribed, HoldsAv;
    if elected != [] {
      var n := |elected| - 1;
      assert elected[n] in elected;
      PassGivesToListers(env, c, elected[..n], i);
    }
  }

  /** And it leaves any other slot to its owner, unless that owner is stopped. */
  lemma {:induction false} PassSparesOthers(env: Env, c: Claims, elected: seq<int>, i: nat)
    requires c.Fits(env) && Ranked(env, elected) && i < |c.owner|
    requires forall k :: k in elected ==> !(Subscribed(env, i) && Lists(env, k, i))
    ensures var r, o := ClaimPass(env, c, elected), c.owner[i];
            r.owner[i] == o || (r.owner[i] == -1 && o in elected && r.state[o] == Stopped)
    decreases |elected|
  {
    hide Outranks, Lists, Subscribed, HoldsAv;
    if elected != [] {
      var n := |elected| - 1;
      assert elected[n] in elected && elected[n] !in elected[..n];
      RankedPrefix(env, elected, n);
      PassSparesOthers(env, c, elected[..n], i);
    }
  }

  /** An election moves a slot only to an elected PMT with a stream on it, and only if it is watched; any other slot
      keeps its owner, or loses one that the election stopped. */
  lemma OwnersMoveOnlyToListers(env: Env, c: Claims, i: nat)
    requires c.Fits(env) && env.Valid() && Settled(env, c) && i < |c.owner|
    ensures var e, r, o := Elected(env, c), Elect(env, c), c.owner[i];
            && (r.owner[i] == o || r.owner[i] == -1
                || (r.owner[i] in e && IsWatched(env, i) && exists k :: StreamAt(env, r.owner[i], k, i)))
            && (!IsWatched(env, i) || (forall id, k :: id in e ==> !StreamAt(env, id, k, i)) ==>
                  r.owner[i] == o || (r.owner[i] == -1 && env.Live(o) && r.state[o] == Stopped))
  {
    hide Outranks, Lists, HoldsAv, ClaimPass, Elected, IsWatched, StreamAt, Subscribed;
    var e, c0, r := Elected(env, c), AfterStops(env, c), Elect(env, c);
    StopsSpareElected(env, c);
    SubscribedIsWatched(env, i);
    PassGivesToListers(env, c0, e, i);
    if r.owner[i] in e { ListsIff(env, r.owner[i], i); }
    if !IsWatched(env, i) || forall id, k :: id in e ==> !StreamAt(env, id, k, i) {
      forall k | k in e ensures !(Subscribed(env, i) && Lists(env, k, i)) { ListsIff(env, k, i); }
      PassSparesOthers(env, c0, e, i);
      if c0.owner[i] != c.owner[i] { PassLeavesOthers(env, c0, e); }
    }
  }
}
