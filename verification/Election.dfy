/** `pmt_pid_updated_pids` and its helpers as loops over the adapter's arrays (src/pmt.cpp:1021-1333),
    proved equal to the election of module ElectionSpec. */
module Election {
  import opened ElectionSpec
  import opened ElectionOrder
  import opened StreamMatch
  import opened PmtData

  const MAX_PMT_FOR_ADAPTER: nat := 255

  // ----- the pid lookup of one election -----

  /** `pids[p]` is the ACTIVE slot of pid p, or -1. */
  ghost predicate IsLookup(pids: seq<int>, slots: seq<Slot>) {
    |pids| == 8193 && forall p: Pid :: pids[p] == ActiveSlot(slots, p)
  }

  method BuildLookup(slots: seq<Slot>) returns (pids: array<int>)
    ensures fresh(pids) && IsLookup(pids[..], slots)
  {
    pids := new int[8193](_ => -1);
    for i := 0 to |slots|
      invariant forall p: Pid :: pids[p] == ActiveSlot(slots[..i], p)
    {
      assert slots[..i + 1][..i] == slots[..i];
      if slots[i].active { pids[slots[i].pid] := i; }
    }
    assert slots[..|slots|] == slots;
  }

  method CompletenessPct(env: Env, pids: array<int>, content: PmtContent) returns (pct: nat)
    requires IsLookup(pids[..], env.slots)
    ensures pct == Completeness(env, content)
  {
    hide HasClient;
    var matched := 0;
    for k := 0 to |content.streams|
      invariant matched == CountStreams(env, content.streams[..k])
    {
      assert content.streams[..k + 1][..k] == content.streams[..k];
      var s := pids[..][content.streams[k].pid];
      if s >= 0 && HasClient(env.slots[s]) { matched := matched + 1; }
    }
    assert content.streams[..|content.streams|] == content.streams;
    for k := 0 to |content.cas|
      invariant matched == CountStreams(env, content.streams) + CountCas(env, content.cas[..k])
    {
      assert content.cas[..k + 1][..k] == content.cas[..k];
      var s := pids[..][content.cas[k].pid];
      if s >= 0 && HasClient(env.slots[s]) { matched := matched + 1; }
    }
    assert content.cas[..|content.cas|] == content.cas;
    pct := Percent(matched, |content.streams| + |content.cas|);
  }

  method PidOrder(env: Env, pids: array<int>, pid: Pid) returns (order: nat)
    requires IsLookup(pids[..], env.slots)
    ensures order == OrderOf(env, pid)
  {
    var s := pids[..][pid];
    order := if s >= 0 && env.slots[s].order != 0 then env.slots[s].order else UINT32_MAX;
  }

  // ----- the flags of dropped duplicates -----

  ghost function Kept(ch: seq<int>, flags: seq<bool>): (r: seq<int>)
    requires |ch| == |flags|
    ensures forall x :: x in r <==> exists k :: 0 <= k < |ch| && flags[k] && ch[k] == x
  {
    if ch == [] then []
    else
      var n := |ch| - 1;
      var r := Kept(ch[..n], flags[..n]);
      if flags[n] then r + [ch[n]] else r
  }

  lemma {:induction false} KeptAll(ch: seq<int>, flags: seq<bool>)
    requires |ch| == |flags| && forall k :: 0 <= k < |flags| ==> flags[k]
    ensures Kept(ch, flags) == ch
  {
    if ch != [] {
      var n := |ch| - 1;
      KeptAll(ch[..n], flags[..n]);
    }
  }

  lemma {:induction false} KeptFilter(ch: seq<int>, f: seq<bool>, g: seq<bool>, keep: int -> bool)
    requires |ch| == |f| == |g| && forall k :: 0 <= k < |ch| ==> (g[k] <==> f[k] && keep(ch[k]))
    ensures Kept(ch, g) == Filter(Kept(ch, f), keep)
  {
    if ch != [] {
      var n := |ch| - 1;
      KeptFilter(ch[..n], f[..n], g[..n], keep);
      FilterSnoc(Kept(ch[..n], f[..n]), ch[n], keep);
    }
  }

  lemma {:induction false} KeptCons(ch: seq<int>, flags: seq<bool>)
    requires |ch| == |flags| && ch != []
    ensures Kept(ch, flags) == (if flags[0] then [ch[0]] else []) + Kept(ch[1..], flags[1..])
  {
    var n := |ch| - 1;
    if n > 0 {
      KeptCons(ch[..n], flags[..n]);
      assert ch[..n][1..] == ch[1..][..n - 1] && flags[..n][1..] == flags[1..][..n - 1];
    }
  }

  // ----- the adapter -----

  class Adapter {
    /** Subscriptions and parsed PMTs; other operations change them between elections. */
    var env: Env
    /** SPid.pmt of every slot, SPMT.state and SPMT.best of every PMT. */
    const owner: array<int>
    const state: array<PmtState>
    const best: array<bool>

    constructor (env: Env)
      requires env.Valid() && |env.listed| <= MAX_PMT_FOR_ADAPTER
      ensures Valid() && this.env == env && fresh(owner) && fresh(state) && fresh(best)
      ensures forall i :: 0 <= i < owner.Length ==> owner[i] == -1
      ensures forall id :: 0 <= id < state.Length ==> state[id] == Stopped && !best[id]
    {
      this.env := env;
      owner := new int[|env.slots|](_ => -1);
      state := new PmtState[|env.pmts|](_ => Stopped);
      best := new bool[|env.pmts|](_ => false);
    }

    ghost predicate Valid()
      reads this
    {
      && env.Valid() && |env.listed| <= MAX_PMT_FOR_ADAPTER
      && owner.Length == |env.slots| && state.Length == |env.pmts| == best.Length
    }

    ghost function View(): (c: Claims)
      reads this, owner, state
      requires Valid()
      ensures c.Fits(env)
    {
      Claims(owner[..], state[..])
    }

    /** The choices of an election: distinct live PMTs. */
    ghost predicate AreChoices(ch: seq<int>)
      reads this
    {
      Distinct(ch) && forall k :: 0 <= k < |ch| ==> env.Live(ch[k])
    }

    /** `stop_pmt` and `release_pmt_claims`. */
    method StopAndRelease(id: int)
      requires Valid() && env.Live(id)
      modifies owner, state
      ensures Valid() && View() == StopAll(old(View()), iset{id})
    {
      ghost var r := StopAll(View(), iset{id});
      state[id] := Stopped;
      assert state[..] == r.state;
      for i := 0 to owner.Length
        invariant state[..] == r.state
        invariant forall k :: 0 <= k < i ==> owner[k] == if old(owner[k]) == id then -1 else old(owner[k])
        invariant forall k :: i <= k < owner.Length ==> owner[k] == old(owner[k])
      {
        if owner[i] == id { owner[i] := -1; }
      }
      assert owner[..] == r.owner;
    }

    method IsCandidate(pids: array<int>, id: int) returns (yes: bool)
      requires Valid() && env.Live(id) && IsLookup(pids[..], env.slots)
      ensures yes <==> IsStartCandidate(env, View(), id)
    {
      var pmt := env.pmts[id];
      var own := pids[..][pmt.pid];
      if state[id] != Running && !(own >= 0 && PidSubscribed(env.isCi, env.slots[own])) { return false; }
      for k := 0 to |pmt.content.streams|
        invariant forall j :: 0 <= j < k ==>
          !(pmt.content.streams[j].IsAv() && Subscribed(env, ActiveSlot(env.slots, pmt.content.streams[j].pid)))
      {
        var sp := pmt.content.streams[k];
        var s := pids[..][sp.pid];
        if sp.IsAv() && s >= 0 && PidSubscribed(env.isCi, env.slots[s]) { return true; }
      }
      return false;
    }

    /** The candidate set in list order. */
    method CollectCandidates(pids: array<int>) returns (ch: seq<int>)
      requires Valid() && IsLookup(pids[..], env.slots)
      ensures ch == Candidates(env, View())
    {
      hide IsStartCandidate;
      ch := [];
      ghost var c, e := View(), env;
      ghost var test := (id: int) => IsStartCandidate(e, c, id);
      for i := 0 to |env.listed|
        invariant ch == Filter(env.listed[..i], test) && |ch| <= i
      {
        var id := env.listed[i];
        assert env.listed[..i + 1][..i] == env.listed[..i];
        CandidateIsLive(env, View(), id);
        if env.Live(id) {
          var yes := IsCandidate(pids, id);
          if yes { ch := ch + [id]; }
        }
      }
      assert env.listed[..|env.listed|] == env.listed;
      assert Candidates(e, c) == Filter(e.listed, test);
    }

    /** Mark the elected members and drop later members duplicating an earlier stream set. */
    method DropDuplicates(ch: seq<int>) returns (candidate: array<bool>)
      requires Valid() && AreChoices(ch)
      requires forall k :: 0 <= k < |ch| ==> !best[ch[k]]
      modifies best
      ensures Valid() && fresh(candidate) && candidate.Length == |ch|
      ensures Kept(ch, candidate[..]) == Dedupe(env, ch)
      ensures forall k :: 0 <= k < |ch| ==> best[ch[k]] == candidate[k]
      ensures forall id :: 0 <= id < best.Length && id !in ch ==> best[id] == old(best[id])
    {
      hide SamePmt, Kept, Dedupe;
      candidate := new bool[|ch|](_ => true);
      KeptAll(ch, candidate[..]);
      assert ch[0..] == ch && candidate[0..] == candidate[..];
      assert ch[..0] == [] && candidate[..0] == [];
      NothingKept(env);
      for i := 0 to |ch|
        invariant Dedupe(env, ch) == Kept(ch[..i], candidate[..i]) + Dedupe(env, Kept(ch[i..], candidate[i..]))
        invariant forall k :: 0 <= k < i ==> best[ch[k]] == candidate[k]
        invariant forall k :: i <= k < |ch| ==> !best[ch[k]]
        invariant forall id :: 0 <= id < best.Length && id !in ch ==> best[id] == old(best[id])
      {
        ghost var flags := candidate[..];
        if !candidate[i] {
          SkipStep(ch, flags, i);
          continue;
        }
        best[ch[i]] := true;
        MarkCopies(ch, candidate, i);
        assert candidate[..][..i + 1] == flags[..i + 1];
        assert candidate[..i + 1] == candidate[..][..i + 1] && candidate[i + 1..] == candidate[..][i + 1..];
        DedupeStep(env, ch, flags, candidate[..], i);
      }
      assert ch[..|ch|] == ch && candidate[..|ch|] == candidate[..];
      assert ch[|ch|..] == [] && candidate[|ch|..] == [];
      NothingKept(env);
      assert Kept(ch, candidate[..]) + [] == Kept(ch, candidate[..]);
    }

    /** Clear the flags of the members behind i that duplicate it. */
    method MarkCopies(ch: seq<int>, candidate: array<bool>, i: nat)
      requires Valid() && AreChoices(ch) && candidate.Length == |ch| && i < |ch|
      requires candidate != best && best[ch[i]]
      requires forall k :: 0 <= k < i ==> best[ch[k]] == candidate[k]
      requires candidate[i] && forall k :: i < k < |ch| ==> !best[ch[k]]
      modifies best, candidate
      ensures Valid() && candidate[..i + 1] == old(candidate[..i + 1])
      ensures forall k :: i < k < |ch| ==> (candidate[k] <==> old(candidate[k]) && !SamePmt(env, ch[i], ch[k]))
      ensures forall k :: 0 <= k <= i ==> best[ch[k]] == candidate[k]
      ensures forall k :: i < k < |ch| ==> !best[ch[k]]
      ensures forall id :: 0 <= id < best.Length && id !in ch ==> best[id] == old(best[id])
    {
      hide SameStreams;
      for j := i + 1 to |ch|
        invariant candidate[..i + 1] == old(candidate[..i + 1])
        invariant forall k :: i < k < j ==> (candidate[k] <==> old(candidate[k]) && !SamePmt(env, ch[i], ch[k]))
        invariant forall k :: j <= k < |ch| ==> candidate[k] == old(candidate[k])
        invariant forall id :: 0 <= id < best.Length ==> best[id] == old(best[id])
      {
        if !candidate[j] { continue; }
        var same := SameStreamPids(env.pmts[ch[i]].content, env.pmts[ch[j]].content);
        if !same { continue; }
        candidate[j] := false;
        best[ch[j]] := false;
      }
      assert forall k :: 0 <= k <= i ==> candidate[k] == candidate[..i + 1][k];
      assert forall k :: 0 <= k <= i ==> old(candidate[k]) == old(candidate[..i + 1])[k];
    }

    /** Stop the started PMTs that were not elected. */
    method StopUnelected(ghost elected: seq<int>)
      requires Valid()
      requires forall k :: 0 <= k < |env.listed| && env.Live(env.listed[k]) ==>
                 (best[env.listed[k]] <==> env.listed[k] in elected)
      modifies owner, state
      ensures Valid() && View() == StopAll(old(View()), Unelected(env, old(View()), elected))
    {
      ghost var c := View();
      ghost var done := StoppedUpTo(env, c, elected, 0);
      assert StopAll(c, done) == c;
      for i := 0 to |env.listed|
        invariant Valid() && View() == StopAll(c, StoppedUpTo(env, c, elected, i))
      {
        var id := env.listed[i];
        ghost var before := StoppedUpTo(env, c, elected, i);
        StopOneMore(env, c, elected, i);
        if !env.Live(id) { continue; }
        assert id !in before && state[id] == View().state[id] == c.state[id];
        if state[id] != Running && state[id] != Starting { continue; }
        if !best[id] {
          StopAndRelease(id);
        }
      }
      assert StoppedUpTo(env, c, elected, |env.listed|) == Unelected(env, c, elected);
    }

    /** One member claims its subscribed streams, stealing from those it outranks. */
    method ClaimStreams(pids: array<int>, id: int)
      requires Valid() && env.Live(id) && IsLookup(pids[..], env.slots) && pids != owner
      modifies owner
      ensures Valid() && owner[..] == Taken(env, old(owner[..]), id)
    {
      hide Outranks, PidSubscribed;
      var streams := env.pmts[id].content.streams;
      var order := PidOrder(env, pids, env.pmts[id].pid);
      var pct := CompletenessPct(env, pids, env.pmts[id].content);
      ghost var was := owner[..];
      for k := 0 to |streams|
        invariant IsLookup(pids[..], env.slots)
        invariant forall i :: 0 <= i < owner.Length ==>
          owner[i] == if MayTake(env, was, id, i) && ListedIn(env, streams[..k], i) then id else was[i]
      {
        var s := pids[..][streams[k].pid];
        ListedOneMore(env, streams, k);
        assert s == ActiveSlot(env.slots, streams[k].pid);
        if s < 0 || !PidSubscribed(env.isCi, env.slots[s]) || owner[s] == id { continue; }
        var holder := owner[s];
        if env.Live(holder) {
          var holderOrder := PidOrder(env, pids, env.pmts[holder].pid);
          var holderPct := CompletenessPct(env, pids, env.pmts[holder].content);
          OutranksByRank(env, id, holder);
          if !ChoiceOutranks(order, pct, holderOrder, holderPct) { continue; }
        }
        assert MayTake(env, was, id, s);
        owner[s] := id;
      }
      assert streams[..|streams|] == streams;
      assert owner[..] == Taken(env, was, id);
    }

    method OwnsAv(pids: array<int>, id: int) returns (yes: bool)
      requires Valid() && env.Live(id) && IsLookup(pids[..], env.slots)
      ensures yes <==> HoldsAv(env, owner[..], id)
    {
      var streams := env.pmts[id].content.streams;
      for k := 0 to |streams|
        invariant forall j :: 0 <= j < k && streams[j].IsAv() ==>
          var s := ActiveSlot(env.slots, streams[j].pid); !(s >= 0 && owner[s] == id && Subscribed(env, s))
      {
        if !streams[k].IsAv() { continue; }
        var s := pids[..][streams[k].pid];
        if s >= 0 && owner[s] == id && PidSubscribed(env.isCi, env.slots[s]) {
          assert owner[..][s] == id && ListsAsAv(env, id, s);
          return true;
        }
      }
      return false;
    }

    /** One member's turn: claim, then start it, or stop it if it ends up owning no audio/video pid. */
    method TakeTurn(pids: array<int>, id: int)
      requires Valid() && env.Live(id) && IsLookup(pids[..], env.slots) && pids != owner
      modifies owner, state
      ensures Valid() && View() == Turn(env, old(View()), id)
    {
      hide Outranks, HoldsAv, Taken;
      ghost var c := View();
      ClaimStreams(pids, id);
      var owns := OwnsAv(pids, id);
      if !owns {
        if state[id] == Running || state[id] == Starting {
          StopAndRelease(id);
        }
        return;
      }
      if state[id] == Stopped { state[id] := Starting; }
      if state[id] == Starting { state[id] := Running; }
      assert state[..] == Turn(env, c, id).state;
    }

    /** Choose: candidates in rank order, without duplicates; `best` marks the elected ones. */
    method Choose(pids: array<int>) returns (ch: seq<int>, candidate: array<bool>)
      requires Valid() && IsLookup(pids[..], env.slots)
      modifies best
      ensures Valid() && fresh(candidate) && candidate.Length == |ch| && AreChoices(ch)
      ensures Kept(ch, candidate[..]) == Elected(env, View())
      ensures forall k :: 0 <= k < |env.listed| && env.Live(env.listed[k]) ==>
                (best[env.listed[k]] <==> env.listed[k] in Elected(env, View()))
    {
      hide Outranks, Elected;
      for i := 0 to |env.listed|
        invariant forall k :: 0 <= k < i && env.Live(env.listed[k]) ==> !best[env.listed[k]]
      {
        if env.Live(env.listed[i]) { best[env.listed[i]] := false; }
      }
      var found := CollectCandidates(pids);
      ch := StableSort(env, found);
      ChoicesOfElection(env, View());
      assert forall k :: 0 <= k < |ch| ==> ch[k] in ch;
      candidate := DropDuplicates(ch);
    }

    /** Claim and start the elected members in rank order. */
    method ClaimAndStart(pids: array<int>, ch: seq<int>, candidate: array<bool>)
      requires Valid() && IsLookup(pids[..], env.slots) && pids != owner
      requires candidate.Length == |ch| && AreChoices(ch)
      modifies owner, state
      ensures Valid() && View() == ClaimPass(env, old(View()), Kept(ch, candidate[..]))
    {
      hide Turn;
      ghost var c, flags := View(), candidate[..];
      assert ch[..0] == [] && flags[..0] == [];
      NothingKept(env);
      assert ClaimPass(env, c, []) == c;
      for i := 0 to |ch|
        invariant Valid() && candidate[..] == flags && IsLookup(pids[..], env.slots)
        invariant View() == ClaimPass(env, c, Kept(ch[..i], flags[..i]))
      {
        assert ch[..i + 1][..i] == ch[..i] && flags[..i + 1][..i] == flags[..i];
        if !candidate[i] { continue; }
        PassSnoc(env, c, Kept(ch[..i], flags[..i]), ch[i]);
        TakeTurn(pids, ch[i]);
      }
      assert ch[..|ch|] == ch && flags[..|ch|] == flags;
    }

    /** `pmt_pid_updated_pids`: elect, stop what lost, claim and start what won. */
    method PmtPidUpdatedPids()
      requires Valid()
      modifies owner, state, best
      ensures Valid() && View() == Elect(env, old(View()))
      ensures forall k :: 0 <= k < |env.listed| && env.Live(env.listed[k]) ==>
                (best[env.listed[k]] <==> env.listed[k] in Elected(env, old(View())))
    {
      hide Elected, StopAll, Unelected, ClaimPass, Kept;
      ghost var c := View();
      var pids := BuildLookup(env.slots);
      var ch, candidate := Choose(pids);
      assert View() == c;
      StopUnelected(Elected(env, c));
      ClaimAndStart(pids, ch, candidate);
    }
  }

  lemma PassSnoc(env: Env, c: Claims, members: seq<int>, id: int)
    requires c.Fits(env)
    ensures ClaimPass(env, c, members + [id]) == Turn(env, ClaimPass(env, c, members), id)
  {
  }

  /** The sorted candidates are distinct live PMTs of the list. */
  lemma ChoicesOfElection(env: Env, c: Claims)
    requires c.Fits(env) && env.Valid()
    ensures var ch := StableSort(env, Candidates(env, c));
            && Distinct(ch) && AllLive(env, ch) && (forall x :: x in ch ==> x in env.listed)
            && Elected(env, c) == Dedupe(env, ch)
  {
    hide Outranks, IsStartCandidate, SamePmt;
    var candidates := Candidates(env, c);
    forall x | x in candidates ensures env.Live(x) { CandidateIsLive(env, c, x); }
    FilterOrder(env, env.listed, id => IsStartCandidate(env, c, id));
    SortIsSortedPermutation(env, candidates);
    DistinctByMultiset(candidates, StableSort(env, candidates));
  }

  ghost function StoppedUpTo(env: Env, c: Claims, elected: seq<int>, n: nat): iset<int>
    requires c.Fits(env) && n <= |env.listed|
  {
    iset id | id in env.listed[..n] && env.Live(id) && IsStarted(c.state[id]) && id !in elected
  }

  lemma StopOneMore(env: Env, c: Claims, elected: seq<int>, n: nat)
    requires c.Fits(env) && env.Valid() && n < |env.listed|
    ensures var id, s, t := env.listed[n], StoppedUpTo(env, c, elected, n), StoppedUpTo(env, c, elected, n + 1);
            && id !in s
            && if env.Live(id) && IsStarted(c.state[id]) && id !in elected
               then StopAll(StopAll(c, s), iset{id}) == StopAll(c, t)
               else s == t
  {
  }

  /** The holder test of the claim pass. */
  ghost predicate MayTake(env: Env, owner: seq<int>, id: int, i: int)
    requires |owner| == |env.slots|
  {
    Subscribed(env, i) && owner[i] != id && (env.Live(owner[i]) ==> Outranks(env, id, owner[i]))
  }

  ghost predicate ListedIn(env: Env, streams: seq<StreamPid>, i: int) {
    exists k :: 0 <= k < |streams| && ActiveSlot(env.slots, streams[k].pid) == i
  }

  lemma ListedOneMore(env: Env, streams: seq<StreamPid>, k: nat)
    requires k < |streams|
    ensures forall i :: ListedIn(env, streams[..k + 1], i) <==>
              ListedIn(env, streams[..k], i) || ActiveSlot(env.slots, streams[k].pid) == i
  {
  }

  lemma OutranksByRank(env: Env, a: int, b: int)
    requires env.Live(a) && env.Live(b)
    ensures Outranks(env, a, b) <==>
              ChoiceOutranks(OrderOf(env, env.pmts[a].pid), Completeness(env, env.pmts[a].content),
                             OrderOf(env, env.pmts[b].pid), Completeness(env, env.pmts[b].content))
  {
  }

  lemma NothingKept(env: Env)
    ensures Kept([], []) == [] && Dedupe(env, []) == []
  {
  }

  /** A member already dropped is passed over. */
  lemma SkipStep(ch: seq<int>, f: seq<bool>, i: nat)
    requires |f| == |ch| && i < |ch| && !f[i]
    ensures Kept(ch[i..], f[i..]) == Kept(ch[i + 1..], f[i + 1..]) && Kept(ch[..i + 1], f[..i + 1]) == Kept(ch[..i], f[..i])
  {
    KeptCons(ch[i..], f[i..]);
    assert ch[i..][1..] == ch[i + 1..] && f[i..][1..] == f[i + 1..];
    assert ch[..i + 1][..i] == ch[..i] && f[..i + 1][..i] == f[..i];
  }

  /** One outer step of duplicate removal, on the flags. */
  lemma DedupeStep(env: Env, ch: seq<int>, f: seq<bool>, g: seq<bool>, i: nat)
    requires |f| == |g| == |ch| && i < |ch| && f[i] && g[..i + 1] == f[..i + 1]
    requires forall k :: i < k < |ch| ==> (g[k] <==> f[k] && !SamePmt(env, ch[i], ch[k]))
    ensures Kept(ch[..i], f[..i]) + Dedupe(env, Kept(ch[i..], f[i..]))
            == Kept(ch[..i + 1], g[..i + 1]) + Dedupe(env, Kept(ch[i + 1..], g[i + 1..]))
  {
    hide SamePmt;
    var rest := Kept(ch[i + 1..], f[i + 1..]);
    KeptFilter(ch[i + 1..], f[i + 1..], g[i + 1..], y => !SamePmt(env, ch[i], y));
    KeptCons(ch[i..], f[i..]);
    assert ch[i..][1..] == ch[i + 1..] && f[i..][1..] == f[i + 1..];
    assert ([ch[i]] + rest)[1..] == rest;
    assert Kept(ch[i + 1..], g[i + 1..]) == WithoutCopies(env, ch[i], rest);
    assert ch[..i + 1][..i] == ch[..i] && g[..i + 1][..i] == f[..i];
    assert g[i] == g[..i + 1][i] == f[..i + 1][i];
  }
}
