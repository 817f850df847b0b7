/** What an election leaves behind: who runs, who owns what, and that repeating it changes nothing. */
module ElectionOutcome {
  import opened ElectionSpec
  import opened ElectionOrder

  /** PMTs on the active list are never STOPPING or CACHED between two operations. */
  ghost predicate Settled(env: Env, c: Claims)
    requires c.Fits(env)
  {
    forall id :: id in env.listed && 0 <= id < |env.pmts| && env.pmts[id].enabled ==> c.state[id] in {Stopped, Starting, Running}
  }

  // ----- one turn -----

  /** A turn neither takes from nor gives to a PMT it does not outrank. */
  lemma TurnSpares(env: Env, c: Claims, k: int, e: int, i: nat)
    requires c.Fits(env) && env.Live(k) && env.Live(e) && e != k && !Outranks(env, k, e) && i < |c.owner|
    ensures Turn(env, c, k).owner[i] == e <==> c.owner[i] == e
  {
  }

  lemma TurnKeepsHolding(env: Env, c: Claims, k: int, e: int)
    requires c.Fits(env) && env.Live(k) && env.Live(e) && e != k && !Outranks(env, k, e)
    ensures HoldsAv(env, Turn(env, c, k).owner, e) <==> HoldsAv(env, c.owner, e)
  {
  }

  lemma TurnState(env: Env, c: Claims, k: int)
    requires c.Fits(env) && env.Live(k)
    ensures var r := Turn(env, c, k);
            && (forall p :: 0 <= p < |c.state| && p != k ==> r.state[p] == c.state[p])
            && (c.state[k] == Stopped || IsStarted(c.state[k]) ==>
                  (if HoldsAv(env, r.owner, k) then r.state[k] == Running else r.state[k] == Stopped))
            && (HoldsAv(env, r.owner, k) ==> r.owner == Taken(env, c.owner, k))
            && (!HoldsAv(env, r.owner, k) && IsStarted(c.state[k]) ==> forall i :: 0 <= i < |r.owner| ==> r.owner[i] != k)
  {
  }

  // ----- the claim pass -----

  /** The elected members as the claim pass needs them. */
  ghost predicate Ranked(env: Env, elected: seq<int>) {
    SortedByRank(env, elected) && Distinct(elected) && AllLive(env, elected)
  }

  lemma RankedPrefix(env: Env, elected: seq<int>, n: nat)
    requires Ranked(env, elected) && n <= |elected|
    ensures Ranked(env, elected[..n])
  {
  }

  /** Members run exactly when they hold an audio/video pid; nobody else's state moves. */
  lemma {:induction false} PassState(env: Env, c: Claims, elected: seq<int>)
    requires c.Fits(env) && Ranked(env, elected)
    requires forall id :: id in elected ==> c.state[id] == Stopped || IsStarted(c.state[id])
    ensures var r := ClaimPass(env, c, elected);
            && (forall p :: 0 <= p < |c.state| && p !in elected ==> r.state[p] == c.state[p])
            && (forall id :: id in elected ==>
                  if HoldsAv(env, r.owner, id) then r.state[id] == Running else r.state[id] == Stopped)
    decreases |elected|
  {
    hide Outranks, HoldsAv, Turn;
    if elected != [] {
      var n := |elected| - 1;
      var k, before := elected[n], ClaimPass(env, c, elected[..n]);
      RankedPrefix(env, elected, n);
      PassState(env, c, elected[..n]);
      assert k !in elected[..n];
      TurnState(env, before, k);
      forall id | id in elected && id != k
        ensures HoldsAv(env, Turn(env, before, k).owner, id) <==> HoldsAv(env, before.owner, id)
      {
        var m :| 0 <= m < |elected| && elected[m] == id;
        assert id in elected[..n];
        TurnKeepsHolding(env, before, k, id);
      }
    }
  }

  lemma StopsSpareElected(env: Env, c: Claims)
    requires c.Fits(env) && env.Valid() && Settled(env, c)
    ensures var elected, c0 := Elected(env, c), AfterStops(env, c);
            && Ranked(env, elected)
            && (forall id :: id in elected ==> id in env.listed && c0.state[id] == c.state[id])
            && (forall id :: id in env.listed && env.Live(id) && id !in elected ==> c0.state[id] == Stopped)
            && (forall i :: 0 <= i < |c.owner| ==>
                  c0.owner[i] == if c.owner[i] in Unelected(env, c, elected) then -1 else c.owner[i])
  {
    hide Outranks, Elected, IsStartCandidate;
    ElectedIsSorted(env, c);
  }

  /** After an election a listed PMT is RUNNING exactly when it is elected and owns a subscribed
      audio/video pid of its own; every other listed PMT is STOPPED. */
  lemma RunningIffElectedAndHolding(env: Env, c: Claims)
    requires c.Fits(env) && env.Valid() && Settled(env, c)
    ensures var r := Elect(env, c);
            forall id :: id in env.listed && 0 <= id < |env.pmts| && env.pmts[id].enabled ==>
              if id in Elected(env, c) && HoldsAv(env, r.owner, id) then r.state[id] == Running
              else r.state[id] == Stopped
  {
    hide Outranks, HoldsAv, ClaimPass, Elected;
    StopsSpareElected(env, c);
    PassState(env, AfterStops(env, c), Elected(env, c));
  }

  // ----- the fixpoint -----

  /** No member of the list can take anything. */
  ghost predicate NothingToTake(env: Env, owner: seq<int>, elected: seq<int>)
    requires |owner| == |env.slots|
  {
    forall m, i :: 0 <= m < |elected| && 0 <= i < |owner| ==> !Takes(env, owner, elected[m], i)
  }

  /** Once k has taken what it can, nobody who had nothing to take and ranks no lower finds anything. */
  lemma TakingLeavesNothing(env: Env, owner: seq<int>, k: int, e: int, i: nat)
    requires |owner| == |env.slots| && i < |owner| && env.Live(k) && env.Live(e)
    requires e == k || (!Outranks(env, k, e) && !Takes(env, owner, e, i))
    ensures !Takes(env, Taken(env, owner, k), e, i)
  {
  }

  /** When every member ends up holding an audio/video pid, the pass stops nobody and leaves nothing to take. */
  lemma {:induction false} FullPassLeavesNothing(env: Env, c: Claims, elected: seq<int>)
    requires c.Fits(env) && Ranked(env, elected)
    requires forall id :: id in elected ==> c.state[id] == Stopped || IsStarted(c.state[id])
    requires forall id :: id in elected ==> HoldsAv(env, ClaimPass(env, c, elected).owner, id)
    ensures NothingToTake(env, ClaimPass(env, c, elected).owner, elected)
    decreases |elected|
  {
    hide Outranks, HoldsAv, Turn, Takes, Taken;
    if elected != [] {
      var n := |elected| - 1;
      var k, before := elected[n], ClaimPass(env, c, elected[..n]);
      var after := Turn(env, before, k);
      RankedPrefix(env, elected, n);
      assert k !in elected[..n];
      forall id | id in elected[..n] ensures HoldsAv(env, before.owner, id) {
        var m :| 0 <= m < n && elected[m] == id;
        assert id in elected && k in elected;
        TurnKeepsHolding(env, before, k, id);
      }
      FullPassLeavesNothing(env, c, elected[..n]);
      PassState(env, c, elected[..n]);
      TurnState(env, before, k);
      forall m, i | 0 <= m < |elected| && 0 <= i < |after.owner| ensures !Takes(env, after.owner, elected[m], i) {
        assert elected[m] in elected && k in elected;
        assert m < n ==> elected[m] == elected[..n][m] && !Takes(env, before.owner, elected[..n][m], i);
        TakingLeavesNothing(env, before.owner, k, elected[m], i);
      }
    }
  }

  /** With nothing to take and everybody RUNNING and holding, a claim pass is the identity. */
  lemma {:induction false} IdlePass(env: Env, c: Claims, elected: seq<int>)
    requires c.Fits(env) && AllLive(env, elected) && NothingToTake(env, c.owner, elected)
    requires forall id :: id in elected ==> c.state[id] == Running && HoldsAv(env, c.owner, id)
    ensures ClaimPass(env, c, elected) == c
    decreases |elected|
  {
    hide Outranks, HoldsAv, Takes;
    if elected != [] {
      var n := |elected| - 1;
      assert forall m :: 0 <= m < n ==> elected[..n][m] == elected[m];
      IdlePass(env, c, elected[..n]);
      var k := elected[n];
      assert k in elected && k == elected[n];
      assert Taken(env, c.owner, k) == c.owner;
      assert c.state[k := Running] == c.state;
    }
  }

  /** The second election sees the same candidates, minus duplicates the first one stopped. */
  lemma SecondElectedIsTheSame(env: Env, c: Claims)
    requires c.Fits(env) && env.Valid() && Settled(env, c)
    requires forall id :: id in Elected(env, c) ==> HoldsAv(env, Elect(env, c).owner, id)
    ensures Elected(env, Elect(env, c)) == Elected(env, c)
  {
    hide Outranks, HoldsAv, ClaimPass, AfterStops, SamePmt;
    var r := Elect(env, c);
    RunningIffElectedAndHolding(env, c);
    StopsSpareElected(env, c);
    ElectedIsSorted(env, c);
    var p, q := (id: int) => IsStartCandidate(env, c, id), (id: int) => IsStartCandidate(env, r, id);
    forall x | x in env.listed && q(x) ensures p(x) {
      CandidateIsLive(env, r, x);
      if r.state[x] == Running { assert x in Elected(env, c); }
    }
    FilterTwice(env.listed, p, q);
    assert AllLive(env, Candidates(env, c)) by {
      forall x | x in Candidates(env, c) ensures env.Live(x) { CandidateIsLive(env, c, x); }
    }
    SortCommutesWithFilter(env, Candidates(env, c), q);
    DedupeIgnoresDropped(env, StableSort(env, Candidates(env, c)), q);
  }

  /** If an election ends with every elected PMT owning a subscribed audio/video pid, electing again
      with unchanged subscriptions elects the same list and changes no claim and no state. */
  lemma ElectionFixpoint(env: Env, c: Claims)
    requires c.Fits(env) && env.Valid() && Settled(env, c)
    requires forall id :: id in Elected(env, c) ==> HoldsAv(env, Elect(env, c).owner, id)
    ensures var r := Elect(env, c);
            Elected(env, r) == Elected(env, c) && Elect(env, r) == r
  {
    hide Outranks, HoldsAv, ClaimPass, Elected;
    var r, elected := Elect(env, c), Elected(env, c);
    SecondElectedIsTheSame(env, c);
    RunningIffElectedAndHolding(env, c);
    StopsSpareElected(env, c);
    FullPassLeavesNothing(env, AfterStops(env, c), elected);
    assert forall id :: id !in Unelected(env, r, elected);
    assert AfterStops(env, r) == r;
    IdlePass(env, r, elected);
  }
}
