/** Who owns a subscribed audio/video pid after an election, followed slot by slot. */
module ElectionOwners {
  import opened ElectionSpec
  import opened ElectionOrder
  import opened ElectionOutcome

  /** PMT k, which lists the pid, leaves its turn as the owner of a slot that o owned before. */
  predicate Wins(env: Env, o: int, k: int) { o == k || (env.Live(o) ==> Outranks(env, k, o)) }

  /** What a member's turn does to the owner of one subscribed slot: listers take it from whoever they outrank, and
      a member stopped for owning no audio/video pid gives it up. */
  ghost function Step(env: Env, i: nat, stopped: iset<int>, o: int, k: int): int {
    var t := if Lists(env, k, i) && Wins(env, o, k) then k else o;
    if t == k && k in stopped then -1 else t
  }

  ghost function Trace(env: Env, i: nat, stopped: iset<int>, o: int, members: seq<int>): int
    decreases |members|
  {
    if members == [] then o
    else var n := |members| - 1; Step(env, i, stopped, Trace(env, i, stopped, o, members[..n]), members[n])
  }

  lemma {:induction false} TraceConcat(env: Env, i: nat, stopped: iset<int>, o: int, a: seq<int>, b: seq<int>)
    ensures Trace(env, i, stopped, o, a + b) == Trace(env, i, stopped, Trace(env, i, stopped, o, a), b)
    decreases |b|
  {
    hide Step;
    if b == [] {
      assert a + b == a;
    } else {
      var n := |b| - 1;
      TraceConcat(env, i, stopped, o, a, b[..n]);
      assert (a + b)[..|a| + n] == a + b[..n];
    }
  }

  ghost predicate ListersSeeAv(env: Env, i: nat, members: seq<int>) {
    forall k :: k in members && Lists(env, k, i) ==> ListsAsAv(env, k, i)
  }

  /** The claim pass seen from one slot; a stopped member that lists the pid as audio/video may count as stopped or not,
      for it does not own the slot. */
  lemma {:induction false} PassIsTrace(env: Env, c: Claims, elected: seq<int>, i: nat, stopped: iset<int>)
    requires c.Fits(env) && Ranked(env, elected) && Subscribed(env, i)
    requires forall k :: k in elected ==>
               var out := IsStarted(c.state[k]) && !HoldsAv(env, ClaimPass(env, c, elected).owner, k);
               (k in stopped ==> out) && (out ==> k in stopped || ListsAsAv(env, k, i))
    ensures ClaimPass(env, c, elected).owner[i] == Trace(env, i, stopped, c.owner[i], elected)
    decreases |elected|
  {
    hide Outranks, HoldsAv, Turn, Lists, ListsAsAv;
    if elected != [] {
      var n := |elected| - 1;
      var k, before := elected[n], ClaimPass(env, c, elected[..n]);
      RankedPrefix(env, elected, n);
      assert k in elected && k !in elected[..n];
      forall id | id in elected[..n]
        ensures HoldsAv(env, Turn(env, before, k).owner, id) <==> HoldsAv(env, before.owner, id)
      {
        var m :| 0 <= m < n && elected[m] == id;
        TurnKeepsHolding(env, before, k, id);
      }
      PassIsTrace(env, c, elected[..n], i, stopped);
      PassLeavesOthers(env, c, elected[..n]);
      TurnIsStep(env, before, k, i, stopped);
    }
  }

  /** The pass moves only members' states. */
  lemma {:induction false} PassLeavesOthers(env: Env, c: Claims, elected: seq<int>)
    requires c.Fits(env) && AllLive(env, elected)
    ensures forall p :: 0 <= p < |c.state| && p !in elected ==> ClaimPass(env, c, elected).state[p] == c.state[p]
    decreases |elected|
  {
    hide Outranks, HoldsAv, Turn;
    if elected != [] {
      var n := |elected| - 1;
      assert elected[n] in elected;
      PassLeavesOthers(env, c, elected[..n]);
      TurnState(env, ClaimPass(env, c, elected[..n]), elected[n]);
    }
  }

  lemma TurnIsStep(env: Env, c: Claims, k: int, i: nat, stopped: iset<int>)
    requires c.Fits(env) && env.Live(k) && i < |env.slots| && Subscribed(env, i)
    requires var out := IsStarted(c.state[k]) && !HoldsAv(env, Turn(env, c, k).owner, k);
             (k in stopped ==> out) && (out ==> k in stopped || ListsAsAv(env, k, i))
    ensures Turn(env, c, k).owner[i] == Step(env, i, stopped, c.owner[i], k)
  {
    hide Outranks, Lists, ListsAsAv;
    AvIsListed(env, k, i);
    AvOfReleased(env, c, k);
  }

  lemma AvIsListed(env: Env, k: int, i: int)
    ensures ListsAsAv(env, k, i) ==> Lists(env, k, i)
  {
  }

  /** A member released on its turn held nothing before the release either. */
  lemma AvOfReleased(env: Env, c: Claims, k: int)
    requires c.Fits(env) && env.Live(k)
    ensures HoldsAv(env, Turn(env, c, k).owner, k) <==> HoldsAv(env, Taken(env, c.owner, k), k)
  {
  }

  // ----- who is stopped in the pass, known before it -----

  /** PMT k, at its turn behind the given members, gets none of its subscribed audio/video slots. */
  ghost predicate FindsNothing(env: Env, c: Claims, stopped: iset<int>, members: seq<int>, k: int)
    requires c.Fits(env)
  {
    forall i | 0 <= i < |env.slots| && Subscribed(env, i) && ListsAsAv(env, k, i) ::
      !Wins(env, Trace(env, i, stopped, c.owner[i], members), k)
  }

  /** The members the pass stops, from the claims and states it starts with, by rank: a member's fate depends on those
      before it only. */
  ghost function Expelled(env: Env, c: Claims, members: seq<int>): iset<int>
    requires c.Fits(env)
    decreases |members|
  {
    if members == [] then iset{}
    else
      var n := |members| - 1;
      var k, before := members[n], Expelled(env, c, members[..n]);
      if 0 <= k < |c.state| && IsStarted(c.state[k]) && FindsNothing(env, c, before, members[..n], k) then before + iset{k}
      else before
  }

  /** The members found beforehand are those that the pass stops. */
  lemma {:induction false} ExpelledIs(env: Env, c: Claims, elected: seq<int>)
    requires c.Fits(env) && Ranked(env, elected)
    ensures forall k :: k in Expelled(env, c, elected) <==>
              k in elected && IsStarted(c.state[k]) && !HoldsAv(env, ClaimPass(env, c, elected).owner, k)
    decreases |elected|
  {
    hide Outranks, HoldsAv, Turn, Lists, ListsAsAv, FindsNothing;
    if elected != [] {
      var n := |elected| - 1;
      var k, before := elected[n], ClaimPass(env, c, elected[..n]);
      RankedPrefix(env, elected, n);
      assert k in elected && k !in elected[..n];
      ExpelledIs(env, c, elected[..n]);
      FoundNothing(env, c, elected[..n], k);
      forall id | id in elected && id != k
        ensures HoldsAv(env, Turn(env, before, k).owner, id) <==> HoldsAv(env, before.owner, id)
      {
        var m :| 0 <= m < n && elected[m] == id;
        TurnKeepsHolding(env, before, k, id);
      }
    }
  }

  lemma FoundNothing(env: Env, c: Claims, members: seq<int>, k: int)
    requires c.Fits(env) && Ranked(env, members) && env.Live(k)
    requires forall id :: id in Expelled(env, c, members) <==>
               id in members && IsStarted(c.state[id]) && !HoldsAv(env, ClaimPass(env, c, members).owner, id)
    ensures FindsNothing(env, c, Expelled(env, c, members), members, k)
            <==> !HoldsAv(env, Turn(env, ClaimPass(env, c, members), k).owner, k)
  {
    hide Outranks, Turn, Lists, ListsAsAv, Expelled, ClaimPass, Trace;
    var before, stopped := ClaimPass(env, c, members), Expelled(env, c, members);
    forall i | 0 <= i < |env.slots| && Subscribed(env, i)
      ensures before.owner[i] == Trace(env, i, stopped, c.owner[i], members)
      ensures ListsAsAv(env, k, i) ==> (Taken(env, before.owner, k)[i] == k <==> Wins(env, before.owner[i], k))
    {
      PassIsTrace(env, c, members, i, stopped);
      AvIsListed(env, k, i);
    }
    AvOfReleased(env, before, k);
  }

  // ----- traces without a release -----

  /** A trace in which the initial owner is never released: listers win it in rank order. */
  lemma {:induction false} QuietTrace(env: Env, i: nat, stopped: iset<int>, o: int, members: seq<int>)
    requires Ranked(env, members)
    requires forall k :: k in members && k in stopped ==> !Lists(env, k, i) && k != o
    ensures var e := Trace(env, i, stopped, o, members);
            && (e == o || (e in members && Lists(env, e, i) && (env.Live(o) ==> Outranks(env, e, o))))
            && (forall j :: j in members && Lists(env, j, i) ==> env.Live(e) && !Outranks(env, j, e))
    decreases |members|
  {
    hide Outranks, Lists;
    if members != [] {
      var n := |members| - 1;
      var k := members[n];
      RankedPrefix(env, members, n);
      assert k in members && k !in members[..n];
      QuietTrace(env, i, stopped, o, members[..n]);
      var e1, e := Trace(env, i, stopped, o, members[..n]), Trace(env, i, stopped, o, members);
      OutranksIsStrictWeakOrder(env, k, e1, o);
      OutranksIsStrictWeakOrder(env, k, k, k);
      forall j | j in members && Lists(env, j, i) ensures env.Live(e) && !Outranks(env, j, e) {
        if j != k {
          assert j in members[..n];
          OutranksIsStrictWeakOrder(env, j, k, e1);
        }
      }
    }
  }

  // ----- the owner after an election -----

  /** The slot has a live owner that no elected PMT listing its pid outranks. */
  ghost predicate WellOwned(env: Env, elected: seq<int>, owner: int, i: nat) {
    env.Live(owner) && forall j :: j in elected && Lists(env, j, i) ==> !Outranks(env, j, owner)
  }

  /** The slot's owner before the election is the elected PMT at rank p, which no longer lists the pid (its
      update dropped it); some lister comes before it but cannot take the pid on a tie, and whoever comes
      after it ranks strictly lower. */
  ghost predicate StaleTie(env: Env, c: Claims, i: nat, p: nat)
    requires c.Fits(env) && i < |env.slots|
  {
    var elected := Elected(env, c);
    p < |elected| && elected[p] == c.owner[i] && !Lists(env, elected[p], i)
    && (exists j :: j in elected[..p] && Lists(env, j, i))
    && (forall j :: j in elected[..p] && Lists(env, j, i) ==> !Outranks(env, j, elected[p]))
    && (forall j :: j in elected[p + 1..] && Lists(env, j, i) ==> Outranks(env, elected[p], j))
  }

  /** Such a holder will find no audio/video pid on its turn: it is stopped and its stale claim goes. */
  ghost predicate LostToStaleHolder(env: Env, c: Claims, i: nat)
    requires c.Fits(env) && i < |env.slots|
  {
    exists p: nat :: StaleTie(env, c, i, p) && Elected(env, c)[p] in Expelled(env, AfterStops(env, c), Elected(env, c))
  }

  /** Trace of a slot whose initial owner, a member that does not list it, is released at position p. */
  lemma ReleasedTrace(env: Env, i: nat, stopped: iset<int>, members: seq<int>, p: nat)
    requires Ranked(env, members) && p < |members| && !Lists(env, members[p], i) && members[p] in stopped
    requires forall k :: k in members && k in stopped ==> !Lists(env, k, i)
    requires exists j :: j in members && Lists(env, j, i)
    ensures WellOwned(env, members, Trace(env, i, stopped, members[p], members), i) <==>
              !((exists j :: j in members[..p] && Lists(env, j, i))
                && (forall j :: j in members[..p] && Lists(env, j, i) ==> !Outranks(env, j, members[p]))
                && (forall j :: j in members[p + 1..] && Lists(env, j, i) ==> Outranks(env, members[p], j)))
  {
    hide Outranks, Lists, Trace;
    var a, k, b := members[..p], members[p], members[p + 1..];
    assert members == a + [k] + b;
    SplitRanked(env, members, p);
    TraceConcat(env, i, stopped, k, a + [k], b);
    TraceConcat(env, i, stopped, k, a, [k]);
    QuietTrace(env, i, stopped, k, a);
    var e1 := Trace(env, i, stopped, k, a);
    assert Trace(env, i, stopped, e1, [k]) == Step(env, i, stopped, e1, k) by { OneStep(env, i, stopped, e1, k); }
    var e2 := Step(env, i, stopped, e1, k);
    QuietTrace(env, i, stopped, e2, b);
    var e := Trace(env, i, stopped, e2, b);
    assert forall j :: j in members <==> j in a || j == k || j in b;
    if e1 != k {
      assert e1 in a && e == e1;
    } else {
      assert e2 == -1;
      ReleasedOwner(env, i, members, p, e);
    }
  }

  lemma OneStep(env: Env, i: nat, stopped: iset<int>, o: int, k: int)
    ensures Trace(env, i, stopped, o, [k]) == Step(env, i, stopped, o, k)
  {
  }

  lemma SplitRanked(env: Env, members: seq<int>, p: nat)
    requires Ranked(env, members) && p < |members|
    ensures Ranked(env, members[..p]) && Ranked(env, members[p + 1..])
    ensures members[p] !in members[..p] && members[p] !in members[p + 1..]
    ensures forall x, y :: x in members[..p] && y in members[p + 1..] ==> x != y && !Outranks(env, y, x)
    ensures forall x :: x in members[..p] ==> !Outranks(env, members[p], x)
    ensures forall y :: y in members[p + 1..] ==> !Outranks(env, y, members[p])
  {
  }

  /** The owner found after a release: nobody, or the first later lister. */
  lemma ReleasedOwner(env: Env, i: nat, members: seq<int>, p: nat, e: int)
    requires Ranked(env, members) && p < |members| && !Lists(env, members[p], i)
    requires exists j :: j in members && Lists(env, j, i)
    requires forall j :: j in members[..p] && Lists(env, j, i) ==> !Outranks(env, j, members[p])
    requires e == -1 || (e in members[p + 1..] && Lists(env, e, i))
    requires forall j :: j in members[p + 1..] && Lists(env, j, i) ==> env.Live(e) && !Outranks(env, j, e)
    ensures WellOwned(env, members, e, i) <==>
              !((exists j :: j in members[..p] && Lists(env, j, i))
                && (forall j :: j in members[p + 1..] && Lists(env, j, i) ==> Outranks(env, members[p], j)))
  {
    hide Outranks, Lists;
    var a, k, b := members[..p], members[p], members[p + 1..];
    SplitRanked(env, members, p);
    assert members == a + [k] + b;
    assert forall j :: j in members <==> j in a || j == k || j in b;
    forall j | j in a && Lists(env, j, i) && e != -1
      ensures Outranks(env, j, e) <==> Outranks(env, k, e)
    {
      assert env.Live(j) && env.Live(k) && env.Live(e);
      OutranksIsStrictWeakOrder(env, j, k, e);
      OutranksIsStrictWeakOrder(env, k, j, e);
    }
    forall l | l in b && Lists(env, l, i) && !Outranks(env, k, l) ensures !Outranks(env, k, e) {
      assert env.Live(l);
      OutranksIsStrictWeakOrder(env, k, l, e);
    }
  }

  /** A subscribed pid that some elected PMT lists, and every elected PMT listing it classes as audio/video,
      ends with an owner no elected lister outranks, unless it is held by a stale holder that the election
      will stop, as the claims before it tell; and exactly then it does not. */
  lemma AvPidIsWellOwned(env: Env, c: Claims, i: nat)
    requires c.Fits(env) && env.Valid() && Settled(env, c) && Subscribed(env, i)
    requires ListersSeeAv(env, i, Elected(env, c))
    requires exists j :: j in Elected(env, c) && Lists(env, j, i)
    ensures WellOwned(env, Elected(env, c), Elect(env, c).owner[i], i) <==> !LostToStaleHolder(env, c, i)
  {
    hide Outranks, Lists, ListsAsAv, HoldsAv, ClaimPass, Elected, Expelled, Trace, Step;
    var elected, c0, r := Elected(env, c), AfterStops(env, c), Elect(env, c);
    StopsSpareElected(env, c);
    ExpelledIs(env, c0, elected);
    var stopped := iset k | k in Expelled(env, c0, elected) && !Lists(env, k, i);
    PassIsTrace(env, c0, elected, i, stopped);
    var o := c0.owner[i];
    if o in stopped {
      var p: nat :| p < |elected| && elected[p] == o;
      assert c.owner[i] == o;
      ReleasedTrace(env, i, stopped, elected, p);
      assert forall q :: 0 <= q < |elected| && elected[q] == o ==> q == p;
      assert StaleTie(env, c, i, p) <==> LostToStaleHolder(env, c, i);
    } else {
      QuietTrace(env, i, stopped, o, elected);
    }
  }

  /** Without a stale holder that ties with an earlier lister the pid is well owned, whoever is stopped. */
  lemma WithoutTieNothingIsLost(env: Env, c: Claims, i: nat)
    requires c.Fits(env) && env.Valid() && Settled(env, c) && Subscribed(env, i)
    requires ListersSeeAv(env, i, Elected(env, c))
    requires exists j :: j in Elected(env, c) && Lists(env, j, i)
    requires forall p: nat :: !StaleTie(env, c, i, p)
    ensures WellOwned(env, Elected(env, c), Elect(env, c).owner[i], i)
  {
    hide Outranks, Lists, ListsAsAv, Elect, Elected, StaleTie, Expelled;
    AvPidIsWellOwned(env, c, i);
  }

  /** In particular a claim held, before the election, by a PMT that lists the pid is never lost. */
  lemma ListedClaimsAreNeverLost(env: Env, c: Claims, i: nat)
    requires c.Fits(env) && env.Valid() && Settled(env, c) && Subscribed(env, i)
    requires ListersSeeAv(env, i, Elected(env, c))
    requires exists j :: j in Elected(env, c) && Lists(env, j, i)
    requires env.Live(c.owner[i]) ==> Lists(env, c.owner[i], i)
    ensures WellOwned(env, Elected(env, c), Elect(env, c).owner[i], i)
  {
    hide Outranks, Lists, ListsAsAv, Elect, Elected;
    ElectedIsSorted(env, c);
    WithoutTieNothingIsLost(env, c, i);
  }
}
