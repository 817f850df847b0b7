/** Ranks, the stable sort and duplicate removal of the election: what the elected list is. */
module ElectionOrder {
  import opened ElectionSpec

  /** `choice_outranks` is a strict weak order, so a full tie never displaces a holder. */
  lemma OutranksIsStrictWeakOrder(env: Env, a: int, b: int, c: int)
    ensures !Outranks(env, a, a)
    ensures Outranks(env, a, b) ==> !Outranks(env, b, a)
    ensures Outranks(env, a, b) && Outranks(env, b, c) ==> Outranks(env, a, c)
    ensures env.Live(b) && Outranks(env, a, c) ==> Outranks(env, a, b) || Outranks(env, b, c)
  {
  }

  ghost predicate SortedByRank(env: Env, s: seq<int>) {
    forall i, j :: 0 <= i < j < |s| ==> !Outranks(env, s[j], s[i])
  }

  ghost predicate AllLive(env: Env, s: seq<int>) { forall x :: x in s ==> env.Live(x) }

  ghost predicate Distinct(s: seq<int>) { forall i, j :: 0 <= i < j < |s| ==> s[i] != s[j] }

  // ----- filtering -----

  lemma {:induction false} FilterCons(s: seq<int>, keep: int -> bool)
    requires s != []
    ensures Filter(s, keep) == if keep(s[0]) then [s[0]] + Filter(s[1..], keep) else Filter(s[1..], keep)
  {
    var n := |s| - 1;
    if n > 0 {
      FilterCons(s[..n], keep);
      assert s[..n][1..] == s[1..][..n - 1];
    }
  }

  lemma {:induction false} FilterOrder(env: Env, s: seq<int>, keep: int -> bool)
    ensures SortedByRank(env, s) ==> SortedByRank(env, Filter(s, keep))
    ensures Distinct(s) ==> Distinct(Filter(s, keep))
  {
    hide Outranks;
    if s != [] {
      var n := |s| - 1;
      FilterOrder(env, s[..n], keep);
      var r := Filter(s[..n], keep);
      forall i | 0 <= i < |r| ensures exists k :: 0 <= k < n && s[k] == r[i] {
        assert r[i] in s[..n];
      }
    }
  }

  lemma {:induction false} FiltersCommute(s: seq<int>, p: int -> bool, q: int -> bool)
    ensures Filter(Filter(s, p), q) == Filter(Filter(s, q), p)
  {
    if s != [] {
      var n := |s| - 1;
      FiltersCommute(s[..n], p, q);
      FilterSnoc(Filter(s[..n], p), s[n], q);
      FilterSnoc(Filter(s[..n], q), s[n], p);
      assert Filter(s, p) == if p(s[n]) then Filter(s[..n], p) + [s[n]] else Filter(s[..n], p);
      assert Filter(s, q) == if q(s[n]) then Filter(s[..n], q) + [s[n]] else Filter(s[..n], q);
    }
  }

  lemma FilterSnoc(s: seq<int>, x: int, keep: int -> bool)
    ensures Filter(s + [x], keep) == if keep(x) then Filter(s, keep) + [x] else Filter(s, keep)
  {
  }

  /** Filtering twice with the stricter test second is filtering once. */
  lemma {:induction false} FilterTwice(s: seq<int>, p: int -> bool, q: int -> bool)
    requires forall x :: x in s && q(x) ==> p(x)
    ensures Filter(Filter(s, p), q) == Filter(s, q)
  {
    if s != [] {
      var n := |s| - 1;
      FilterTwice(s[..n], p, q);
      FilterSnoc(Filter(s[..n], p), s[n], q);
    }
  }

  // ----- the sort -----

  lemma {:induction false} InsertKeepsOrder(env: Env, x: int, s: seq<int>)
    requires SortedByRank(env, s) && AllLive(env, s) && env.Live(x)
    ensures var r := Insert(env, x, s);
            && SortedByRank(env, r) && multiset(r) == multiset(s) + multiset{x}
            && (forall y :: y in r <==> y == x || y in s)
  {
    hide Outranks;
    if s == [] || !Outranks(env, s[0], x) {
      forall j | 0 <= j < |s| ensures !Outranks(env, s[j], x) {
        OutranksIsStrictWeakOrder(env, s[j], s[0], x);
      }
    } else {
      InsertKeepsOrder(env, x, s[1..]);
      OutranksIsStrictWeakOrder(env, s[0], x, x);
      var t := Insert(env, x, s[1..]);
      forall j | 0 <= j < |t| ensures !Outranks(env, t[j], s[0]) {
        if t[j] != x { assert t[j] in s[1..]; }
      }
      assert s == [s[0]] + s[1..];
    }
  }

  lemma {:induction false} SortIsSortedPermutation(env: Env, s: seq<int>)
    requires AllLive(env, s)
    ensures var r := StableSort(env, s);
            && SortedByRank(env, r) && multiset(r) == multiset(s) && AllLive(env, r)
            && (forall y :: y in r <==> y in s)
  {
    if s != [] {
      SortIsSortedPermutation(env, s[1..]);
      InsertKeepsOrder(env, s[0], StableSort(env, s[1..]));
      assert s == [s[0]] + s[1..];
    }
  }

  lemma {:induction false} InsertCommutesWithFilter(env: Env, x: int, s: seq<int>, keep: int -> bool)
    requires SortedByRank(env, s) && AllLive(env, s) && env.Live(x)
    ensures Filter(Insert(env, x, s), keep)
            == if keep(x) then Insert(env, x, Filter(s, keep)) else Filter(s, keep)
  {
    hide Outranks;
    FilterCons(Insert(env, x, s), keep);
    if s == [] || !Outranks(env, s[0], x) {
      assert ([x] + s)[1..] == s;
      var f := Filter(s, keep);
      if f != [] {
        assert f[0] in s;
        OutranksIsStrictWeakOrder(env, f[0], s[0], x);
      }
    } else {
      FilterCons(s, keep);
      InsertCommutesWithFilter(env, x, s[1..], keep);
      assert Insert(env, x, s)[1..] == Insert(env, x, s[1..]);
      if keep(x) && keep(s[0]) {
        var f := Filter(s[1..], keep);
        assert ([s[0]] + f)[1..] == f;
      }
    }
  }

  /** Stability: leaving members out before the sort or after it is the same. */
  lemma {:induction false} SortCommutesWithFilter(env: Env, s: seq<int>, keep: int -> bool)
    requires AllLive(env, s)
    ensures StableSort(env, Filter(s, keep)) == Filter(StableSort(env, s), keep)
  {
    if s != [] {
      FilterCons(s, keep);
      SortCommutesWithFilter(env, s[1..], keep);
      SortIsSortedPermutation(env, s[1..]);
      InsertCommutesWithFilter(env, s[0], StableSort(env, s[1..]), keep);
      var f := Filter(s[1..], keep);
      if keep(s[0]) {
        assert ([s[0]] + f)[1..] == f;
      }
    }
  }

  // ----- duplicate removal -----

  lemma {:induction false} DedupeIsSublist(env: Env, s: seq<int>)
    ensures var r := Dedupe(env, s);
            && (SortedByRank(env, s) ==> SortedByRank(env, r))
            && (Distinct(s) ==> Distinct(r))
            && (forall x :: x in r ==> x in s)
    decreases |s|
  {
    hide Outranks, SamePmt;
    if s != [] {
      var keep := y => !SamePmt(env, s[0], y);
      FilterShrinks(s[1..], keep);
      FilterOrder(env, s[1..], keep);
      var t := WithoutCopies(env, s[0], s[1..]);
      DedupeIsSublist(env, t);
      var r := Dedupe(env, t);
      forall i | 0 <= i < |r| ensures exists k :: 1 <= k < |s| && s[k] == r[i] {
        assert r[i] in r;
        assert r[i] in s[1..];
      }
    }
  }

  /** No two kept members carry the same streams, and every member has a kept copy that it does not outrank. */
  lemma {:induction false} DedupeKeepsBestOfEach(env: Env, s: seq<int>)
    requires AllLive(env, s) && SortedByRank(env, s)
    ensures var r := Dedupe(env, s);
            && (forall i, j :: 0 <= i < j < |r| ==> !SamePmt(env, r[i], r[j]))
            && (forall x :: x in s ==> exists k :: 0 <= k < |r| && SamePmt(env, r[k], x) && !Outranks(env, x, r[k]))
    decreases |s|
  {
    hide Outranks, SamePmt;
    if s != [] {
      var keep := y => !SamePmt(env, s[0], y);
      FilterShrinks(s[1..], keep);
      FilterOrder(env, s[1..], keep);
      var t := WithoutCopies(env, s[0], s[1..]);
      DedupeKeepsBestOfEach(env, t);
      DedupeIsSublist(env, t);
      var tail, r := Dedupe(env, t), Dedupe(env, s);
      forall j | 1 <= j < |r| ensures !SamePmt(env, r[0], r[j]) {
        assert r[j] == tail[j - 1] && tail[j - 1] in t;
      }
      forall x | x in s ensures exists k :: 0 <= k < |r| && SamePmt(env, r[k], x) && !Outranks(env, x, r[k]) {
        KeptCopy(env, s, t, x);
      }
    }
  }

  lemma SamePmtIsReflexive(env: Env, x: int)
    requires env.Live(x)
    ensures SamePmt(env, x, x)
  {
  }

  /** The kept copy of one member: the head itself or a kept member of the rest. */
  lemma KeptCopy(env: Env, s: seq<int>, t: seq<int>, x: int)
    requires s != [] && AllLive(env, s) && SortedByRank(env, s) && x in s
    requires t == WithoutCopies(env, s[0], s[1..]) && Dedupe(env, s) == [s[0]] + Dedupe(env, t)
    requires forall y :: y in t ==> exists k :: 0 <= k < |Dedupe(env, t)| && SamePmt(env, Dedupe(env, t)[k], y)
                                                && !Outranks(env, y, Dedupe(env, t)[k])
    ensures var r := Dedupe(env, s);
            exists k :: 0 <= k < |r| && SamePmt(env, r[k], x) && !Outranks(env, x, r[k])
  {
    hide Outranks, Dedupe, SamePmt;
    var r := Dedupe(env, s);
    OutranksIsStrictWeakOrder(env, x, x, x);
    SamePmtIsReflexive(env, s[0]);
    if SamePmt(env, s[0], x) {
      assert SamePmt(env, r[0], x) && !Outranks(env, x, r[0]);
    } else {
      assert x in s[1..] && x in t;
      var k :| 0 <= k < |Dedupe(env, t)| && SamePmt(env, Dedupe(env, t)[k], x) && !Outranks(env, x, Dedupe(env, t)[k]);
      assert r[k + 1] == Dedupe(env, t)[k];
    }
  }

  /** Leaving out members that duplicate removal drops anyway does not change its result. */
  lemma {:induction false} DedupeIgnoresDropped(env: Env, s: seq<int>, keep: int -> bool)
    requires forall x :: x in Dedupe(env, s) ==> keep(x)
    ensures Dedupe(env, Filter(s, keep)) == Dedupe(env, s)
    decreases |s|
  {
    hide SamePmt;
    if s != [] {
      var other := y => !SamePmt(env, s[0], y);
      assert s[0] in Dedupe(env, s);
      FilterCons(s, keep);
      FilterShrinks(s[1..], other);
      FiltersCommute(s[1..], keep, other);
      var t := WithoutCopies(env, s[0], s[1..]);
      DedupeIgnoresDropped(env, t, keep);
      var f := Filter(s[1..], keep);
      assert ([s[0]] + f)[1..] == f;
      assert Filter(s, keep)[0] == s[0];
    }
  }

  /** The elected list: live, distinct candidates in rank order. */
  lemma ElectedIsSorted(env: Env, c: Claims)
    requires c.Fits(env) && env.Valid()
    ensures var e := Elected(env, c);
            && SortedByRank(env, e) && Distinct(e) && AllLive(env, e)
            && forall id :: id in e ==>
                 id in env.listed && 0 <= id < |env.pmts| && env.pmts[id].enabled && IsStartCandidate(env, c, id)
  {
    hide Outranks, IsStartCandidate, SamePmt;
    var candidates := Candidates(env, c);
    assert AllLive(env, candidates) by {
      forall x | x in candidates ensures env.Live(x) { CandidateIsLive(env, c, x); }
    }
    FilterOrder(env, env.listed, id => IsStartCandidate(env, c, id));
    SortIsSortedPermutation(env, candidates);
    var sorted := StableSort(env, candidates);
    DistinctByMultiset(candidates, sorted);
    DedupeIsSublist(env, sorted);
  }

  lemma CandidateIsLive(env: Env, c: Claims, x: int)
    requires c.Fits(env)
    ensures IsStartCandidate(env, c, x) ==> env.Live(x)
  {
  }

  lemma DistinctByMultiset(s: seq<int>, t: seq<int>)
    requires Distinct(s) && multiset(s) == multiset(t)
    ensures Distinct(t)
  {
    CountOfDistinct(s);
    forall i, j | 0 <= i < j < |t| ensures t[i] != t[j] {
      if t[i] == t[j] { RepeatCountsTwice(t, i, j); }
    }
  }

  lemma RepeatCountsTwice(t: seq<int>, i: nat, j: nat)
    requires i < j < |t| && t[i] == t[j]
    ensures multiset(t)[t[i]] >= 2
  {
    assert t == t[..j] + ([t[j]] + t[j + 1..]);
    assert t[i] in t[..j];
  }

  lemma {:induction false} CountOfDistinct(s: seq<int>)
    requires Distinct(s)
    ensures forall x :: multiset(s)[x] <= 1
  {
    if s != [] {
      var n := |s| - 1;
      CountOfDistinct(s[..n]);
      assert s == s[..n] + [s[n]];
      assert s[n] !in s[..n];
    }
  }
}
