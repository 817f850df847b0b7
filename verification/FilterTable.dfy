/** The section filter pool as a value (src/pmt.cpp:258-393): filters of one adapter and pid are threaded into a
    chain through next/master indices. */
module FilterTable {

  const MAX_FILTERS: nat := 200
  const NONE: int := -1

  datatype Key = Key(adapter: int, pid: int)

  datatype Filter = Filter(enabled: bool, key: Key, next: int, master: int, flags: bv16)

  type Table = seq<Filter>

  /** get_filter finds something. */
  predicate IsLive(t: Table, id: int) { 0 <= id < |t| && t[id].enabled }

  predicate Listens(t: Table, id: int, k: Key) { IsLive(t, id) && t[id].key == k }

  /** The first enabled filter of k from position `from` on. */
  function FirstOf(t: Table, k: Key, from: nat): (r: int)
    ensures r == NONE || (from <= r && Listens(t, r, k))
    ensures forall i :: from <= i && (r == NONE || i < r) ==> !Listens(t, i, k)
    decreases |t| - from
  {
    if from >= |t| then NONE else if Listens(t, from, k) then from else FirstOf(t, k, from + 1)
  }

  predicate IsOpenEnd(t: Table, id: int, k: Key) { Listens(t, id, k) && t[id].next == NONE }

  /** The master the last open end among the first n filters names, `id` when there is none. */
  function MasterFor(t: Table, k: Key, id: nat, n: nat): int
    requires n <= |t|
  {
    if n == 0 then id else if IsOpenEnd(t, n - 1, k) then t[n - 1].master else MasterFor(t, k, id, n - 1)
  }

  /** add_filter_mask on the free slot `id`. */
  function Add(t: Table, id: nat, k: Key, flags: bv16): Table
    requires id < |t|
  {
    seq(|t|, i requires 0 <= i < |t| =>
      if i == id then Filter(true, k, NONE, MasterFor(t, k, id, |t|), flags)
      else if IsOpenEnd(t, i, k) then t[i].(next := id) else t[i])
  }

  /** The slot of a deleted filter. */
  function Off(f: Filter): Filter { f.(enabled := false, key := f.key.(pid := NONE), flags := 0) }

  function SetMaster(t: Table, k: Key, id: int): (r: Table)
    ensures |r| == |t|
  {
    seq(|t|, i requires 0 <= i < |t| => if Listens(t, i, k) then t[i].(master := id) else t[i])
  }

  /** The first filter of f's pid that points at f now points behind it. */
  function Unlink(t: Table, id: nat, f: Filter, from: nat): (r: Table)
    ensures |r| == |t|
    decreases |t| - from
  {
    if from >= |t| then t
    else if Listens(t, from, f.key) && t[from].next == id then t[from := t[from].(next := f.next)]
    else Unlink(t, id, f, from + 1)
  }

  /** del_filter. */
  function Del(t: Table, id: int): Table {
    if !IsLive(t, id) then t
    else
      var f, u := t[id], t[id := Off(t[id])];
      if f.master == id then
        var m := if IsLive(u, f.next) then f.next else FirstOf(u, f.key, 0);
        if m == NONE then u else SetMaster(u, f.key, m)
      else Unlink(u, id, f, 0)
  }

  /** get_pid_filter. */
  function MasterOf(t: Table, k: Key): int {
    var i := FirstOf(t, k, 0);
    if i == NONE then NONE else t[i].master
  }

  /** The filters met by following next pointers from `at`, at most `fuel` of them. */
  function Walk(t: Table, at: int, fuel: nat): seq<int>
    decreases fuel
  {
    if fuel == 0 || !IsLive(t, at) then [] else [at] + Walk(t, t[at].next, fuel - 1)
  }

  // ----- chains -----

  ghost predicate Distinct(c: seq<int>) { forall i, j | 0 <= i < j < |c| :: c[i] != c[j] }

  /** Member i of chain c is in place. */
  ghost predicate IsLink(t: Table, k: Key, c: seq<int>, i: nat)
    requires i < |c|
  {
    && Listens(t, c[i], k) && t[c[i]].master == c[0]
    && t[c[i]].next == if i + 1 < |c| then c[i + 1] else NONE
  }

  /** c lists exactly the enabled filters of k, linked in this order under one master. */
  ghost predicate IsChain(t: Table, k: Key, c: seq<int>) {
    && Distinct(c)
    && (forall i | 0 <= i < |c| :: IsLink(t, k, c, i))
    && (forall id :: Listens(t, id, k) ==> id in c)
  }

  /** Every adapter and pid has its chain. */
  type Chains = Key -> seq<int>

  ghost predicate Chained(t: Table, chains: Chains) { forall k :: IsChain(t, k, chains(k)) }

  lemma EmptyPool(t: Table)
    requires forall i :: 0 <= i < |t| ==> !t[i].enabled
    ensures Chained(t, _ => [])
  {
  }

  lemma {:induction false} MasterOfOpenEnd(t: Table, k: Key, c: seq<int>, id: nat, n: nat)
    requires IsChain(t, k, c) && n <= |t|
    ensures MasterFor(t, k, id, n) == if c != [] && c[|c| - 1] < n then c[0] else id
  {
    hide IsChain, IsOpenEnd;
    if c != [] { ChainMembers(t, k, c); }
    if n > 0 {
      MasterOfOpenEnd(t, k, c, id, n - 1);
      OpenEndIsLast(t, k, c, n - 1);
    }
  }

  /** Members of a chain are enabled filters of its pid; the last one alone is open. */
  lemma ChainMembers(t: Table, k: Key, c: seq<int>)
    requires IsChain(t, k, c)
    ensures forall id :: id in c <==> Listens(t, id, k)
    ensures forall i | 0 <= i < |c| :: Listens(t, c[i], k) && t[c[i]].master == c[0]
    ensures forall i, j | 0 <= i && j == i + 1 < |c| :: t[c[i]].next == c[j] >= 0
    ensures c != [] ==> t[c[|c| - 1]].next == NONE
  {
    forall i | 0 <= i < |c| ensures Listens(t, c[i], k) && t[c[i]].master == c[0] {
      assert IsLink(t, k, c, i);
    }
    forall i, j | 0 <= i && j == i + 1 < |c| ensures t[c[i]].next == c[j] >= 0 {
      assert IsLink(t, k, c, i) && IsLink(t, k, c, j);
    }
    if c != [] { assert IsLink(t, k, c, |c| - 1); }
  }

  lemma HasSuccessor(t: Table, k: Key, c: seq<int>, i: nat)
    requires IsChain(t, k, c) && i + 1 < |c|
    ensures IsLive(t, c[i]) && t[c[i]].next == c[i + 1] >= 0
  {
    assert IsLink(t, k, c, i) && IsLink(t, k, c, i + 1);
  }

  /** Only the last filter of a chain has an open end. */
  lemma OpenEndIsLast(t: Table, k: Key, c: seq<int>, id: int)
    requires IsChain(t, k, c)
    ensures IsOpenEnd(t, id, k) <==> c != [] && id == c[|c| - 1]
  {
    hide IsChain;
    ChainMembers(t, k, c);
    if IsOpenEnd(t, id, k) {
      var i :| 0 <= i < |c| && c[i] == id;
      if i < |c| - 1 { HasSuccessor(t, k, c, i); }
    }
  }

  /** Adding appends to the chain of the new filter's pid. */
  lemma AddAppends(t: Table, id: nat, k: Key, flags: bv16, c: seq<int>)
    requires id < |t| && !t[id].enabled && IsChain(t, k, c)
    ensures IsChain(Add(t, id, k, flags), k, c + [id])
  {
    hide MasterFor;
    var r, d := Add(t, id, k, flags), c + [id];
    MasterOfOpenEnd(t, k, c, id, |t|);
    ChainMembers(t, k, c);
    assert Listens(r, id, k);
    forall i | 0 <= i < |c| ensures IsLink(r, k, d, i) {
      OpenEndIsLast(t, k, c, c[i]);
    }
  }

  lemma AddKeepsOthers(t: Table, id: nat, k: Key, flags: bv16, j: Key, c: seq<int>)
    requires id < |t| && !t[id].enabled && IsChain(t, j, c) && j != k
    ensures IsChain(Add(t, id, k, flags), j, c)
  {
    hide MasterFor, IsChain;
    var r := Add(t, id, k, flags);
    ChainMembers(t, j, c);
    assert forall i :: Listens(r, i, j) <==> Listens(t, i, j);
    SameChain(t, r, j, c);
  }

  /** A chain depends on its own members only. */
  lemma SameChain(t: Table, r: Table, k: Key, c: seq<int>)
    requires IsChain(t, k, c) && (forall id :: Listens(r, id, k) <==> Listens(t, id, k))
    requires |r| == |t| && forall id :: Listens(t, id, k) ==> r[id] == t[id]
    ensures IsChain(r, k, c)
  {
    ChainMembers(t, k, c);
    forall i | 0 <= i < |c| ensures IsLink(r, k, c, i) {
      assert IsLink(t, k, c, i);
    }
  }

  /** c without its member at position p. */
  function Without(c: seq<int>, p: nat): seq<int>
    requires p < |c|
  {
    c[..p] + c[p + 1..]
  }

  lemma WithoutMembers(c: seq<int>, p: nat)
    requires p < |c| && Distinct(c)
    ensures Distinct(Without(c, p)) && forall id :: id in Without(c, p) <==> id in c && id != c[p]
  {
  }

  lemma HeadOff(t: Table, id: nat, k: Key)
    requires Listens(t, id, k) && t[id].master == id && IsLive(t, t[id].next) && t[id].next != id
    ensures var r := Del(t, id);
            && |r| == |t| && !r[id].enabled
            && forall i | 0 <= i < |t| && i != id :: r[i] == if Listens(t, i, k) then t[i].(master := t[id].next) else t[i]
  {
  }

  /** Deleting the head: the next filter becomes master of all. */
  lemma DelHead(t: Table, k: Key, c: seq<int>)
    requires IsChain(t, k, c) && |c| > 1
    ensures IsChain(Del(t, c[0]), k, c[1..])
  {
    hide Del;
    ChainMembers(t, k, c);
    var r, d := Del(t, c[0]), c[1..];
    WithoutMembers(c, 0);
    assert Without(c, 0) == d;
    var second := c[1];
    assert t[c[0]].next == second;
    HeadOff(t, c[0], k);
    forall i | 0 <= i < |d| ensures IsLink(r, k, d, i) {
      assert c[i + 1] == d[i] && c[i + 1] != c[0];
      LinkMovesUp(t, r, k, c, i);
    }
  }

  /** Behind a deleted head every filter keeps its place, under the new master. */
  lemma LinkMovesUp(t: Table, r: Table, k: Key, c: seq<int>, i: nat)
    requires IsChain(t, k, c) && i + 1 < |c| && |r| == |t| && IsLive(t, c[i + 1])
    requires r[c[i + 1]] == t[c[i + 1]].(master := c[1])
    ensures IsLink(r, k, c[1..], i)
  {
    assert IsLink(t, k, c, i + 1) && c[1..][i] == c[i + 1];
  }

  /** Deleting the only filter of a pid. */
  lemma DelOnly(t: Table, k: Key, c: seq<int>)
    requires IsChain(t, k, c) && |c| == 1
    ensures var r := Del(t, c[0]); IsChain(r, k, []) && |r| == |t| && forall i | 0 <= i < |t| && i != c[0] :: r[i] == t[i]
  {
    hide Unlink;
    ChainMembers(t, k, c);
    var u := t[c[0] := Off(t[c[0]])];
    forall id ensures !Listens(u, id, k) {
      if Listens(t, id, k) { assert id in c; }
    }
  }

  lemma {:induction false} UnlinkAt(t: Table, id: nat, f: Filter, from: nat, p: nat)
    requires from <= p < |t| && Listens(t, p, f.key) && t[p].next == id
    requires forall i :: from <= i < p ==> !(Listens(t, i, f.key) && t[i].next == id)
    ensures Unlink(t, id, f, from) == t[p := t[p].(next := f.next)]
    decreases p - from
  {
    if from < p { UnlinkAt(t, id, f, from + 1, p); }
  }

  /** Deleting another member: its predecessor takes over its successor. */
  lemma DelInner(t: Table, k: Key, c: seq<int>, p: nat)
    requires IsChain(t, k, c) && 0 < p < |c| && IsLive(t, c[p]) && IsLive(t, c[p - 1])
    ensures var r := Del(t, c[p]);
            && |r| == |t| && !r[c[p]].enabled && r[c[p - 1]] == t[c[p - 1]].(next := t[c[p]].next)
            && forall i | 0 <= i < |t| && i != c[p] && i != c[p - 1] :: r[i] == t[i]
  {
    ChainMembers(t, k, c);
    var id, before := c[p], c[p - 1];
    var f, u := t[id], t[id := Off(t[id])];
    assert t[before].next == c[p];
    assert id != c[0] && f.master == c[0];
    forall i | 0 <= i < before ensures !(Listens(u, i, k) && u[i].next == id) {
      if Listens(t, i, k) && t[i].next == id {
        NextIsUnique(t, k, c, i, p);
      }
    }
    UnlinkAt(u, id, f, 0, before);
  }

  lemma NextIsUnique(t: Table, k: Key, c: seq<int>, i: int, p: nat)
    requires IsChain(t, k, c) && 0 < p < |c| && Listens(t, i, k) && t[i].next == c[p]
    ensures i == c[p - 1]
  {
    ChainMembers(t, k, c);
    var q :| 0 <= q < |c| && c[q] == i;
    if q < |c| - 1 {
      var n := q + 1;
      assert c[n] == c[p];
    }
  }

  lemma DelInnerChain(t: Table, k: Key, c: seq<int>, p: nat)
    requires IsChain(t, k, c) && 0 < p < |c|
    ensures IsChain(Del(t, c[p]), k, Without(c, p))
  {
    hide Del;
    ChainMembers(t, k, c);
    DelInner(t, k, c, p);
    WithoutMembers(c, p);
    var r, d := Del(t, c[p]), Without(c, p);
    assert c[p - 1] != c[p];
    assert forall id :: Listens(r, id, k) <==> Listens(t, id, k) && id != c[p];
    forall i | 0 <= i < |d| ensures IsLink(r, k, d, i) {
      if i < p {
        assert IsLink(t, k, c, i) && d[i] == c[i];
        if i == p - 1 { assert IsLink(t, k, c, p); }
      } else {
        assert IsLink(t, k, c, i + 1) && d[i] == c[i + 1];
      }
    }
  }

  lemma {:induction false} UnlinkKeeps(t: Table, id: nat, f: Filter, from: nat)
    ensures var r := Unlink(t, id, f, from);
            forall i | 0 <= i < |t| :: r[i].enabled == t[i].enabled && r[i].key == t[i].key && r[i].flags == t[i].flags
                                       && (t[i].key != f.key || !t[i].enabled ==> r[i] == t[i])
    decreases |t| - from
  {
    if from < |t| && !(Listens(t, from, f.key) && t[from].next == id) { UnlinkKeeps(t, id, f, from + 1); }
  }

  /** Deleting touches no filter of another pid; the one filter is off, listens to no pid and has no flags, and all others
      keep theirs. */
  lemma DelElsewhere(t: Table, id: nat, j: Key)
    requires IsLive(t, id)
    ensures var r := Del(t, id);
            && |r| == |t| && !r[id].enabled && r[id].key.pid == -1 && r[id].flags == 0
            && (forall i | 0 <= i < |t| && i != id ::
                  r[i].enabled == t[i].enabled && r[i].key == t[i].key && r[i].flags == t[i].flags)
            && (forall i | 0 <= i < |t| && i != id && t[i].key != t[id].key :: r[i] == t[i])
  {
    hide FirstOf, Unlink;
    var u := t[id := Off(t[id])];
    UnlinkKeeps(u, id, t[id], 0);
  }

  lemma DelKeepsOthers(t: Table, id: nat, j: Key, c: seq<int>)
    requires IsLive(t, id) && IsChain(t, j, c) && j != t[id].key
    ensures IsChain(Del(t, id), j, c)
  {
    hide Del, IsChain;
    DelElsewhere(t, id, j);
    SameChain(t, Del(t, id), j, c);
  }

  // ----- the invariant over all operations -----

  function Appended(chains: Chains, k: Key, id: int): Chains {
    j => if j == k then chains(j) + [id] else chains(j)
  }

  function IndexIn(c: seq<int>, id: int): (p: nat)
    ensures p <= |c| && (id in c ==> p < |c| && c[p] == id)
  {
    if c == [] || c[0] == id then 0 else 1 + IndexIn(c[1..], id)
  }

  function Removed(chains: Chains, k: Key, id: int): Chains {
    j => if j == k && id in chains(j) then Without(chains(j), IndexIn(chains(j), id)) else chains(j)
  }

  /** Adding a filter on any free slot appends it to the chain of its pid and leaves the others alone. */
  lemma AddKeepsChains(t: Table, chains: Chains, id: nat, k: Key, flags: bv16)
    requires Chained(t, chains) && id < |t| && !t[id].enabled
    ensures Chained(Add(t, id, k, flags), Appended(chains, k, id))
  {
    hide IsChain, Add;
    forall j ensures IsChain(Add(t, id, k, flags), j, Appended(chains, k, id)(j)) {
      if j == k { AddAppends(t, id, k, flags, chains(k)); } else { AddKeepsOthers(t, id, k, flags, j, chains(j)); }
    }
  }

  /** Deleting the head, the tail or a filter in between takes just it out of its chain. */
  lemma DelKeepsChains(t: Table, chains: Chains, id: nat)
    requires Chained(t, chains) && IsLive(t, id)
    ensures Chained(Del(t, id), Removed(chains, t[id].key, id))
  {
    hide IsChain, Del, Chained;
    forall j ensures IsChain(Del(t, id), j, Removed(chains, t[id].key, id)(j)) {
      ChainOf(t, chains, j);
      if j == t[id].key { DelFromChain(t, id, chains(j)); } else { DelKeepsOthers(t, id, j, chains(j)); }
    }
    AllChained(Del(t, id), Removed(chains, t[id].key, id));
  }

  lemma ChainOf(t: Table, chains: Chains, k: Key)
    requires Chained(t, chains)
    ensures IsChain(t, k, chains(k))
  {
  }

  lemma AllChained(t: Table, chains: Chains)
    requires forall k :: IsChain(t, k, chains(k))
    ensures Chained(t, chains)
  {
  }

  lemma DelFromChain(t: Table, id: nat, c: seq<int>)
    requires IsLive(t, id) && IsChain(t, t[id].key, c)
    ensures id in c && IsChain(Del(t, id), t[id].key, Without(c, IndexIn(c, id)))
  {
    hide Del, IsChain;
    var k := t[id].key;
    ChainMembers(t, k, c);
    var p := IndexIn(c, id);
    if p > 0 {
      DelInnerChain(t, k, c, p);
    } else if |c| > 1 {
      DelHead(t, k, c);
      assert Without(c, 0) == c[1..];
    } else {
      DelOnly(t, k, c);
      assert Without(c, 0) == [];
    }
  }

  // ----- the walk -----

  lemma {:induction false} DistinctIsShort(c: seq<int>, n: nat)
    requires Distinct(c) && forall i :: 0 <= i < |c| ==> 0 <= c[i] < n
    ensures |c| <= n
    decreases n
  {
    if n > 0 && n - 1 in c {
      var p :| 0 <= p < |c| && c[p] == n - 1;
      WithoutMembers(c, p);
      forall i | 0 <= i < |c| - 1 ensures 0 <= Without(c, p)[i] < n - 1 {
        assert Without(c, p)[i] in Without(c, p);
      }
      DistinctIsShort(Without(c, p), n - 1);
    } else if c != [] {
      assert n > 0 by { assert 0 <= c[0] < n; }
      DistinctIsShort(c, n - 1);
    }
  }

  lemma {:induction false} WalkFrom(t: Table, k: Key, c: seq<int>, i: nat, fuel: nat)
    requires IsChain(t, k, c) && i < |c| && fuel >= |c| - i
    ensures Walk(t, c[i], fuel) == c[i..]
    decreases |c| - i
  {
    hide IsChain;
    ChainMembers(t, k, c);
    if i + 1 < |c| {
      HasSuccessor(t, k, c, i);
      WalkFrom(t, k, c, i + 1, fuel - 1);
      assert c[i..] == [c[i]] + c[i + 1..];
    } else {
      assert c[i..] == [c[i]];
    }
  }

  /** The walk from the master of a pid meets each of its enabled filters once, in the order of their chain,
      and stops. */
  lemma WalkVisitsAll(t: Table, k: Key, c: seq<int>)
    requires IsChain(t, k, c)
    ensures Walk(t, MasterOf(t, k), |t|) == c
    ensures Distinct(c) && forall id :: id in c <==> Listens(t, id, k)
  {
    ChainMembers(t, k, c);
    DistinctIsShort(c, |t|);
    hide IsChain;
    var first := FirstOf(t, k, 0);
    if c != [] {
      assert Listens(t, c[0], k);
      assert first in c;
      WalkFrom(t, k, c, 0, |t|);
      assert c[0..] == c;
    } else {
      assert forall id :: !Listens(t, id, k);
    }
  }
}
