/** The filter pool changed in place (src/pmt.cpp:258-393), proved equal to module FilterTable. The pid side
    effects of filter flags are not part of the model. */
module Filters {
  import opened FilterTable

  const FILTER_ADD_REMOVE: bv16 := 1
  const FILTER_PERMANENT: bv16 := 4

  /** How many filters of the chain have one of the flags. */
  function CountFlagged(t: Table, c: seq<int>, flags: bv16): nat {
    if c == [] then 0
    else CountFlagged(t, c[1..], flags) + if IsLive(t, c[0]) && t[c[0]].flags & flags != 0 then 1 else 0
  }

  class FilterPool {
    const filters: array<Filter>
    /** The chain of each adapter and pid. */
    ghost var chains: Chains

    ghost predicate Valid()
      reads this, filters
    {
      filters.Length == MAX_FILTERS && Chained(filters[..], chains)
    }

    constructor ()
      ensures Valid() && fresh(filters) && forall k :: chains(k) == []
    {
      filters := new Filter[MAX_FILTERS](_ => Filter(false, Key(NONE, NONE), NONE, NONE, 0));
      chains := _ => [];
      new;
      EmptyPool(filters[..]);
    }

    /** A slot without a filter, if there is one. */
    method Obtain() returns (id: int)
      requires Valid()
      ensures id == NONE || (0 <= id < MAX_FILTERS && !filters[id].enabled)
      ensures id == NONE ==> forall i | 0 <= i < MAX_FILTERS :: filters[i].enabled
    {
      for i := 0 to MAX_FILTERS
        invariant forall j | 0 <= j < i :: filters[j].enabled
      {
        if !filters[i].enabled { return i; }
      }
      return NONE;
    }

    /** add_filter_mask: the new filter goes to the end of its pid's chain. */
    method AddFilterMask(adapter: int, pid: int, flags: bv16) returns (id: int)
      requires Valid()
      modifies this, filters
      ensures Valid()
      ensures id == NONE <==> !(0 <= pid <= 8191) || forall i | 0 <= i < MAX_FILTERS :: old(filters[i].enabled)
      ensures id == NONE ==> filters[..] == old(filters[..]) && chains == old(chains)
      ensures id != NONE ==>
                && 0 <= id < MAX_FILTERS && !old(filters[..])[id].enabled
                && filters[..] == Add(old(filters[..]), id, Key(adapter, pid), flags)
                && chains == Appended(old(chains), Key(adapter, pid), id)
    {
      hide Chained, MasterFor;
      if pid < 0 || pid > 8191 {
        return NONE;
      }
      id := Obtain();
      if id == NONE {
        return;
      }
      var k := Key(adapter, pid);
      ghost var start := filters[..];
      AddKeepsChains(start, chains, id, k, flags);
      var master := LinkOpenEnds(id, k);
      filters[id] := Filter(true, k, NONE, master, flags);
      chains := Appended(chains, k, id);
      assert filters[..] == Add(start, id, k, flags);
    }

    /** Point every open end of k at the new filter and report the master it gets. */
    method LinkOpenEnds(id: nat, k: Key) returns (master: int)
      requires filters.Length == MAX_FILTERS && id < MAX_FILTERS && !filters[id].enabled
      modifies filters
      ensures master == MasterFor(old(filters[..]), k, id, MAX_FILTERS)
      ensures forall i | 0 <= i < MAX_FILTERS :: filters[i] ==
                if IsOpenEnd(old(filters[..]), i, k) then old(filters[..])[i].(next := id) else old(filters[..])[i]
    {
      ghost var start := filters[..];
      master := id;
      for i := 0 to MAX_FILTERS
        invariant master == MasterFor(start, k, id, i)
        invariant forall j | i <= j < MAX_FILTERS :: filters[j] == start[j]
        invariant forall j | 0 <= j < i :: filters[j] == if IsOpenEnd(start, j, k) then start[j].(next := id) else start[j]
      {
        if filters[i].enabled && filters[i].key == k && filters[i].next == NONE {
          master := filters[i].master;
          filters[i] := filters[i].(next := id);
        }
      }
    }

    /** get_pid_filter. */
    method GetPidFilter(k: Key) returns (master: int)
      requires Valid()
      ensures master == MasterOf(filters[..], k)
      ensures master == if chains(k) == [] then NONE else chains(k)[0]
    {
      hide IsChain;
      WalkVisitsAll(filters[..], k, chains(k));
      ChainMembers(filters[..], k, chains(k));
      var first := FindFirst(k);
      if first != NONE { assert first in chains(k); }
      master := if first == NONE then NONE else filters[first].master;
    }

    method FindFirst(k: Key) returns (first: int)
      requires filters.Length == MAX_FILTERS
      ensures first == FirstOf(filters[..], k, 0)
    {
      for i := 0 to MAX_FILTERS
        invariant FirstOf(filters[..], k, 0) == FirstOf(filters[..], k, i)
      {
        if filters[i].enabled && filters[i].key == k { return i; }
      }
      return NONE;
    }

    /** get_active_filters_for_pid, started without a master: the walk over the chain counts the filters of the
        pid that have one of the flags. */
    method ActiveFilters(k: Key, flags: bv16) returns (count: nat)
      requires Valid()
      ensures count == CountFlagged(filters[..], chains(k), flags)
    {
      hide Chained, FirstOf;
      ghost var t, c := filters[..], chains(k);
      ChainOf(t, chains, k);
      var at := GetPidFilter(k);
      count := 0;
      ghost var i := 0;
      while 0 <= at < MAX_FILTERS && filters[at].enabled
        invariant 0 <= i <= |c| && at == (if i < |c| then c[i] else NONE)
        invariant count + CountFlagged(t, c[i..], flags) == CountFlagged(t, c, flags)
        decreases |c| - i
      {
        assert i < |c| && t[at] == filters[at];
        assert c[i..][0] == c[i] && c[i..][1..] == c[i + 1..];
        StepInChain(t, k, c, i);
        if filters[at].flags & flags != 0 { count := count + 1; }
        at := filters[at].next;
        i := i + 1;
      }
      if i < |c| { StepInChain(t, k, c, i); }
      assert c[i..] == [];
    }

    /** del_filter. */
    method DelFilter(id: int)
      requires Valid()
      modifies this, filters
      ensures Valid() && filters[..] == Del(old(filters[..]), id)
      ensures chains == if IsLive(old(filters[..]), id) then Removed(old(chains), old(filters[..])[id].key, id) else old(chains)
    {
      hide Chained, FirstOf, Unlink, SetMaster;
      ghost var start := filters[..];
      if id < 0 || id >= MAX_FILTERS || !filters[id].enabled {
        return;
      }
      DelKeepsChains(start, chains, id);
      ghost var after := Removed(chains, filters[id].key, id);
      var f := filters[id];
      filters[id] := Off(f);
      ghost var u := filters[..];
      assert u == start[id := Off(f)];
      if id == f.master {
        var m := f.next;
        if !(0 <= m < MAX_FILTERS && filters[m].enabled) {
          m := FindFirst(f.key);
        }
        if m != NONE {
          ResetMaster(f.key, m);
        }
      } else {
        UnlinkFilter(id, f);
      }
      chains := after;
    }

    /** reset_master_filter. */
    method ResetMaster(k: Key, id: int)
      requires filters.Length == MAX_FILTERS
      modifies filters
      ensures filters[..] == SetMaster(old(filters[..]), k, id)
    {
      ghost var start := filters[..];
      for i := 0 to MAX_FILTERS
        invariant forall j | i <= j < MAX_FILTERS :: filters[j] == start[j]
        invariant forall j | 0 <= j < i :: filters[j] == SetMaster(start, k, id)[j]
      {
        if filters[i].enabled && filters[i].key == k {
          filters[i] := filters[i].(master := id);
        }
      }
    }

    method UnlinkFilter(id: nat, f: Filter)
      requires filters.Length == MAX_FILTERS
      modifies filters
      ensures filters[..] == Unlink(old(filters[..]), id, f, 0)
    {
      for i := 0 to MAX_FILTERS
        invariant filters[..] == old(filters[..])
        invariant Unlink(old(filters[..]), id, f, 0) == Unlink(old(filters[..]), id, f, i)
      {
        if filters[i].enabled && filters[i].key == f.key && filters[i].next == id {
          filters[i] := filters[i].(next := f.next);
          return;
        }
      }
    }
  }

  lemma StepInChain(t: Table, k: Key, c: seq<int>, i: nat)
    requires IsChain(t, k, c) && i < |c|
    ensures IsLive(t, c[i]) && t[c[i]].next == if i + 1 < |c| then c[i + 1] else NONE
  {
    assert IsLink(t, k, c, i);
  }
}
