/** The duplicate test of the PMT election (src/pmt.cpp:1101-1144): descriptors and streams are matched
    greedily, marking each right-hand element as used at most once.
    The specification does not mention the marking: two PMTs are the same when their descriptors are
    equal as multisets and their streams are equal as multisets, each stream taken modulo the order of
    its own descriptors. */
module StreamMatch {
  import opened PmtData
  import opened Bytes

  /** A stream with the order of its descriptors forgotten. */
  datatype StreamKey = StreamKey(kind: byte, pid: Pid, isAudio: bool, isVideo: bool, descriptors: multiset<Descriptor>)

  function KeyOf(s: StreamPid): StreamKey {
    StreamKey(s.kind, s.pid, s.isAudio, s.isVideo, multiset(s.descriptors))
  }

  function KeysOf(streams: seq<StreamPid>): (keys: seq<StreamKey>)
    ensures |keys| == |streams|
  {
    seq(|streams|, i requires 0 <= i < |streams| => KeyOf(streams[i]))
  }

  ghost predicate SameStreams(a: PmtContent, b: PmtContent) {
    && multiset(a.descriptors) == multiset(b.descriptors)
    && multiset(KeysOf(a.streams)) == multiset(KeysOf(b.streams))
  }

  // ----- the elements not marked as used -----

  ghost function Unused<K>(keys: seq<K>, used: seq<bool>): (m: multiset<K>)
    requires |used| == |keys|
  {
    if keys == [] then multiset{}
    else
      var n := |keys| - 1;
      Unused(keys[..n], used[..n]) + if used[n] then multiset{} else multiset{keys[n]}
  }

  lemma {:induction false} NothingUsed<K>(keys: seq<K>, used: seq<bool>)
    requires |used| == |keys| && forall j :: 0 <= j < |used| ==> !used[j]
    ensures Unused(keys, used) == multiset(keys)
  {
    if keys != [] {
      var n := |keys| - 1;
      NothingUsed(keys[..n], used[..n]);
      assert keys == keys[..n] + [keys[n]];
    }
  }

  lemma {:induction false} UseOne<K>(keys: seq<K>, used: seq<bool>, j: nat)
    requires |used| == |keys| && j < |keys| && !used[j]
    ensures Unused(keys, used) == Unused(keys, used[j := true]) + multiset{keys[j]}
  {
    var n := |keys| - 1;
    var used' := used[j := true];
    if j < n {
      UseOne(keys[..n], used[..n], j);
      assert used'[..n] == used[..n][j := true];
    } else {
      assert used'[..n] == used[..n];
    }
  }

  lemma {:induction false} UnusedIffUnmarked<K>(keys: seq<K>, used: seq<bool>, k: K)
    requires |used| == |keys|
    ensures k in Unused(keys, used) <==> exists j :: 0 <= j < |keys| && !used[j] && keys[j] == k
  {
    if keys != [] {
      var n := |keys| - 1;
      UnusedIffUnmarked(keys[..n], used[..n], k);
      if j :| 0 <= j < n && !used[..n][j] && keys[..n][j] == k { assert !used[j] && keys[j] == k; }
      if j :| 0 <= j < |keys| && !used[j] && keys[j] == k { assert j == n || (!used[..n][j] && keys[..n][j] == k); }
    }
  }

  /** A left element without an unmarked partner refutes multiset equality. */
  lemma NoPartner<K>(lhs: seq<K>, rhs: seq<K>, used: seq<bool>, i: nat)
    requires |used| == |rhs| && i < |lhs|
    requires multiset(lhs[..i]) + Unused(rhs, used) == multiset(rhs)
    requires forall j :: 0 <= j < |rhs| && !used[j] ==> rhs[j] != lhs[i]
    ensures multiset(lhs) != multiset(rhs)
  {
    UnusedIffUnmarked(rhs, used, lhs[i]);
    assert lhs == lhs[..i] + ([lhs[i]] + lhs[i + 1..]);
    assert multiset(lhs)[lhs[i]] > multiset(lhs[..i])[lhs[i]];
  }

  /** Marking the partner of element i keeps the account. */
  lemma MarkStep<K>(lhs: seq<K>, rhs: seq<K>, used: seq<bool>, i: nat, j: nat)
    requires |used| == |rhs| && i < |lhs| && j < |rhs| && !used[j] && rhs[j] == lhs[i]
    requires multiset(lhs[..i]) + Unused(rhs, used) == multiset(rhs)
    ensures multiset(lhs[..i + 1]) + Unused(rhs, used[j := true]) == multiset(rhs)
  {
    hide Unused;
    UseOne(rhs, used, j);
    assert lhs[..i + 1] == lhs[..i] + [lhs[i]];
  }

  /** Lists of one length with every left element matched are equal as multisets. */
  lemma AllMatched<K>(lhs: seq<K>, rhs: seq<K>, used: seq<bool>)
    requires |used| == |rhs| == |lhs| && multiset(lhs[..|lhs|]) + Unused(rhs, used) == multiset(rhs)
    ensures multiset(lhs) == multiset(rhs)
  {
    hide Unused;
    assert lhs[..|lhs|] == lhs && |multiset(lhs)| == |multiset(rhs)|;
    assert |Unused(rhs, used)| == 0;
  }

  // ----- the greedy loops -----

  method SameDescriptors(lhs: seq<Descriptor>, rhs: seq<Descriptor>) returns (same: bool)
    ensures same <==> multiset(lhs) == multiset(rhs)
  {
    hide Unused;
    if |lhs| != |rhs| {
      assert |multiset(lhs)| != |multiset(rhs)|;
      return false;
    }
    var used := new bool[|rhs|](_ => false);
    NothingUsed(rhs, used[..]);
    assert lhs[..0] == [];
    for i := 0 to |lhs|
      invariant multiset(lhs[..i]) + Unused(rhs, used[..]) == multiset(rhs)
    {
      var j := 0;
      while j < |rhs|
        invariant 0 <= j <= |rhs|
        invariant forall k :: 0 <= k < j ==> used[k] || rhs[k] != lhs[i]
      {
        if !used[j] && lhs[i] == rhs[j] { break; }
        j := j + 1;
      }
      if j == |rhs| {
        NoPartner(lhs, rhs, used[..], i);
        return false;
      }
      MarkStep(lhs, rhs, used[..], i, j);
      ghost var marked := used[..][j := true];
      used[j] := true;
      assert used[..] == marked;
    }
    AllMatched(lhs, rhs, used[..]);
    return true;
  }

  method SameStreamPid(sa: StreamPid, sb: StreamPid) returns (same: bool)
    ensures same <==> KeyOf(sa) == KeyOf(sb)
  {
    same := sa.pid == sb.pid && sa.kind == sb.kind && sa.isAudio == sb.isAudio && sa.isVideo == sb.isVideo;
    if same {
      same := SameDescriptors(sa.descriptors, sb.descriptors);
    }
  }

  /** First unmarked stream that equals s, or the number of streams. */
  method UnusedPartner(s: StreamPid, streams: seq<StreamPid>, used: array<bool>) returns (j: nat)
    requires used.Length == |streams|
    ensures j <= |streams|
    ensures j < |streams| ==> !used[j] && KeyOf(streams[j]) == KeyOf(s)
    ensures forall k :: 0 <= k < j ==> used[k] || KeyOf(streams[k]) != KeyOf(s)
  {
    j := 0;
    while j < |streams|
      invariant 0 <= j <= |streams|
      invariant forall k :: 0 <= k < j ==> used[k] || KeyOf(streams[k]) != KeyOf(s)
    {
      if !used[j] {
        var same := SameStreamPid(s, streams[j]);
        if same { break; }
      }
      j := j + 1;
    }
  }

  method SameStreamPids(lhs: PmtContent, rhs: PmtContent) returns (same: bool)
    ensures same <==> SameStreams(lhs, rhs)
    ensures same <==> multiset(lhs.descriptors) == multiset(rhs.descriptors)
                      && multiset(KeysOf(lhs.streams)) == multiset(KeysOf(rhs.streams))
  {
    hide Unused;
    ghost var ls, rs := KeysOf(lhs.streams), KeysOf(rhs.streams);
    if |lhs.streams| != |rhs.streams| {
      assert |multiset(ls)| != |multiset(rs)|;
      return false;
    }
    var sameDescriptors := SameDescriptors(lhs.descriptors, rhs.descriptors);
    if !sameDescriptors { return false; }
    var used := new bool[|rhs.streams|](_ => false);
    NothingUsed(rs, used[..]);
    assert ls[..0] == [];
    for i := 0 to |lhs.streams|
      invariant multiset(ls[..i]) + Unused(rs, used[..]) == multiset(rs)
    {
      var j := UnusedPartner(lhs.streams[i], rhs.streams, used);
      if j == |rhs.streams| {
        NoPartner(ls, rs, used[..], i);
        return false;
      }
      MarkStep(ls, rs, used[..], i, j);
      ghost var marked := used[..][j := true];
      used[j] := true;
      assert used[..] == marked;
    }
    AllMatched(ls, rs, used[..]);
    return true;
  }
}
