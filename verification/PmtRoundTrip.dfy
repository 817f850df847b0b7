/** Parsing what DDCI writes gives back the PMT with its pids renamed. */
module PmtRoundTrip {
  import opened Bytes
  import opened PmtData
  import opened DdciMap
  import opened PmtSection

  // ----- bytes in a buffer -----

  ghost predicate Holds(b: Data, at: nat, x: Data) { at + |x| <= |b| && b[at..at + |x|] == x }

  lemma HoldsParts(b: Data, at: nat, x: Data, y: Data)
    requires Holds(b, at, x + y)
    ensures Holds(b, at, x) && Holds(b, at + |x|, y)
  {
    var s := b[at..at + |x + y|];
    assert s[..|x|] == x && s[|x|..] == y;
  }

  lemma HoldsAtStart(x: Data, y: Data)
    ensures Holds(x + y, 0, x)
  {
  }

  lemma HoldsAt(b: Data, at: nat, x: Data, k: nat)
    requires Holds(b, at, x) && k < |x|
    ensures At(b, at + k) == x[k]
  {
  }

  /** A 16-bit value reads back, whole or cut to 12 or 13 bits. */
  lemma Put16Reads(b: Data, i: nat, v: nat)
    requires v < 0x10000 && At(b, i) == Put16i(v)[0] && At(b, i + 1) == Put16i(v)[1]
    ensures Word(b, i) == v && Low12(b, i) == v % 0x1000 && Low13(b, i) == v % 0x2000
  {
    hide At;
  }

  // ----- descriptor loops -----

  lemma {:induction false} LoopBytesCons(ds: seq<Descriptor>)
    requires ds != []
    ensures LoopBytes(ds) == DescriptorBytes(ds[0]) + LoopBytes(ds[1..])
  {
    hide DescriptorBytes;
    var n := |ds| - 1;
    if n > 0 {
      LoopBytesCons(ds[..n]);
      assert ds[..n][1..] == ds[1..][..n - 1];
    } else {
      assert ds[..0] == [] && ds[1..] == [];
    }
  }

  ghost predicate Sized(ds: seq<Descriptor>) { forall i :: 0 <= i < |ds| ==> |ds[i].data| == ds[i].len }

  function CaidOf(d: Descriptor): nat
    requires |d.data| >= 4
  {
    d.data[0] as int * 0x100 + d.data[1] as int
  }

  /** What adding one descriptor does, seen from the descriptor alone. */
  function AddOne(d: Descriptor, ds: seq<Descriptor>, cas: seq<CaEntry>): (seq<Descriptor>, seq<CaEntry>) {
    if d in ds then (ds, cas)
    else (ds + [d], if IsFullCa(d) then AddCaid(cas, CaidOf(d), EcmPid(d), d.data[4..], |d.data| - 4) else cas)
  }

  function Fold(xs: seq<Descriptor>, ds: seq<Descriptor>, cas: seq<CaEntry>): (seq<Descriptor>, seq<CaEntry>)
    decreases |xs|
  {
    if xs == [] then (ds, cas) else var (ds1, cas1) := AddOne(xs[0], ds, cas); Fold(xs[1..], ds1, cas1)
  }

  lemma ReadBack(b: Data, at: nat, d: Descriptor)
    requires |d.data| == d.len && Holds(b, at, DescriptorBytes(d))
    ensures ReadDescriptor(b, at) == d && At(b, at + 1) == d.len
  {
    var x := DescriptorBytes(d);
    HoldsAt(b, at, x, 0);
    HoldsAt(b, at, x, 1);
    forall k | 0 <= k < d.len ensures At(b, at + 2 + k) == d.data[k] {
      HoldsAt(b, at, x, 2 + k);
    }
    assert ReadDescriptor(b, at).data == d.data;
  }

  lemma AddIsAddOne(b: Data, at: nat, d: Descriptor, ds: seq<Descriptor>, cas: seq<CaEntry>)
    requires |d.data| == d.len && Holds(b, at, DescriptorBytes(d))
    ensures AddDescriptorAt(b, at, ds, cas) == AddOne(d, ds, cas)
  {
    ReadBack(b, at, d);
    var x := DescriptorBytes(d);
    if IsFullCa(d) {
      HoldsAt(b, at, x, 2);
      HoldsAt(b, at, x, 3);
      HoldsAt(b, at, x, 4);
      HoldsAt(b, at, x, 5);
      assert Word(b, at + 2) == CaidOf(d);
      assert Low13(b, at + 4) == EcmPid(d);
    }
  }

  lemma {:induction false} ParseListed(b: Data, at: nat, xs: seq<Descriptor>, ds: seq<Descriptor>, cas: seq<CaEntry>)
    requires Sized(xs) && Holds(b, at, LoopBytes(xs))
    ensures ParseDescriptors(b, at, at + |LoopBytes(xs)|, ds, cas) == Fold(xs, ds, cas)
    ensures IsAc3Es(b, at, at + |LoopBytes(xs)|) <==> exists i :: 0 <= i < |xs| && IsAc3Tag(xs[i].kind)
    decreases |xs|
  {
    hide AddDescriptorAt, AddOne, At;
    if xs != [] {
      LoopBytesCons(xs);
      var x, rest := DescriptorBytes(xs[0]), LoopBytes(xs[1..]);
      HoldsParts(b, at, x, rest);
      AddIsAddOne(b, at, xs[0], ds, cas);
      ReadBack(b, at, xs[0]);
      var (ds1, cas1) := AddOne(xs[0], ds, cas);
      ParseListed(b, at + |x|, xs[1..], ds1, cas1);
      assert forall i :: 0 <= i < |xs[1..]| ==> xs[1..][i] == xs[i + 1];
      assert IsAc3Es(b, at, at + |x| + |rest|) <==> IsAc3Tag(xs[0].kind) || IsAc3Es(b, at + |x|, at + |x| + |rest|);
      Ac3Cons(xs);
    }
  }

  lemma Ac3Cons(xs: seq<Descriptor>)
    requires xs != []
    ensures (exists i :: 0 <= i < |xs| && IsAc3Tag(xs[i].kind)) <==>
              IsAc3Tag(xs[0].kind) || exists i :: 0 <= i < |xs[1..]| && IsAc3Tag(xs[1..][i].kind)
  {
  }

  // ----- folds that add everything -----

  ghost predicate NoRepeats(ds: seq<Descriptor>) { forall i, j | 0 <= i < j < |ds| :: ds[i] != ds[j] }

  /** The CA list has nothing left to learn from this descriptor. */
  ghost predicate Known(d: Descriptor, cas: seq<CaEntry>) {
    IsFullCa(d) ==> HasCa(cas, CaidOf(d), EcmPid(d)) || |cas| >= MAX_CAID
  }

  lemma {:induction false} FoldKeepsAll(xs: seq<Descriptor>, ds: seq<Descriptor>, cas: seq<CaEntry>)
    requires NoRepeats(ds + xs) && forall i :: 0 <= i < |xs| ==> Known(xs[i], cas)
    ensures Fold(xs, ds, cas) == (ds + xs, cas)
    decreases |xs|
  {
    hide IsFullCa, EcmPid, HasCa;
    if xs == [] {
      assert ds + xs == ds;
    } else {
      assert xs[0] !in ds by {
        assert (ds + xs)[|ds|] == xs[0];
        assert forall i :: 0 <= i < |ds| ==> (ds + xs)[i] == ds[i];
      }
      assert (ds + [xs[0]]) + xs[1..] == ds + xs;
      assert Known(xs[0], cas);
      FoldKeepsAll(xs[1..], ds + [xs[0]], cas);
    }
  }

  // ----- PMTs as the parser leaves them, and as DDCI registers them -----

  ghost predicate HasAc3(ds: seq<Descriptor>) { exists i :: 0 <= i < |ds| && IsAc3Tag(ds[i].kind) }

  ghost predicate StreamOk(s: StreamPid) {
    && s.pid < 0x2000 && Sized(s.descriptors) && NoRepeats(s.descriptors) && (!s.IsAv() ==> s.descriptors == [])
    && s.isVideo == IsVideoKind(s.kind) && s.isAudio == ((s.kind == 6 && HasAc3(s.descriptors)) || IsAudioKind(s.kind))
  }

  ghost predicate CasOk(cas: seq<CaEntry>) {
    && |cas| <= MAX_CAID
    && (forall i :: 0 <= i < |cas| ==> cas[i].id < 0x10000 && cas[i].pid < 0x2000 && |cas[i].privateData| <= 251)
    && (forall i, j | 0 <= i < j < |cas| :: cas[i].id != cas[j].id || cas[i].pid != cas[j].pid)
  }

  ghost predicate AllKnown(s: StreamPid, cas: seq<CaEntry>) {
    forall i :: 0 <= i < |s.descriptors| ==> Known(s.descriptors[i], cas)
  }

  ghost predicate WellFormed(streams: seq<StreamPid>, cas: seq<CaEntry>) {
    CasOk(cas) && forall i :: 0 <= i < |streams| ==> StreamOk(streams[i]) && AllKnown(streams[i], cas)
  }

  predicate IsMapped(t: Table, ad: nat, pid: nat) { Key(ad, pid) in t && t[Key(ad, pid)].ddciPid != -1 }

  ghost predicate EcmsMapped(t: Table, ad: nat, ds: seq<Descriptor>) {
    forall i :: 0 <= i < |ds| && IsFullCa(ds[i]) ==> IsMapped(t, ad, EcmPid(ds[i]))
  }

  /** Every pid of the PMT, including the ECM pids inside its streams' descriptors, has a DDCI pid. */
  ghost predicate Registered(t: Table, ad: nat, streams: seq<StreamPid>, cas: seq<CaEntry>) {
    && TableOk(t)
    && (forall i :: 0 <= i < |cas| ==> IsMapped(t, ad, cas[i].pid))
    && (forall i :: 0 <= i < |streams| ==> IsMapped(t, ad, streams[i].pid) && EcmsMapped(t, ad, streams[i].descriptors))
  }

  lemma DdciIsInjective(t: Table, ad: nat, p: nat, q: nat)
    requires TableOk(t) && IsMapped(t, ad, p)
    ensures 0 <= Ddci(t, ad, p) < MAX_PID
    ensures IsMapped(t, ad, q) && Ddci(t, ad, p) == Ddci(t, ad, q) ==> p == q
  {
  }

  // ----- the CA list -----

  function RenameCa(t: Table, ad: nat, c: CaEntry): CaEntry { c.(pid := Ddci(t, ad, c.pid) % 0x2000) }

  function RenameCas(t: Table, ad: nat, cas: seq<CaEntry>): (r: seq<CaEntry>)
    ensures |r| == |cas| && forall i :: 0 <= i < |cas| ==> r[i] == RenameCa(t, ad, cas[i])
  {
    seq(|cas|, i requires 0 <= i < |cas| => RenameCa(t, ad, cas[i]))
  }

  function CaDescriptorOf(t: Table, ad: nat, c: CaEntry): Descriptor {
    Descriptor(CA_TAG, Byte(4 + |c.privateData|), Put16i(c.id) + Put16i(Ddci(t, ad, c.pid)) + c.privateData)
  }

  function CaDescriptorsOf(t: Table, ad: nat, cas: seq<CaEntry>): (r: seq<Descriptor>)
    ensures |r| == |cas| && forall i :: 0 <= i < |cas| ==> r[i] == CaDescriptorOf(t, ad, cas[i])
  {
    seq(|cas|, i requires 0 <= i < |cas| => CaDescriptorOf(t, ad, cas[i]))
  }

  lemma {:induction false} ProgramInfoIsLoop(t: Table, ad: nat, cas: seq<CaEntry>)
    ensures ProgramInfo(t, ad, cas) == LoopBytes(CaDescriptorsOf(t, ad, cas))
  {
    hide Ddci;
    if cas != [] {
      var n := |cas| - 1;
      ProgramInfoIsLoop(t, ad, cas[..n]);
      assert CaDescriptorsOf(t, ad, cas)[..n] == CaDescriptorsOf(t, ad, cas[..n]);
      assert ProgramCa(t, ad, cas[n]) == DescriptorBytes(CaDescriptorOf(t, ad, cas[n]));
    }
  }

  /** The CA descriptor written for an entry reads back as that entry, renamed. */
  lemma CaDescriptorReads(t: Table, ad: nat, c: CaEntry)
    requires c.id < 0x10000 && |c.privateData| <= 251 && 0 <= Ddci(t, ad, c.pid) < 0x2000
    ensures var d := CaDescriptorOf(t, ad, c);
            && |d.data| == d.len && IsFullCa(d) && CaidOf(d) == c.id && EcmPid(d) == Ddci(t, ad, c.pid)
            && d.data[4..] == c.privateData
  {
  }

  /** Entry k is new to both lists built from the entries before it. */
  lemma EntryIsNew(t: Table, ad: nat, cas: seq<CaEntry>, k: nat)
    requires k < |cas| && CasOk(cas) && TableOk(t) && forall i :: 0 <= i < |cas| ==> IsMapped(t, ad, cas[i].pid)
    ensures 0 <= Ddci(t, ad, cas[k].pid) < MAX_PID
    ensures CaDescriptorsOf(t, ad, cas)[k] !in CaDescriptorsOf(t, ad, cas)[..k]
    ensures !HasCa(RenameCas(t, ad, cas)[..k], cas[k].id, Ddci(t, ad, cas[k].pid))
  {
    hide CaDescriptorOf, IsFullCa, EcmPid, CaidOf, Ddci, IsMapped, TableOk;
    var ds, rs := CaDescriptorsOf(t, ad, cas), RenameCas(t, ad, cas);
    DdciIsInjective(t, ad, cas[k].pid, 0);
    CaDescriptorReads(t, ad, cas[k]);
    forall i | 0 <= i < k ensures ds[i] != ds[k] && !(rs[i].id == cas[k].id && rs[i].pid == Ddci(t, ad, cas[k].pid)) {
      DdciIsInjective(t, ad, cas[i].pid, cas[k].pid);
      CaDescriptorReads(t, ad, cas[i]);
    }
  }

  /** Adding the descriptor of entry k appends the entry, renamed. */
  lemma EntryIsAdded(t: Table, ad: nat, cas: seq<CaEntry>, k: nat)
    requires k < |cas| && CasOk(cas) && TableOk(t) && forall i :: 0 <= i < |cas| ==> IsMapped(t, ad, cas[i].pid)
    ensures var ds, rs := CaDescriptorsOf(t, ad, cas), RenameCas(t, ad, cas);
            AddOne(ds[k], ds[..k], rs[..k]) == (ds[..k + 1], rs[..k + 1])
  {
    hide CaDescriptorOf, IsFullCa, EcmPid, CaidOf, Ddci, IsMapped, TableOk, HasCa;
    var ds, rs, c := CaDescriptorsOf(t, ad, cas), RenameCas(t, ad, cas), cas[k];
    EntryIsNew(t, ad, cas, k);
    CaDescriptorReads(t, ad, c);
    assert c.privateData[..|c.privateData|] == c.privateData;
    assert ds[..k] + [ds[k]] == ds[..k + 1] && rs[..k] + [rs[k]] == rs[..k + 1];
  }

  lemma {:induction false} FoldProgram(t: Table, ad: nat, cas: seq<CaEntry>, k: nat)
    requires k <= |cas| && CasOk(cas) && TableOk(t) && forall i :: 0 <= i < |cas| ==> IsMapped(t, ad, cas[i].pid)
    ensures Fold(CaDescriptorsOf(t, ad, cas)[k..], CaDescriptorsOf(t, ad, cas)[..k], RenameCas(t, ad, cas)[..k])
            == (CaDescriptorsOf(t, ad, cas), RenameCas(t, ad, cas))
    decreases |cas| - k
  {
    hide CaDescriptorOf, RenameCa, AddOne, CasOk, Ddci, IsMapped, TableOk;
    var ds, rs := CaDescriptorsOf(t, ad, cas), RenameCas(t, ad, cas);
    if k == |cas| {
      assert ds[..k] == ds && rs[..k] == rs;
    } else {
      EntryIsAdded(t, ad, cas, k);
      assert ds[k..][0] == ds[k] && ds[k..][1..] == ds[k + 1..];
      FoldProgram(t, ad, cas, k + 1);
    }
  }

  // ----- renamed descriptors -----

  lemma RenameReads(t: Table, ad: nat, d: Descriptor)
    requires IsFullCa(d) ==> 0 <= Ddci(t, ad, EcmPid(d)) < 0x2000
    ensures var r := RenameDescriptor(t, ad, d);
            && r.kind == d.kind && r.len == d.len && |r.data| == |d.data| && (IsFullCa(r) <==> IsFullCa(d))
            && (IsFullCa(d) ==> CaidOf(r) == CaidOf(d) && EcmPid(r) == Ddci(t, ad, EcmPid(d)))
  {
  }

  lemma RenameSeparates(t: Table, ad: nat, d: Descriptor, e: Descriptor)
    requires TableOk(t) && d != e
    requires IsFullCa(d) ==> IsMapped(t, ad, EcmPid(d))
    requires IsFullCa(e) ==> IsMapped(t, ad, EcmPid(e))
    ensures RenameDescriptor(t, ad, d) != RenameDescriptor(t, ad, e)
  {
    hide TableOk, IsMapped, Ddci;
    if IsFullCa(d) { DdciIsInjective(t, ad, EcmPid(d), 0); }
    if IsFullCa(e) { DdciIsInjective(t, ad, EcmPid(e), 0); }
    RenameReads(t, ad, d);
    RenameReads(t, ad, e);
    if IsFullCa(d) && IsFullCa(e) && RenameDescriptor(t, ad, d) == RenameDescriptor(t, ad, e) {
      DdciIsInjective(t, ad, EcmPid(d), EcmPid(e));
      SameAfterRename(t, ad, d, e);
    }
  }

  lemma SameAfterRename(t: Table, ad: nat, d: Descriptor, e: Descriptor)
    requires IsFullCa(d) && IsFullCa(e) && EcmPid(d) == EcmPid(e)
    requires RenameDescriptor(t, ad, d) == RenameDescriptor(t, ad, e)
    ensures d == e
  {
    hide Ddci;
    var r, q := RenameDescriptor(t, ad, d), RenameDescriptor(t, ad, e);
    assert r.data[0] == d.data[0] && r.data[1] == d.data[1] && r.data[4..] == d.data[4..];
    assert q.data[0] == e.data[0] && q.data[1] == e.data[1] && q.data[4..] == e.data[4..];
    assert r.data[2] / 0x20 == d.data[2] / 0x20 && q.data[2] / 0x20 == e.data[2] / 0x20;
    assert d.data[2] == e.data[2] && d.data[3] == e.data[3];
    assert d.data == [d.data[0], d.data[1], d.data[2], d.data[3]] + d.data[4..];
    assert e.data == [e.data[0], e.data[1], e.data[2], e.data[3]] + e.data[4..];
  }

  /** Renaming keeps descriptors apart, sizes, AC3 tags, and what the CA list knows. */
  lemma RenamedLoop(t: Table, ad: nat, ds: seq<Descriptor>, cas: seq<CaEntry>)
    requires TableOk(t) && Sized(ds) && NoRepeats(ds) && EcmsMapped(t, ad, ds)
    requires forall i :: 0 <= i < |ds| ==> Known(ds[i], cas)
    requires forall i :: 0 <= i < |cas| ==> IsMapped(t, ad, cas[i].pid)
    ensures var rs := RenameAll(t, ad, ds);
            && Sized(rs) && NoRepeats(rs) && (HasAc3(rs) <==> HasAc3(ds))
            && forall i :: 0 <= i < |rs| ==> Known(rs[i], RenameCas(t, ad, cas))
  {
    hide RenameDescriptor, IsFullCa, EcmPid, CaidOf, Ddci, IsMapped, TableOk;
    var rs := RenameAll(t, ad, ds);
    forall i | 0 <= i < |ds|
      ensures rs[i].kind == ds[i].kind && |rs[i].data| == rs[i].len && Known(rs[i], RenameCas(t, ad, cas))
    {
      KnownAfterRename(t, ad, ds[i], cas);
    }
    forall i, j | 0 <= i < j < |ds| ensures rs[i] != rs[j] {
      RenameSeparates(t, ad, ds[i], ds[j]);
    }
    Ac3ByKind(ds, rs);
  }

  lemma Ac3ByKind(a: seq<Descriptor>, b: seq<Descriptor>)
    requires |a| == |b| && forall i :: 0 <= i < |a| ==> a[i].kind == b[i].kind
    ensures HasAc3(a) <==> HasAc3(b)
  {
  }

  lemma KnownAfterRename(t: Table, ad: nat, d: Descriptor, cas: seq<CaEntry>)
    requires TableOk(t) && |d.data| == d.len && Known(d, cas) && (IsFullCa(d) ==> IsMapped(t, ad, EcmPid(d)))
    ensures var r := RenameDescriptor(t, ad, d);
            r.kind == d.kind && |r.data| == r.len && Known(r, RenameCas(t, ad, cas))
  {
    hide EcmPid, CaidOf, Ddci, IsMapped, TableOk, RenameDescriptor;
    var r := RenameDescriptor(t, ad, d);
    if IsFullCa(d) { DdciIsInjective(t, ad, EcmPid(d), 0); }
    RenameReads(t, ad, d);
    if IsFullCa(d) && HasCa(cas, CaidOf(d), EcmPid(d)) {
      var i :| 0 <= i < |cas| && cas[i].id == CaidOf(d) && cas[i].pid == EcmPid(d);
      var rs := RenameCas(t, ad, cas);
      assert rs[i].id == CaidOf(r) && rs[i].pid == EcmPid(r);
    }
  }

  // ----- the stream loop -----

  function RenameStreams(t: Table, ad: nat, streams: seq<StreamPid>): (r: seq<StreamPid>)
    ensures |r| == |streams| && forall i :: 0 <= i < |streams| ==> r[i] == RenameStream(t, ad, streams[i])
  {
    seq(|streams|, i requires 0 <= i < |streams| => RenameStream(t, ad, streams[i]))
  }

  lemma {:induction false} StreamLoopCons(t: Table, ad: nat, streams: seq<StreamPid>)
    requires streams != []
    ensures StreamLoopBytes(t, ad, streams) == StreamBytes(t, ad, streams[0]) + StreamLoopBytes(t, ad, streams[1..])
  {
    hide StreamBytes;
    var n := |streams| - 1;
    if n > 0 {
      StreamLoopCons(t, ad, streams[..n]);
      assert streams[..n][1..] == streams[1..][..n - 1];
    } else {
      assert streams[..0] == [] && streams[1..] == [];
    }
  }

  /** The head of one stream entry reads back. */
  lemma StreamHeadReads(b: Data, i: nat, t: Table, ad: nat, s: StreamPid)
    requires Holds(b, i, StreamBytes(t, ad, s)) && 0 <= Ddci(t, ad, s.pid) < 0x2000
    requires |LoopBytes(RenameAll(t, ad, s.descriptors))| < 0x1000
    ensures var es := LoopBytes(RenameAll(t, ad, s.descriptors));
            && At(b, i) == s.kind && Low13(b, i + 1) == Ddci(t, ad, s.pid) && Low12(b, i + 3) == |es|
            && Holds(b, i + 5, es) && |StreamBytes(t, ad, s)| == 5 + |es|
  {
    hide Ddci, RenameAll, LoopBytes, At, Word, Low12, Low13, Byte, Holds;
    var es := LoopBytes(RenameAll(t, ad, s.descriptors));
    var head := [s.kind] + Put16i(Ddci(t, ad, s.pid)) + Put16i(|es|);
    assert StreamBytes(t, ad, s) == head + es;
    HoldsParts(b, i, head, es);
    forall k | 0 <= k < 5 ensures At(b, i + k) == head[k] { HoldsAt(b, i, head, k); }
    assert At(b, i + 0) == head[0] && At(b, i + 1) == head[1] && At(b, i + 1 + 1) == head[2];
    assert At(b, i + 3) == head[3] && At(b, i + 3 + 1) == head[4];
    Put16Reads(b, i + 1, Ddci(t, ad, s.pid));
    Put16Reads(b, i + 3, |es|);
  }

  lemma StreamReads(b: Data, i: nat, t: Table, ad: nat, s: StreamPid, cas: seq<CaEntry>)
    requires Holds(b, i, StreamBytes(t, ad, s)) && TableOk(t) && StreamOk(s) && AllKnown(s, cas)
    requires IsMapped(t, ad, s.pid) && EcmsMapped(t, ad, s.descriptors)
    requires forall k :: 0 <= k < |cas| ==> IsMapped(t, ad, cas[k].pid)
    requires |LoopBytes(RenameAll(t, ad, s.descriptors))| < 0x1000
    ensures var esLen := Low12(b, i + 3); var r, rs := ReadStream(b, i), RenameAll(t, ad, s.descriptors);
            && r == RenameStream(t, ad, s).(descriptors := [])
            && (r.IsAv() ==> ParseDescriptors(b, i + 5, i + 5 + esLen, [], RenameCas(t, ad, cas)) == (rs, RenameCas(t, ad, cas)))
            && (!r.IsAv() ==> rs == [])
  {
    hide Ddci, RenameAll, LoopBytes, TableOk, IsMapped, Known, At, Word, Low12, Low13, Fold, Holds, StreamBytes, ParseDescriptors, RenameCa;
    DdciIsInjective(t, ad, s.pid, 0);
    StreamHeadReads(b, i, t, ad, s);
    RenamedLoop(t, ad, s.descriptors, cas);
    var rs := RenameAll(t, ad, s.descriptors);
    ParseListed(b, i + 5, rs, [], RenameCas(t, ad, cas));
    assert [] + rs == rs;
    FoldKeepsAll(rs, [], RenameCas(t, ad, cas));
  }

  ghost predicate LoopsFit(t: Table, ad: nat, streams: seq<StreamPid>) {
    forall i :: 0 <= i < |streams| ==> |LoopBytes(RenameAll(t, ad, streams[i].descriptors))| < 0x1000
  }

  function PcrLeft(t: Table, ad: nat, streams: seq<StreamPid>, pcr: nat): nat
    decreases |streams|
  {
    if streams == [] then pcr
    else PcrLeft(t, ad, streams[1..], if pcr == RenameStream(t, ad, streams[0]).pid then 0 else pcr)
  }

  lemma OneStreamRead(b: Data, i: nat, end: nat, t: Table, ad: nat, s: StreamPid, cas: seq<CaEntry>,
                      done: seq<StreamPid>, pcr: nat)
    requires Holds(b, i, StreamBytes(t, ad, s)) && i + |StreamBytes(t, ad, s)| <= end
    requires TableOk(t) && StreamOk(s) && AllKnown(s, cas) && IsMapped(t, ad, s.pid) && EcmsMapped(t, ad, s.descriptors)
    requires forall k :: 0 <= k < |cas| ==> IsMapped(t, ad, cas[k].pid)
    requires |LoopBytes(RenameAll(t, ad, s.descriptors))| < 0x1000
    ensures var r := RenameStream(t, ad, s);
            ParseStreams(b, i, end, Parsed(done, RenameCas(t, ad, cas), pcr, false))
            == ParseStreams(b, i + |StreamBytes(t, ad, s)|, end,
                            Parsed(done + [r], RenameCas(t, ad, cas), if pcr == r.pid then 0 else pcr, false))
  {
    hide TableOk, IsMapped, Ddci, StreamBytes, StreamOk, ReadStream, At, Word, EcmsMapped, AllKnown, ParseDescriptors;
    StreamReads(b, i, t, ad, s, cas);
    DdciIsInjective(t, ad, s.pid, 0);
    StreamHeadReads(b, i, t, ad, s);
  }

  lemma {:induction false} StreamsRead(b: Data, i: nat, end: nat, t: Table, ad: nat, streams: seq<StreamPid>,
                                       cas: seq<CaEntry>, done: seq<StreamPid>, pcr: nat)
    requires Holds(b, i, StreamLoopBytes(t, ad, streams)) && end == i + |StreamLoopBytes(t, ad, streams)|
    requires WellFormed(streams, cas) && Registered(t, ad, streams, cas) && LoopsFit(t, ad, streams)
    ensures ParseStreams(b, i, end, Parsed(done, RenameCas(t, ad, cas), pcr, false))
            == Parsed(done + RenameStreams(t, ad, streams), RenameCas(t, ad, cas), PcrLeft(t, ad, streams, pcr), false)
    decreases |streams|
  {
    hide WellFormed, Registered, LoopsFit, StreamBytes, StreamLoopBytes, RenameStream, RenameStreams, RenameCas, ParseStreams, Holds,
         IsMapped, EcmsMapped, StreamOk, AllKnown, TableOk, LoopBytes, RenameAll;
    if streams == [] {
      NoStreamBytes(t, ad);
      ParseNothing(b, i, Parsed(done, RenameCas(t, ad, cas), pcr, false));
      assert done + RenameStreams(t, ad, streams) == done;
    } else {
      var s := streams[0];
      StreamLoopCons(t, ad, streams);
      HoldsParts(b, i, StreamBytes(t, ad, s), StreamLoopBytes(t, ad, streams[1..]));
      HeadAndTail(t, ad, streams, cas);
      OneStreamRead(b, i, end, t, ad, s, cas, done, pcr);
      var r := RenameStream(t, ad, s);
      var left := if pcr == r.pid then 0 else pcr;
      StreamsRead(b, i + |StreamBytes(t, ad, s)|, end, t, ad, streams[1..], cas, done + [r], left);
      assert done + RenameStreams(t, ad, streams) == (done + [r]) + RenameStreams(t, ad, streams[1..]);
    }
  }

  lemma NoStreamBytes(t: Table, ad: nat)
    ensures StreamLoopBytes(t, ad, []) == []
  {
  }

  lemma ParseNothing(b: Data, i: nat, p: Parsed)
    ensures ParseStreams(b, i, i, p) == p
  {
  }

  /** What the conditions on a stream list say of its head and its tail. */
  lemma HeadAndTail(t: Table, ad: nat, streams: seq<StreamPid>, cas: seq<CaEntry>)
    requires streams != [] && WellFormed(streams, cas) && Registered(t, ad, streams, cas) && LoopsFit(t, ad, streams)
    ensures TableOk(t) && StreamOk(streams[0]) && AllKnown(streams[0], cas)
    ensures IsMapped(t, ad, streams[0].pid) && EcmsMapped(t, ad, streams[0].descriptors)
    ensures forall k :: 0 <= k < |cas| ==> IsMapped(t, ad, cas[k].pid)
    ensures |LoopBytes(RenameAll(t, ad, streams[0].descriptors))| < 0x1000
    ensures WellFormed(streams[1..], cas) && Registered(t, ad, streams[1..], cas) && LoopsFit(t, ad, streams[1..])
  {
  }

  ghost predicate IsRenamedPid(t: Table, ad: nat, streams: seq<StreamPid>, pid: int) {
    exists i :: 0 <= i < |streams| && RenameStream(t, ad, streams[i]).pid == pid
  }

  lemma {:induction false} PcrLeftIs(t: Table, ad: nat, streams: seq<StreamPid>, pcr: nat)
    ensures PcrLeft(t, ad, streams, pcr) == if IsRenamedPid(t, ad, streams, pcr) then 0 else pcr
    decreases |streams|
  {
    hide RenameStream;
    if streams != [] {
      var rest, p := streams[1..], RenameStream(t, ad, streams[0]).pid;
      if i :| 0 <= i < |streams| && RenameStream(t, ad, streams[i]).pid == pcr {
        assert i > 0 ==> rest[i - 1] == streams[i];
      }
      if i :| 0 <= i < |rest| && RenameStream(t, ad, rest[i]).pid == pcr { assert rest[i] == streams[i + 1]; }
      PcrLeftIs(t, ad, rest, if pcr == p then 0 else pcr);
    }
  }

  /** The stream the reader adds for the PCR pid of the slot, as 13 bits, when no stream carries it: nothing for the pids
      0 and 8191, and -1, of a slot that never had a PCR, reads as 8191. */
  ghost function ForeignPcr(t: Table, ad: nat, streams: seq<StreamPid>, slotPcr: int): seq<StreamPid> {
    var pcr := slotPcr % 0x2000;
    if 0 < pcr < 8191 && !IsRenamedPid(t, ad, streams, pcr) then [StreamPid(0, pcr, false, false, [])] else []
  }

  // ----- the whole section -----

  /** Where the parts of a section start. */
  lemma SectionParts(t: Table, ad: nat, sid: nat, ver: int, pcr: int, cas: seq<CaEntry>, streams: seq<StreamPid>, b: Data)
    requires Holds(b, 0, Section(t, ad, sid, ver, pcr, cas, streams))
    ensures var info := ProgramInfo(t, ad, cas);
            && Holds(b, 0, [0x02] + Put16i(13 + |info| + |StreamLoopBytes(t, ad, streams)|) + Put16i(sid)
                           + [Byte(ver * 2 + 1), 0, 0] + [0xE0 + pcr / 0x100 % 0x20, Byte(pcr)] + Put16i(|info|))
            && Holds(b, 12, info) && Holds(b, 12 + |info|, StreamLoopBytes(t, ad, streams))
  {
    hide ProgramInfo, StreamLoopBytes;
    var info, loop := ProgramInfo(t, ad, cas), StreamLoopBytes(t, ad, streams);
    var head := [0x02] + Put16i(13 + |info| + |loop|) + Put16i(sid)
                + [Byte(ver * 2 + 1), 0, 0] + [0xE0 + pcr / 0x100 % 0x20, Byte(pcr)] + Put16i(|info|);
    assert Section(t, ad, sid, ver, pcr, cas, streams) == head + (info + loop);
    HoldsParts(b, 0, head, info + loop);
    HoldsParts(b, 12, info, loop);
  }

  lemma PcrBytes(pcr: int)
    requires 0 <= pcr < 0x2000
    ensures Put16i(0xE000 + pcr) == [0xE0 + pcr / 0x100 % 0x20, Byte(pcr)] && (0xE000 + pcr) % 0x2000 == pcr
  {
    assert (0xE000 + pcr) / 0x100 == 0xE0 + pcr / 0x100 && pcr / 0x100 < 0x20;
  }

  /** A slot whose version was never set holds -1. */
  lemma VersionBits(ver: int)
    requires -1 <= ver < 0x20
    ensures Byte(ver * 2 + 1) % 0x40 / 2 == ver % 0x20
  {
    if ver >= 0 { assert Byte(ver * 2 + 1) == ver * 2 + 1; }
  }

  lemma SamePcrBytes(pcr: int)
    requires -1 <= pcr < 0x2000
    ensures pcr / 0x100 % 0x20 == pcr % 0x2000 / 0x100 % 0x20 && Byte(pcr) == Byte(pcr % 0x2000)
  {
    if pcr >= 0 { assert pcr % 0x2000 == pcr; }
  }

  lemma HeadReads(b: Data, length: nat, sid: nat, ver: int, pcr: int, piLen: nat)
    requires length < 0x1000 && piLen < 0x1000 && sid < 0x10000 && -1 <= ver < 0x20 && 0 <= pcr < 0x2000
    requires Holds(b, 0, [0x02] + Put16i(length) + Put16i(sid) + [Byte(ver * 2 + 1), 0, 0]
                         + [0xE0 + pcr / 0x100 % 0x20, Byte(pcr)] + Put16i(piLen))
    ensures At(b, 0) == 2 && Low12(b, 1) == length && Word(b, 3) == sid && At(b, 5) % 0x40 / 2 == ver % 0x20
    ensures Low13(b, 8) == pcr && Low12(b, 10) == piLen
  {
    hide At, Word, Low12, Low13, Byte, Holds;
    PcrBytes(pcr);
    VersionBits(ver);
    var h: Data := [0x02] + Put16i(length) + Put16i(sid) + [Byte(ver * 2 + 1), 0, 0]
             + Put16i(0xE000 + pcr) + Put16i(piLen);
    forall k | 0 <= k < 12 ensures At(b, k) == h[k] { HoldsAt(b, 0, h, k); }
    assert At(b, 1) == h[1] && At(b, 2) == h[2] && At(b, 3) == h[3] && At(b, 4) == h[4] && At(b, 5) == h[5];
    assert At(b, 8) == h[8] && At(b, 9) == h[9] && At(b, 10) == h[10] && At(b, 11) == h[11];
    Put16Reads(b, 1, length);
    Put16Reads(b, 3, sid);
    Put16Reads(b, 8, 0xE000 + pcr);
    Put16Reads(b, 10, piLen);
  }

  /** The regenerated section, followed by any CRC and whatever PCR pid its slot holds, parses to the PMT with its pids
      renamed: the same streams in the same order with the same kind, flags and descriptors, and the same CA list, every
      pid and every ECM pid inside a CA descriptor replaced by its DDCI pid; a PCR pid that is none of theirs adds a
      stream of its own. */
  lemma ParseWithSlotPcr(t: Table, ad: nat, sid: nat, ver: int, slotPcr: int, cas: seq<CaEntry>, streams: seq<StreamPid>,
                         crc: Data)
    requires WellFormed(streams, cas) && Registered(t, ad, streams, cas)
    requires sid < 0x10000 && -1 <= ver < 0x10 && -1 <= slotPcr < 0x2000
    requires |Section(t, ad, sid, ver, slotPcr, cas, streams)| + 4 <= 0xFFF + 3
    ensures var p := ParsePmt(Section(t, ad, sid, ver, slotPcr, cas, streams) + crc);
            && !p.cut && p.sid == sid && p.version == ver % 0x20 && p.pcr == slotPcr % 0x2000
            && p.content == PmtContent(CaDescriptorsOf(t, ad, cas),
                                       RenameStreams(t, ad, streams) + ForeignPcr(t, ad, streams, slotPcr),
                                       RenameCas(t, ad, cas))
  {
    hide WellFormed, Registered, Section, ParsePmt, ParseStreams, ParseDescriptors, At, Word, RenameStreams,
         RenameCas, CaDescriptorsOf, ProgramInfo, StreamLoopBytes, PcrLeft, CasOk, TableOk, IsMapped, LoopsFit,
         Holds, Low12, Low13, RenameStream, IsRenamedPid;
    var pcr := slotPcr % 0x2000;
    var section := Section(t, ad, sid, ver, slotPcr, cas, streams);
    var b := section + crc;
    SameSection(t, ad, sid, ver, slotPcr, cas, streams);
    HoldsAtStart(section, crc);
    ConditionsOf(t, ad, streams, cas);
    SectionParts(t, ad, sid, ver, pcr, cas, streams, b);
    var info, loop := ProgramInfo(t, ad, cas), StreamLoopBytes(t, ad, streams);
    SectionLength(t, ad, sid, ver, pcr, cas, streams);
    HeadReads(b, 13 + |info| + |loop|, sid, ver, pcr, |info|);
    ProgramReads(t, ad, cas, b);
    StreamLoopsAreShort(t, ad, streams);
    StreamsRead(b, 12 + |info|, 12 + |info| + |loop|, t, ad, streams, cas, [], pcr);
    assert [] + RenameStreams(t, ad, streams) == RenameStreams(t, ad, streams);
    PcrLeftIs(t, ad, streams, pcr);
    ParsePmtBy(b, 13 + |info| + |loop|, |info|, pcr, CaDescriptorsOf(t, ad, cas), RenameCas(t, ad, cas),
               Parsed(RenameStreams(t, ad, streams), RenameCas(t, ad, cas), PcrLeft(t, ad, streams, pcr), false));
  }

  lemma SameSection(t: Table, ad: nat, sid: nat, ver: int, pcr: int, cas: seq<CaEntry>, streams: seq<StreamPid>)
    requires -1 <= pcr < 0x2000
    ensures Section(t, ad, sid, ver, pcr, cas, streams) == Section(t, ad, sid, ver, pcr % 0x2000, cas, streams)
  {
    hide ProgramInfo, StreamLoopBytes;
    SamePcrBytes(pcr);
  }

  /** With the PCR among its streams, as a PMT is registered, nothing is added. */
  lemma ParseAfterGenerate(t: Table, ad: nat, sid: nat, ver: int, pcr: nat, cas: seq<CaEntry>, streams: seq<StreamPid>, crc: Data)
    requires WellFormed(streams, cas) && Registered(t, ad, streams, cas)
    requires sid < 0x10000 && -1 <= ver < 0x10
    requires exists i :: 0 <= i < |streams| && streams[i].pid == pcr
    requires |Section(t, ad, sid, ver, Ddci(t, ad, pcr), cas, streams)| + 4 <= 0xFFF + 3
    ensures var p := ParsePmt(Section(t, ad, sid, ver, Ddci(t, ad, pcr), cas, streams) + crc);
            && !p.cut && p.sid == sid && p.version == ver % 0x20 && p.pcr == Ddci(t, ad, pcr)
            && p.content == PmtContent(CaDescriptorsOf(t, ad, cas), RenameStreams(t, ad, streams), RenameCas(t, ad, cas))
  {
    hide WellFormed, Registered, Ddci, Section, ParsePmt, IsMapped, RenameStreams, IsRenamedPid, RenameCas, CaDescriptorsOf;
    ListedPcr(t, ad, streams, cas, pcr);
    ParseWithSlotPcr(t, ad, sid, ver, Ddci(t, ad, pcr), cas, streams, crc);
    assert RenameStreams(t, ad, streams) + [] == RenameStreams(t, ad, streams);
  }

  lemma ListedPcr(t: Table, ad: nat, streams: seq<StreamPid>, cas: seq<CaEntry>, pcr: nat)
    requires Registered(t, ad, streams, cas)
    requires exists i :: 0 <= i < |streams| && streams[i].pid == pcr
    ensures 0 <= Ddci(t, ad, pcr) < MAX_PID && IsRenamedPid(t, ad, streams, Ddci(t, ad, pcr))
  {
  }

  /** The parser's result from what it reads in the header and the two loops. */
  lemma ParsePmtBy(b: Data, pmtLen: nat, piLen: nat, pcr: nat, ds: seq<Descriptor>, cas0: seq<CaEntry>, p: Parsed)
    requires Low12(b, 1) == pmtLen && Low12(b, 10) == piLen && Low13(b, 8) == pcr && piLen < pmtLen
    requires (if piLen == 0 then ([], []) else ParseDescriptors(b, 12, 12 + piLen, [], [])) == (ds, cas0)
    requires ParseStreams(b, 12 + piLen, pmtLen - 1, Parsed([], cas0, pcr, false)) == p && p.pcr < 0x2000
    ensures ParsePmt(b) == PmtParse(Word(b, 3), At(b, 5) % 0x40 / 2, pcr,
                                    PmtContent(ds, p.streams + (if 0 < p.pcr < 8191 then [StreamPid(0, p.pcr, false, false, [])]
                                                                else []), p.cas), p.cut)
  {
    hide ParseStreams, ParseDescriptors, At, Word;
    assert p.streams + [] == p.streams;
  }

  lemma SectionLength(t: Table, ad: nat, sid: nat, ver: int, pcr: int, cas: seq<CaEntry>, streams: seq<StreamPid>)
    ensures |Section(t, ad, sid, ver, pcr, cas, streams)| == 12 + |ProgramInfo(t, ad, cas)| + |StreamLoopBytes(t, ad, streams)|
  {
  }

  lemma ConditionsOf(t: Table, ad: nat, streams: seq<StreamPid>, cas: seq<CaEntry>)
    requires WellFormed(streams, cas) && Registered(t, ad, streams, cas)
    ensures CasOk(cas) && TableOk(t) && (forall i :: 0 <= i < |cas| ==> IsMapped(t, ad, cas[i].pid))
  {
  }

  lemma ProgramReads(t: Table, ad: nat, cas: seq<CaEntry>, b: Data)
    requires CasOk(cas) && TableOk(t) && forall i :: 0 <= i < |cas| ==> IsMapped(t, ad, cas[i].pid)
    requires Holds(b, 12, ProgramInfo(t, ad, cas))
    ensures (if ProgramInfo(t, ad, cas) == [] then ([], []) else ParseDescriptors(b, 12, 12 + |ProgramInfo(t, ad, cas)|, [], []))
            == (CaDescriptorsOf(t, ad, cas), RenameCas(t, ad, cas))
  {
    hide TableOk, IsMapped, Ddci, CaDescriptorOf, RenameCa, ParseDescriptors, Fold, Holds, ProgramInfo, LoopBytes, IsFullCa, EcmPid, CaidOf;
    ProgramInfoIsLoop(t, ad, cas);
    var ds := CaDescriptorsOf(t, ad, cas);
    forall i | 0 <= i < |cas| ensures |ds[i].data| == ds[i].len {
      DdciIsInjective(t, ad, cas[i].pid, 0);
      CaDescriptorReads(t, ad, cas[i]);
    }
    ParseListed(b, 12, ds, [], []);
    FoldProgram(t, ad, cas, 0);
    assert ds[0..] == ds && ds[..0] == [] && RenameCas(t, ad, cas)[..0] == [];
    if ProgramInfo(t, ad, cas) == [] && cas != [] { LoopBytesCons(ds); }
  }

  lemma {:induction false} StreamLoopsAreShort(t: Table, ad: nat, streams: seq<StreamPid>)
    requires |StreamLoopBytes(t, ad, streams)| < 0x1000
    ensures LoopsFit(t, ad, streams)
  {
    hide LoopBytes, RenameAll, Ddci;
    if streams != [] {
      var n := |streams| - 1;
      StreamLoopsAreShort(t, ad, streams[..n]);
      assert forall i :: 0 <= i < n ==> streams[..n][i] == streams[i];
      assert |StreamBytes(t, ad, streams[n])| == 5 + |LoopBytes(RenameAll(t, ad, streams[n].descriptors))|;
    }
  }
}
