/** The PMT election (src/pmt.cpp:1021-1333): which programs of an adapter own its pids.
    `Env` is what an election only reads (subscriptions and parsed PMTs); `Claims` is what it changes:
    the owner field of every pid slot and the state of every PMT. */
module ElectionSpec {
  import opened PmtData
  import opened StreamMatch

  const UINT32_MAX: nat := 0xFFFFFFFF
  const MAX_STREAMS: int := 256
  const DDCI_SID: int := 257

  /** The parts of SPid an election reads. */
  datatype Slot = Slot(active: bool, pid: Pid, sids: set<int>, order: nat)

  datatype Pmt = Pmt(enabled: bool, pid: Pid, content: PmtContent)

  datatype PmtState = Stopped | Starting | Running | Stopping | Cached

  datatype Env = Env(isCi: bool, slots: seq<Slot>, pmts: seq<Pmt>, listed: seq<int>)
  {
    /** `get_pmt` finds this id. */
    predicate Live(id: int) { 0 <= id < |pmts| && pmts[id].enabled }

    ghost predicate Valid() {
      forall i, j :: 0 <= i < j < |listed| ==> listed[i] != listed[j]
    }
  }

  datatype Claims = Claims(owner: seq<int>, state: seq<PmtState>)
  {
    predicate Fits(env: Env) { |owner| == |env.slots| && |state| == |env.pmts| }
  }

  // ----- subscriptions and ranks -----

  predicate HasClient(slot: Slot) { exists sid :: sid in slot.sids && 0 <= sid < MAX_STREAMS }

  predicate PidSubscribed(isCi: bool, slot: Slot) {
    (isCi && DDCI_SID in slot.sids) || HasClient(slot)
  }

  /** Index of the last ACTIVE slot of this pid, -1 if there is none. */
  function ActiveSlot(slots: seq<Slot>, pid: Pid): (i: int)
    ensures -1 <= i < |slots|
    ensures i >= 0 ==> slots[i].active && slots[i].pid == pid
  {
    if slots == [] then -1
    else if slots[|slots| - 1].active && slots[|slots| - 1].pid == pid then |slots| - 1
    else ActiveSlot(slots[..|slots| - 1], pid)
  }

  predicate Subscribed(env: Env, i: int) {
    0 <= i < |env.slots| && PidSubscribed(env.isCi, env.slots[i])
  }

  predicate ClientHas(env: Env, pid: Pid) {
    var i := ActiveSlot(env.slots, pid);
    i >= 0 && HasClient(env.slots[i])
  }

  function CountStreams(env: Env, streams: seq<StreamPid>): (n: nat)
    ensures n <= |streams|
  {
    if streams == [] then 0
    else CountStreams(env, streams[..|streams| - 1]) + if ClientHas(env, streams[|streams| - 1].pid) then 1 else 0
  }

  function CountCas(env: Env, cas: seq<CaEntry>): (n: nat)
    ensures n <= |cas|
  {
    if cas == [] then 0
    else CountCas(env, cas[..|cas| - 1]) + if ClientHas(env, cas[|cas| - 1].pid) then 1 else 0
  }

  function Percent(matched: nat, total: nat): nat { if total == 0 then 0 else matched * 100 / total }

  function Completeness(env: Env, content: PmtContent): nat {
    Percent(CountStreams(env, content.streams) + CountCas(env, content.cas), |content.streams| + |content.cas|)
  }

  function OrderOf(env: Env, pid: Pid): nat {
    var i := ActiveSlot(env.slots, pid);
    if i >= 0 && env.slots[i].order != 0 then env.slots[i].order else UINT32_MAX
  }

  predicate ChoiceOutranks(order: nat, pct: nat, rOrder: nat, rPct: nat) {
    if order != rOrder then order < rOrder else pct > rPct
  }

  predicate Outranks(env: Env, a: int, b: int) {
    env.Live(a) && env.Live(b)
    && ChoiceOutranks(OrderOf(env, env.pmts[a].pid), Completeness(env, env.pmts[a].content),
                      OrderOf(env, env.pmts[b].pid), Completeness(env, env.pmts[b].content))
  }

  // ----- candidates, sort, duplicates -----

  predicate HasSubscribedAv(env: Env, content: PmtContent) {
    exists k :: 0 <= k < |content.streams| && content.streams[k].IsAv()
                && Subscribed(env, ActiveSlot(env.slots, content.streams[k].pid))
  }

  predicate IsStartCandidate(env: Env, c: Claims, id: int)
    requires c.Fits(env)
  {
    && env.Live(id)
    && (c.state[id] == Running || Subscribed(env, ActiveSlot(env.slots, env.pmts[id].pid)))
    && HasSubscribedAv(env, env.pmts[id].content)
  }

  function Filter(s: seq<int>, keep: int -> bool): (r: seq<int>)
    ensures forall x :: x in r <==> x in s && keep(x)
  {
    if s == [] then []
    else
      var n := |s| - 1;
      var r := Filter(s[..n], keep);
      if keep(s[n]) then r + [s[n]] else r
  }

  function Candidates(env: Env, c: Claims): seq<int>
    requires c.Fits(env)
  {
    Filter(env.listed, id => IsStartCandidate(env, c, id))
  }

  /** Insertion behind everything that outranks x, before everything else: ties keep their order. */
  function Insert(env: Env, x: int, s: seq<int>): seq<int> {
    if s == [] || !Outranks(env, s[0], x) then [x] + s else [s[0]] + Insert(env, x, s[1..])
  }

  /** `std::stable_sort` by rank. */
  function StableSort(env: Env, s: seq<int>): seq<int> {
    if s == [] then [] else Insert(env, s[0], StableSort(env, s[1..]))
  }

  ghost predicate SamePmt(env: Env, a: int, b: int) {
    env.Live(a) && env.Live(b) && SameStreams(env.pmts[a].content, env.pmts[b].content)
  }

  ghost function WithoutCopies(env: Env, x: int, s: seq<int>): seq<int> {
    Filter(s, y => !SamePmt(env, x, y))
  }

  /** Drop every member that duplicates an earlier kept one. */
  ghost function Dedupe(env: Env, s: seq<int>): seq<int>
    decreases |s|
  {
    if s == [] then []
    else
      FilterShrinks(s[1..], y => !SamePmt(env, s[0], y));
      [s[0]] + Dedupe(env, WithoutCopies(env, s[0], s[1..]))
  }

  lemma {:induction false} FilterShrinks(s: seq<int>, keep: int -> bool)
    ensures |Filter(s, keep)| <= |s|
  {
    if s != [] { FilterShrinks(s[..|s| - 1], keep); }
  }

  ghost function Elected(env: Env, c: Claims): seq<int>
    requires c.Fits(env)
  {
    Dedupe(env, StableSort(env, Candidates(env, c)))
  }

  // ----- stop pass and claim pass -----

  predicate IsStarted(s: PmtState) { s == Running || s == Starting }

  /** Stop the PMTs in `ids`, releasing exactly their claims. */
  ghost function StopAll(c: Claims, ids: iset<int>): (r: Claims)
    ensures |r.owner| == |c.owner| && |r.state| == |c.state|
  {
    Claims(seq(|c.owner|, i requires 0 <= i < |c.owner| => if c.owner[i] in ids then -1 else c.owner[i]),
           seq(|c.state|, p requires 0 <= p < |c.state| => if p in ids then Stopped else c.state[p]))
  }

  ghost function Unelected(env: Env, c: Claims, elected: seq<int>): iset<int>
    requires c.Fits(env)
  {
    iset id | id in env.listed && env.Live(id) && IsStarted(c.state[id]) && id !in elected
  }

  /** PMT id lists the pid of slot i, and slot i is the one the election looks at for that pid. */
  predicate Lists(env: Env, id: int, i: int) {
    env.Live(id) && exists k :: 0 <= k < |env.pmts[id].content.streams|
                                && ActiveSlot(env.slots, env.pmts[id].content.streams[k].pid) == i
  }

  predicate ListsAsAv(env: Env, id: int, i: int) {
    env.Live(id) && exists k :: 0 <= k < |env.pmts[id].content.streams| && env.pmts[id].content.streams[k].IsAv()
                                && ActiveSlot(env.slots, env.pmts[id].content.streams[k].pid) == i
  }

  /** In the claim pass PMT id takes slot i from whoever holds it. */
  predicate Takes(env: Env, owner: seq<int>, id: int, i: int)
    requires |owner| == |env.slots|
  {
    && Subscribed(env, i) && owner[i] != id && Lists(env, id, i)
    && (env.Live(owner[i]) ==> Outranks(env, id, owner[i]))
  }

  function Taken(env: Env, owner: seq<int>, id: int): (r: seq<int>)
    requires |owner| == |env.slots|
    ensures |r| == |owner|
  {
    seq(|owner|, i requires 0 <= i < |owner| => if Takes(env, owner, id, i) then id else owner[i])
  }

  ghost predicate HoldsAv(env: Env, owner: seq<int>, id: int)
    requires |owner| == |env.slots|
  {
    exists i :: 0 <= i < |owner| && owner[i] == id && Subscribed(env, i) && ListsAsAv(env, id, i)
  }

  /** One member's turn in the claim pass. */
  ghost function Turn(env: Env, c: Claims, id: int): (r: Claims)
    requires c.Fits(env)
    ensures r.Fits(env)
  {
    if !env.Live(id) then c
    else
      var c1 := c.(owner := Taken(env, c.owner, id));
      if HoldsAv(env, c1.owner, id) then
        c1.(state := c.state[id := if c.state[id] == Stopped || c.state[id] == Starting then Running else c.state[id]])
      else if IsStarted(c.state[id]) then StopAll(c1, iset{id})
      else c1
  }

  ghost function ClaimPass(env: Env, c: Claims, elected: seq<int>): (r: Claims)
    requires c.Fits(env)
    ensures r.Fits(env)
    decreases |elected|
  {
    if elected == [] then c else
      var n := |elected| - 1;
      Turn(env, ClaimPass(env, c, elected[..n]), elected[n])
  }

  ghost function AfterStops(env: Env, c: Claims): (r: Claims)
    requires c.Fits(env)
    ensures r.Fits(env)
  {
    StopAll(c, Unelected(env, c, Elected(env, c)))
  }

  ghost function Elect(env: Env, c: Claims): (r: Claims)
    requires c.Fits(env)
    ensures r.Fits(env)
  {
    ClaimPass(env, AfterStops(env, c), Elected(env, c))
  }
}
