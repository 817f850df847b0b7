/** Pid requests of the SAT>IP client (src/satipc.cpp:1410-1459, 1742-1794) and their handling by the server
    (src/dvb.cpp:354-369): pending adds and deletes against the server's set. */
module PidDeltas {
  import opened PidText

  const MAX_PIDS: nat := 128

  // ----- the client -----

  /** The pending lists: apid and dpid. */
  datatype Deltas = Deltas(adds: seq<Pid>, dels: seq<Pid>)

  /** Remove entry i: the last entry takes its place. */
  function SwapRemove(s: seq<Pid>, i: nat): (r: seq<Pid>)
    requires i < |s|
    ensures |r| == |s| - 1
  {
    s[i := s[|s| - 1]][..|s| - 1]
  }

  function IndexOf(s: seq<Pid>, p: Pid): (i: nat)
    ensures i <= |s| && (i < |s| ==> s[i] == p) && (p in s <==> i < |s|) && p !in s[..i]
  {
    if s == [] || s[0] == p then 0
    else
      var i := IndexOf(s[1..], p);
      assert s[..1 + i] == [s[0]] + s[1..][..i];
      1 + i
  }

  /** satipc_set_pid. */
  function SetPid(d: Deltas, p: Pid): Deltas {
    var i := IndexOf(d.dels, p);
    if i < |d.dels| then d.(dels := SwapRemove(d.dels, i)) else d.(adds := d.adds + [p])
  }

  /** satipc_del_filters. */
  function DelPid(d: Deltas, p: Pid): Deltas {
    var i := IndexOf(d.adds, p);
    if i < |d.adds| then d.(adds := SwapRemove(d.adds, i)) else d.(dels := d.dels + [p])
  }

  /** What get_adapter_pids lists: up to the first "all pids". */
  function UpToAll(listed: seq<Pid>): seq<Pid> {
    if listed == [] then []
    else if listed[0] == ALL_PIDS then [ALL_PIDS]
    else [listed[0]] + UpToAll(listed[1..])
  }

  function AdapterText(listed: seq<Pid>): string { if listed == [] then "none" else Join(Names(UpToAll(listed)), ',') }

  const FIRST_PIDS: seq<Pid> := [0, 1, 2, 3, 4, 5, 6, 7, 8, 9, 10, 11, 12, 13, 14, 15, 16, 17, 18, 19, 20]

  /** "0,1,2" and so on up to 20. */
  function FirstPidsText(): string { Join(Numbers(FIRST_PIDS), ',') }

  /** The full list, spelled out for servers that do not know "all". */
  function FullText(listed: seq<Pid>, noPidsAll: bool): string {
    if AdapterText(listed) == "all" && noPidsAll then FirstPidsText() else AdapterText(listed)
  }

  /** Whether the request carries the full list. */
  predicate SendsFull(d: Deltas, listed: seq<Pid>, sendPids: bool, forcePids: bool) {
    sendPids || forcePids || (d.adds == [] && d.dels == []) || AdapterText(listed) == "all" || AdapterText(listed) == "none"
  }

  function AddsText(d: Deltas): string { if d.adds == [] then "" else "addpids=" + Join(Numbers(d.adds), ',') }

  function DelsText(d: Deltas): string { if d.dels == [] then "" else "delpids=" + Join(Numbers(d.dels), ',') }

  function DeltaText(d: Deltas): string {
    AddsText(d) + (if d.adds == [] || d.dels == [] then "" else "&") + DelsText(d)
  }

  /** What is left of the url buffer behind the tuning text: room for at least one character and the zero. */
  type Size = n: nat | 2 <= n witness 2

  function Clip(text: string, n: nat): (r: string)
    ensures |text| <= n ==> r == text
    ensures |text| > n ==> r == text[..n]
  {
    if |text| <= n then text else text[..n]
  }

  /** satipc_get_pids; the lists are empty afterwards. The full list loses what does not fit with its zero, the deltas
      what does not fit with their last comma and the zero. */
  function RequestText(d: Deltas, listed: seq<Pid>, sendPids: bool, forcePids: bool, noPidsAll: bool, size: Size): string {
    if SendsFull(d, listed, sendPids, forcePids) then Clip("pids=" + FullText(listed, noPidsAll), size - 1)
    else Clip(DeltaText(d), size - 2)
  }

  /** Whether the buffer holds the whole request. */
  predicate Fits(d: Deltas, listed: seq<Pid>, sendPids: bool, forcePids: bool, noPidsAll: bool, size: Size) {
    if SendsFull(d, listed, sendPids, forcePids) then |"pids=" + FullText(listed, noPidsAll)| < size
    else |DeltaText(d)| + 1 < size
  }

  // ----- the server -----

  function EqualsAt(s: string): (i: nat)
    ensures i <= |s| && '=' !in s[..i] && (i < |s| ==> s[i] == '=')
  {
    if s == "" || s[0] == '=' then 0
    else
      var i := EqualsAt(s[1..]);
      assert s[..1 + i] == [s[0]] + s[1..][..i];
      1 + i
  }

  function KeyOf(token: string): string { token[..EqualsAt(token)] }

  function ValOf(token: string): string { if EqualsAt(token) < |token| then token[EqualsAt(token) + 1..] else "" }

  function SetOf(ps: seq<int>): set<int> { set p | p in ps }

  /** One parameter of the query. */
  function HandleToken(pids: set<int>, token: string): set<int> {
    var parsed := SetOf(ParsePidsList(ValOf(token)));
    if KeyOf(token) == "pids" then parsed
    else if KeyOf(token) == "addpids" then pids + parsed
    else if KeyOf(token) == "delpids" then pids - parsed
    else pids
  }

  function HandleTokens(pids: set<int>, tokens: seq<string>): set<int> {
    if tokens == [] then pids else HandleToken(HandleTokens(pids, tokens[..|tokens| - 1]), tokens[|tokens| - 1])
  }

  /** What detect_dvb_parameters makes of the pid parameters of a query. */
  function HandleQuery(pids: set<int>, query: string): set<int> { HandleTokens(pids, Split(query, '&')) }

  // ----- reading back what was written -----

  lemma {:induction false} JoinIsPlain(ts: seq<string>)
    requires forall i :: 0 <= i < |ts| ==> IsToken(ts[i], ',') && IsToken(ts[i], '&') && '=' !in ts[i]
    ensures var s := Join(ts, ','); '=' !in s && (ts != [] ==> s != "") && forall i :: 0 <= i < |s| ==> !IsGap(s[i], '&')
    decreases |ts|
  {
    if |ts| > 1 { JoinIsPlain(ts[1..]); }
  }

  lemma NameIsPlain(p: Pid)
    ensures IsToken(Name(p), ',') && IsToken(Name(p), '&') && '=' !in Name(p)
  {
  }

  lemma {:induction false} EqualsAfterKey(key: string, val: string)
    requires '=' !in key
    ensures EqualsAt(key + "=" + val) == |key|
    decreases |key|
  {
    var t := key + "=" + val;
    if key != "" {
      assert t[1..] == key[1..] + "=" + val;
      EqualsAfterKey(key[1..], val);
    }
  }

  lemma KeyedToken(key: string, val: string)
    requires '=' !in key
    ensures KeyOf(key + "=" + val) == key && ValOf(key + "=" + val) == val
  {
    var t := key + "=" + val;
    EqualsAfterKey(key, val);
    assert t[..|key|] == key && t[|key| + 1..] == val;
  }

  lemma KeyedIsToken(key: string, val: string)
    requires IsToken(key, '&') && forall i :: 0 <= i < |val| ==> !IsGap(val[i], '&')
    ensures IsToken(key + "=" + val, '&')
  {
  }

  lemma HandleOne(pids: set<int>, token: string)
    ensures HandleTokens(pids, [token]) == HandleToken(pids, token)
  {
  }

  lemma OneToken(token: string, pids: set<int>)
    requires IsToken(token, '&')
    ensures HandleQuery(pids, token) == HandleToken(pids, token)
  {
    hide IsToken, Split, HandleToken;
    assert token + "" == token;
    SplitToken(token, "", '&');
    EmptySplit();
    assert Split(token, '&') == [token];
    HandleOne(pids, token);
  }

  lemma EmptySplit()
    ensures Split("", '&') == []
  {
  }

  lemma TwoTokens(a: string, b: string, pids: set<int>)
    requires IsToken(a, '&') && IsToken(b, '&')
    ensures HandleQuery(pids, a + "&" + b) == HandleToken(HandleToken(pids, a), b)
  {
    hide IsToken, Split, HandleToken;
    assert a + "&" + b == a + ("&" + b);
    SplitToken(a, "&" + b, '&');
    SkipGap(b);
    assert b + "" == b;
    SplitToken(b, "", '&');
    EmptySplit();
    assert Split(a + "&" + b, '&') == [a, b];
    assert [a, b][..1] == [a];
    HandleOne(pids, a);
  }

  lemma SkipGap(b: string)
    ensures Split("&" + b, '&') == Split(b, '&')
  {
  }

  /** A pid parameter with a list of numbers or names. */
  lemma ListParameter(key: string, ps: seq<Pid>, ts: seq<string>, pids: set<int>)
    requires |ts| == |ps| && ps != [] && forall i :: 0 <= i < |ps| ==> ts[i] == Name(ps[i]) || ts[i] == Digits(ps[i])
    requires key in {"pids", "addpids", "delpids"}
    ensures var token := key + "=" + Join(ts, ',');
            && IsToken(token, '&') && KeyOf(token) == key
            && SetOf(ParsePidsList(ValOf(token))) == SetOf(ps)
  {
    hide ParsePidsList, Join, Name, Digits, KeyOf, ValOf;
    forall i | 0 <= i < |ts| ensures IsToken(ts[i], ',') && IsToken(ts[i], '&') && '=' !in ts[i] {
      NameIsPlain(ps[i]);
      DigitsAreToken(ps[i]);
    }
    JoinIsPlain(ts);
    KeyedToken(key, Join(ts, ','));
    KeyedIsToken(key, Join(ts, ','));
    ListParses(ps, ts);
  }

  /** The server, told the pending lists, adds the ones and drops the others. */
  lemma DeltaTextIsHandled(d: Deltas, pids: set<int>)
    requires d.adds != [] || d.dels != []
    ensures HandleQuery(pids, DeltaText(d)) == pids + SetOf(d.adds) - SetOf(d.dels)
  {
    hide HandleQuery, ParsePidsList, Join, IsToken, KeyOf, ValOf;
    var a, b := "addpids=" + Join(Numbers(d.adds), ','), "delpids=" + Join(Numbers(d.dels), ',');
    assert a == "addpids" + "=" + Join(Numbers(d.adds), ',') && b == "delpids" + "=" + Join(Numbers(d.dels), ',');
    if d.adds != [] { ListParameter("addpids", d.adds, Numbers(d.adds), pids); }
    if d.dels != [] { ListParameter("delpids", d.dels, Numbers(d.dels), pids); }
    if d.adds == [] {
      assert DeltaText(d) == b;
      OneToken(b, pids);
    } else if d.dels == [] {
      assert DeltaText(d) == a;
      OneToken(a, pids);
    } else {
      assert DeltaText(d) == a + "&" + b;
      TwoTokens(a, b, pids);
    }
  }

  /** What the server holds after the full list. */
  function AfterFull(listed: seq<Pid>, noPidsAll: bool): set<int> {
    if listed != [] && listed[0] == ALL_PIDS && noPidsAll then SetOf(FIRST_PIDS) else SetOf(UpToAll(listed))
  }

  lemma AllIsFirst(listed: seq<Pid>)
    ensures AdapterText(listed) == "all" <==> listed != [] && listed[0] == ALL_PIDS
    ensures AdapterText(listed) == "none" <==> listed == []
  {
  }

  lemma WordsParse()
    ensures ParsePidsList("all") == [ALL_PIDS] && ParsePidsList("none") == []
  {
  }

  lemma NoneToken()
    ensures IsToken("pids=none", '&') && KeyOf("pids=none") == "pids" && ValOf("pids=none") == "none"
  {
    assert "pids=none" == "pids" + "=" + "none";
    KeyedToken("pids", "none");
  }

  /** The server after the full list. */
  lemma FullTextIsHandled(listed: seq<Pid>, noPidsAll: bool, pids: set<int>)
    ensures HandleQuery(pids, "pids=" + FullText(listed, noPidsAll)) == AfterFull(listed, noPidsAll)
  {
    hide HandleQuery, ParsePidsList, Join, IsToken, KeyOf, ValOf, Names, Numbers;
    AllIsFirst(listed);
    if listed == [] {
      NoneToken();
      WordsParse();
      OneToken("pids=none", pids);
      assert "pids=" + FullText(listed, noPidsAll) == "pids=none";
    } else if listed[0] == ALL_PIDS && noPidsAll {
      ListParameter("pids", FIRST_PIDS, Numbers(FIRST_PIDS), pids);
      assert "pids=" + FirstPidsText() == "pids" + "=" + Join(Numbers(FIRST_PIDS), ',');
      OneToken("pids=" + FirstPidsText(), pids);
    } else {
      var ps := UpToAll(listed);
      ListParameter("pids", ps, Names(ps), pids);
      assert "pids=" + AdapterText(listed) == "pids" + "=" + Join(Names(ps), ',');
      OneToken("pids=" + AdapterText(listed), pids);
    }
  }

  // ----- when the full list is true to the adapter -----

  ghost predicate NoDup(s: seq<Pid>) { forall i, j | 0 <= i < j < |s| :: s[i] != s[j] }

  /** "All pids" is absent or listed last, and not on its own for a server that does not know it. */
  predicate Faithful(listed: seq<Pid>, noPidsAll: bool) {
    && (ALL_PIDS in listed ==> listed[|listed| - 1] == ALL_PIDS)
    && !(noPidsAll && listed != [] && listed[0] == ALL_PIDS)
  }

  lemma {:induction false} UpToAllIs(listed: seq<Pid>)
    requires NoDup(listed)
    ensures var u := UpToAll(listed);
            && u <= listed && (ALL_PIDS !in listed ==> u == listed)
            && (ALL_PIDS in listed ==> u != [] && u[|u| - 1] == ALL_PIDS)
    decreases |listed|
  {
    if listed != [] && listed[0] != ALL_PIDS {
      UpToAllIs(listed[1..]);
      assert listed == [listed[0]] + listed[1..];
    }
  }

  /** The server holds the adapter's pids after the full list exactly when the list is faithful. */
  lemma FullListIsExactIff(listed: seq<Pid>, noPidsAll: bool)
    requires NoDup(listed)
    ensures AfterFull(listed, noPidsAll) == SetOf(listed) <==> Faithful(listed, noPidsAll)
  {
    hide UpToAll;
    UpToAllIs(listed);
    if listed != [] {
      var u, last := UpToAll(listed), listed[|listed| - 1];
      if noPidsAll && listed[0] == ALL_PIDS {
        assert ALL_PIDS in SetOf(listed) && ALL_PIDS !in SetOf(FIRST_PIDS);
      } else {
        FirstIsKept(listed);
        if ALL_PIDS in listed {
          if last == ALL_PIDS {
            assert listed[|u| - 1] == ALL_PIDS;
            assert u == listed;
          } else {
            assert last in SetOf(listed);
            assert last !in u;
          }
        }
      }
    }
  }

  /** An adapter that opened "all pids" before another pid: the server is left without the other one. */
  lemma AllFirstLosesAPid()
    ensures AfterFull([ALL_PIDS, 100], false) == {ALL_PIDS} != SetOf([ALL_PIDS, 100])
  {
    assert 100 in SetOf([ALL_PIDS, 100]) && ALL_PIDS in [ALL_PIDS];
  }

  lemma FirstIsKept(listed: seq<Pid>)
    requires listed != []
    ensures UpToAll(listed) != [] && UpToAll(listed)[0] == listed[0]
  {
  }

  // ----- the pending lists over any run -----

  /** The pending lists are exactly the difference between the client's pids and the server's. */
  ghost predicate Exact(d: Deltas, client: set<int>, server: set<int>) {
    && NoDup(d.adds) && NoDup(d.dels)
    && SetOf(d.adds) == client - server && SetOf(d.dels) == server - client
  }

  lemma SwapRemoveIs(s: seq<Pid>, i: nat)
    requires NoDup(s) && i < |s|
    ensures NoDup(SwapRemove(s, i)) && SetOf(SwapRemove(s, i)) == SetOf(s) - {s[i]}
  {
    var r, n := SwapRemove(s, i), |s| - 1;
    forall p | p in s && p != s[i] ensures p in r {
      var j :| 0 <= j < |s| && s[j] == p;
      assert r[if j == n then i else j] == p;
    }
  }

  lemma {:induction false} NoDupSize(s: seq<Pid>)
    requires NoDup(s)
    ensures |SetOf(s)| == |s|
  {
    if s != [] {
      var n := |s| - 1;
      NoDupSize(s[..n]);
      assert SetOf(s) == SetOf(s[..n]) + {s[n]};
    }
  }

  lemma SetPidKeepsExact(d: Deltas, client: set<int>, server: set<int>, p: Pid)
    requires Exact(d, client, server) && p !in client
    ensures Exact(SetPid(d, p), client + {p}, server)
  {
    hide SwapRemove, IndexOf;
    var i := IndexOf(d.dels, p);
    assert p !in SetOf(d.adds);
    if i < |d.dels| {
      SwapRemoveIs(d.dels, i);
      assert p in SetOf(d.dels);
    } else {
      assert p !in SetOf(d.dels);
      AppendIs(d.adds, p);
    }
  }

  lemma DelPidKeepsExact(d: Deltas, client: set<int>, server: set<int>, p: Pid)
    requires Exact(d, client, server) && p in client
    ensures Exact(DelPid(d, p), client - {p}, server)
  {
    hide SwapRemove, IndexOf;
    var i := IndexOf(d.adds, p);
    assert p !in SetOf(d.dels);
    if i < |d.adds| {
      SwapRemoveIs(d.adds, i);
      assert p in SetOf(d.adds);
    } else {
      assert p !in SetOf(d.adds);
      AppendIs(d.dels, p);
    }
  }

  lemma AppendIs(s: seq<Pid>, p: Pid)
    requires NoDup(s) && p !in s
    ensures NoDup(s + [p]) && SetOf(s + [p]) == SetOf(s) + {p}
  {
  }

  /** The client's pids, the server's, and what is pending between them. */
  datatype Link = Link(d: Deltas, client: set<int>, server: set<int>)

  datatype Op =
    | OpSet(p: Pid)
    | OpDel(p: Pid)
    | OpRequest(listed: seq<Pid>, sendPids: bool, forcePids: bool, noPidsAll: bool, size: Size)

  function Apply(l: Link, op: Op): Link {
    match op
    case OpSet(p) => Link(SetPid(l.d, p), l.client + {p}, l.server)
    case OpDel(p) => Link(DelPid(l.d, p), l.client - {p}, l.server)
    case OpRequest(listed, sendPids, forcePids, noPidsAll, size) =>
      var text := RequestText(l.d, listed, sendPids, forcePids, noPidsAll, size);
      Link(Deltas([], []), l.client, HandleQuery(l.server, text))
  }

  /** Sets and deletes alternate per pid within the adapter's table, and a request carries the adapter's own list,
      which when sent in full is faithful, and fits its buffer. */
  ghost predicate Allowed(l: Link, op: Op) {
    match op
    case OpSet(p) => p !in l.client && |l.client| < MAX_PIDS
    case OpDel(p) => p in l.client
    case OpRequest(listed, sendPids, forcePids, noPidsAll, size) =>
      && NoDup(listed) && SetOf(listed) == l.client
      && Fits(l.d, listed, sendPids, forcePids, noPidsAll, size)
      && (SendsFull(l.d, listed, sendPids, forcePids) ==> Faithful(listed, noPidsAll))
  }

  ghost predicate Good(l: Link) {
    Exact(l.d, l.client, l.server) && |l.client| <= MAX_PIDS && |l.server| <= MAX_PIDS
  }

  /** A delivered request makes the server's set the client's, whichever form it takes. */
  lemma RequestSettles(l: Link, op: Op)
    requires Good(l) && op.OpRequest? && Allowed(l, op)
    ensures Apply(l, op).server == l.client && Good(Apply(l, op))
  {
    hide HandleQuery, RequestText, Fits, SendsFull, FullText, DeltaText, AfterFull, AdapterText;
    if SendsFull(l.d, op.listed, op.sendPids, op.forcePids) {
      FullForm(l.d, op);
      FullTextIsHandled(op.listed, op.noPidsAll, l.server);
      FullListIsExactIff(op.listed, op.noPidsAll);
    } else {
      DeltaForm(l.d, op);
      DeltaTextIsHandled(l.d, l.server);
    }
  }

  /** A request carries the full list when it is asked to, when nothing is pending, and when the adapter has no pid or all
      pids first; otherwise it carries the deltas. */
  lemma RequestForm(d: Deltas, listed: seq<Pid>, sendPids: bool, forcePids: bool, noPidsAll: bool, size: Size)
    requires size > 6
    ensures var text := RequestText(d, listed, sendPids, forcePids, noPidsAll, size);
            |text| >= 5
            && (text[..5] == "pids=" <==>
                  sendPids || forcePids || (d.adds == [] && d.dels == []) || listed == [] || listed[0] == 8192)
  {
    hide Join, Numbers, FullText, AdapterText;
    AllIsFirst(listed);
    if SendsFull(d, listed, sendPids, forcePids) {
      var text := "pids=" + FullText(listed, noPidsAll);
      assert text[..5] == "pids=";
      assert Clip(text, size - 1)[..5] == text[..5];
    } else {
      DeltaStarts(d);
      assert Clip(DeltaText(d), size - 2)[..5] == DeltaText(d)[..5];
    }
  }

  lemma DeltaStarts(d: Deltas)
    requires d.adds != [] || d.dels != []
    ensures |DeltaText(d)| >= 8 && DeltaText(d)[..5] != "pids="
  {
    hide Join, Numbers;
    assert DeltaText(d)[..5][0] == DeltaText(d)[0] && DeltaText(d)[0] in {'a', 'd'} && "pids="[0] == 'p';
  }

  lemma FullForm(d: Deltas, op: Op)
    requires op.OpRequest? && SendsFull(d, op.listed, op.sendPids, op.forcePids)
    requires Fits(d, op.listed, op.sendPids, op.forcePids, op.noPidsAll, op.size)
    ensures RequestText(d, op.listed, op.sendPids, op.forcePids, op.noPidsAll, op.size)
            == "pids=" + FullText(op.listed, op.noPidsAll)
  {
  }

  lemma DeltaForm(d: Deltas, op: Op)
    requires op.OpRequest? && !SendsFull(d, op.listed, op.sendPids, op.forcePids)
    requires Fits(d, op.listed, op.sendPids, op.forcePids, op.noPidsAll, op.size)
    ensures RequestText(d, op.listed, op.sendPids, op.forcePids, op.noPidsAll, op.size) == DeltaText(d)
    ensures d.adds != [] || d.dels != []
  {
  }

  lemma ApplyKeepsGood(l: Link, op: Op)
    requires Good(l) && Allowed(l, op)
    ensures Good(Apply(l, op))
  {
    hide HandleQuery, RequestText, Fits, SetPid, DelPid, Exact, Faithful, SendsFull;
    match op {
      case OpSet(p) => SetPidKeepsExact(l.d, l.client, l.server, p);
      case OpDel(p) => DelPidKeepsExact(l.d, l.client, l.server, p);
      case OpRequest(_, _, _, _, _) => RequestSettles(l, op);
    }
  }

  function Run(l: Link, ops: seq<Op>): Link {
    if ops == [] then l else Apply(Run(l, ops[..|ops| - 1]), ops[|ops| - 1])
  }

  /** Every operation of the run is allowed where it happens. */
  ghost predicate AllAllowed(l: Link, ops: seq<Op>) { forall i | 0 <= i < |ops| :: Allowed(Run(l, ops[..i]), ops[i]) }

  lemma {:induction false} RunKeepsGood(l: Link, ops: seq<Op>)
    requires Good(l) && AllAllowed(l, ops)
    ensures Good(Run(l, ops))
    decreases |ops|
  {
    hide Good, Allowed, Apply;
    if ops != [] {
      var n := |ops| - 1;
      assert AllAllowed(l, ops[..n]) by {
        forall i | 0 <= i < n ensures Allowed(Run(l, ops[..n][..i]), ops[..n][i]) {
          assert ops[..n][..i] == ops[..i];
        }
      }
      RunKeepsGood(l, ops[..n]);
      ApplyKeepsGood(Run(l, ops[..n]), ops[n]);
    }
  }

  /** At every moment of every run the server's pids plus the pending adds minus the pending deletes are the
      client's pids; the lists are disjoint, free of duplicates, and fit their arrays. */
  lemma PendingIsTheDifference(l: Link, ops: seq<Op>)
    requires Good(l) && AllAllowed(l, ops)
    ensures var r := Run(l, ops);
            && r.server + SetOf(r.d.adds) - SetOf(r.d.dels) == r.client && SetOf(r.d.adds) !! SetOf(r.d.dels)
            && NoDup(r.d.adds) && NoDup(r.d.dels) && |r.d.adds| <= MAX_PIDS && |r.d.dels| <= MAX_PIDS
  {
    hide NoDup, Run, AllAllowed;
    RunKeepsGood(l, ops);
    var r := Run(l, ops);
    NoDupSize(r.d.adds);
    NoDupSize(r.d.dels);
    SubsetSize(r.client - r.server, r.client);
    SubsetSize(r.server - r.client, r.server);
  }

  lemma SubsetSize(a: set<int>, b: set<int>)
    requires a <= b
    ensures |a| <= |b|
  {
    assert b == a + (b - a);
  }
}
