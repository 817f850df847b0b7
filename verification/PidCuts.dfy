/** Pid requests longer than their buffer (src/utils.h:139-151, src/satipc.cpp:1742-1796): strlcatf drops what does not
    fit and the pending lists are emptied all the same. */
module PidCuts {
  import opened PidText
  import opened PidDeltas

  // ----- a pid list that lost its end -----

  /** A list is cut behind whole tokens and a part of the next one. */
  lemma {:induction false} CutPoint(ts: seq<string>, n: nat) returns (k: nat, m: nat)
    requires n < |Join(ts, ',')|
    ensures k < |ts| && m <= |ts[k]| && (m == |ts[k]| ==> k + 1 < |ts|)
    ensures Join(ts, ',')[..n] == Appended(ts[..k], ',') + ts[k][..m]
    decreases |ts|
  {
    if n < |ts[0]| || (n == |ts[0]| && |ts| > 1) {
      k, m := 0, n;
      assert ts[..0] == [];
    } else {
      var n' := n - |ts[0]| - 1;
      var k', m' := CutPoint(ts[1..], n');
      k, m := k' + 1, m';
      assert ts[..k][1..] == ts[1..][..k'];
      AppendedCons(ts[..k], ',');
      assert Join(ts, ',')[..n] == ts[0] + "," + Join(ts[1..], ',')[..n'];
    }
  }

  lemma {:induction false} SplitAppended(ts: seq<string>, t: string)
    requires (forall i :: 0 <= i < |ts| ==> IsToken(ts[i], ',')) && (t == "" || IsToken(t, ','))
    ensures Split(Appended(ts, ',') + t, ',') == ts + if t == "" then [] else [t]
    decreases |ts|
  {
    hide IsToken;
    if ts == [] {
      assert "" + t == t == t + "";
      if t != "" { SplitToken(t, "", ','); }
    } else {
      AppendedCons(ts, ',');
      var rest := Appended(ts[1..], ',') + t;
      assert Appended(ts, ',') + t == ts[0] + ("," + rest);
      SplitToken(ts[0], "," + rest, ',');
      assert ("," + rest)[1..] == rest;
      SplitAppended(ts[1..], t);
      assert ts == [ts[0]] + ts[1..];
    }
  }

  /** The words "all" and "none" read the same as entries. */
  lemma ListIsEntries(val: string)
    ensures ParsePidsList(val) == ParseEntries(Split(val, ','))
  {
    WordsSplit();
    AllParses();
  }

  /** The first digits of a number are a smaller number. */
  lemma {:induction false} DigitsPrefix(n: nat, m: nat) returns (q: nat)
    requires 0 < m < |Digits(n)|
    ensures q < n && Digits(n)[..m] == Digits(q)
  {
    if m == |Digits(n)| - 1 {
      q := n / 10;
    } else {
      q := DigitsPrefix(n / 10, m);
    }
  }

  lemma PartOfName(p: Pid, t: string, m: nat)
    requires (t == Name(p) || t == Digits(p)) && 0 < m < |t|
    ensures p !in ParseEntry(t[..m])
  {
    if t == Digits(p) {
      var q := DigitsPrefix(p, m);
      NameParses(q);
    }
  }

  /** A list that lost its end lacks one of its pids. */
  lemma CutList(ps: seq<Pid>, ts: seq<string>, n: nat) returns (p: Pid)
    requires |ts| == |ps| && NoDup(ps) && forall i :: 0 <= i < |ps| ==> ts[i] == Name(ps[i]) || ts[i] == Digits(ps[i])
    requires n < |Join(ts, ',')|
    ensures p in ps && p !in ParsePidsList(Join(ts, ',')[..n])
  {
    hide Name, Digits, ParseEntry, IsToken, Split, ParsePidsList, Join, Appended;
    var k, m := CutPoint(ts, n);
    var t := ts[k][..m];
    forall i | 0 <= i < |ts| ensures IsToken(ts[i], ',') {
      NameParses(ps[i]);
      DigitsAreToken(ps[i]);
    }
    PartIsToken(ts[k], m, ',');
    SplitAppended(ts[..k], t);
    ListIsEntries(Join(ts, ',')[..n]);
    NamesParse(ps[..k], ts[..k]);
    var cut := Join(ts, ',')[..n];
    assert ParsePidsList(cut) == ParseEntries(ts[..k] + if t == "" then [] else [t]);
    if m == |ts[k]| {
      p := ps[|ps| - 1];
      assert t == ts[k];
      NamesParse(ps[..k + 1], ts[..k + 1]);
      assert ts[..k] + [t] == ts[..k + 1];
      NotBefore(ps, |ps| - 1, k + 1);
    } else {
      p := ps[k];
      NotBefore(ps, k, k);
      if m > 0 {
        PartOfName(p, ts[k], m);
        ParseSnoc(ts[..k], t);
      } else {
        assert ts[..k] + [] == ts[..k];
      }
    }
  }

  lemma ParseSnoc(ts: seq<string>, t: string)
    ensures ParseEntries(ts + [t]) == ParseEntries(ts) + ParseEntry(t)
  {
    assert (ts + [t])[..|ts|] == ts;
  }

  lemma NotBefore(ps: seq<Pid>, i: nat, n: nat)
    requires NoDup(ps) && n <= i < |ps|
    ensures ps[i] !in ps[..n]
  {
  }

  lemma PartIsToken(t: string, m: nat, sep: char)
    requires IsToken(t, sep) && m <= |t|
    ensures t != "" && (t[..m] == "" || IsToken(t[..m], sep))
  {
  }

  // ----- a request that lost its end -----

  function HandlePart(pids: set<int>, token: string): set<int> { if token == "" then pids else HandleToken(pids, token) }

  function Parameter(key: string, ts: seq<string>): string { key + "=" + Join(ts, ',') }

  lemma ParameterIsToken(key: string, ps: seq<Pid>, ts: seq<string>)
    requires |ts| == |ps| && forall i :: 0 <= i < |ps| ==> ts[i] == Name(ps[i]) || ts[i] == Digits(ps[i])
    requires IsToken(key, '&')
    ensures IsToken(Parameter(key, ts), '&') && '=' !in Join(ts, ',')
  {
    hide Join, Name, Digits;
    forall i | 0 <= i < |ts| ensures IsToken(ts[i], ',') && IsToken(ts[i], '&') && '=' !in ts[i] {
      NameIsPlain(ps[i]);
      DigitsAreToken(ps[i]);
    }
    JoinIsPlain(ts);
    KeyedIsToken(key, Join(ts, ','));
  }

  /** A pid parameter cut behind its key: one of its pids is not told. */
  lemma CutValue(key: string, ps: seq<Pid>, ts: seq<string>, n: nat) returns (p: Pid)
    requires |ts| == |ps| && NoDup(ps) && forall i :: 0 <= i < |ps| ==> ts[i] == Name(ps[i]) || ts[i] == Digits(ps[i])
    requires '=' !in key && |key| < n < |Parameter(key, ts)|
    ensures var t := Parameter(key, ts)[..n]; p in ps && KeyOf(t) == key && p !in ParsePidsList(ValOf(t))
  {
    hide Join, Name, Digits, KeyOf, ValOf, ParsePidsList;
    var m := n - |key| - 1;
    p := CutList(ps, ts, m);
    assert Parameter(key, ts)[..n] == key + "=" + Join(ts, ',')[..m];
    KeyedToken(key, Join(ts, ',')[..m]);
  }

  /** A key cut short is no key the server knows, and a key without pids changes nothing. */
  lemma CutKey(key: string, n: nat, pids: set<int>)
    requires key in {"addpids", "delpids"} && n <= |key|
    ensures HandlePart(pids, key[..n]) == pids
  {
    if n > 0 {
      assert key[..n][0] == key[0];
      NoEquals(key[..n]);
    }
  }

  lemma {:induction false} NoEquals(s: string)
    requires '=' !in s
    ensures KeyOf(s) == s && ValOf(s) == ""
  {
    assert EqualsAt(s) == |s|;
  }

  /** A cut list of adds leaves out a pid the server lacks, a cut list of deletes one the server has. */
  lemma CutDeltas(key: string, ps: seq<Pid>, n: nat, pids: set<int>) returns (p: Pid)
    requires key in {"addpids", "delpids"} && ps != [] && NoDup(ps) && n < |Parameter(key, Numbers(ps))|
    ensures var t := Parameter(key, Numbers(ps))[..n];
            && p in ps && (t == "" || IsToken(t, '&'))
            && (key == "addpids" && p !in pids ==> p !in HandlePart(pids, t))
            && (key == "delpids" && p in pids ==> p in HandlePart(pids, t))
  {
    hide Join, Name, Digits, Numbers, KeyOf, ValOf, ParsePidsList, IsToken;
    KeysAreTokens();
    ParameterIsToken(key, ps, Numbers(ps));
    PartIsToken(Parameter(key, Numbers(ps)), n, '&');
    if n <= |key| {
      assert Parameter(key, Numbers(ps))[..n] == key[..n];
      CutKey(key, n, pids);
      p := ps[0];
    } else {
      p := CutValue(key, ps, Numbers(ps), n);
    }
  }

  lemma KeysAreTokens()
    ensures forall key | key in {"pids", "addpids", "delpids"} :: IsToken(key, '&') && '=' !in key
  {
  }

  lemma PartQuery(t: string, pids: set<int>)
    requires t == "" || IsToken(t, '&')
    ensures HandleQuery(pids, t) == HandlePart(pids, t)
  {
    EmptySplit();
    if t != "" { OneToken(t, pids); }
  }

  lemma SecondPartQuery(a: string, t: string, pids: set<int>)
    requires IsToken(a, '&') && (t == "" || IsToken(t, '&'))
    ensures HandleQuery(pids, a + "&" + t) == HandlePart(HandleToken(pids, a), t)
  {
    hide IsToken, Split, HandleToken;
    if t == "" {
      assert a + "&" + t == a + "&";
      SplitToken(a, "&", '&');
      SkipGap("");
      EmptySplit();
      HandleOne(pids, a);
      assert "&" + "" == "&";
    } else {
      TwoTokens(a, t, pids);
    }
  }

  /** Deltas that lost their end leave the server with other pids than the client. */
  lemma CutDeltasDiffer(l: Link, n: nat)
    requires Good(l) && n < |DeltaText(l.d)|
    ensures HandleQuery(l.server, DeltaText(l.d)[..n]) != l.client
  {
    hide HandleQuery, HandlePart, Numbers, IsToken, Parameter;
    var a, b := Parameter("addpids", Numbers(l.d.adds)), Parameter("delpids", Numbers(l.d.dels));
    PartsAre(l.d);
    if l.d.adds != [] && n < |a| {
      var p := CutDeltas("addpids", l.d.adds, n, l.server);
      assert p in SetOf(l.d.adds);
      assert DeltaText(l.d)[..n] == a[..n];
      PartQuery(a[..n], l.server);
    } else if l.d.adds == [] {
      var p := CutDeltas("delpids", l.d.dels, n, l.server);
      assert p in SetOf(l.d.dels);
      PartQuery(b[..n], l.server);
    } else {
      KeysAreTokens();
      ParameterIsToken("addpids", l.d.adds, Numbers(l.d.adds));
      CutSecondDiffers(l, n - |a|);
      assert DeltaText(l.d)[..n] == a + ("&" + b)[..n - |a|];
    }
  }

  lemma PartsAre(d: Deltas)
    ensures var a, b := Parameter("addpids", Numbers(d.adds)), Parameter("delpids", Numbers(d.dels));
            DeltaText(d) == if d.dels == [] then (if d.adds == [] then "" else a)
                            else if d.adds == [] then b else a + ("&" + b)
  {
    hide Join, Numbers;
    var a, b := Parameter("addpids", Numbers(d.adds)), Parameter("delpids", Numbers(d.dels));
    assert "addpids" + "=" == "addpids=" && "delpids" + "=" == "delpids=";
    assert a + "&" + b == a + ("&" + b);
  }

  lemma CutSecondDiffers(l: Link, m: nat)
    requires Good(l) && l.d.adds != [] && l.d.dels != []
    requires m <= |Parameter("delpids", Numbers(l.d.dels))| && IsToken(Parameter("addpids", Numbers(l.d.adds)), '&')
    ensures var a, b := Parameter("addpids", Numbers(l.d.adds)), Parameter("delpids", Numbers(l.d.dels));
            HandleQuery(l.server, a + ("&" + b)[..m]) != l.client
  {
    hide HandleQuery, HandlePart, HandleToken, Numbers, IsToken, Parameter;
    var a, b := Parameter("addpids", Numbers(l.d.adds)), Parameter("delpids", Numbers(l.d.dels));
    FirstAdds(l);
    if m == 0 {
      assert l.d.dels[0] in SetOf(l.d.dels);
      assert a + ("&" + b)[..0] == a;
      OneToken(a, l.server);
    } else {
      var p := CutDeltas("delpids", l.d.dels, m - 1, HandleToken(l.server, a));
      assert p in SetOf(l.d.dels);
      assert a + ("&" + b)[..m] == a + "&" + b[..m - 1];
      SecondPartQuery(a, b[..m - 1], l.server);
    }
  }

  lemma FirstAdds(l: Link)
    requires l.d.adds != []
    ensures HandleToken(l.server, Parameter("addpids", Numbers(l.d.adds))) == l.server + SetOf(l.d.adds)
  {
    hide Join, Numbers, KeyOf, ValOf, ParsePidsList, IsToken;
    ListParameter("addpids", l.d.adds, Numbers(l.d.adds), l.server);
  }

  /** Deltas settle the server exactly when they fit the buffer with their last comma. */
  lemma DeltasSettleIff(l: Link, op: Op)
    requires Good(l) && op.OpRequest? && !SendsFull(l.d, op.listed, op.sendPids, op.forcePids)
    ensures Apply(l, op).server == l.client <==> |DeltaText(l.d)| + 1 < op.size
  {
    hide HandleQuery, SendsFull, DeltaText, Good;
    if |DeltaText(l.d)| + 1 < op.size {
      DeltaForm(l.d, op);
      DeltaTextIsHandled(l.d, l.server);
      assert l.client == l.server + SetOf(l.d.adds) - SetOf(l.d.dels) by { GoodIsDifference(l); }
    } else {
      CutDeltasDiffer(l, op.size - 2);
    }
  }

  lemma GoodIsDifference(l: Link)
    requires Good(l)
    ensures l.client == l.server + SetOf(l.d.adds) - SetOf(l.d.dels)
  {
  }

  /** A full list settles the server exactly when it fits; the buffer has room for the key in either case. */
  lemma FullSettlesIff(l: Link, op: Op)
    requires Good(l) && op.OpRequest? && SendsFull(l.d, op.listed, op.sendPids, op.forcePids)
    requires NoDup(op.listed) && SetOf(op.listed) == l.client && Faithful(op.listed, op.noPidsAll)
    requires op.listed != [] && op.size > |"pids="|
    ensures Apply(l, op).server == l.client <==> |"pids=" + FullText(op.listed, op.noPidsAll)| < op.size
  {
    hide HandleQuery, SendsFull, FullText, AfterFull, Faithful, NoDup;
    var text := "pids=" + FullText(op.listed, op.noPidsAll);
    FullTextIsHandled(op.listed, op.noPidsAll, l.server);
    FullListIsExactIff(op.listed, op.noPidsAll);
    if |text| >= op.size {
      CutFullDiffers(op.listed, op.noPidsAll, op.size - 1, l.server);
    }
  }

  lemma CutFullDiffers(listed: seq<Pid>, noPidsAll: bool, n: nat, pids: set<int>)
    requires NoDup(listed) && Faithful(listed, noPidsAll) && listed != []
    requires var text := "pids=" + FullText(listed, noPidsAll); |"pids="| <= n < |text|
    ensures HandleQuery(pids, ("pids=" + FullText(listed, noPidsAll))[..n]) != SetOf(listed)
  {
    hide HandleQuery, Numbers, Names, IsToken, Join, KeyOf, ValOf, ParsePidsList;
    var ts := Names(listed);
    FaithfulText(listed, noPidsAll);
    assert "pids=" + FullText(listed, noPidsAll) == Parameter("pids", ts) by { assert "pids" + "=" == "pids="; }
    KeysAreTokens();
    ParameterIsToken("pids", listed, ts);
    PartIsToken(Parameter("pids", ts), n, '&');
    var p := CutValue("pids", listed, ts, n);
    PartQuery(Parameter("pids", ts)[..n], pids);
    assert p in SetOf(listed);
  }

  lemma FaithfulText(listed: seq<Pid>, noPidsAll: bool)
    requires NoDup(listed) && Faithful(listed, noPidsAll) && listed != []
    ensures FullText(listed, noPidsAll) == Join(Names(listed), ',')
  {
    hide Join, Names, UpToAll;
    AllIsFirst(listed);
    UpToAllIs(listed);
    var u := UpToAll(listed);
    if ALL_PIDS in listed { assert listed[|u| - 1] == ALL_PIDS; }
    assert u == listed;
  }

  // ----- which requests fit -----

  lemma {:induction false} JoinLength(ts: seq<string>, w: nat)
    requires ts != [] && forall i :: 0 <= i < |ts| ==> |ts[i]| <= w
    ensures |Join(ts, ',')| < (w + 1) * |ts|
    ensures (forall i :: 0 <= i < |ts| ==> |ts[i]| == w) ==> |Join(ts, ',')| == (w + 1) * |ts| - 1
    decreases |ts|
  {
    if |ts| > 1 { JoinLength(ts[1..], w); }
  }

  lemma PidLength(p: Pid)
    ensures |Digits(p)| <= 4 && |Name(p)| <= 4 && (p >= 1000 ==> |Digits(p)| == 4)
  {
    DigitsLength(p);
  }

  lemma DigitsLength(n: nat)
    requires n < 10000
    ensures |Digits(n)| == if n < 10 then 1 else if n < 100 then 2 else if n < 1000 then 3 else 4
  {
    if n >= 10 { assert |Digits(n)| == |Digits(n / 10)| + 1; }
    if n >= 100 { assert |Digits(n / 10)| == |Digits(n / 10 / 10)| + 1; }
    if n >= 1000 { assert |Digits(n / 10 / 10)| == |Digits(n / 10 / 10 / 10)| + 1; }
  }

  lemma NumbersLength(ps: seq<Pid>)
    requires ps != []
    ensures |Join(Numbers(ps), ',')| < 5 * |ps| && |Join(Names(ps), ',')| < 5 * |ps|
    ensures (forall i :: 0 <= i < |ps| ==> ps[i] >= 1000) ==> |Join(Numbers(ps), ',')| == 5 * |ps| - 1
  {
    hide Join, Digits, Name;
    forall i | 0 <= i < |ps|
      ensures |Digits(ps[i])| <= 4 && |Name(ps[i])| <= 4 && (ps[i] >= 1000 ==> |Digits(ps[i])| == 4) {
      PidLength(ps[i]);
    }
    JoinLength(Numbers(ps), 4);
    JoinLength(Names(ps), 4);
  }

  /** Known before the request: five characters for every pid pending, and 17 for the keys. */
  lemma ShortDeltasFit(d: Deltas, size: Size)
    requires 5 * (|d.adds| + |d.dels|) + 17 <= size
    ensures |DeltaText(d)| + 1 < size
  {
    hide Join, Numbers;
    if d.adds != [] { NumbersLength(d.adds); }
    if d.dels != [] { NumbersLength(d.dels); }
  }

  /** The list of a whole pid table fits 1000 bytes, and told in full takes at most 645 characters. */
  lemma TableFits(listed: seq<Pid>, noPidsAll: bool)
    requires |listed| <= MAX_PIDS
    ensures |AdapterText(listed)| < 5 * MAX_PIDS + 5 && |"pids=" + FullText(listed, noPidsAll)| <= 5 * MAX_PIDS + 5
  {
    hide Join, Numbers, Names;
    UpToAllLength(listed);
    if listed != [] { NumbersLength(UpToAll(listed)); }
    NumbersLength(FIRST_PIDS);
  }

  lemma UpToAllLength(listed: seq<Pid>)
    ensures |UpToAll(listed)| <= |listed| && (listed != [] ==> UpToAll(listed) != [])
  {
  }

  /** All 128 pids change at once: the request of 1295 characters is cut and the sets differ, with nothing pending. */
  lemma FullSwapLosesPids(op: Op)
    requires op.OpRequest? && op.size <= 1000 && !op.sendPids && !op.forcePids && op.listed == FromTo(1000)
    ensures var l := FullSwap();
            && Good(l) && |DeltaText(l.d)| == 1295
            && Apply(l, op).server != l.client && Apply(l, op).d == Deltas([], [])
  {
    hide DeltaText, AdapterText, HandleQuery, FromTo;
    var l := FullSwap();
    FullSwapIsGood();
    FullSwapLength();
    ThousandIsNoWord();
    DeltasSettleIff(l, op);
  }

  function FromTo(first: nat): (s: seq<Pid>)
    requires first <= ALL_PIDS - MAX_PIDS
    ensures |s| == MAX_PIDS && forall i :: 0 <= i < MAX_PIDS ==> s[i] == first + i
  {
    seq(MAX_PIDS, i requires 0 <= i < MAX_PIDS => first + i)
  }

  function FullSwap(): Link { Link(Deltas(FromTo(1000), FromTo(2000)), SetOf(FromTo(1000)), SetOf(FromTo(2000))) }

  lemma FullSwapIsGood()
    ensures Good(FullSwap())
  {
    hide FromTo;
    NoDupSize(FromTo(1000));
    NoDupSize(FromTo(2000));
    assert SetOf(FromTo(1000)) !! SetOf(FromTo(2000));
    assert SetOf(FromTo(1000)) - SetOf(FromTo(2000)) == SetOf(FromTo(1000));
    assert SetOf(FromTo(2000)) - SetOf(FromTo(1000)) == SetOf(FromTo(2000));
  }

  lemma FullSwapLength()
    ensures |DeltaText(FullSwap().d)| == 1295
  {
    hide Join, Numbers, FromTo;
    NumbersLength(FromTo(1000));
    NumbersLength(FromTo(2000));
  }

  lemma ThousandIsNoWord()
    ensures AdapterText(FromTo(1000)) != "all" && AdapterText(FromTo(1000)) != "none"
  {
    AllIsFirst(FromTo(1000));
    assert FromTo(1000)[0] == 1000;
  }
}
