/** The two ends of a pid request as the code runs them (src/satipc.cpp:1410-1459, 1742-1794; src/utils.cpp:67-124;
    src/dvb.cpp:222-248, 270-369), proved equal to modules PidText and PidDeltas. */
module PidRequests {
  import opened PidText
  import opened PidDeltas

  lemma IndexIs(s: seq<Pid>, p: Pid, i: nat)
    requires i <= |s| && p !in s[..i] && (i < |s| ==> s[i] == p)
    ensures IndexOf(s, p) == i
  {
  }

  class PidClient {
    const apid: array<Pid>
    var lap: nat
    const dpid: array<Pid>
    var ldp: nat
    var forcePids: bool
    var noPidsAll: bool

    ghost predicate Valid()
      reads this
    {
      apid.Length == dpid.Length == MAX_PIDS && apid != dpid && lap <= MAX_PIDS && ldp <= MAX_PIDS
    }

    function View(): Deltas
      requires Valid()
      reads this, apid, dpid
    {
      Deltas(apid[..lap], dpid[..ldp])
    }

    constructor ()
      ensures Valid() && fresh(apid) && fresh(dpid) && View() == Deltas([], [])
    {
      apid := new Pid[MAX_PIDS](_ => 0);
      dpid := new Pid[MAX_PIDS](_ => 0);
      lap, ldp, forcePids, noPidsAll := 0, 0, false, false;
    }

    /** satipc_set_pid. */
    method SetPid(pid: Pid)
      requires Valid() && (lap < MAX_PIDS || pid in View().dels)
      modifies this`lap, this`ldp, apid, dpid
      ensures Valid() && View() == PidDeltas.SetPid(old(View()), pid)
    {
      hide IndexOf;
      for i := 0 to ldp
        invariant pid !in dpid[..i]
      {
        if dpid[i] == pid {
          assert View().dels[..i] == dpid[..i];
          IndexIs(View().dels, pid, i);
          ghost var was := dpid[..ldp];
          ldp := ldp - 1;
          dpid[i] := dpid[ldp];
          assert dpid[..ldp] == SwapRemove(was, i);
          return;
        }
      }
      IndexIs(View().dels, pid, ldp);
      apid[lap] := pid;
      lap := lap + 1;
    }

    /** satipc_del_filters. */
    method DelFilters(pid: Pid)
      requires Valid() && (ldp < MAX_PIDS || pid in View().adds)
      modifies this`lap, this`ldp, apid, dpid
      ensures Valid() && View() == DelPid(old(View()), pid)
    {
      hide IndexOf;
      for i := 0 to lap
        invariant pid !in apid[..i]
      {
        if apid[i] == pid {
          assert View().adds[..i] == apid[..i];
          IndexIs(View().adds, pid, i);
          ghost var was := apid[..lap];
          lap := lap - 1;
          apid[i] := apid[lap];
          assert apid[..lap] == SwapRemove(was, i);
          return;
        }
      }
      IndexIs(View().adds, pid, lap);
      dpid[ldp] := pid;
      ldp := ldp + 1;
    }

    /** satipc_get_pids: the request text in a buffer of the given size, `listed` being the adapter's live pids in table
        order. */
    method GetPids(listed: seq<Pid>, sendPids: bool, size: Size) returns (url: string)
      requires Valid()
      modifies this`lap, this`ldp, this`forcePids
      ensures Valid() && View() == Deltas([], []) && !forcePids
      ensures url == RequestText(old(View()), listed, sendPids, old(forcePids), noPidsAll, size)
    {
      hide Join, Names, Numbers, AdapterText, FirstPidsText, DeltaText, Clip;
      var full := sendPids;
      if forcePids {
        full := true;
        forcePids := false;
      }
      if lap == 0 && ldp == 0 {
        full := true;
      }
      var text := GetAdapterPids(listed);
      if text == "all" || text == "none" {
        full := true;
      }
      if text == "all" && noPidsAll {
        text := FirstPidsText();
      }
      if full {
        url := Print("", "pids=", size);
        url := Print(url, text, size);
        ClipAppends("pids=", text, size - 1);
        assert "" + "pids=" == "pids=";
        lap, ldp := 0, 0;
        return;
      }
      url := PrintDeltas(size);
    }

    /** The addpids and delpids parameters. */
    method PrintDeltas(size: Size) returns (url: string)
      requires Valid()
      modifies this`lap, this`ldp
      ensures Valid() && View() == Deltas([], [])
      ensures url == Clip(DeltaText(old(View())), size - 2)
    {
      hide Join, Numbers, Clip;
      ghost var d := View();
      url := "";
      if lap > 0 {
        url := PrintList(url, "addpids=", apid, lap, size, "");
        assert "" + AddsText(d) == AddsText(d);
        lap := 0;
      }
      ghost var first := url;
      assert first == Clip(AddsText(d), size - 2);
      if ldp > 0 {
        if url != "" { url := Print(url, "&", size); }
        url := PrintList(url, "delpids=", dpid, ldp, size, first + if first == "" then "" else "&");
        SecondPart(AddsText(d), first, DelsText(d), size - 2);
        ldp := 0;
      }
      TwoParts(d);
    }

    /** A parameter with the first n entries of a list; the last comma goes. */
    static method PrintList(buf: string, key: string, a: array<Pid>, n: nat, size: Size, ghost before: string)
      returns (r: string)
      requires 0 < n <= a.Length && |buf| < size && buf == Clip(before, size - 1)
      ensures r == Clip(before + (key + Join(Numbers(a[..n]), ',')), size - 2)
    {
      hide Join, Appended, Clip;
      r := Print(buf, key, size);
      ClipAppends(before, key, size - 1);
      r := PrintNumbers(r, a, n, size, before + key);
      DropsComma(before + key, Numbers(a[..n]), size - 1);
      assert before + key + Join(Numbers(a[..n]), ',') == before + (key + Join(Numbers(a[..n]), ','));
      r := r[..|r| - 1];
    }

    /** The first n entries of a list, each with a comma behind it. */
    static method PrintNumbers(buf: string, a: array<Pid>, n: nat, size: Size, ghost before: string) returns (r: string)
      requires n <= a.Length && buf == Clip(before, size - 1)
      ensures r == Clip(before + Appended(Numbers(a[..n]), ','), size - 1)
    {
      hide Join, Digits, Clip;
      r := buf;
      ghost var ts := Numbers(a[..n]);
      assert ts[..0] == [] && before + "" == before;
      for i := 0 to n
        invariant r == Clip(before + Appended(ts[..i], ','), size - 1)
      {
        assert ts[..i + 1][..i] == ts[..i];
        var t := Digits(a[i]) + ",";
        ClipAppends(before + Appended(ts[..i], ','), t, size - 1);
        assert Appended(ts[..i + 1], ',') == Appended(ts[..i], ',') + t;
        assert before + Appended(ts[..i], ',') + t == before + Appended(ts[..i + 1], ',');
        r := Print(r, t, size);
      }
      assert ts[..n] == ts;
    }
  }

  /** strlcatf: appends what fits in front of the zero. */
  method Print(buf: string, text: string, size: Size) returns (r: string)
    requires |buf| < size
    ensures r == Clip(buf + text, size - 1)
  {
    r := buf + Clip(text, size - 1 - |buf|);
  }

  /** Clipping at every step is clipping once. */
  lemma ClipAppends(a: string, b: string, n: nat)
    ensures Clip(Clip(a, n) + b, n) == Clip(a + b, n)
  {
    if |a| > n { assert (a[..n] + b)[..n] == a[..n] == (a + b)[..n]; }
  }

  /** get_adapter_pids. */
  method GetAdapterPids(listed: seq<Pid>) returns (dest: string)
    ensures dest == AdapterText(listed)
  {
    hide Join, Digits, Names, UpToAll, Appended;
    dest := "";
    ghost var written: seq<Pid> := [];
    var i := 0;
    assert listed[0..] == listed;
    NothingWritten();
    ghost var left := UpToAll(listed);
    while i < |listed|
      invariant 0 <= i <= |listed| && dest == Appended(Names(written), ',') && (dest == "" <==> i == 0)
      invariant UpToAll(listed) == written + left && left == UpToAll(listed[i..])
    {
      var pid := listed[i];
      UpToAllStep(listed, i);
      NamesSnoc(written, pid);
      written := written + [pid];
      i := i + 1;
      if pid == ALL_PIDS {
        dest := dest + "all" + ",";
        left := [];
        break;
      }
      dest := dest + Digits(pid) + ",";
      left := UpToAll(listed[i..]);
    }
    if |dest| > 0 {
      UpToAllEnds(listed);
      assert UpToAll(listed) == written;
      AppendedIsJoin(Names(written), ',');
      dest := dest[..|dest| - 1];
    } else {
      dest := "none";
    }
  }

  lemma NothingWritten()
    ensures Appended(Names([]), ',') == ""
  {
  }

  lemma NamesSnoc(ps: seq<Pid>, p: Pid)
    ensures Appended(Names(ps + [p]), ',') == Appended(Names(ps), ',') + Name(p) + ","
    ensures Names(ps + [p]) != []
  {
    hide Name;
    assert Names(ps + [p])[..|ps|] == Names(ps);
  }

  lemma UpToAllEnds(listed: seq<Pid>)
    ensures UpToAll(listed[|listed|..]) == []
  {
  }

  lemma UpToAllStep(listed: seq<Pid>, i: nat)
    requires i < |listed|
    ensures listed[i] == ALL_PIDS ==> UpToAll(listed[i..]) == [ALL_PIDS]
    ensures listed[i] != ALL_PIDS ==> UpToAll(listed[i..]) == [listed[i]] + UpToAll(listed[i + 1..])
  {
  }

  /** The last comma of a list goes, whether or not the list was clipped. */
  lemma DropsComma(key: string, ts: seq<string>, n: nat)
    requires n > 0 && ts != []
    ensures var r := Clip(key + Appended(ts, ','), n); r != "" && r[..|r| - 1] == Clip(key + Join(ts, ','), n - 1)
  {
    hide Join, Appended;
    AppendedIsJoin(ts, ',');
    var t := key + Join(ts, ',');
    assert key + Appended(ts, ',') == t + ",";
    var r := Clip(t + ",", n);
    assert r[..|r| - 1] == Clip(t, n - 1);
  }

  /** The deletes behind the adds, clipped twice or once. */
  lemma SecondPart(adds: string, first: string, list: string, n: nat)
    requires first == Clip(adds, n)
    ensures Clip(first + (if first == "" then "" else "&") + list, n)
            == Clip(adds + ((if adds == "" then "" else "&") + list), n)
  {
    hide Clip;
    if first == "" && adds != "" {
      assert n == 0;
    } else {
      var rest := (if adds == "" then "" else "&") + list;
      assert first + (if first == "" then "" else "&") + list == first + rest;
      ClipAppends(adds, rest, n);
    }
  }

  lemma TwoParts(d: Deltas)
    ensures DeltaText(d) == if d.dels == [] then AddsText(d)
                            else AddsText(d) + ((if AddsText(d) == "" then "" else "&") + DelsText(d))
  {
    hide Join, Numbers;
    if d.adds != [] { assert AddsText(d)[0] == 'a'; }
  }

  // ----- the server -----

  /** split. */
  method SplitText(s: string, sep: char) returns (ts: seq<string>)
    ensures ts == Split(s, sep)
  {
    hide Split;
    ts := [];
    var start := 0;
    assert s[0..] == s;
    while start < |s|
      invariant 0 <= start <= |s| && Split(s, sep) == ts + Split(s[start..], sep)
    {
      if IsGap(s[start], sep) {
        SplitGap(s, start, sep);
        start := start + 1;
        continue;
      }
      var end := start;
      while end < |s| && !IsGap(s[end], sep)
        invariant start <= end <= |s| && TokenLength(s[start..], sep) == end - start + TokenLength(s[end..], sep)
      {
        TokenStep(s, end, sep);
        end := end + 1;
      }
      TokenStop(s, end, sep);
      SplitTokenAt(s, start, end, sep);
      ts := ts + [s[start..end]];
      start := end;
    }
    SplitNothing(s, start, sep);
  }

  lemma SplitNothing(s: string, start: nat, sep: char)
    requires start == |s|
    ensures Split(s[start..], sep) == []
  {
  }

  lemma SplitGap(s: string, start: nat, sep: char)
    requires start < |s| && IsGap(s[start], sep)
    ensures Split(s[start..], sep) == Split(s[start + 1..], sep)
  {
  }

  lemma TokenStep(s: string, i: nat, sep: char)
    requires i < |s| && !IsGap(s[i], sep)
    ensures TokenLength(s[i..], sep) == 1 + TokenLength(s[i + 1..], sep)
  {
  }

  lemma TokenStop(s: string, i: nat, sep: char)
    requires i <= |s| && (i < |s| ==> IsGap(s[i], sep))
    ensures TokenLength(s[i..], sep) == 0
  {
  }

  lemma SplitTokenAt(s: string, start: nat, end: nat, sep: char)
    requires start < end <= |s| && !IsGap(s[start], sep) && TokenLength(s[start..], sep) == end - start
    ensures Split(s[start..], sep) == [s[start..end]] + Split(s[end..], sep)
  {
    assert s[start..][..end - start] == s[start..end] && s[start..][end - start..] == s[end..];
  }

  /** parse_pids_list. */
  method ReadPidsList(val: string) returns (res: seq<int>)
    ensures res == ParsePidsList(val)
  {
    hide Split, ParseInt;
    if val == "" || val == "none" {
      return [];
    }
    if val == "all" {
      return [ALL_PIDS];
    }
    var ts := SplitText(val, ',');
    res := [];
    for i := 0 to |ts|
      invariant res == ParseEntries(ts[..i])
    {
      assert ts[..i + 1][..i] == ts[..i];
      if ts[i] == "all" {
        res := res + [ALL_PIDS];
      } else if ts[i] != "none" && ts[i] != "" {
        var p := ParseInt(ts[i], -1);
        if p >= 0 && p <= ALL_PIDS {
          res := res + [p];
        }
      }
    }
    assert ts[..|ts|] == ts;
  }

  class Transponder {
    var pids: set<int>

    constructor ()
      ensures pids == {}
    {
      pids := {};
    }

    /** detect_dvb_parameters, as far as it concerns pids; other parameters of the query change nothing here. */
    method DetectPids(query: string)
      modifies this
      ensures pids == HandleQuery(old(pids), query)
    {
      hide Split, ParsePidsList, EqualsAt;
      var ts := SplitText(query, '&');
      for i := 0 to |ts|
        invariant pids == HandleTokens(old(pids), ts[..i])
      {
        assert ts[..i + 1][..i] == ts[..i];
        var key, val := KeyOf(ts[i]), ValOf(ts[i]);
        var parsed := ReadPidsList(val);
        if key == "pids" {
          pids := SetOf(parsed);
        } else if key == "addpids" {
          pids := pids + SetOf(parsed);
        } else if key == "delpids" {
          pids := pids - SetOf(parsed);
        }
      }
      assert ts[..|ts|] == ts;
    }
  }
}
