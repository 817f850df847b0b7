/** The text of pid lists (src/utils.cpp:67-124, src/dvb.cpp:222-248, src/adapter.cpp:2246-2271): decimal numbers,
    lists with separators, and how they are read back. */
module PidText {

  const ALL_PIDS: nat := 8192
  const INT_MAX: nat := 0x7FFF_FFFF

  // ----- numbers -----

  predicate IsDigit(c: char) { '0' <= c <= '9' }

  function DigitOf(c: char): nat
    requires IsDigit(c)
  {
    (c as int) - ('0' as int)
  }

  function DigitChar(d: nat): (c: char)
    requires d < 10
    ensures IsDigit(c) && DigitOf(c) == d
  {
    (('0' as int) + d) as char
  }

  predicate AllDigits(s: string) { forall i :: 0 <= i < |s| ==> IsDigit(s[i]) }

  /** "%d" of a number that is not negative. */
  function Digits(n: nat): (s: string)
    ensures s != "" && AllDigits(s)
  {
    if n < 10 then [DigitChar(n)] else Digits(n / 10) + [DigitChar(n % 10)]
  }

  function Value(s: string): nat
    requires AllDigits(s)
  {
    if s == "" then 0 else Value(s[..|s| - 1]) * 10 + DigitOf(s[|s| - 1])
  }

  function DigitPrefix(s: string): (n: nat)
    ensures n <= |s| && AllDigits(s[..n])
  {
    if s == "" || !IsDigit(s[0]) then 0
    else
      var n := DigitPrefix(s[1..]);
      assert forall i :: 0 <= i < n ==> s[i + 1] == s[1..][..n][i];
      1 + n
  }

  /** std::from_chars for an int: an optional minus and the longest run of digits; `dv` for none or too many. */
  function FromChars(s: string, dv: int): int {
    var minus := s != "" && s[0] == '-';
    var t := if minus then s[1..] else s;
    var n := DigitPrefix(t);
    var v: int := Value(t[..n]);
    if n == 0 || v > (if minus then INT_MAX + 1 else INT_MAX) then dv else if minus then 0 - v else v
  }

  predicate IsBlank(c: char) { c == ' ' || '\t' <= c <= '\r' }

  function Strip(s: string): string { if s != "" && IsBlank(s[0]) then Strip(s[1..]) else s }

  /** parse_int. */
  function ParseInt(text: string, dv: int): int {
    var s := Strip(text);
    if s == "" || !(s[0] == '+' || s[0] == '-' || IsDigit(s[0])) then dv
    else if s[0] == '+' then (if |s| == 1 then dv else FromChars(s[1..], dv))
    else FromChars(s, dv)
  }

  lemma {:induction false} ValueOfDigits(n: nat)
    ensures Value(Digits(n)) == n
  {
    if n >= 10 {
      ValueOfDigits(n / 10);
      assert Digits(n)[..|Digits(n)| - 1] == Digits(n / 10);
    }
  }

  lemma {:induction false} AllDigitsPrefix(s: string)
    requires AllDigits(s)
    ensures DigitPrefix(s) == |s|
    decreases |s|
  {
    if s != "" { AllDigitsPrefix(s[1..]); }
  }

  /** A printed number reads back. */
  lemma PrintedIntParses(n: nat, dv: int)
    requires n <= INT_MAX
    ensures ParseInt(Digits(n), dv) == n
  {
    var s := Digits(n);
    ValueOfDigits(n);
    AllDigitsPrefix(s);
    assert s[..|s|] == s;
    assert IsDigit(s[0]) && !IsBlank(s[0]) && s[0] != '+' && s[0] != '-';
  }

  lemma {:induction false} StripBlanks(w: string, s: string)
    requires forall i :: 0 <= i < |w| ==> IsBlank(w[i])
    requires s == "" || !IsBlank(s[0])
    ensures Strip(w + s) == s
  {
    if w == "" {
      assert w + s == s;
    } else {
      assert (w + s)[1..] == w[1..] + s;
      StripBlanks(w[1..], s);
    }
  }

  lemma {:induction false} PrefixOfDigits(ds: string, rest: string)
    requires AllDigits(ds) && (rest == "" || !IsDigit(rest[0]))
    ensures DigitPrefix(ds + rest) == |ds|
  {
    if ds == "" {
      assert ds + rest == rest;
    } else {
      assert (ds + rest)[1..] == ds[1..] + rest;
      PrefixOfDigits(ds[1..], rest);
    }
  }

  lemma FromCharsReads(minus: bool, ds: string, rest: string, dv: int)
    requires AllDigits(ds) && (rest == "" || !IsDigit(rest[0])) && (ds == "" && rest != "" && !minus ==> rest[0] != '-')
    ensures FromChars((if minus then "-" else "") + (ds + rest), dv) ==
              if ds == "" then dv
              else if !minus then (if Value(ds) <= 0x7FFF_FFFF then Value(ds) else dv)
              else (if Value(ds) <= 0x8000_0000 then 0 - Value(ds) else dv)
  {
    hide Value, DigitPrefix;
    var t := ds + rest;
    PrefixOfDigits(ds, rest);
    assert t[..|ds|] == ds;
    if minus {
      assert ("-" + t)[1..] == t;
    } else {
      assert "" + t == t;
      assert ds != "" ==> t[0] == ds[0];
    }
  }

  /** What parse_int reads of any text: blanks, signs, digits and the rest fall off in this way. No digits, or a number that
      is no 32-bit int, give the default; what follows the digits does not matter. */
  lemma ParseIntReads(blanks: string, plus: bool, minus: bool, ds: string, rest: string, dv: int)
    requires forall i :: 0 <= i < |blanks| ==> blanks[i] == ' ' || 9 <= blanks[i] as int <= 13
    requires AllDigits(ds) && (rest == "" || !IsDigit(rest[0]))
    requires ds == "" && rest != "" && !minus ==> rest[0] != '-'
    requires ds == "" && rest != "" && !minus && !plus ==> rest[0] !in {' ', '+'} && !(9 <= rest[0] as int <= 13)
    ensures var sign := (if plus then "+" else "") + (if minus then "-" else "");
            ParseInt(blanks + (sign + (ds + rest)), dv) ==
              if ds == "" then dv
              else if !minus then (if Value(ds) <= 0x7FFF_FFFF then Value(ds) else dv)
              else (if Value(ds) <= 0x8000_0000 then 0 - Value(ds) else dv)
  {
    hide Value, FromChars, Strip, DigitPrefix;
    var number := (if minus then "-" else "") + (ds + rest);
    var s := (if plus then "+" else "") + number;
    FromCharsReads(minus, ds, rest, dv);
    assert (if plus then "+" else "") + (if minus then "-" else "") + (ds + rest) == s;
    assert ds != "" && !minus ==> number[0] == ds[0] && IsDigit(ds[0]);
    if plus { assert s[1..] == number; } else { assert s == number; }
    StripBlanks(blanks, s);
  }

  // ----- lists -----

  /** Characters between tokens: the separator, blanks and control characters. */
  predicate IsGap(c: char, sep: char) { c == sep || (c as int) < 33 }

  function TokenLength(s: string, sep: char): (n: nat)
    ensures n <= |s| && (s != "" && !IsGap(s[0], sep) ==> n > 0)
  {
    if s == "" || IsGap(s[0], sep) then 0 else 1 + TokenLength(s[1..], sep)
  }

  /** split. */
  function Split(s: string, sep: char): seq<string>
    decreases |s|
  {
    if s == "" then []
    else if IsGap(s[0], sep) then Split(s[1..], sep)
    else
      var n := TokenLength(s, sep);
      [s[..n]] + Split(s[n..], sep)
  }

  predicate IsToken(t: string, sep: char) { t != "" && forall i :: 0 <= i < |t| ==> !IsGap(t[i], sep) }

  /** Tokens with a separator between them. */
  function Join(ts: seq<string>, sep: char): string {
    if ts == [] then "" else if |ts| == 1 then ts[0] else ts[0] + [sep] + Join(ts[1..], sep)
  }

  lemma {:induction false} TokenLengthOf(t: string, rest: string, sep: char)
    requires (forall i :: 0 <= i < |t| ==> !IsGap(t[i], sep)) && (rest == "" || IsGap(rest[0], sep))
    ensures TokenLength(t + rest, sep) == |t|
    decreases |t|
  {
    if t == "" {
      assert t + rest == rest;
    } else {
      assert (t + rest)[1..] == t[1..] + rest;
      TokenLengthOf(t[1..], rest, sep);
    }
  }

  lemma SplitToken(t: string, rest: string, sep: char)
    requires IsToken(t, sep) && (rest == "" || IsGap(rest[0], sep))
    ensures Split(t + rest, sep) == [t] + Split(rest, sep)
  {
    TokenLengthOf(t, rest, sep);
    assert (t + rest)[..|t|] == t && (t + rest)[|t|..] == rest;
    assert (t + rest)[0] == t[0];
  }

  /** Where a text is split: at the separator and at every character below 33, however many stand in a row. */
  lemma {:induction false} SplitAtGaps(gaps: string, t: string, rest: string, sep: char)
    requires forall i :: 0 <= i < |gaps| ==> gaps[i] == sep || gaps[i] as int <= 32
    requires t != "" && (forall i :: 0 <= i < |t| ==> t[i] != sep && 33 <= t[i] as int)
    requires rest == "" || rest[0] == sep || rest[0] as int <= 32
    ensures Split(gaps + (t + rest), sep) == [t] + Split(rest, sep)
    decreases |gaps|
  {
    if gaps == "" {
      assert gaps + (t + rest) == t + rest;
      SplitToken(t, rest, sep);
    } else {
      assert (gaps + (t + rest))[1..] == gaps[1..] + (t + rest);
      SplitAtGaps(gaps[1..], t, rest, sep);
    }
  }

  /** Splitting undoes joining. */
  lemma {:induction false} SplitJoin(ts: seq<string>, sep: char)
    requires forall i :: 0 <= i < |ts| ==> IsToken(ts[i], sep)
    ensures Split(Join(ts, sep), sep) == ts
    decreases |ts|
  {
    hide IsToken;
    if |ts| == 1 {
      assert ts[0] + "" == ts[0];
      SplitToken(ts[0], "", sep);
      assert ts == [ts[0]];
    } else if |ts| > 1 {
      var rest := [sep] + Join(ts[1..], sep);
      assert Join(ts, sep) == ts[0] + rest;
      SplitToken(ts[0], rest, sep);
      assert rest[1..] == Join(ts[1..], sep);
      SplitJoin(ts[1..], sep);
      assert ts == [ts[0]] + ts[1..];
    }
  }

  /** Each token followed by a separator, as the writers append them. */
  function Appended(ts: seq<string>, sep: char): string {
    if ts == [] then "" else Appended(ts[..|ts| - 1], sep) + ts[|ts| - 1] + [sep]
  }

  lemma {:induction false} AppendedCons(ts: seq<string>, sep: char)
    requires ts != []
    ensures Appended(ts, sep) == ts[0] + [sep] + Appended(ts[1..], sep)
    decreases |ts|
  {
    var n := |ts| - 1;
    if n == 0 {
      assert ts[..0] == [] && ts[1..] == [];
    } else {
      AppendedCons(ts[..n], sep);
      assert ts[..n][1..] == ts[1..][..n - 1];
      calc {
        Appended(ts, sep);
        ts[0] + [sep] + Appended(ts[1..][..n - 1], sep) + ts[n] + [sep];
        ts[0] + [sep] + (Appended(ts[1..][..n - 1], sep) + ts[n] + [sep]);
      }
    }
  }

  /** Dropping the last separator leaves the joined list. */
  lemma {:induction false} AppendedIsJoin(ts: seq<string>, sep: char)
    requires ts != []
    ensures Appended(ts, sep) == Join(ts, sep) + [sep]
    decreases |ts|
  {
    AppendedCons(ts, sep);
    if |ts| > 1 {
      AppendedIsJoin(ts[1..], sep);
      assert ts[0] + [sep] + (Join(ts[1..], sep) + [sep]) == (ts[0] + [sep] + Join(ts[1..], sep)) + [sep];
    } else {
      assert ts[1..] == [];
    }
  }

  // ----- pid lists -----

  type Pid = p: nat | p <= ALL_PIDS

  /** The name of a pid in the full list. */
  function Name(p: Pid): string { if p == ALL_PIDS then "all" else Digits(p) }

  function Names(ps: seq<Pid>): (r: seq<string>)
    ensures |r| == |ps| && forall i :: 0 <= i < |ps| ==> r[i] == Name(ps[i])
  {
    seq(|ps|, i requires 0 <= i < |ps| => Name(ps[i]))
  }

  function Numbers(ps: seq<Pid>): (r: seq<string>)
    ensures |r| == |ps| && forall i :: 0 <= i < |ps| ==> r[i] == Digits(ps[i])
  {
    seq(|ps|, i requires 0 <= i < |ps| => Digits(ps[i]))
  }

  /** One entry of a list the server reads. */
  function ParseEntry(t: string): seq<int> {
    if t == "all" then [ALL_PIDS]
    else if t == "none" || t == "" then []
    else
      var p := ParseInt(t, -1);
      if 0 <= p <= ALL_PIDS then [p] else []
  }

  function ParseEntries(ts: seq<string>): seq<int> {
    if ts == [] then [] else ParseEntries(ts[..|ts| - 1]) + ParseEntry(ts[|ts| - 1])
  }

  /** parse_pids_list. */
  function ParsePidsList(val: string): seq<int> {
    if val == "" || val == "none" then []
    else if val == "all" then [ALL_PIDS]
    else ParseEntries(Split(val, ','))
  }

  lemma DigitsAreToken(n: nat)
    ensures IsToken(Digits(n), ',') && IsToken(Digits(n), '&') && '=' !in Digits(n)
    ensures Digits(n) != "all" && Digits(n) != "none"
  {
    var s := Digits(n);
    assert forall i :: 0 <= i < |s| ==> IsDigit(s[i]);
    assert IsDigit(s[0]);
  }

  lemma NameParses(p: Pid)
    ensures ParseEntry(Name(p)) == [p] && ParseEntry(Digits(p)) == [p] && IsToken(Name(p), ',')
  {
    hide ParseInt, Digits;
    PrintedIntParses(p, -1);
    DigitsAreToken(p);
  }

  lemma {:induction false} NamesParse(ps: seq<Pid>, ts: seq<string>)
    requires |ts| == |ps| && forall i :: 0 <= i < |ps| ==> ts[i] == Name(ps[i]) || ts[i] == Digits(ps[i])
    ensures ParseEntries(ts) == ps
    decreases |ps|
  {
    hide ParseEntry, Name, Digits;
    if ts != [] {
      var n := |ts| - 1;
      NamesParse(ps[..n], ts[..n]);
      NameParses(ps[n]);
      assert ps == ps[..n] + [ps[n]];
    }
  }

  /** A joined list of names or numbers reads back as the pids. */
  lemma ListParses(ps: seq<Pid>, ts: seq<string>)
    requires |ts| == |ps| && ps != [] && forall i :: 0 <= i < |ps| ==> ts[i] == Name(ps[i]) || ts[i] == Digits(ps[i])
    ensures ParsePidsList(Join(ts, ',')) == ps
  {
    hide Name, Digits, ParseEntry, IsToken, Split;
    forall i | 0 <= i < |ts| ensures IsToken(ts[i], ',') {
      NameParses(ps[i]);
      DigitsAreToken(ps[i]);
    }
    SplitJoin(ts, ',');
    NamesParse(ps, ts);
    var val := Join(ts, ',');
    WordsSplit();
    if val == "none" {
      assert ts == ["none"];
      NameParses(ps[0]);
      NoneIsNoName(ps[0]);
    } else if val == "all" {
      assert ts == ["all"];
      NameParses(ps[0]);
      AllParses();
      assert ps == [ps[0]];
    }
  }

  lemma WordsSplit()
    ensures Split("none", ',') == ["none"] && Split("all", ',') == ["all"] && Split("", ',') == []
  {
    assert IsToken("none", ',') && IsToken("all", ',');
    assert "none" + "" == "none" && "all" + "" == "all";
    SplitToken("none", "", ',');
    SplitToken("all", "", ',');
  }

  lemma NoneIsNoName(p: Pid)
    ensures Name(p) != "none" && Digits(p) != "none"
  {
    DigitsAreToken(p);
  }

  lemma AllParses()
    ensures ParseEntry("all") == [ALL_PIDS]
  {
  }
}
