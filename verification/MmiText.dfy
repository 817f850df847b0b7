/** The MMI text sanitizer of the CAM code (src/ca.cpp:3005-3067).
    Arbitrary bytes from a CAM become bounded, well-formed UTF-8.  The grammar is the one of
    section 4 of RFC 3629, written out here independently of the sanitizer's own tests. */
module MmiText {
  import opened Bytes

  type Text = Data

  const MAX_MMI_TEXT_LEN: nat := 255
  const NEWLINE: byte := 10

  // ----- the grammar of section 4 of RFC 3629 -----

  predicate IsTail(b: byte) { 0x80 <= b <= 0xBF }

  predicate IsUtf8Char(c: Text) {
    || (|c| == 1 && c[0] <= 0x7F)
    || (|c| == 2 && 0xC2 <= c[0] <= 0xDF && IsTail(c[1]))
    || (|c| == 3 && IsTail(c[2])
        && ((c[0] == 0xE0 && 0xA0 <= c[1] <= 0xBF) || (0xE1 <= c[0] <= 0xEC && IsTail(c[1]))
            || (c[0] == 0xED && 0x80 <= c[1] <= 0x9F) || (0xEE <= c[0] <= 0xEF && IsTail(c[1]))))
    || (|c| == 4 && IsTail(c[2]) && IsTail(c[3])
        && ((c[0] == 0xF0 && 0x90 <= c[1] <= 0xBF) || (0xF1 <= c[0] <= 0xF3 && IsTail(c[1]))
            || (c[0] == 0xF4 && 0x80 <= c[1] <= 0x8F)))
  }

  ghost predicate IsWellFormed(s: Text)
    decreases |s|
  {
    s == [] || exists n: nat :: 0 < n <= |s| && IsUtf8Char(s[..n]) && IsWellFormed(s[n..])
  }

  /** No C0 control except newline, and no DEL. */
  predicate IsClean(s: Text) {
    forall i :: 0 <= i < |s| ==> IsCleanByte(s[i])
  }

  predicate IsCleanByte(b: byte) { (b >= 0x20 || b == NEWLINE) && b != 0x7F }

  // ----- what the sanitizer emits for the bytes at the head of its input -----

  /** Length announced by a lead byte, 0 when it cannot lead a multi-byte sequence. */
  function SequenceLength(b: byte): nat {
    if b / 0x20 == 0xC0 / 0x20 && b >= 0xC2 then 2
    else if b / 0x10 == 0xE0 / 0x10 then 3
    else if b / 0x08 == 0xF0 / 0x08 && b <= 0xF4 then 4
    else 0
  }

  /** The top two bits are 10. */
  predicate IsContinuation(b: byte) { b / 0x40 == 0x80 / 0x40 }

  predicate AllTails(s: Text, k: nat, n: nat)
    requires n <= |s|
    decreases n - k
  {
    k >= n || (IsContinuation(s[k]) && AllTails(s, k + 1, n))
  }

  /** The sanitizer's own validity test of the sequence at the head of s. */
  predicate HeadIsValid(s: Text)
    requires s != []
  {
    var n := SequenceLength(s[0]);
    && 0 < n <= |s|
    && AllTails(s, 1, n)
    && !(n == 3 && ((s[0] == 0xE0 && s[1] < 0xA0) || (s[0] == 0xED && s[1] >= 0xA0)))
    && !(n == 4 && ((s[0] == 0xF0 && s[1] < 0x90) || (s[0] == 0xF4 && s[1] >= 0x90)))
  }

  /** Bytes written for the head of s (nothing for a dropped byte), and how many bytes it consumes. */
  function Piece(s: Text): (p: (Text, nat))
    requires s != []
    ensures 0 < p.1 <= |s|
  {
    var b := s[0];
    if b < 0x80 then (if (b < 0x20 && b != NEWLINE) || b == 0x7F then [] else [b], 1)
    else if HeadIsValid(s) then (s[..SequenceLength(b)], SequenceLength(b))
    else if b < 0xA0 then (if b == 0x8A then [NEWLINE] else [], 1)
    else ([0xC0 + b / 0x40, 0x80 + b % 0x40], 1)
  }

  /** Pieces of s until the first one that does not fit in the remaining room. */
  function Sanitized(s: Text, room: nat): Text
    decreases |s|
  {
    if s == [] then []
    else
      var (out, used) := Piece(s);
      if |out| > room then [] else out + Sanitized(s[used..], room - |out|)
  }

  /** The validity test of the multi-byte sequence at position i: its length when valid, 0 otherwise. */
  method ValidSequenceAt(sv: Text, i: nat) returns (seqLen: nat)
    requires i < |sv|
    ensures seqLen == if HeadIsValid(sv[i..]) then SequenceLength(sv[i]) else 0
  {
    ghost var rest := sv[i..];
    var b := sv[i];
    seqLen := SequenceLength(b);
    var valid := seqLen > 0 && i + seqLen <= |sv|;
    if valid {
      var k := 1;
      while k < seqLen
        invariant 1 <= k <= seqLen
        invariant AllTails(rest, 1, seqLen) == (valid && AllTails(rest, k, seqLen))
      {
        if !IsContinuation(sv[i + k]) { valid := false; }
        k := k + 1;
      }
      var b1 := if seqLen > 1 then sv[i + 1] else 0;
      if seqLen == 3 && ((b == 0xE0 && b1 < 0xA0) || (b == 0xED && b1 >= 0xA0)) {
        valid := false;
      }
      if seqLen == 4 && ((b == 0xF0 && b1 < 0x90) || (b == 0xF4 && b1 >= 0x90)) {
        valid := false;
      }
    }
    if !valid { seqLen := 0; }
  }

  /** What the byte or sequence at position i contributes, and how far it advances. */
  method PieceAt(sv: Text, i: nat) returns (piece: Text, used: nat)
    requires i < |sv|
    ensures (piece, used) == Piece(sv[i..])
  {
    var b := sv[i];
    piece, used := [], 1;
    if b < 0x80 {
      if !((b < 0x20 && b != NEWLINE) || b == 0x7F) { piece := [b]; }
    } else {
      var seqLen := ValidSequenceAt(sv, i);
      if seqLen > 0 {
        piece, used := sv[i..i + seqLen], seqLen;
        assert piece == sv[i..][..seqLen];
      } else if b < 0xA0 {
        if b == 0x8A { piece := [NEWLINE]; }
      } else {
        piece := [0xC0 + b / 0x40, 0x80 + b % 0x40];
      }
    }
  }

  method MmiSanitizeUtf8(sv: Text) returns (out: Text)
    ensures out == Sanitized(sv, MAX_MMI_TEXT_LEN)
  {
    hide Piece;
    out := [];
    var i := 0;
    while i < |sv|
      invariant 0 <= i <= |sv| && |out| <= MAX_MMI_TEXT_LEN
      invariant Sanitized(sv, MAX_MMI_TEXT_LEN) == out + Sanitized(sv[i..], MAX_MMI_TEXT_LEN - |out|)
    {
      ghost var rest := sv[i..];
      var piece, used := PieceAt(sv, i);
      if |out| + |piece| > MAX_MMI_TEXT_LEN { break; }
      out := out + piece;
      i := i + used;
      assert rest[used..] == sv[i..];
    }
  }

  // ----- every output is bounded, clean, well-formed text -----

  /** The sanitizer accepts the sequence at the head exactly when the grammar does. */
  lemma HeadIsValidIffGrammar(s: Text)
    requires s != [] && s[0] >= 0x80
    ensures HeadIsValid(s) <==> exists n: nat :: 0 < n <= |s| && IsUtf8Char(s[..n])
    ensures HeadIsValid(s) ==> IsUtf8Char(s[..SequenceLength(s[0])])
    ensures forall n: nat :: 0 < n <= |s| && IsUtf8Char(s[..n]) ==> n == SequenceLength(s[0])
  {
    var n := SequenceLength(s[0]);
    if n <= |s| {
      assert n > 3 ==> (AllTails(s, 3, n) <==> IsContinuation(s[3]) && AllTails(s, 4, n));
      assert n > 2 ==> (AllTails(s, 2, n) <==> IsContinuation(s[2]) && AllTails(s, 3, n));
      assert n > 1 ==> (AllTails(s, 1, n) <==> IsContinuation(s[1]) && AllTails(s, 2, n));
    }
    forall m: nat | 0 < m <= |s| && IsUtf8Char(s[..m]) ensures m == n && HeadIsValid(s) {
      assert forall k :: 0 <= k < m ==> s[..m][k] == s[k];
    }
    if HeadIsValid(s) {
      assert forall k :: 0 <= k < n ==> s[..n][k] == s[k];
      assert IsUtf8Char(s[..n]);
    }
  }

  /** A piece is nothing or one clean character. */
  lemma PieceIsCleanChar(s: Text)
    requires s != []
    ensures var out := Piece(s).0; out == [] || (IsUtf8Char(out) && IsClean(out))
  {
    if s[0] >= 0x80 {
      HeadIsValidIffGrammar(s);
      if HeadIsValid(s) {
        var out := s[..SequenceLength(s[0])];
        assert IsUtf8Char(out);
        assert forall i :: 0 <= i < |out| ==> out[i] >= 0x80;
      }
    }
  }

  /** A clean character at the head passes through as it is. */
  lemma CleanCharIsItsOwnPiece(s: Text, n: nat)
    requires 0 < n <= |s| && IsUtf8Char(s[..n]) && IsClean(s)
    ensures Piece(s) == (s[..n], n)
  {
    assert forall k :: 0 <= k < n ==> s[..n][k] == s[k];
    if s[0] >= 0x80 {
      HeadIsValidIffGrammar(s);
    } else {
      assert n == 1 && IsCleanByte(s[0]) && s[..1] == [s[0]];
    }
  }

  lemma {:induction false} SanitizedIsBoundedUtf8(s: Text, room: nat)
    ensures var out := Sanitized(s, room); IsWellFormed(out) && IsClean(out) && |out| <= room
    decreases |s|
  {
    hide Piece, IsUtf8Char, IsCleanByte;
    if s != [] {
      var (out, used) := Piece(s);
      if |out| <= room {
        PieceIsCleanChar(s);
        SanitizedIsBoundedUtf8(s[used..], room - |out|);
        var rest := Sanitized(s[used..], room - |out|);
        assert out != [] ==> (out + rest)[..|out|] == out && (out + rest)[|out|..] == rest;
        assert out == [] ==> out + rest == rest;
      }
    }
  }

  lemma {:induction false} BoundedUtf8IsUnchanged(s: Text, room: nat)
    requires IsWellFormed(s) && IsClean(s) && |s| <= room
    ensures Sanitized(s, room) == s
    decreases |s|
  {
    hide Piece, IsUtf8Char, IsCleanByte;
    if s != [] {
      var n: nat :| 0 < n <= |s| && IsUtf8Char(s[..n]) && IsWellFormed(s[n..]);
      CleanCharIsItsOwnPiece(s, n);
      var rest := s[n..];
      assert IsClean(rest) by { assert forall i :: 0 <= i < |rest| ==> rest[i] == s[n + i]; }
      BoundedUtf8IsUnchanged(rest, room - n);
      assert s[..n] + rest == s;
    }
  }

  /** Exactly the bounded, clean, well-formed texts come back unchanged. */
  lemma FixpointIffBoundedUtf8(s: Text, room: nat)
    ensures Sanitized(s, room) == s <==> IsWellFormed(s) && IsClean(s) && |s| <= room
  {
    SanitizedIsBoundedUtf8(s, room);
    if IsWellFormed(s) && IsClean(s) && |s| <= room { BoundedUtf8IsUnchanged(s, room); }
  }

  /** Sanitizing twice equals sanitizing once. */
  lemma SanitizeIsIdempotent(s: Text)
    ensures var once := Sanitized(s, MAX_MMI_TEXT_LEN); Sanitized(once, MAX_MMI_TEXT_LEN) == once
  {
    SanitizedIsBoundedUtf8(s, MAX_MMI_TEXT_LEN);
    FixpointIffBoundedUtf8(Sanitized(s, MAX_MMI_TEXT_LEN), MAX_MMI_TEXT_LEN);
  }

  /** The cap only ever removes whole characters from the end: with more room the text is the same text
      continued, and what is missing starts with a character that would not have fitted. */
  lemma {:induction false} CapCutsAtCharacters(s: Text, room: nat, more: nat)
    requires room <= more
    ensures var short, long := Sanitized(s, room), Sanitized(s, more);
            && short <= long
            && IsWellFormed(long[|short|..])
            && (short != long ==> exists c :: IsUtf8Char(c) && c <= long[|short|..] && |short| + |c| > room)
    decreases |s|
  {
    hide Piece, IsUtf8Char, IsCleanByte;
    if s != [] {
      var (out, used) := Piece(s);
      SanitizedIsBoundedUtf8(s, more);
      if |out| <= room {
        CapCutsAtCharacters(s[used..], room - |out|, more - |out|);
        var short, long := Sanitized(s[used..], room - |out|), Sanitized(s[used..], more - |out|);
        assert (out + long)[|out + short|..] == long[|short|..];
      } else if |out| <= more {
        PieceIsCleanChar(s);
        assert out <= Sanitized(s, more)[0..];
        assert Sanitized(s, more)[0..] == Sanitized(s, more);
      } else {
        assert Sanitized(s, more) == [];
      }
    }
  }

  // ----- what the text says -----

  /** Length of the character at the head by the grammar, 0 when there is none. */
  function CharLength(s: Text): (n: nat)
    ensures n <= |s| && n <= 4
  {
    if |s| >= 1 && IsUtf8Char(s[..1]) then 1
    else if |s| >= 2 && IsUtf8Char(s[..2]) then 2
    else if |s| >= 3 && IsUtf8Char(s[..3]) then 3
    else if |s| >= 4 && IsUtf8Char(s[..4]) then 4
    else 0
  }

  /** The character number of section 3 of RFC 3629. */
  function CodePoint(c: Text): int
    requires 1 <= |c| <= 4
  {
    if |c| == 1 then c[0]
    else if |c| == 2 then Bits(c[0], 0x20) * 0x40 + Bits(c[1], 0x40)
    else if |c| == 3 then Bits(c[0], 0x10) * 0x1000 + Bits(c[1], 0x40) * 0x40 + Bits(c[2], 0x40)
    else Bits(c[0], 0x08) * 0x40000 + Bits(c[1], 0x40) * 0x1000 + Bits(c[2], 0x40) * 0x40 + Bits(c[3], 0x40)
  }

  /** The bits of a byte below the given power of two. */
  function Bits(b: byte, power: nat): int
    requires power > 0
  {
    b as int % power
  }

  /** The characters of a text, up to the first byte that starts none. */
  function Decoded(s: Text): seq<int>
    decreases |s|
  {
    var n := CharLength(s);
    if n == 0 then [] else [CodePoint(s[..n])] + Decoded(s[n..])
  }

  /** What a CAM's bytes say: its UTF-8 characters without controls and DEL; of the other bytes, 0x8A ends a line (table
      A.1 of EN 300 468), those up to 0x9F say nothing, and the rest are the characters of ISO 8859-1. */
  function Said(s: Text): seq<int>
    decreases |s|
  {
    if s == [] then []
    else
      var n, b := CharLength(s), s[0];
      if n > 0 then
        var c := CodePoint(s[..n]);
        (if (c < 32 && c != 10) || c == 127 then [] else [c]) + Said(s[n..])
      else (if b == 0x8A then [10] else if b < 0xA0 then [] else [b]) + Said(s[1..])
  }

  lemma CharLengthIs(s: Text, n: nat)
    requires 0 < n <= |s| && IsUtf8Char(s[..n])
    ensures CharLength(s) == n
  {
    assert forall k :: 0 <= k < n ==> s[..n][k] == s[k];
    if |s| >= 1 { assert s[..1][0] == s[0]; }
    if |s| >= 2 { assert s[..2][0] == s[0]; }
    if |s| >= 3 { assert s[..3][0] == s[0]; }
    if |s| >= 4 { assert s[..4][0] == s[0]; }
  }

  lemma DecodedCons(c: Text, rest: Text)
    requires IsUtf8Char(c)
    ensures Decoded(c + rest) == [CodePoint(c)] + Decoded(rest)
  {
    hide IsUtf8Char, CodePoint, CharLength;
    var s := c + rest;
    assert s[..|c|] == c && s[|c|..] == rest;
    IsShort(c);
    CharLengthIs(s, |c|);
  }

  lemma IsShort(c: Text)
    requires IsUtf8Char(c)
    ensures 1 <= |c| <= 4
  {
  }

  /** One piece says what the bytes it stands for say. */
  lemma PieceSays(s: Text)
    requires s != []
    ensures var (out, used) := Piece(s);
            && (out == [] ==> Said(s) == Said(s[used..]))
            && (out != [] ==> IsUtf8Char(out) && 1 <= |out| <= 4 && Said(s) == [CodePoint(out)] + Said(s[used..]))
  {
    var b := s[0];
    if b < 0x80 {
      assert s[..1] == [b];
      CharLengthIs(s, 1);
    } else {
      HeadIsValidIffGrammar(s);
      if HeadIsValid(s) {
        var n := SequenceLength(b);
        assert s[..n][0] == b;
        CharLengthIs(s, n);
        MultiByteIsNoControl(s[..n]);
      } else {
        NoCharLength(s);
        if b >= 0xA0 { LatinSays(b); }
      }
    }
  }

  lemma NoCharLength(s: Text)
    requires s != [] && !(exists n: nat :: 0 < n <= |s| && IsUtf8Char(s[..n]))
    ensures CharLength(s) == 0
  {
    hide IsUtf8Char;
  }

  lemma MultiByteIsNoControl(c: Text)
    requires IsUtf8Char(c) && c[0] >= 0x80
    ensures 2 <= |c| <= 4 && CodePoint(c) >= 0x80
  {
  }

  lemma LatinSays(b: byte)
    requires b >= 0xA0
    ensures var out: Text := [0xC0 + b / 0x40, 0x80 + b % 0x40]; IsUtf8Char(out) && CodePoint(out) == b
  {
    assert b / 0x40 == 2 || b / 0x40 == 3;
  }

  /** With room for it, the sanitized text says what the bytes said; with less it is cut as told above. */
  lemma {:induction false} SanitizedSaysTheSame(s: Text, room: nat)
    requires 2 * |s| <= room
    ensures Decoded(Sanitized(s, room)) == Said(s)
    decreases |s|
  {
    hide Piece, IsUtf8Char, CodePoint, Said, Decoded, CharLength;
    if s == [] {
      NothingSaid();
    } else {
      var (out, used) := Piece(s);
      PieceSize(s);
      PieceSays(s);
      SanitizedSaysTheSame(s[used..], room - |out|);
      var rest := Sanitized(s[used..], room - |out|);
      if out == [] { assert out + rest == rest; } else { DecodedCons(out, rest); }
    }
  }

  lemma NothingSaid()
    ensures Said([]) == [] && Decoded([]) == []
  {
  }

  lemma PieceSize(s: Text)
    requires s != []
    ensures |Piece(s).0| <= 2 * Piece(s).1
  {
  }
}
