/** Runs of the interleaved reader: whatever the read boundaries and destination sizes, what comes out is the
    payload of a prefix of the frames, and everything else is still in the buffer. */
module RtspRuns {
  import opened Bytes
  import opened Rtsp
  import opened Wrappers

  // ----- what one step reads -----

  /** The wire form of a frame: `$`, the channel, the length in two bytes, and behind it the RTP or RTCP packet, which begins
      with version 2 and payload type 33 or with a sender report. Complete and with room it is taken whole, and of channel 0
      what follows its 12-byte header comes out. */
  lemma FrameOnWire(channel: byte, kind: byte, more: Data, tail: Data, room: int, reply: ReplyLength)
    requires channel in {0, 1} && kind in {0x21, 0xC8} && 0 < |more| + |tail| && |more| < 0xFFFE
    ensures var n := |more| + 2;
            var b := [0x24, channel, n / 0x100, n % 0x100, 0x80, kind] + more + tail;
            StepOf(b, room, reply) == if channel == 0 && n > room + 12 then Stop
                                      else Take(n + 4, if channel == 0 && n >= 12 then more[10..] else [])
  {
    var n := |more| + 2;
    var b := [0x24, channel, n / 0x100, n % 0x100, 0x80, kind] + more + tail;
    assert Get16(b, 2) == n;
    if n >= 12 { assert b[16..n + 4] == more[10..]; }
  }

  /** The other cases: a frame that is not complete waits, so does an RTSP reply, which is taken when complete; and any other
      byte is skipped. */
  lemma OthersOnWire(b: Data, room: int, reply: ReplyLength)
    ensures |b| <= 6 ==> StepOf(b, room, reply) == Stop
    ensures |b| > 6 && b[0] == 0x24 && b[1] <= 1 && b[4] == 0x80 && b[5] in {0x21, 0xC8} && |b| < Get16(b, 2) + 4 ==>
              StepOf(b, room, reply) == Stop
    ensures |b| > 6 && b[..4] == [0x52, 0x54, 0x53, 0x50] ==>
              StepOf(b, room, reply) == match reply(b)
                                        case None => Stop
                                        case Some(n) => if n == 0 || n > |b| then Stop else Take(n, [])
    ensures |b| > 6 && !(b[0] == 0x24 && b[1] <= 1 && b[4] == 0x80 && b[5] in {0x21, 0xC8}) && b[..4] != [0x52, 0x54, 0x53, 0x50] ==>
              StepOf(b, room, reply) == Take(1, [])
  {
    if |b| > 6 {
      assert b[..4] == [b[0], b[1], b[2], b[3]];
    }
  }

  /** There is room for the socket unless unconsumed bytes fill the whole buffer. */
  lemma RoomToRead(s: State, size: nat)
    requires s.pos + |s.rest| <= size
    ensures Space(s, size) >= 0 && (Space(s, size) == 0 <==> |s.rest| == size) && Compact(s, size).rest == s.rest
  {
  }

  // ----- one scan over well-formed frames -----

  /** How many of the frames fs, of which b is a beginning, one scan takes. */
  function Count(b: Data, fs: seq<Frame>, room: int): (k: nat)
    ensures k <= |fs|
    decreases |fs|
  {
    if fs == [] || |b| <= 6 || |EncodeFrame(fs[0])| > |b| || |Payload(fs[0])| > room then 0
    else 1 + Count(b[|EncodeFrame(fs[0])|..], fs[1..], room - |Payload(fs[0])|)
  }

  /** What the reader sees at the start of a frame. */
  lemma FrameStep(b: Data, fs: seq<Frame>, room: nat, reply: ReplyLength)
    requires fs != [] && WellFormed(fs[0]) && b <= Encode(fs) && |b| > 6
    ensures var f := fs[0]; var e := EncodeFrame(f);
            && StepOf(b, room, reply) == (if |e| > |b| || |Payload(f)| > room then Stop else Take(|e|, Payload(f)))
            && (|e| <= |b| ==> b[..|e|] == e && b[|e|..] <= Encode(fs[1..]))
            && IsHeader(b) && b[1] == f.channel && Get16(b, 2) == |f.body|
  {
    var f, all := fs[0], Encode(fs);
    var e := EncodeFrame(f);
    assert forall i :: 0 <= i < 6 ==> b[i] == all[i] && all[i] == e[i];
    assert Get16(b, 2) == |f.body|;
    if |e| <= |b| {
      assert all[..|e|] == e && all[|e|..] == Encode(fs[1..]);
      assert b[..|e|] == all[..|b|][..|e|];
      if f.channel == 0 { assert b[16..|f.body| + 4] == b[..|e|][16..] == f.body[12..]; }
    }
  }

  lemma WellFormedTail(fs: seq<Frame>)
    requires AllWellFormed(fs) && fs != []
    ensures WellFormed(fs[0]) && AllWellFormed(fs[1..])
  {
  }

  /** The first k frames' bytes and payloads, one frame peeled off. */
  lemma PrefixCons(fs: seq<Frame>, k: nat)
    requires 0 < k <= |fs|
    ensures Encode(fs[..k]) == EncodeFrame(fs[0]) + Encode(fs[1..][..k - 1])
    ensures Payloads(fs[..k]) == Payload(fs[0]) + Payloads(fs[1..][..k - 1])
  {
    hide EncodeFrame, Payload;
    assert fs[..k][1..] == fs[1..][..k - 1];
  }

  lemma TakeNoShort(b: Data, room: nat, reply: ReplyLength)
    requires StepOf(b, room, reply).Take? && IsHeader(b) && (b[1] == 0 ==> Get16(b, 2) >= 12)
    ensures var s := StepOf(b, room, reply);
            NoShortFrame(b[s.n..], room - |s.payload|, reply) ==> NoShortFrame(b, room, reply)
  {
  }

  /** Peeling off one frame that is complete and fits. */
  lemma OneFrame(b: Data, fs: seq<Frame>, room: nat, reply: ReplyLength)
    requires AllWellFormed(fs) && b <= Encode(fs) && Count(b, fs, room) > 0
    ensures var e, p := EncodeFrame(fs[0]), Payload(fs[0]); var c := b[|e|..];
            && b == e + c && c <= Encode(fs[1..]) && |p| <= room && AllWellFormed(fs[1..])
            && Taken(b, room, reply) == |e| + Taken(c, room - |p|, reply)
            && Output(b, room, reply) == p + Output(c, room - |p|, reply)
            && b[Taken(b, room, reply)..] == c[Taken(c, room - |p|, reply)..]
            && Count(b, fs, room) == 1 + Count(c, fs[1..], room - |p|)
            && (NoShortFrame(c, room - |p|, reply) ==> NoShortFrame(b, room, reply))
  {
    hide EncodeFrame, Payload, StepOf, AllWellFormed, Encode, Payloads, NoShortFrame, IsHeader;
    WellFormedTail(fs);
    FrameStep(b, fs, room, reply);
    StepUnfolds(b, room, reply);
    TakeNoShort(b, room, reply);
    var e, p := EncodeFrame(fs[0]), Payload(fs[0]);
    assert b[|e|..][Taken(b[|e|..], room - |p|, reply)..] == b[Taken(b, room, reply)..];
  }

  lemma NoFrame(b: Data, fs: seq<Frame>, room: nat, reply: ReplyLength)
    requires AllWellFormed(fs) && b <= Encode(fs) && Count(b, fs, room) == 0
    ensures Taken(b, room, reply) == 0 && Output(b, room, reply) == [] && NoShortFrame(b, room, reply)
  {
    hide EncodeFrame, Payload, AllWellFormed;
    if |b| > 6 {
      WellFormedTail(fs);
      FrameStep(b, fs, room, reply);
    }
  }

  /** One scan takes whole frames, and never meets a short one. */
  lemma {:induction false} ScanTakesFrames(b: Data, fs: seq<Frame>, room: nat, reply: ReplyLength)
    requires AllWellFormed(fs) && b <= Encode(fs)
    ensures var k := Count(b, fs, room);
            && Output(b, room, reply) == Payloads(fs[..k])
            && b == Encode(fs[..k]) + b[Taken(b, room, reply)..] && b[Taken(b, room, reply)..] <= Encode(fs[k..])
            && NoShortFrame(b, room, reply)
    decreases |fs|
  {
    hide WellFormed, EncodeFrame, Payload, AllWellFormed, Encode, Payloads, Taken, Output, NoShortFrame, Count;
    var k := Count(b, fs, room);
    EncodeNone(fs);
    if k == 0 {
      NoFrame(b, fs, room, reply);
    } else {
      OneFrame(b, fs, room, reply);
      var e, p := EncodeFrame(fs[0]), Payload(fs[0]);
      ScanTakesFrames(b[|e|..], fs[1..], room - |p|, reply);
      PrefixCons(fs, k);
      assert fs[1..][k - 1..] == fs[k..];
    }
  }

  lemma EncodeNone(fs: seq<Frame>)
    ensures fs[..0] == [] && Encode(fs[..0]) == [] && Payloads(fs[..0]) == [] && fs[0..] == fs
    ensures Encode([]) == []
  {
  }

  /** A scan stops at the end of the frames, at an incomplete frame, or at one the destination has no room for. */
  lemma {:induction false} CountIsMaximal(b: Data, fs: seq<Frame>, room: nat, reply: ReplyLength)
    requires AllWellFormed(fs) && b <= Encode(fs)
    ensures var k := Count(b, fs, room); var rest := b[Taken(b, room, reply)..];
            k == |fs| || |rest| <= 6 || |rest| < |EncodeFrame(fs[k])| || |Payloads(fs[..k + 1])| > room
    decreases |fs|
  {
    hide WellFormed, EncodeFrame, Payload, StepOf, AllWellFormed, Encode, Taken, Output, NoShortFrame;
    var k := Count(b, fs, room);
    if k == 0 {
      EncodeNone(fs);
      NoFrame(b, fs, room, reply);
      if fs != [] { PrefixCons(fs, 1); EncodeNone(fs[1..]); }
    } else {
      OneFrame(b, fs, room, reply);
      var e, p := EncodeFrame(fs[0]), Payload(fs[0]);
      CountIsMaximal(b[|e|..], fs[1..], room - |p|, reply);
      if k < |fs| { PrefixCons(fs, k + 1); }
    }
  }

  // ----- runs -----

  /** One call: how many bytes have arrived at the socket, and how large the destination is. */
  datatype Call = Call(arrived: nat, room: nat)

  /** The reader, the bytes read from the socket so far, and the concatenated output. */
  datatype Session = Session(reader: State, fed: nat, out: Data)

  const START: Session := Session(State(0, []), 0, [])

  function Min(a: int, b: int): int { if a < b then a else b }

  /** What the socket delivers of the stream: at most what has arrived, what the buffer takes, and what is left. */
  function Chunk(x: Session, stream: Data, size: nat, c: Call): Data
    requires x.fed <= |stream|
  {
    var n := Min(Min(c.arrived, Space(x.reader, size)), |stream| - x.fed);
    if n <= 0 then [] else stream[x.fed..x.fed + n]
  }

  function DoCall(x: Session, stream: Data, size: nat, reply: ReplyLength, c: Call): (r: Session)
    requires x.fed <= |stream|
    ensures r.fed <= |stream|
  {
    var chunk := Chunk(x, stream, size, c);
    var (reader, out) := ReadOnce(x.reader, size, chunk, c.room, reply);
    Session(reader, x.fed + |chunk|, x.out + out)
  }

  function RunCalls(stream: Data, size: nat, reply: ReplyLength, calls: seq<Call>): (r: Session)
    ensures r.fed <= |stream|
  {
    if calls == [] then START
    else DoCall(RunCalls(stream, size, reply, calls[..|calls| - 1]), stream, size, reply, calls[|calls| - 1])
  }

  /** The session stands behind the first k frames: their payloads are out, and all else that was read is in
      the buffer. */
  ghost predicate At(x: Session, fs: seq<Frame>, size: nat, k: nat) {
    && k <= |fs| && x.fed <= |Encode(fs)|
    && x.out == Payloads(fs[..k]) && Encode(fs)[..x.fed] == Encode(fs[..k]) + x.reader.rest
    && x.reader.pos + |x.reader.rest| <= size
  }

  lemma Regroup(a: Data, b: Data, c: Data)
    ensures a + (b + c) == a + b + c
  {
  }

  lemma {:induction false} EncodeSplits(fs: seq<Frame>, k: nat)
    requires k <= |fs|
    ensures Encode(fs) == Encode(fs[..k]) + Encode(fs[k..])
    ensures Payloads(fs) == Payloads(fs[..k]) + Payloads(fs[k..])
    decreases k
  {
    hide EncodeFrame, Payload;
    if k == 0 {
      assert fs[..0] == [] && fs[0..] == fs;
    } else {
      PrefixCons(fs, k);
      EncodeSplits(fs[1..], k - 1);
      assert fs[1..][k - 1..] == fs[k..];
      Regroup(EncodeFrame(fs[0]), Encode(fs[1..][..k - 1]), Encode(fs[k..]));
      Regroup(Payload(fs[0]), Payloads(fs[1..][..k - 1]), Payloads(fs[k..]));
    }
  }

  /** The bytes the next scan sees are the beginning of the frames that are still to come. */
  lemma UnreadIsAligned(x: Session, fs: seq<Frame>, size: nat, k: nat, chunk: Data)
    requires At(x, fs, size, k) && x.fed + |chunk| <= |Encode(fs)| && chunk == Encode(fs)[x.fed..x.fed + |chunk|]
    ensures x.reader.rest + chunk <= Encode(fs[k..])
    ensures Encode(fs)[..x.fed + |chunk|] == Encode(fs[..k]) + (x.reader.rest + chunk)
  {
    hide Encode, Payloads;
    EncodeSplits(fs, k);
    var all, h, t := Encode(fs), Encode(fs[..k]), Encode(fs[k..]);
    assert all[..x.fed + |chunk|] == all[..x.fed] + chunk;
    assert all[|h|..] == t;
    assert all[..x.fed + |chunk|][|h|..] == x.reader.rest + chunk;
    assert all[..x.fed + |chunk|][|h|..] == t[..|x.reader.rest + chunk|];
  }

  lemma {:induction false} CountAppends(fs: seq<Frame>, k: nat, j: nat)
    requires k + j <= |fs|
    ensures Encode(fs[..k + j]) == Encode(fs[..k]) + Encode(fs[k..][..j])
    ensures Payloads(fs[..k + j]) == Payloads(fs[..k]) + Payloads(fs[k..][..j])
  {
    hide Encode, Payloads;
    EncodeSplits(fs[..k + j], k);
    assert fs[..k + j][..k] == fs[..k] && fs[..k + j][k..] == fs[k..][..j];
  }

  /** How many frames a call takes. */
  function Progress(x: Session, fs: seq<Frame>, size: nat, k: nat, c: Call): nat
    requires x.fed <= |Encode(fs)| && k <= |fs|
  {
    var chunk := Chunk(x, Encode(fs), size, c);
    if chunk == [] && Space(x.reader, size) > 0 then 0 else Count(x.reader.rest + chunk, fs[k..], c.room)
  }

  lemma ChunkIsNext(x: Session, stream: Data, size: nat, c: Call)
    requires x.fed <= |stream| && x.reader.pos + |x.reader.rest| <= size
    ensures var chunk := Chunk(x, stream, size, c);
            && x.fed + |chunk| <= |stream| && chunk == stream[x.fed..x.fed + |chunk|]
            && |chunk| <= Space(x.reader, size) && |chunk| <= Min(c.arrived, size)
  {
  }

  /** One call moves on by whole frames and loses nothing. */
  lemma CallKeepsPlace(x: Session, fs: seq<Frame>, size: nat, reply: ReplyLength, k: nat, c: Call)
    requires AllWellFormed(fs) && At(x, fs, size, k)
    ensures At(DoCall(x, Encode(fs), size, reply, c), fs, size, k + Progress(x, fs, size, k, c))
  {
    hide Encode, Payloads, Taken, Output, Count, AllWellFormed, Chunk;
    var chunk, j := Chunk(x, Encode(fs), size, c), Progress(x, fs, size, k, c);
    var r := DoCall(x, Encode(fs), size, reply, c);
    ChunkIsNext(x, Encode(fs), size, c);
    UnreadIsAligned(x, fs, size, k, chunk);
    var b := x.reader.rest + chunk;
    if chunk == [] && Space(x.reader, size) > 0 {
      assert x.reader.rest + chunk == x.reader.rest && x.out + [] == x.out;
    } else {
      TailWellFormed(fs, k);
      ScanTakesFrames(b, fs[k..], c.room, reply);
      CountAppends(fs, k, j);
      assert r.reader.rest == b[Taken(b, c.room, reply)..];
      assert Encode(fs[..k]) + b == Encode(fs[..k]) + Encode(fs[k..][..j]) + r.reader.rest;
    }
  }

  lemma TailWellFormed(fs: seq<Frame>, k: nat)
    requires AllWellFormed(fs) && k <= |fs|
    ensures AllWellFormed(fs[k..])
  {
  }

  /** For any well-formed frames, any split into reads and any destination sizes: the output is the payload of a
      prefix of the frames, and all bytes read since are still in the buffer. */
  lemma {:induction false} NothingIsLost(fs: seq<Frame>, size: nat, reply: ReplyLength, calls: seq<Call>)
    requires AllWellFormed(fs)
    ensures exists k: nat :: At(RunCalls(Encode(fs), size, reply, calls), fs, size, k)
    decreases |calls|
  {
    hide At, Progress, AllWellFormed, Encode, DoCall;
    if calls == [] {
      StartsAtZero(fs, size);
      assert At(RunCalls(Encode(fs), size, reply, calls), fs, size, 0);
    } else {
      var n := |calls| - 1;
      NothingIsLost(fs, size, reply, calls[..n]);
      var x := RunCalls(Encode(fs), size, reply, calls[..n]);
      var k: nat :| At(x, fs, size, k);
      AtIsWithin(x, fs, size, k);
      CallKeepsPlace(x, fs, size, reply, k, calls[n]);
      assert At(RunCalls(Encode(fs), size, reply, calls), fs, size, k + Progress(x, fs, size, k, calls[n]));
    }
  }

  lemma AtIsWithin(x: Session, fs: seq<Frame>, size: nat, k: nat)
    requires At(x, fs, size, k)
    ensures x.fed <= |Encode(fs)| && k <= |fs|
  {
  }

  lemma StartsAtZero(fs: seq<Frame>, size: nat)
    ensures At(START, fs, size, 0)
  {
  }

  /** The outputs of any two runs over the same frames agree as far as both go. */
  lemma OutputIsPayloadPrefix(fs: seq<Frame>, size: nat, reply: ReplyLength, calls: seq<Call>)
    requires AllWellFormed(fs)
    ensures RunCalls(Encode(fs), size, reply, calls).out <= Payloads(fs)
  {
    hide Encode, Payloads, AllWellFormed, RunCalls;
    NothingIsLost(fs, size, reply, calls);
    var k: nat :| At(RunCalls(Encode(fs), size, reply, calls), fs, size, k);
    EncodeSplits(fs, k);
  }

  lemma {:induction false} FewBytesNoPayload(fs: seq<Frame>)
    requires AllWellFormed(fs) && |Encode(fs)| <= 6
    ensures Payloads(fs) == []
  {
  }

  lemma EncodeHead(fs: seq<Frame>, k: nat)
    requires k < |fs|
    ensures |Encode(fs[k..])| >= |EncodeFrame(fs[k])|
  {
  }

  lemma PayloadsOfPrefix(fs: seq<Frame>, k: nat, j: nat)
    requires k + j <= |fs|
    ensures |Payloads(fs[k..][..j])| <= |Payloads(fs)|
  {
    hide Encode, Payloads;
    EncodeSplits(fs, k);
    EncodeSplits(fs[k..], j);
  }

  /** Once the last bytes have been read into a call whose destination has room, every payload is out, however
      the stream was split. */
  lemma AllIsDelivered(fs: seq<Frame>, size: nat, reply: ReplyLength, calls: seq<Call>)
    requires AllWellFormed(fs) && calls != []
    requires RunCalls(Encode(fs), size, reply, calls[..|calls| - 1]).fed < RunCalls(Encode(fs), size, reply, calls).fed == |Encode(fs)|
    requires calls[|calls| - 1].room >= |Payloads(fs)|
    ensures RunCalls(Encode(fs), size, reply, calls).out == Payloads(fs)
  {
    hide Encode, Payloads, AllWellFormed, Taken, Output, Count, EncodeFrame, Chunk;
    var c := calls[|calls| - 1];
    var x, r := RunCalls(Encode(fs), size, reply, calls[..|calls| - 1]), RunCalls(Encode(fs), size, reply, calls);
    NothingIsLost(fs, size, reply, calls[..|calls| - 1]);
    var k: nat :| At(x, fs, size, k);
    CallKeepsPlace(x, fs, size, reply, k, c);
    LastCallFinishes(x, fs, size, reply, k, c);
  }

  lemma SameTail(head: Data, a: Data, b: Data)
    requires head + a == head + b
    ensures a == b
  {
    assert (head + a)[|head|..] == a && (head + b)[|head|..] == b;
  }

  lemma LastCallFinishes(x: Session, fs: seq<Frame>, size: nat, reply: ReplyLength, k: nat, c: Call)
    requires AllWellFormed(fs) && At(x, fs, size, k) && c.room >= |Payloads(fs)|
    requires x.fed < DoCall(x, Encode(fs), size, reply, c).fed == |Encode(fs)|
    ensures DoCall(x, Encode(fs), size, reply, c).out == Payloads(fs)
  {
    hide Encode, Payloads, AllWellFormed, Taken, Output, Count, EncodeFrame, Chunk;
    CallKeepsPlace(x, fs, size, reply, k, c);
    var r, m := DoCall(x, Encode(fs), size, reply, c), k + Progress(x, fs, size, k, c);
    var chunk := Chunk(x, Encode(fs), size, c);
    var b := x.reader.rest + chunk;
    ChunkIsNext(x, Encode(fs), size, c);
    UnreadIsAligned(x, fs, size, k, chunk);
    TailWellFormed(fs, k);
    TailWellFormed(fs, m);
    CountIsMaximal(b, fs[k..], c.room, reply);
    EncodeSplits(fs, m);
    assert Encode(fs)[..r.fed] == Encode(fs);
    SameTail(Encode(fs[..m]), r.reader.rest, Encode(fs[m..]));
    if m < |fs| {
      EncodeHead(fs, m);
      PayloadsOfPrefix(fs, k, m - k + 1);
      assert fs[k..][m - k] == fs[m];
      FewBytesNoPayload(fs[m..]);
    } else {
      EncodeNone(fs[m..]);
      assert fs[m..] == [];
    }
  }

  // ----- progress, and delivery into bounded destinations -----

  /** The largest frame: a header of four bytes and a 16-bit length. */
  const MAX_FRAME: nat := 4 + 0xFFFF

  /** A call takes a frame exactly when it reads something, or finds the buffer full, and then holds the whole next
      frame and has room for its payload. */
  lemma CallTakesAFrameIff(x: Session, fs: seq<Frame>, size: nat, k: nat, c: Call)
    requires AllWellFormed(fs) && At(x, fs, size, k)
    ensures var chunk := Chunk(x, Encode(fs), size, c); var b := x.reader.rest + chunk;
            Progress(x, fs, size, k, c) > 0 <==>
              && (chunk != [] || Space(x.reader, size) == 0)
              && k < |fs| && |b| > 6 && |EncodeFrame(fs[k])| <= |b| && |Payload(fs[k])| <= c.room
  {
    hide Encode, EncodeFrame, Payload, Payloads, Chunk;
    var b := x.reader.rest + Chunk(x, Encode(fs), size, c);
    if k < |fs| { assert fs[k..][0] == fs[k]; }
  }

  /** No frame behind the first k is complete in the buffer. */
  ghost predicate NoBacklog(x: Session, fs: seq<Frame>, k: nat)
  {
    k >= |fs| || |x.reader.rest| <= 6 || |x.reader.rest| < |EncodeFrame(fs[k])|
  }

  lemma {:induction false} PayloadsAreShorter(fs: seq<Frame>)
    ensures |Payloads(fs)| <= |Encode(fs)|
  {
    if fs != [] { PayloadsAreShorter(fs[1..]); }
  }

  lemma FrameLength(fs: seq<Frame>, k: nat)
    requires AllWellFormed(fs) && k < |fs|
    ensures |EncodeFrame(fs[k])| <= MAX_FRAME && Encode([fs[k]]) == EncodeFrame(fs[k])
  {
    assert [fs[k]][1..] == [];
    assert EncodeFrame(fs[k]) + Encode([]) == EncodeFrame(fs[k]);
  }

  /** The frames taken and the next one, if it is complete, all lie in the bytes scanned. */
  lemma CompleteFits(b: Data, fs: seq<Frame>, rest: Data, j: nat)
    requires AllWellFormed(fs) && j < |fs| && b == Encode(fs[..j]) + rest && |EncodeFrame(fs[j])| <= |rest|
    ensures |Payloads(fs[..j + 1])| <= |b|
  {
    hide Encode, EncodeFrame, Payloads;
    PayloadsAreShorter(fs[..j + 1]);
    CountAppends(fs, j, 1);
    assert fs[j..][..1] == [fs[j]];
    FrameLength(fs, j);
  }

  /** A call with room for what arrives and one frame more leaves no complete frame behind. */
  lemma CallKeepsUp(x: Session, fs: seq<Frame>, size: nat, reply: ReplyLength, k: nat, c: Call)
    requires AllWellFormed(fs) && At(x, fs, size, k) && NoBacklog(x, fs, k) && c.room >= Min(c.arrived, size) + MAX_FRAME
    ensures k + Progress(x, fs, size, k, c) <= |fs|
    ensures NoBacklog(DoCall(x, Encode(fs), size, reply, c), fs, k + Progress(x, fs, size, k, c))
  {
    hide Encode, EncodeFrame, Payload, Payloads, Taken, Output, Count, AllWellFormed, NoShortFrame;
    var chunk, j := Chunk(x, Encode(fs), size, c), Progress(x, fs, size, k, c);
    ChunkIsNext(x, Encode(fs), size, c);
    UnreadIsAligned(x, fs, size, k, chunk);
    var b := x.reader.rest + chunk;
    if k < |fs| { FrameLength(fs, k); }
    if chunk != [] || Space(x.reader, size) <= 0 {
      TailWellFormed(fs, k);
      ScanTakesFrames(b, fs[k..], c.room, reply);
      CountIsMaximal(b, fs[k..], c.room, reply);
      var rest := b[Taken(b, c.room, reply)..];
      assert DoCall(x, Encode(fs), size, reply, c).reader.rest == rest;
      if k + j < |fs| && |EncodeFrame(fs[k + j])| <= |rest| {
        assert fs[k..][j] == fs[k + j];
        CompleteFits(b, fs[k..], rest, j);
      }
    }
  }

  /** Into destinations that each have room for what arrives and one frame more, every frame is out as soon as it is
      read; what arrives beyond the reader's own buffer need not be counted, so the bound is fixed. */
  lemma {:induction false} BoundedRoomKeepsUp(fs: seq<Frame>, size: nat, reply: ReplyLength, calls: seq<Call>)
    requires AllWellFormed(fs) && forall i :: 0 <= i < |calls| ==> calls[i].room >= Min(calls[i].arrived, size) + MAX_FRAME
    ensures exists k: nat :: At(RunCalls(Encode(fs), size, reply, calls), fs, size, k)
                             && NoBacklog(RunCalls(Encode(fs), size, reply, calls), fs, k)
    decreases |calls|
  {
    hide At, Progress, AllWellFormed, Encode, DoCall, NoBacklog;
    if calls == [] {
      StartsAtZero(fs, size);
      AtIsWithin(START, fs, size, 0);
      assert NoBacklog(START, fs, 0) by { StartsWithoutBacklog(fs); }
      assert At(RunCalls(Encode(fs), size, reply, calls), fs, size, 0);
    } else {
      var n := |calls| - 1;
      BoundedRoomKeepsUp(fs, size, reply, calls[..n]);
      var x := RunCalls(Encode(fs), size, reply, calls[..n]);
      var k: nat :| At(x, fs, size, k) && NoBacklog(x, fs, k);
      AtIsWithin(x, fs, size, k);
      CallKeepsPlace(x, fs, size, reply, k, calls[n]);
      CallKeepsUp(x, fs, size, reply, k, calls[n]);
      var m := k + Progress(x, fs, size, k, calls[n]);
      assert At(RunCalls(Encode(fs), size, reply, calls), fs, size, m);
    }
  }

  lemma StartsWithoutBacklog(fs: seq<Frame>)
    ensures NoBacklog(START, fs, 0)
  {
  }

  /** In particular all payloads are out once all bytes have been read. */
  lemma BoundedRoomDelivers(fs: seq<Frame>, size: nat, reply: ReplyLength, calls: seq<Call>)
    requires AllWellFormed(fs) && forall i :: 0 <= i < |calls| ==> calls[i].room >= Min(calls[i].arrived, size) + MAX_FRAME
    requires RunCalls(Encode(fs), size, reply, calls).fed == |Encode(fs)|
    ensures RunCalls(Encode(fs), size, reply, calls).out == Payloads(fs)
  {
    hide Encode, Payloads, AllWellFormed, EncodeFrame, RunCalls;
    BoundedRoomKeepsUp(fs, size, reply, calls);
    var r := RunCalls(Encode(fs), size, reply, calls);
    var k: nat :| At(r, fs, size, k) && NoBacklog(r, fs, k);
    EncodeSplits(fs, k);
    assert Encode(fs)[..r.fed] == Encode(fs);
    SameTail(Encode(fs[..k]), r.reader.rest, Encode(fs[k..]));
    TailWellFormed(fs, k);
    if k < |fs| {
      EncodeHead(fs, k);
      FewBytesNoPayload(fs[k..]);
    } else {
      assert fs[k..] == [];
      EncodeNone(fs);
    }
  }
}
