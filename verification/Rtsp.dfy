/** The interleaved RTSP stream reader of the SAT>IP client (src/satipc.cpp:1160-1378; section 10.12 of
    RFC 2326): TCP data gathered in a buffer across calls, frames taken out of it into the caller's buffer. */
module Rtsp {
  import opened Bytes
  import opened Wrappers

  const TCP_DATA_SIZE: nat := 285 * 1332 * 3

  // ----- frames -----

  /** An interleaved frame: channel 0 carries RTP, channel 1 RTCP. */
  datatype Frame = Frame(channel: byte, body: Data)

  predicate IsRtpStart(a: byte, b: byte) { a == 0x80 && (b == 0x21 || b == 0xC8) }

  predicate WellFormed(f: Frame) {
    && f.channel < 2 && 2 <= |f.body| < 0x10000 && IsRtpStart(f.body[0], f.body[1])
    && (f.channel == 0 ==> |f.body| >= 12)
  }

  ghost predicate AllWellFormed(fs: seq<Frame>) { forall i :: 0 <= i < |fs| ==> WellFormed(fs[i]) }

  function EncodeFrame(f: Frame): Data { [0x24, f.channel] + Put16(|f.body|) + f.body }

  function Encode(fs: seq<Frame>): Data { if fs == [] then [] else EncodeFrame(fs[0]) + Encode(fs[1..]) }

  /** The TS data of a frame: the RTP payload behind its 12-byte header. */
  function Payload(f: Frame): Data { if f.channel == 0 && |f.body| >= 12 then f.body[12..] else [] }

  function Payloads(fs: seq<Frame>): Data { if fs == [] then [] else Payload(fs[0]) + Payloads(fs[1..]) }

  // ----- the scan -----

  /** Length of a complete RTSP reply at the start of the data, if there is one. */
  type ReplyLength = Data -> Option<nat>

  datatype Step = Stop | Take(n: nat, payload: Data)

  predicate IsHeader(b: Data)
    requires |b| > 6
  {
    b[0] == 0x24 && b[1] < 2 && IsRtpStart(b[4], b[5])
  }

  predicate IsRtsp(b: Data)
    requires |b| > 6
  {
    b[0] == 0x52 && b[1] == 0x54 && b[2] == 0x53 && b[3] == 0x50
  }

  /** What the loop does with the unconsumed bytes b and `room` bytes left in the destination. */
  function StepOf(b: Data, room: int, reply: ReplyLength): (s: Step)
    ensures s.Take? ==> 0 < s.n <= |b|
  {
    if |b| <= 6 then Stop
    else if IsHeader(b) then
      var n := Get16(b, 2);
      if n + 4 > |b| || (b[1] == 0 && n - 12 > room) then Stop
      else Take(n + 4, if b[1] == 0 && n >= 12 then b[16..n + 4] else [])
    else if IsRtsp(b) then
      var r := reply(b);
      if r.Some? && 0 < r.value <= |b| then Take(r.value, []) else Stop
    else Take(1, [])
  }

  /** How many bytes of b the loop takes. */
  function Taken(b: Data, room: int, reply: ReplyLength): (n: nat)
    ensures n <= |b|
    decreases |b|
  {
    match StepOf(b, room, reply)
    case Stop => 0
    case Take(n, payload) => n + Taken(b[n..], room - |payload|, reply)
  }

  /** What the loop puts into the destination. */
  function Output(b: Data, room: int, reply: ReplyLength): Data
    decreases |b|
  {
    match StepOf(b, room, reply)
    case Stop => []
    case Take(n, payload) => payload + Output(b[n..], room - |payload|, reply)
  }

  /** The scan meets no RTP frame shorter than its header. */
  ghost predicate NoShortFrame(b: Data, room: int, reply: ReplyLength)
    decreases |b|
  {
    var s := StepOf(b, room, reply);
    s.Take? ==> (IsHeader(b) && b[1] == 0 ==> Get16(b, 2) >= 12) && NoShortFrame(b[s.n..], room - |s.payload|, reply)
  }

  // ----- one call, on values -----

  /** Position of the first unconsumed byte in the buffer, and the unconsumed bytes. */
  datatype State = State(pos: nat, rest: Data)

  /** A full buffer is compacted before reading. */
  function Compact(s: State, size: nat): State {
    if s.pos + |s.rest| == size && s.pos > 0 then State(0, s.rest) else s
  }

  /** How many bytes the next call can read from the socket. */
  function Space(s: State, size: nat): int {
    var c := Compact(s, size);
    size - c.pos - |c.rest|
  }

  /** satipc_tcp_read when the socket delivers `chunk`. */
  function ReadOnce(s: State, size: nat, chunk: Data, room: nat, reply: ReplyLength): (State, Data) {
    var c := Compact(s, size);
    if chunk == [] && Space(s, size) > 0 then (c, [])
    else
      var b := c.rest + chunk;
      var n := Taken(b, room, reply);
      (if n == |b| then State(0, []) else State(c.pos + n, b[n..]), Output(b, room, reply))
  }

  // ----- the reader -----

  class TcpReader {
    const size: nat
    const tcpData: array<byte>
    var tcpPos: nat
    var tcpLen: nat

    ghost predicate Valid()
      reads this
    {
      tcpData.Length == size + 3 && tcpPos <= tcpLen <= size && size > 0
    }

    function View(): State
      requires Valid()
      reads this, tcpData
    {
      State(tcpPos, tcpData[tcpPos..tcpLen])
    }

    constructor ()
      ensures Valid() && fresh(tcpData) && size == TCP_DATA_SIZE && View() == State(0, [])
    {
      size := TCP_DATA_SIZE;
      tcpData := new byte[TCP_DATA_SIZE + 3](_ => 0);
      tcpPos, tcpLen := 0, 0;
    }

    /** Make room when the buffer has filled up. */
    method MakeRoom()
      requires Valid()
      modifies this`tcpPos, this`tcpLen, tcpData
      ensures Valid() && View() == Compact(old(View()), size)
    {
      if tcpLen == size && tcpPos > 0 {
        var n := tcpLen - tcpPos;
        MoveDown(tcpData, 0, tcpPos, n);
        tcpPos := 0;
        tcpLen := n;
      }
    }

    /** Take what the socket delivers, in front of a terminating zero. */
    method Receive(chunk: Data)
      requires Valid() && tcpLen + |chunk| <= size
      modifies this`tcpLen, tcpData
      ensures Valid() && View() == State(old(View()).pos, old(View()).rest + chunk)
    {
      Store(tcpData, tcpLen, chunk);
      ghost var was := tcpData[..tcpLen + |chunk|];
      tcpData[tcpLen + |chunk|] := 0;
      assert tcpData[..tcpLen + |chunk|] == was;
      assert tcpData[tcpPos..tcpLen + |chunk|] == tcpData[tcpPos..tcpLen] + tcpData[tcpLen..tcpLen + |chunk|];
      tcpLen := tcpLen + |chunk|;
    }

    /** The decision at the current position. */
    method NextStep(room: int, reply: ReplyLength) returns (s: Step)
      requires Valid() && tcpLen - tcpPos > 6
      ensures s == StepOf(tcpData[tcpPos..tcpLen], room, reply)
    {
      ghost var b := tcpData[tcpPos..tcpLen];
      assert forall i :: 0 <= i < 7 ==> b[i] == tcpData[tcpPos + i];
      var at := tcpPos;
      if tcpData[at] == 0x24 && tcpData[at + 1] < 2 && tcpData[at + 4] == 0x80 && (tcpData[at + 5] == 0x21 || tcpData[at + 5] == 0xC8) {
        var n := tcpData[at + 2] as int * 0x100 + tcpData[at + 3] as int;
        assert n == Get16(b, 2);
        if n + 4 + at > tcpLen { return Stop; }
        if tcpData[at + 1] == 0 && n - 12 > room { return Stop; }
        if tcpData[at + 1] == 0 && n >= 12 {
          SliceOfSlice(tcpData, at, tcpLen, 16, n + 4);
          return Take(n + 4, tcpData[at + 16..at + n + 4]);
        }
        return Take(n + 4, []);
      }
      if tcpData[at] == 0x52 && tcpData[at + 1] == 0x54 && tcpData[at + 2] == 0x53 && tcpData[at + 3] == 0x50 {
        var r := reply(tcpData[at..tcpLen]);
        return if r.Some? && 0 < r.value <= tcpLen - at then Take(r.value, []) else Stop;
      }
      return Take(1, []);
    }

    /** The loop over the complete frames in the buffer. */
    method Scan(reply: ReplyLength, buf: array<byte>) returns (rb: nat)
      requires Valid() && buf != tcpData && NoShortFrame(View().rest, buf.Length, reply)
      modifies this`tcpPos, buf
      ensures Valid() && rb <= buf.Length && buf[..rb] == Output(old(View()).rest, buf.Length, reply)
      ensures var n := Taken(old(View()).rest, buf.Length, reply);
              tcpPos == old(tcpPos) + n && View().rest == old(View()).rest[n..]
    {
      hide StepOf, Taken, Output, NoShortFrame;
      rb := 0;
      ghost var start, b := tcpPos, tcpData[tcpPos..tcpLen];
      while tcpLen - tcpPos > 6
        invariant Valid() && rb <= buf.Length && start <= tcpPos
        invariant Taken(b, buf.Length, reply) == tcpPos - start + Taken(tcpData[tcpPos..tcpLen], buf.Length - rb, reply)
        invariant Output(b, buf.Length, reply) == buf[..rb] + Output(tcpData[tcpPos..tcpLen], buf.Length - rb, reply)
        invariant NoShortFrame(tcpData[tcpPos..tcpLen], buf.Length - rb, reply)
        decreases tcpLen - tcpPos
      {
        var room := buf.Length - rb;
        ghost var cur, written := tcpData[tcpPos..tcpLen], buf[..rb];
        var step := NextStep(room, reply);
        if step.Stop? {
          break;
        }
        StepUnfolds(cur, room, reply);
        if |step.payload| > 0 {
          Store(buf, rb, step.payload);
          assert buf[..rb + |step.payload|] == buf[..rb] + buf[rb..rb + |step.payload|];
          rb := rb + |step.payload|;
        }
        assert buf[..rb] == written + step.payload;
        tcpPos := tcpPos + step.n;
        assert tcpData[tcpPos..tcpLen] == cur[step.n..];
      }
      StopEnds(tcpData[tcpPos..tcpLen], buf.Length - rb, reply);
    }

    /** satipc_tcp_read: `chunk` is what the socket delivers, `rb` the number of bytes put into buf. */
    method Read(chunk: Data, reply: ReplyLength, buf: array<byte>) returns (rb: nat)
      requires Valid() && buf != tcpData && |chunk| <= Space(View(), size)
      requires NoShortFrame(Compact(View(), size).rest + chunk, buf.Length, reply)
      modifies this`tcpPos, this`tcpLen, tcpData, buf
      ensures Valid() && rb <= buf.Length
      ensures (View(), buf[..rb]) == ReadOnce(old(View()), size, chunk, buf.Length, reply)
    {
      hide StepOf, Taken, Output, NoShortFrame;
      rb := 0;
      MakeRoom();
      assert View().rest + [] == View().rest;
      if tcpLen < size {
        if chunk == [] {
          return;
        }
        Receive(chunk);
      }
      rb := Scan(reply, buf);
      if tcpPos == tcpLen {
        tcpPos, tcpLen := 0, 0;
      }
    }
  }

  lemma SliceOfSlice(a: array<byte>, lo: nat, hi: nat, i: nat, j: nat)
    requires lo <= hi <= a.Length && i <= j <= hi - lo
    ensures a[lo..hi][i..j] == a[lo + i..lo + j]
  {
    var s, x, y := a[lo..hi], a[lo..hi][i..j], a[lo + i..lo + j];
    forall k | 0 <= k < j - i ensures x[k] == y[k] {
      assert x[k] == s[i + k] == a[lo + (i + k)];
      assert y[k] == a[(lo + i) + k];
    }
    assert |x| == |y|;
  }

  lemma StopEnds(b: Data, room: int, reply: ReplyLength)
    requires StepOf(b, room, reply).Stop? || |b| <= 6
    ensures Taken(b, room, reply) == 0 && Output(b, room, reply) == []
  {
  }

  lemma StepUnfolds(b: Data, room: int, reply: ReplyLength)
    requires StepOf(b, room, reply).Take?
    ensures var s := StepOf(b, room, reply); var rest := b[s.n..];
            && Taken(b, room, reply) == s.n + Taken(rest, room - |s.payload|, reply)
            && Output(b, room, reply) == s.payload + Output(rest, room - |s.payload|, reply)
            && (NoShortFrame(b, room, reply) ==> NoShortFrame(rest, room - |s.payload|, reply) && (0 <= room ==> |s.payload| <= room))
  {
  }
}
