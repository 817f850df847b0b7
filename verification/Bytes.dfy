/** Bytes and the big-endian 16-bit accessors of src/minisatip.h:25-59. */
module Bytes {

  type byte = b: int | 0 <= b < 0x100

  type Data = seq<byte>

  function High(v: nat): byte { v / 0x100 % 0x100 }

  function Low(v: nat): byte { v % 0x100 }

  /** The two bytes `copy16` stores. */
  function Put16(v: nat): (d: Data)
    ensures |d| == 2
    ensures v < 0x10000 ==> Get16(d, 0) == v
  {
    [High(v), Low(v)]
  }

  /** The value `copy16r` reads at position i. */
  function Get16(d: Data, i: nat): nat
    requires i + 2 <= |d|
  {
    d[i] as int * 0x100 + d[i + 1] as int
  }

  /** Copy d into the buffer at position pos. */
  method Store(buf: array<byte>, pos: nat, d: Data)
    requires pos + |d| <= buf.Length
    modifies buf
    ensures buf[..pos] == old(buf[..pos])
    ensures buf[pos..pos + |d|] == d
    ensures buf[pos + |d|..] == old(buf[pos + |d|..])
  {
    for i := 0 to |d|
      invariant buf[..pos] == old(buf[..pos])
      invariant forall k :: 0 <= k < i ==> buf[pos + k] == d[k]
      invariant buf[pos + |d|..] == old(buf[pos + |d|..])
    {
      buf[pos + i] := d[i];
    }
  }

  /** memmove towards the start of the buffer. */
  method MoveDown(buf: array<byte>, dst: nat, src: nat, n: nat)
    requires dst <= src && src + n <= buf.Length
    modifies buf
    ensures buf[..dst] == old(buf[..dst]) && buf[dst..dst + n] == old(buf[src..src + n])
    ensures buf[dst + n..] == old(buf[dst + n..])
  {
    for i := 0 to n
      invariant forall k :: 0 <= k < dst ==> buf[k] == old(buf[k])
      invariant forall k :: dst <= k < dst + i ==> buf[k] == old(buf[k + (src - dst)])
      invariant forall k :: dst + i <= k < buf.Length ==> buf[k] == old(buf[k])
    {
      buf[dst + i] := buf[src + i];
    }
  }

  /** Growing a buffer appends to every slice that reaches its end. */
  lemma AppendSlice(before: Data, after: Data, start: nat)
    requires start <= |before| <= |after| && after[..|before|] == before
    ensures after[..start] == before[..start] && after[start..] == before[start..] + after[|before|..]
  {
  }
}
