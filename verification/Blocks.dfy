/**
 Hashing in blocks of 64 bytes with a buffer for the incomplete last one, and the padding
 that MD5 (sections 3.1 and 3.2 of RFC 1321) and SHA-256 (section 5.1.1 of FIPS 180-4) share.
 */
module Blocks {

  type Byte = b: int | 0 <= b < 256

  /** The hash value after all blocks of `data`. */
  function Fold<S>(step: (S, seq<Byte>) -> S, s: S, data: seq<Byte>): S
    requires |data| % 64 == 0
    decreases |data|
  {
    if data == [] then s else Fold(step, step(s, data[..64]), data[64..])
  }

  lemma {:induction false} FoldConcat<S>(step: (S, seq<Byte>) -> S, s: S, d: seq<Byte>, e: seq<Byte>)
    requires |d| % 64 == 0 && |e| % 64 == 0
    ensures |d + e| % 64 == 0 && Fold(step, s, d + e) == Fold(step, Fold(step, s, d), e)
    decreases |d|
  {
    if d == [] {
      assert d + e == e;
    } else {
      assert (d + e)[..64] == d[..64] && (d + e)[64..] == d[64..] + e;
      FoldConcat(step, step(s, d[..64]), d[64..], e);
    }
  }

  lemma FoldOne<S>(step: (S, seq<Byte>) -> S, s: S, b: seq<Byte>)
    requires |b| == 64
    ensures Fold(step, s, b) == step(s, b)
  {
    assert b[..64] == b && b[64..] == [];
  }

  /** How much of `msg` fills blocks. */
  function Full(msg: seq<Byte>): (n: nat)
    ensures n <= |msg| && n % 64 == 0 && |msg| - n == |msg| % 64
  {
    |msg| - |msg| % 64
  }

  /** `state` has seen all full blocks of `msg`, and `buf` begins with the rest. */
  ghost predicate Seen<S>(step: (S, seq<Byte>) -> S, s: S, msg: seq<Byte>, state: S, buf: seq<Byte>) {
    var n := Full(msg);
    state == Fold(step, s, msg[..n]) && |buf| == 64 && buf[..|msg| - n] == msg[n..]
  }

  /** Data that does not complete a block only goes to the buffer. */
  lemma SeenMore<S>(step: (S, seq<Byte>) -> S, s: S, msg: seq<Byte>, state: S, buf: seq<Byte>, data: seq<Byte>,
                    buf': seq<Byte>)
    requires Seen(step, s, msg, state, buf) && |msg| % 64 + |data| < 64
    requires |buf'| == 64 && buf'[..|msg| % 64 + |data|] == buf[..|msg| % 64] + data
    ensures Seen(step, s, msg + data, state, buf')
  {
    var n := Full(msg);
    assert Full(msg + data) == n;
    assert (msg + data)[..n] == msg[..n] && (msg + data)[n..] == msg[n..] + data;
  }

  lemma AllFull(msg: seq<Byte>)
    requires |msg| % 64 == 0
    ensures Full(msg) == |msg| && msg[..Full(msg)] == msg && msg[Full(msg)..] == []
  {
  }

  /** The rest of a message and what completes it. */
  lemma Regroup(msg: seq<Byte>, n: nat, data: seq<Byte>)
    requires n <= |msg|
    ensures msg + data == msg[..n] + (msg[n..] + data)
  {
  }

  /** Data that completes the block makes one step. */
  lemma SeenBlock<S>(step: (S, seq<Byte>) -> S, s: S, msg: seq<Byte>, state: S, buf: seq<Byte>, data: seq<Byte>,
                     buf': seq<Byte>)
    requires Seen(step, s, msg, state, buf) && |msg| % 64 + |data| == 64
    requires |buf'| == 64
    ensures Seen(step, s, msg + data, step(state, buf[..|msg| % 64] + data), buf')
  {
    var n, r := Full(msg), |msg| % 64;
    var block := buf[..r] + data;
    assert n + r == |msg| && buf[..r] == msg[n..];
    Regroup(msg, n, data);
    assert |msg + data| == n + 64;
    AllFull(msg + data);
    FoldConcat(step, s, msg[..n], block);
    FoldOne(step, state, block);
    assert buf'[..0] == [];
  }

  /** Whole blocks after whole blocks. */
  lemma SeenBlocks<S>(step: (S, seq<Byte>) -> S, s: S, msg: seq<Byte>, state: S, buf: seq<Byte>, data: seq<Byte>)
    requires Seen(step, s, msg, state, buf) && |msg| % 64 == 0 && |data| % 64 == 0
    ensures Seen(step, s, msg + data, Fold(step, state, data), buf)
  {
    AllFull(msg);
    FoldConcat(step, s, msg, data);
    AllFull(msg + data);
  }

  // ----- padding -----

  function Zeros(n: nat): (r: seq<Byte>)
    ensures |r| == n
  {
    seq(n, _ => 0)
  }

  /** The message, a one bit, zeros up to eight bytes before a block boundary, and the length. */
  function Padded(msg: seq<Byte>, length: seq<Byte>): (r: seq<Byte>)
    requires |length| == 8
    ensures |r| % 64 == 0
  {
    msg + [0x80] + Zeros((119 - |msg| % 64) % 64) + length
  }

  /** Padding that fits into the last block. */
  lemma PadOne<S>(step: (S, seq<Byte>) -> S, s: S, msg: seq<Byte>, state: S, buf: seq<Byte>, length: seq<Byte>,
                  last: seq<Byte>)
    requires Seen(step, s, msg, state, buf) && |msg| % 64 < 56 && |length| == 8
    requires last == buf[..|msg| % 64] + [0x80] + Zeros(55 - |msg| % 64) + length
    ensures Fold(step, s, Padded(msg, length)) == step(state, last)
  {
    var n := Full(msg);
    assert (119 - |msg| % 64) % 64 == 55 - |msg| % 64;
    assert Padded(msg, length) == msg[..n] + last;
    FoldConcat(step, s, msg[..n], last);
    FoldOne(step, state, last);
  }

  /** Padding that needs one more block. */
  lemma PadTwo<S>(step: (S, seq<Byte>) -> S, s: S, msg: seq<Byte>, state: S, buf: seq<Byte>, length: seq<Byte>,
                  first: seq<Byte>, last: seq<Byte>)
    requires Seen(step, s, msg, state, buf) && 56 <= |msg| % 64 && |length| == 8
    requires first == buf[..|msg| % 64] + [0x80] + Zeros(63 - |msg| % 64) && last == Zeros(56) + length
    ensures Fold(step, s, Padded(msg, length)) == step(step(state, first), last)
  {
    var n := Full(msg);
    assert (119 - |msg| % 64) % 64 == 63 - |msg| % 64 + 56;
    assert Padded(msg, length) == msg[..n] + first + last;
    FoldConcat(step, s, msg[..n], first);
    FoldConcat(step, s, msg[..n] + first, last);
    FoldOne(step, state, first);
    FoldOne(step, step(state, first), last);
  }

  /** Both cases: `middle` is the hash value before the last block, which is `start` and the length. */
  lemma PadBlocks<S>(step: (S, seq<Byte>) -> S, s: S, msg: seq<Byte>, state: S, buf: seq<Byte>, length: seq<Byte>,
                     middle: S, start: seq<Byte>)
    requires Seen(step, s, msg, state, buf) && |length| == 8
    requires PaddedBefore(step, state, buf, |msg| % 64, middle, start)
    ensures Fold(step, s, Padded(msg, length)) == step(middle, start + length)
  {
    if |msg| % 64 < 56 {
      PadOne(step, s, msg, state, buf, length, start + length);
    } else {
      PadTwo(step, s, msg, state, buf, length, buf[..|msg| % 64] + [0x80] + Zeros(63 - |msg| % 64), start + length);
    }
  }

  ghost predicate PaddedBefore<S>(step: (S, seq<Byte>) -> S, state: S, buf: seq<Byte>, r: nat, middle: S,
                                  start: seq<Byte>)
    requires r < 64 == |buf|
  {
    if r < 56 then middle == state && start == buf[..r] + [0x80] + Zeros(55 - r)
    else middle == step(state, buf[..r] + [0x80] + Zeros(63 - r)) && start == Zeros(56)
  }

  /** memcpy into a buffer. */
  method CopyBytes(buf: array<Byte>, at: nat, data: seq<Byte>)
    requires at + |data| <= buf.Length
    modifies buf
    ensures buf[..at + |data|] == old(buf[..at]) + data
    ensures buf[at + |data|..] == old(buf[at + |data|..])
  {
    for i := 0 to |data|
      invariant buf[..at + i] == old(buf[..at]) + data[..i]
      invariant buf[at + i..] == old(buf[at + i..])
    {
      buf[at + i] := data[i];
    }
  }

  /** All data of `chunks`, in order. */
  function Concat(chunks: seq<seq<Byte>>): seq<Byte> {
    if chunks == [] then [] else Concat(chunks[..|chunks| - 1]) + chunks[|chunks| - 1]
  }
}
