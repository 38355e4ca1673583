/** SHA-256 of a message that comes in chunks (mkhash.c), on 32-bit words. */
module Sha256Stream {
  import opened Blocks
  import opened Sha256
  import opened Words32

  // ----- section 4.1.2 of FIPS 180-4 -----

  function Rotr(x: bv32, n: bv6): bv32 requires 0 < n < 32 { (x >> n) | (x << (32 - n)) }
  function BigSigma0(x: Word): Word { Num(Rotr(Bits(x), 2) ^ Rotr(Bits(x), 13) ^ Rotr(Bits(x), 22)) }
  function BigSigma1(x: Word): Word { Num(Rotr(Bits(x), 6) ^ Rotr(Bits(x), 11) ^ Rotr(Bits(x), 25)) }
  function SmallSigma0(x: Word): Word { Num(Rotr(Bits(x), 7) ^ Rotr(Bits(x), 18) ^ (Bits(x) >> 3)) }
  function SmallSigma1(x: Word): Word { Num(Rotr(Bits(x), 17) ^ Rotr(Bits(x), 19) ^ (Bits(x) >> 10)) }
  function Ch(x: Word, y: Word, z: Word): Word { Num((Bits(x) & Bits(y)) ^ (!Bits(x) & Bits(z))) }
  function Maj(x: Word, y: Word, z: Word): Word { Num((Bits(x) & Bits(y)) ^ (Bits(x) & Bits(z)) ^ (Bits(y) & Bits(z))) }

  /** Section 4.1.2 of FIPS 180-4. */
  const FIPS := Ops(Add, Ch, Maj, BigSigma0, BigSigma1, SmallSigma0, SmallSigma1)

  function ChCode(x: Word, y: Word, z: Word): Word { Num((Bits(x) & (Bits(y) ^ Bits(z))) ^ Bits(z)) }
  function MajCode(x: Word, y: Word, z: Word): Word { Num((Bits(x) & (Bits(y) | Bits(z))) | (Bits(y) & Bits(z))) }

  /** What the code writes for them. */
  const CODE := FIPS.(ch := ChCode, maj := MajCode)

  lemma ChIdentity(x: bv32, y: bv32, z: bv32)
    ensures (x & (y ^ z)) ^ z == (x & y) ^ (!x & z)
  {
  }

  lemma MajIdentity(x: bv32, y: bv32, z: bv32)
    ensures (x & (y | z)) | (y & z) == (x & y) ^ (x & z) ^ (y & z)
  {
  }

  lemma ChSame(x: Word, y: Word, z: Word)
    ensures ChCode(x, y, z) == Ch(x, y, z)
  {
    ChIdentity(Bits(x), Bits(y), Bits(z));
  }

  lemma MajSame(x: Word, y: Word, z: Word)
    ensures MajCode(x, y, z) == Maj(x, y, z)
  {
    MajIdentity(Bits(x), Bits(y), Bits(z));
  }

  lemma CodeRefines()
    ensures Refines(CODE, FIPS)
  {
    assert SameCh(CODE, FIPS) by {
      forall x, y, z ensures CODE.ch(x, y, z) == FIPS.ch(x, y, z) { ChSame(x, y, z); }
    }
    assert SameMaj(CODE, FIPS) by {
      forall x, y, z ensures CODE.maj(x, y, z) == FIPS.maj(x, y, z) { MajSame(x, y, z); }
    }
    AddLaws();
    RewritesRefines(CODE, FIPS);
  }

  /** Section 4.2.2 of FIPS 180-4. */
  const K: seq<Word> := K0 + K1 + K2 + K3

  const K0: seq<Word> := [
    0x428a2f98, 0x71374491, 0xb5c0fbcf, 0xe9b5dba5, 0x3956c25b, 0x59f111f1, 0x923f82a4, 0xab1c5ed5,
    0xd807aa98, 0x12835b01, 0x243185be, 0x550c7dc3, 0x72be5d74, 0x80deb1fe, 0x9bdc06a7, 0xc19bf174]

  const K1: seq<Word> := [
    0xe49b69c1, 0xefbe4786, 0x0fc19dc6, 0x240ca1cc, 0x2de92c6f, 0x4a7484aa, 0x5cb0a9dc, 0x76f988da,
    0x983e5152, 0xa831c66d, 0xb00327c8, 0xbf597fc7, 0xc6e00bf3, 0xd5a79147, 0x06ca6351, 0x14292967]

  const K2: seq<Word> := [
    0x27b70a85, 0x2e1b2138, 0x4d2c6dfc, 0x53380d13, 0x650a7354, 0x766a0abb, 0x81c2c92e, 0x92722c85,
    0xa2bfe8a1, 0xa81a664b, 0xc24b8b70, 0xc76c51a3, 0xd192e819, 0xd6990624, 0xf40e3585, 0x106aa070]

  const K3: seq<Word> := [
    0x19a4c116, 0x1e376c08, 0x2748774c, 0x34b0bcb5, 0x391c0cb3, 0x4ed8aa4a, 0x5b9cca4f, 0x682e6ff3,
    0x748f82ee, 0x78a5636f, 0x84c87814, 0x8cc70208, 0x90befffa, 0xa4506ceb, 0xbef9a3f7, 0xc67178f2]

  /** Section 5.3.3 of FIPS 180-4. */
  const H0: seq<Word> := [
    0x6a09e667, 0xbb67ae85, 0x3c6ef372, 0xa54ff53a, 0x510e527f, 0x9b05688c, 0x1f83d9ab, 0x5be0cd19]

  function BigEndian(a: int, b: int, c: int, d: int): int {
    0x100_0000 * a + 0x1_0000 * b + 0x100 * c + d
  }

  /** The words of a block, first byte highest. */
  function Words(block: seq<Byte>): (r: seq<Word>)
    requires |block| == 64
    ensures |r| == 16
  {
    seq(16, i requires 0 <= i < 16 => BigEndian(block[4 * i], block[4 * i + 1], block[4 * i + 2], block[4 * i + 3]))
  }

  /** The bytes of a word, highest first. */
  function Be32(x: int): (r: seq<Byte>)
    ensures |r| == 4
  {
    [x / 0x100_0000 % 256, x / 0x1_0000 % 256, x / 0x100 % 256, x % 256]
  }

  function WordBytes(h: seq<Word>): seq<Byte> {
    if h == [] then [] else Be32(h[0]) + WordBytes(h[1..])
  }

  /** Section 6.2.2 of FIPS 180-4. */
  function Next(h: seq<Word>, block: seq<Byte>): seq<Word> {
    if |h| == 8 && |block| == 64 then Compress(FIPS, K, Words(block), h) else h
  }

  /** The bit length as a 64-bit number, highest byte first. */
  function BitLength(msg: seq<Byte>): (r: seq<Byte>)
    ensures |r| == 8
  {
    Be32(8 * |msg| / 0x1_0000_0000) + Be32(8 * |msg| % 0x1_0000_0000)
  }

  /** The message digest. */
  function Digest(next: (seq<Word>, seq<Byte>) -> seq<Word>, msg: seq<Byte>): seq<Byte> {
    WordBytes(Fold(next, H0, Padded(msg, BitLength(msg))))
  }

  // ----- the code -----

  ghost predicate IsNext(next: (seq<Word>, seq<Byte>) -> seq<Word>) {
    forall h, b {:trigger Next(h, b)} :: next(h, b) == Next(h, b)
  }

  method SHA256Transform(state: array<Word>, block: seq<Byte>)
    requires state.Length == 8 && |block| == 64
    modifies state
    ensures state[..] == Next(old(state[..]), block)
  {
    CodeRefines();
    Transform(CODE, FIPS, K, state, Words(block));
  }

  const PAD: seq<Byte> := [0x80] + Zeros(63)

  class Context {
    const state: array<Word>
    var count: int
    const buf: array<Byte>
    ghost const next: (seq<Word>, seq<Byte>) -> seq<Word>
    ghost var msg: seq<Byte>  // everything hashed so far

    ghost predicate Valid()
      reads this, state, buf
    {
      && state.Length == 8 && buf.Length == 64
      && count == BitCount(|msg|)
      && Seen(next, H0, msg, state[..], buf[..])
    }

    constructor (ghost next: (seq<Word>, seq<Byte>) -> seq<Word>)
      ensures this.next == next && Valid() && msg == [] && fresh(state) && fresh(buf)
    {
      state := new Word[8](i requires 0 <= i < 8 => H0[i]);
      buf := new Byte[64];
      count, msg, this.next := 0, [], next;
      new;
      assert state[..] == H0;
    }

    method Mix(block: seq<Byte>)
      requires state.Length == 8 && |block| == 64 && IsNext(next)
      modifies state
      ensures state[..] == next(old(state[..]), block)
    {
      SHA256Transform(state, block);
    }

    /** Data that fits into the buffer. */
    method Keep(ghost seen: seq<Byte>, r: nat, data: seq<Byte>)
      requires state.Length == 8 && buf.Length == 64 && Seen(next, H0, seen, state[..], buf[..])
      requires r == |seen| % 64 && r + |data| < 64
      modifies buf
      ensures Seen(next, H0, seen + data, state[..], buf[..])
    {
      ghost var was := buf[..];
      CopyBytes(buf, r, data);
      assert buf[..][..r + |data|] == was[..r] + data;
      SeenMore(next, H0, seen, state[..], was, data, buf[..]);
    }

    /** Data that completes the block in the buffer. */
    method Complete(ghost seen: seq<Byte>, r: nat, data: seq<Byte>)
      requires state.Length == 8 && buf.Length == 64 && IsNext(next) && Seen(next, H0, seen, state[..], buf[..])
      requires r == |seen| % 64 && r + |data| == 64
      modifies buf, state
      ensures Seen(next, H0, seen + data, state[..], buf[..])
    {
      ghost var was, h := buf[..], state[..];
      CopyBytes(buf, r, data);
      assert buf[..] == was[..r] + data;
      Mix(buf[..]);
      SeenBlock(next, H0, seen, h, was, data, buf[..]);
    }

    /** A block straight from the data. */
    method Block(ghost seen: seq<Byte>, data: seq<Byte>)
      requires state.Length == 8 && buf.Length == 64 && IsNext(next) && Seen(next, H0, seen, state[..], buf[..])
      requires |seen| % 64 == 0 && |data| == 64
      modifies state
      ensures Seen(next, H0, seen + data, state[..], buf[..])
    {
      ghost var h := state[..];
      Mix(data);
      assert buf[..][..0] + data == data;
      SeenBlock(next, H0, seen, h, buf[..], data, buf[..]);
    }

    /** Whole blocks of the data, after full blocks. */
    method Blocks(ghost seen: seq<Byte>, data: seq<Byte>) returns (rest: seq<Byte>, ghost done: seq<Byte>)
      requires state.Length == 8 && buf.Length == 64 && IsNext(next) && Seen(next, H0, seen, state[..], buf[..])
      requires |seen| % 64 == 0
      modifies state
      ensures Seen(next, H0, done, state[..], buf[..]) && |done| % 64 == 0
      ensures |rest| < 64 && done + rest == seen + data
    {
      rest, done := data, seen;
      while |rest| >= 64
        invariant Seen(next, H0, done, state[..], buf[..]) && done + rest == seen + data && |done| % 64 == 0
        decreases |rest|
      {
        Block(done, rest[..64]);
        done := done + rest[..64];
        rest := rest[64..];
      }
    }

    /** The data after the bytes `seen`, of which `r` are in the buffer. */
    method Absorb(ghost seen: seq<Byte>, r: nat, data: seq<Byte>)
      requires state.Length == 8 && buf.Length == 64 && IsNext(next) && Seen(next, H0, seen, state[..], buf[..])
      requires r == |seen| % 64
      modifies state, buf
      ensures Seen(next, H0, seen + data, state[..], buf[..])
    {
      if |data| < 64 - r {
        Keep(seen, r, data);
        return;
      }
      Complete(seen, r, data[..64 - r]);
      assert seen + data[..64 - r] + data[64 - r..] == seen + data;
      var rest; ghost var done;
      rest, done := Blocks(seen + data[..64 - r], data[64 - r..]);
      Keep(done, 0, rest);
    }

    method Update(data: seq<Byte>)
      requires Valid() && IsNext(next)
      modifies this, state, buf
      ensures Valid() && msg == old(msg) + data
    {
      var r := count / 8 % 64;
      BufferedBytes(|msg|);
      CountMore(|msg|, |data|);
      count := (count + 8 * |data| % 0x1_0000_0000_0000_0000) % 0x1_0000_0000_0000_0000;
      Absorb(msg, r, data);
      msg := msg + data;
    }

    /** Pads to eight bytes before a block boundary. */
    method PadZeros(r: nat)
      requires Valid() && IsNext(next) && r == |msg| % 64
      modifies state, buf
      ensures PaddedBefore(next, old(state[..]), old(buf[..]), r, state[..], buf[..56])
    {
      if r < 56 {
        CopyBytes(buf, r, PAD[..56 - r]);
        assert PAD[..56 - r] == [0x80] + Zeros(55 - r);
      } else {
        CopyBytes(buf, r, PAD[..64 - r]);
        assert PAD[..64 - r] == [0x80] + Zeros(63 - r);
        assert buf[..] == old(buf[..r]) + [0x80] + Zeros(63 - r);
        Mix(buf[..]);
        CopyBytes(buf, 0, Zeros(56));
      }
    }

    method Pad()
      requires Valid() && IsNext(next) && |msg| < 0x2000_0000_0000_0000
      modifies state, buf
      ensures state[..] == Fold(next, H0, Padded(msg, BitLength(msg)))
    {
      var r := count / 8 % 64;
      BufferedBytes(|msg|);
      WholeCount(|msg|);
      ghost var was, h := buf[..], state[..];
      PadZeros(r);
      PadBlocks(next, H0, msg, h, was, BitLength(msg), state[..], buf[..56]);
      ghost var start := buf[..56];
      CopyBytes(buf, 56, Be32(count / 0x1_0000_0000) + Be32(count % 0x1_0000_0000));
      assert buf[..] == start + BitLength(msg);
      Mix(buf[..]);
    }

    /** The digest, highest byte of each word first. */
    method Final() returns (digest: seq<Byte>)
      requires Valid() && IsNext(next) && |msg| < 0x2000_0000_0000_0000
      modifies state, buf
      ensures digest == Digest(next, msg)
    {
      Pad();
      digest := [];
      assert state[0..] == state[..];
      for i := 0 to 8
        invariant digest + WordBytes(state[i..]) == WordBytes(state[..])
      {
        assert state[i..][1..] == state[i + 1..];
        digest := digest + Be32(state[i]);
      }
    }
  }

  /** However a message is cut into chunks, its digest is the same. */
  method HashChunks(ghost next: (seq<Word>, seq<Byte>) -> seq<Word>, chunks: seq<seq<Byte>>) returns (digest: seq<Byte>)
    requires IsNext(next) && |Concat(chunks)| < 0x2000_0000_0000_0000
    ensures digest == Digest(next, Concat(chunks))
  {
    var ctx := new Context(next);
    for i := 0 to |chunks|
      invariant fresh(ctx.state) && fresh(ctx.buf) && fresh(ctx) && ctx.next == next
      invariant ctx.Valid() && ctx.msg == Concat(chunks[..i])
    {
      assert chunks[..i + 1][..i] == chunks[..i];
      ctx.Update(chunks[i]);
    }
    assert chunks[..|chunks|] == chunks;
    digest := ctx.Final();
  }

  /** The SHA-256 digest of a file read in chunks. */
  method Sha256File(chunks: seq<seq<Byte>>) returns (digest: seq<Byte>)
    requires |Concat(chunks)| < 0x2000_0000_0000_0000
    ensures digest == Digest(Next, Concat(chunks))
  {
    digest := HashChunks(Next, chunks);
  }

  // ----- the 64-bit counter -----

  function BitCount(n: nat): nat {
    8 * n % 0x1_0000_0000_0000_0000
  }

  lemma ModShift(n: int, t: int)
    ensures (n - 64 * t) % 64 == n % 64
  {
  }

  lemma BufferedBytes(n: nat)
    ensures BitCount(n) / 8 % 64 == n % 64
  {
    var q := 8 * n / 0x1_0000_0000_0000_0000;
    assert BitCount(n) / 8 == n - 64 * (q * 0x80_0000_0000_0000);
    ModShift(n, q * 0x80_0000_0000_0000);
  }

  lemma WholeCount(n: nat)
    requires n < 0x2000_0000_0000_0000
    ensures BitCount(n) == 8 * n
  {
  }

  lemma CountMore(n: nat, m: nat)
    ensures (BitCount(n) + 8 * m % 0x1_0000_0000_0000_0000) % 0x1_0000_0000_0000_0000 == BitCount(n + m)
  {
    ModSum(8 * n, 8 * m);
  }

  lemma ModSum(a: int, b: int)
    ensures (a % 0x1_0000_0000_0000_0000 + b % 0x1_0000_0000_0000_0000) % 0x1_0000_0000_0000_0000
            == (a + b) % 0x1_0000_0000_0000_0000
  {
  }
}
