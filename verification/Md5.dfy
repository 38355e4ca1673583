/**
 MD5 (mkhash.c) of a message that comes in chunks, with its optimised round functions and
 its byte count split into a 29-bit and a 32-bit part, against RFC 1321.
 */
module Md5 {
  import opened Blocks
  import opened Words32

  // ----- section 3.4 of RFC 1321, for any words -----

  datatype Ops<!W> = Ops(add: (W, W) -> W, rotate: (W, nat) -> W, mix: (nat, W, W, W) -> W)

  datatype Quad<W> = Quad(a: W, b: W, c: W, d: W)

  /** The word of the block, the constant and the rotation of one step. */
  datatype Line<W> = Line(k: Index, t: W, s: nat)

  type Index = k: int | 0 <= k < 16

  /** Step `i`, after which the variable computed is the second one. */
  function Step<W>(o: Ops<W>, v: Quad<W>, i: nat, x: W, l: Line<W>): Quad<W> {
    Quad(v.d, o.add(v.b, o.rotate(o.add(o.add(o.add(v.a, o.mix(i, v.b, v.c, v.d)), x), l.t), l.s)), v.b, v.c)
  }

  function Steps<W>(o: Ops<W>, lines: seq<Line<W>>, m: seq<W>, v: Quad<W>, n: nat): Quad<W>
    requires |m| == 16 && n <= |lines|
  {
    if n == 0 then v else Step(o, Steps(o, lines, m, v, n - 1), n - 1, m[lines[n - 1].k], lines[n - 1])
  }

  function Compress<W>(o: Ops<W>, lines: seq<Line<W>>, m: seq<W>, v: Quad<W>): Quad<W>
    requires |m| == 16
  {
    var w := Steps(o, lines, m, v, |lines|);
    Quad(o.add(w.a, v.a), o.add(w.b, v.b), o.add(w.c, v.c), o.add(w.d, v.d))
  }

  // ----- the code's order of computation -----

  /** What one step stores in its first variable. */
  function CodeStep<W>(c: Ops<W>, i: nat, v: Quad<W>, x: W, l: Line<W>): W {
    c.add(c.rotate(c.add(v.a, c.add(c.add(c.mix(i, v.b, v.c, v.d), x), l.t)), l.s), v.b)
  }

  ghost predicate Refines<W(!new)>(c: Ops<W>, o: Ops<W>) {
    && c == o.(mix := c.mix)
    && forall i, v, x, l {:trigger CodeStep(c, i, v, x, l)} :: CodeStep(c, i, v, x, l) == Step(o, v, i, x, l).b
  }

  ghost predicate SameMix<W(!new)>(c: Ops<W>, o: Ops<W>) {
    forall i, x, y, z :: c.mix(i, x, y, z) == o.mix(i, x, y, z)
  }

  lemma RewritesRefines<W(!new)>(c: Ops<W>, o: Ops<W>)
    requires c == o.(mix := c.mix) && SameMix(c, o) && Commutes(o.add) && Associates(o.add)
    ensures Refines(c, o)
  {
    forall i, v, x, l ensures CodeStep(c, i, v, x, l) == Step(o, v, i, x, l).b {
      var f := o.mix(i, v.b, v.c, v.d);
      assert o.add(v.a, o.add(o.add(f, x), l.t)) == o.add(o.add(v.a, o.add(f, x)), l.t);
    }
  }

  /** Four steps, after which the variables have their names back. */
  method FourSteps<W(!new)>(c: Ops<W>, ghost o: Ops<W>, lines: seq<Line<W>>, m: seq<W>, v: Quad<W>, i: nat,
      ghost start: Quad<W>)
    returns (r: Quad<W>)
    requires Refines(c, o) && |m| == 16 && i + 4 <= |lines| && v == Steps(o, lines, m, start, i)
    ensures r == Steps(o, lines, m, start, i + 4)
  {
    var Quad(a, b, cc, d) := v;
    a := CodeStep(c, i, Quad(a, b, cc, d), m[lines[i].k], lines[i]);
    assert Quad(d, a, b, cc) == Steps(o, lines, m, start, i + 1);
    d := CodeStep(c, i + 1, Quad(d, a, b, cc), m[lines[i + 1].k], lines[i + 1]);
    assert Quad(cc, d, a, b) == Steps(o, lines, m, start, i + 2);
    cc := CodeStep(c, i + 2, Quad(cc, d, a, b), m[lines[i + 2].k], lines[i + 2]);
    assert Quad(b, cc, d, a) == Steps(o, lines, m, start, i + 3);
    b := CodeStep(c, i + 3, Quad(b, cc, d, a), m[lines[i + 3].k], lines[i + 3]);
    r := Quad(a, b, cc, d);
  }

  /** Adds the steps of one block to the hash value. */
  method Body1<W(!new)>(c: Ops<W>, ghost o: Ops<W>, lines: seq<Line<W>>, m: seq<W>, v: Quad<W>) returns (r: Quad<W>)
    requires Refines(c, o) && |m| == 16 && |lines| == 64
    ensures r == Compress(o, lines, m, v)
  {
    var w := v;
    for j := 0 to 16
      invariant w == Steps(o, lines, m, v, 4 * j)
    {
      w := FourSteps(c, o, lines, m, w, 4 * j, v);
    }
    r := Quad(c.add(w.a, v.a), c.add(w.b, v.b), c.add(w.c, v.c), c.add(w.d, v.d));
  }

  // ----- 32-bit words -----

  function Rotate(x: Word, s: nat): Word {
    if s <= 32 then Num((Bits(x) << s) | (Bits(x) >> (32 - s))) else x
  }

  function Mix(i: nat, x: Word, y: Word, z: Word): Word {
    if i < 16 then Num((Bits(x) & Bits(y)) | (!Bits(x) & Bits(z)))
    else if i < 32 then Num((Bits(x) & Bits(z)) | (Bits(y) & !Bits(z)))
    else if i < 48 then Num(Bits(x) ^ Bits(y) ^ Bits(z))
    else Num(Bits(y) ^ (Bits(x) | !Bits(z)))
  }

  const RFC := Ops(Add, Rotate, Mix)

  function MixCode(i: nat, x: Word, y: Word, z: Word): Word {
    if i < 16 then Num(Bits(z) ^ (Bits(x) & (Bits(y) ^ Bits(z))))
    else if i < 32 then Num(Bits(y) ^ (Bits(z) & (Bits(x) ^ Bits(y))))
    else if i < 48 then
      if i % 2 == 0 then Num((Bits(x) ^ Bits(y)) ^ Bits(z)) else Num(Bits(x) ^ (Bits(y) ^ Bits(z)))
    else Num(Bits(y) ^ (Bits(x) | !Bits(z)))
  }

  const CODE := RFC.(mix := MixCode)

  lemma FIdentity(x: bv32, y: bv32, z: bv32)
    ensures z ^ (x & (y ^ z)) == (x & y) | (!x & z)
  {
  }

  lemma GIdentity(x: bv32, y: bv32, z: bv32)
    ensures y ^ (z & (x ^ y)) == (x & z) | (y & !z)
  {
  }

  lemma HIdentity(x: bv32, y: bv32, z: bv32)
    ensures x ^ (y ^ z) == x ^ y ^ z
  {
  }

  lemma MixSame(i: nat, x: Word, y: Word, z: Word)
    ensures MixCode(i, x, y, z) == Mix(i, x, y, z)
  {
    if i < 16 {
      FIdentity(Bits(x), Bits(y), Bits(z));
    } else if i < 32 {
      GIdentity(Bits(x), Bits(y), Bits(z));
    } else {
      HIdentity(Bits(x), Bits(y), Bits(z));
    }
  }

  lemma CodeRefines()
    ensures Refines(CODE, RFC)
  {
    assert SameMix(CODE, RFC) by {
      forall i, x, y, z ensures CODE.mix(i, x, y, z) == RFC.mix(i, x, y, z) { MixSame(i, x, y, z); }
    }
    AddLaws();
    RewritesRefines(CODE, RFC);
  }

  /** The four rounds of section 3.4. */
  const LINES: seq<Line<Word>> := ROUND1 + ROUND2 + ROUND3 + ROUND4

  const ROUND1: seq<Line<Word>> := [
    Line(0, 0xd76aa478, 7), Line(1, 0xe8c7b756, 12), Line(2, 0x242070db, 17), Line(3, 0xc1bdceee, 22),
    Line(4, 0xf57c0faf, 7), Line(5, 0x4787c62a, 12), Line(6, 0xa8304613, 17), Line(7, 0xfd469501, 22),
    Line(8, 0x698098d8, 7), Line(9, 0x8b44f7af, 12), Line(10, 0xffff5bb1, 17), Line(11, 0x895cd7be, 22),
    Line(12, 0x6b901122, 7), Line(13, 0xfd987193, 12), Line(14, 0xa679438e, 17), Line(15, 0x49b40821, 22)]

  const ROUND2: seq<Line<Word>> := [
    Line(1, 0xf61e2562, 5), Line(6, 0xc040b340, 9), Line(11, 0x265e5a51, 14), Line(0, 0xe9b6c7aa, 20),
    Line(5, 0xd62f105d, 5), Line(10, 0x02441453, 9), Line(15, 0xd8a1e681, 14), Line(4, 0xe7d3fbc8, 20),
    Line(9, 0x21e1cde6, 5), Line(14, 0xc33707d6, 9), Line(3, 0xf4d50d87, 14), Line(8, 0x455a14ed, 20),
    Line(13, 0xa9e3e905, 5), Line(2, 0xfcefa3f8, 9), Line(7, 0x676f02d9, 14), Line(12, 0x8d2a4c8a, 20)]

  const ROUND3: seq<Line<Word>> := [
    Line(5, 0xfffa3942, 4), Line(8, 0x8771f681, 11), Line(11, 0x6d9d6122, 16), Line(14, 0xfde5380c, 23),
    Line(1, 0xa4beea44, 4), Line(4, 0x4bdecfa9, 11), Line(7, 0xf6bb4b60, 16), Line(10, 0xbebfbc70, 23),
    Line(13, 0x289b7ec6, 4), Line(0, 0xeaa127fa, 11), Line(3, 0xd4ef3085, 16), Line(6, 0x04881d05, 23),
    Line(9, 0xd9d4d039, 4), Line(12, 0xe6db99e5, 11), Line(15, 0x1fa27cf8, 16), Line(2, 0xc4ac5665, 23)]

  const ROUND4: seq<Line<Word>> := [
    Line(0, 0xf4292244, 6), Line(7, 0x432aff97, 10), Line(14, 0xab9423a7, 15), Line(5, 0xfc93a039, 21),
    Line(12, 0x655b59c3, 6), Line(3, 0x8f0ccc92, 10), Line(10, 0xffeff47d, 15), Line(1, 0x85845dd1, 21),
    Line(8, 0x6fa87e4f, 6), Line(15, 0xfe2ce6e0, 10), Line(6, 0xa3014314, 15), Line(13, 0x4e0811a1, 21),
    Line(4, 0xf7537e82, 6), Line(11, 0xbd3af235, 10), Line(2, 0x2ad7d2bb, 15), Line(9, 0xeb86d391, 21)]

  function LittleEndian(a: int, b: int, c: int, d: int): int {
    a + 0x100 * b + 0x1_0000 * c + 0x100_0000 * d
  }

  /** The words of a block, lowest byte first. */
  function Words(block: seq<Byte>): (r: seq<Word>)
    requires |block| == 64
    ensures |r| == 16
  {
    seq(16, i requires 0 <= i < 16 => LittleEndian(block[4 * i], block[4 * i + 1], block[4 * i + 2], block[4 * i + 3]))
  }

  /** The bytes of a word, lowest first. */
  function Le32(x: int): (r: seq<Byte>)
    ensures |r| == 4
  {
    [x % 256, x / 0x100 % 256, x / 0x1_0000 % 256, x / 0x100_0000 % 256]
  }

  /** Section 3.4 of RFC 1321. */
  function Next(v: Quad<Word>, block: seq<Byte>): Quad<Word> {
    if |block| == 64 then Compress(RFC, LINES, Words(block), v) else v
  }

  /** Section 3.2: the low 64 bits of the bit length, lowest byte first. */
  function BitLength(msg: seq<Byte>): (r: seq<Byte>)
    ensures |r| == 8
  {
    Le32(8 * |msg| % 0x1_0000_0000) + Le32(8 * |msg| / 0x1_0000_0000 % 0x1_0000_0000)
  }

  const START: Quad<Word> := Quad(0x67452301, 0xefcdab89, 0x98badcfe, 0x10325476)

  function QuadBytes(v: Quad<Word>): seq<Byte> {
    Le32(v.a) + Le32(v.b) + Le32(v.c) + Le32(v.d)
  }

  function Digest(next: (Quad<Word>, seq<Byte>) -> Quad<Word>, msg: seq<Byte>): seq<Byte> {
    QuadBytes(Fold(next, START, Padded(msg, BitLength(msg))))
  }

  // ----- the code -----

  ghost predicate IsNext(next: (Quad<Word>, seq<Byte>) -> Quad<Word>) {
    forall v, b {:trigger Next(v, b)} :: next(v, b) == Next(v, b)
  }

  method OneBlock(ghost next: (Quad<Word>, seq<Byte>) -> Quad<Word>, v: Quad<Word>, block: seq<Byte>)
    returns (r: Quad<Word>)
    requires |block| == 64 && IsNext(next)
    ensures r == next(v, block)
  {
    assert Next(v, block) == next(v, block);
    CodeRefines();
    r := Body1(CODE, RFC, LINES, Words(block), v);
  }

  /** Processes one or more blocks. */
  method Body(ghost next: (Quad<Word>, seq<Byte>) -> Quad<Word>, v: Quad<Word>, data: seq<Byte>) returns (r: Quad<Word>)
    requires 0 < |data| && |data| % 64 == 0 && IsNext(next)
    ensures r == Fold(next, v, data)
  {
    r := v;
    var ptr := data;
    while true
      invariant |ptr| > 0 && |ptr| % 64 == 0 && Fold(next, v, data) == Fold(next, r, ptr)
      decreases |ptr|
    {
      r := OneBlock(next, r, ptr[..64]);
      ptr := ptr[64..];
      if ptr == [] { break; }
    }
  }

  class Context {
    var lo: int
    var hi: int
    var regs: Quad<Word>
    const buffer: array<Byte>
    ghost const next: (Quad<Word>, seq<Byte>) -> Quad<Word>
    ghost var msg: seq<Byte>  // everything hashed so far

    ghost predicate Valid()
      reads this, buffer
    {
      && buffer.Length == 64 && lo == LowCount(|msg|) && hi == HighCount(|msg|)
      && Seen(next, START, msg, regs, buffer[..])
    }

    constructor (ghost next: (Quad<Word>, seq<Byte>) -> Quad<Word>)
      ensures this.next == next && Valid() && msg == [] && fresh(buffer)
    {
      buffer := new Byte[64];
      lo, hi, regs, msg, this.next := 0, 0, START, [], next;
    }

    /** Data that fits into the buffer. */
    method Keep(ghost seen: seq<Byte>, used: nat, data: seq<Byte>)
      requires buffer.Length == 64 && Seen(next, START, seen, regs, buffer[..])
      requires used == |seen| % 64 && used + |data| < 64
      modifies buffer
      ensures Seen(next, START, seen + data, regs, buffer[..])
    {
      ghost var was := buffer[..];
      CopyBytes(buffer, used, data);
      assert buffer[..][..used + |data|] == was[..used] + data;
      SeenMore(next, START, seen, regs, was, data, buffer[..]);
    }

    /** Data that completes the block in the buffer. */
    method Complete(ghost seen: seq<Byte>, used: nat, data: seq<Byte>)
      requires buffer.Length == 64 && IsNext(next) && Seen(next, START, seen, regs, buffer[..])
      requires used == |seen| % 64 && used + |data| == 64
      modifies buffer, this`regs
      ensures Seen(next, START, seen + data, regs, buffer[..])
    {
      ghost var was := buffer[..];
      CopyBytes(buffer, used, data);
      assert buffer[..] == was[..used] + data;
      FoldOne(next, regs, buffer[..]);
      SeenBlock(next, START, seen, regs, was, data, buffer[..]);
      regs := Body(next, regs, buffer[..]);
    }

    /** What is left of the data when the buffer is empty. */
    method Rest(ghost seen: seq<Byte>, data: seq<Byte>)
      requires buffer.Length == 64 && IsNext(next) && Seen(next, START, seen, regs, buffer[..]) && |seen| % 64 == 0
      modifies buffer, this`regs
      ensures Seen(next, START, seen + data, regs, buffer[..])
    {
      var n := |data| - |data| % 64;
      if |data| >= 64 {
        SeenBlocks(next, START, seen, regs, buffer[..], data[..n]);
        regs := Body(next, regs, data[..n]);
        Keep(seen + data[..n], 0, data[n..]);
        assert seen + data[..n] + data[n..] == seen + data;
      } else {
        Keep(seen, 0, data);
      }
    }

    /** Adds to the byte count. */
    method CountUp(size: nat)
      modifies this`lo, this`hi
      ensures lo == (old(lo) + size) % 0x2000_0000
      ensures hi == CarryInto(old(hi), lo < old(lo), size)
    {
      var savedLo := lo;
      lo := (savedLo + size) % 0x2000_0000;
      if lo < savedLo { hi := (hi + 1) % 0x1_0000_0000; }
      hi := (hi + size / 0x2000_0000) % 0x1_0000_0000;
    }

    /** The data after the bytes `seen`, of which `used` are in the buffer. */
    method Absorb(ghost seen: seq<Byte>, used: nat, data: seq<Byte>)
      requires buffer.Length == 64 && IsNext(next) && Seen(next, START, seen, regs, buffer[..]) && used == |seen| % 64
      modifies buffer, this`regs
      ensures Seen(next, START, seen + data, regs, buffer[..])
    {
      if used > 0 {
        var available := 64 - used;
        if |data| < available {
          Keep(seen, used, data);
          return;
        }
        Complete(seen, used, data[..available]);
        Rest(seen + data[..available], data[available..]);
        assert seen + data[..available] + data[available..] == seen + data;
      } else {
        Rest(seen, data);
      }
    }

    method Hash(data: seq<Byte>)
      requires Valid() && IsNext(next)
      modifies this, buffer
      ensures Valid() && msg == old(msg) + data
    {
      var used := lo % 64;
      CountMore(|msg|, |data|);
      CountUp(|data|);
      Absorb(msg, used, data);
      msg := msg + data;
    }

    /** Pads to eight bytes before a block boundary. */
    method PadZeros()
      requires Valid() && IsNext(next)
      modifies this`regs, buffer
      ensures PaddedBefore(next, old(regs), old(buffer[..]), |msg| % 64, regs, buffer[..56])
    {
      var used := lo % 64;
      CountMore(|msg|, 0);
      buffer[used] := 0x80;
      used := used + 1;
      ghost var was, start := old(buffer[..]), old(buffer[..|msg| % 64]) + [0x80];
      assert buffer[..used] == start;
      var available := 64 - used;
      if available < 8 {
        CopyBytes(buffer, used, Zeros(available));
        assert buffer[..] == start + Zeros(63 - |msg| % 64);
        FoldOne(next, regs, buffer[..]);
        regs := Body(next, regs, buffer[..]);
        used, available := 0, 64;
      }
      CopyBytes(buffer, used, Zeros(available - 8));
    }

    /** The digest. */
    method End() returns (digest: seq<Byte>)
      requires Valid() && IsNext(next)
      modifies this`lo, this`regs, buffer
      ensures digest == Digest(next, msg)
    {
      PadZeros();
      PadBlocks(next, START, msg, old(regs), old(buffer[..]), BitLength(msg), regs, buffer[..56]);
      ghost var start := buffer[..56];
      CountBits(|msg|);
      lo := 8 * lo % 0x1_0000_0000;
      CopyBytes(buffer, 56, Le32(lo) + Le32(hi));
      assert buffer[..] == start + BitLength(msg);
      FoldOne(next, regs, buffer[..]);
      regs := Body(next, regs, buffer[..]);
      digest := QuadBytes(regs);
    }
  }

  /** However a message is cut into chunks, its digest is the same. */
  method HashChunks(ghost next: (Quad<Word>, seq<Byte>) -> Quad<Word>, chunks: seq<seq<Byte>>)
    returns (digest: seq<Byte>)
    requires IsNext(next)
    ensures digest == Digest(next, Concat(chunks))
  {
    var ctx := new Context(next);
    for i := 0 to |chunks|
      invariant fresh(ctx.buffer) && fresh(ctx) && ctx.next == next && ctx.Valid() && ctx.msg == Concat(chunks[..i])
    {
      assert chunks[..i + 1][..i] == chunks[..i];
      ctx.Hash(chunks[i]);
    }
    assert chunks[..|chunks|] == chunks;
    digest := ctx.End();
  }

  /** The MD5 digest of a file read in chunks. */
  method Md5File(chunks: seq<seq<Byte>>) returns (digest: seq<Byte>)
    ensures digest == Digest(Next, Concat(chunks))
  {
    digest := HashChunks(Next, chunks);
  }

  // ----- the split counter -----

  function LowCount(n: nat): nat { n % 0x2000_0000 }
  function HighCount(n: nat): nat { n / 0x2000_0000 % 0x1_0000_0000 }

  function CarryInto(hi: int, carry: bool, size: nat): int {
    ((if carry then (hi + 1) % 0x1_0000_0000 else hi) + size / 0x2000_0000) % 0x1_0000_0000
  }

  lemma Carry(n: nat, m: nat)
    ensures var lo := (LowCount(n) + m) % 0x2000_0000;
            && lo == LowCount(n + m)
            && (n + m) / 0x2000_0000 == n / 0x2000_0000 + m / 0x2000_0000 + if lo < LowCount(n) then 1 else 0
  {
  }

  lemma ModSum(a: int, b: int)
    ensures (a % 0x1_0000_0000 + b) % 0x1_0000_0000 == (a + b) % 0x1_0000_0000
  {
  }

  lemma LowModulo(n: nat)
    ensures LowCount(n) % 64 == n % 64
  {
  }

  lemma CarryHigh(n: nat, m: nat, lo: nat)
    requires lo == (LowCount(n) + m) % 0x2000_0000
    ensures CarryInto(HighCount(n), lo < LowCount(n), m) == HighCount(n + m)
  {
    Carry(n, m);
    CarryModulo(n / 0x2000_0000, lo < LowCount(n), m);
  }

  /** The carry is seen from the low part getting smaller. */
  lemma CountMore(n: nat, m: nat)
    ensures var lo := (LowCount(n) + m) % 0x2000_0000;
            lo == LowCount(n + m) && CarryInto(HighCount(n), lo < LowCount(n), m) == HighCount(n + m)
    ensures LowCount(n) % 64 == n % 64
  {
    Carry(n, m);
    CarryHigh(n, m, LowCount(n + m));
    LowModulo(n);
  }

  lemma CarryModulo(q: int, carry: bool, m: nat)
    ensures CarryInto(q % 0x1_0000_0000, carry, m) == (q + m / 0x2000_0000 + if carry then 1 else 0) % 0x1_0000_0000
  {
    ModSum(q, 1);
    ModSum(q, m / 0x2000_0000);
    ModSum(q + 1, m / 0x2000_0000);
  }

  /** The two parts make up the low 64 bits of the bit length. */
  lemma CountBits(n: nat)
    ensures 8 * LowCount(n) % 0x1_0000_0000 == 8 * n % 0x1_0000_0000
    ensures HighCount(n) == 8 * n / 0x1_0000_0000 % 0x1_0000_0000
  {
    assert 8 * n / 0x1_0000_0000 == n / 0x2000_0000;
  }
}
