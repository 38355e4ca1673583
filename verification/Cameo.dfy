/**
 The uImage header of cameo-tag.py: one header that satisfies both the loader's byte-sum
 tag and the header's own CRC-32 (section 8 of RFC 1952).
 */
module Cameo {

  type Byte = bv8
  type Word = bv32

  // ----- CRC-32 -----

  function Shift1(c: Word): Word {
    if c & 1 == 1 then 0xedb8_8320 ^ (c >> 1) else c >> 1
  }

  function Shift(c: Word, n: nat): Word
    decreases n
  {
    if n == 0 then c else Shift(Shift1(c), n - 1)
  }

  /** Entry of the table for a byte value. */
  function Table(n: Word): Word {
    Shift(n, 8)
  }

  function Update(c: Word, b: Byte): Word {
    Table((c ^ b as Word) & 0xff) ^ (c >> 8)
  }

  /** The state `s` after the bytes of `data`. */
  function After<S>(step: (S, Byte) -> S, s: S, data: seq<Byte>): S {
    if data == [] then s else step(After(step, s, data[..|data| - 1]), data[|data| - 1])
  }

  function Register(data: seq<Byte>): Word {
    After(Update, 0xffff_ffff, data)
  }

  function Crc32(data: seq<Byte>): Word {
    Register(data) ^ 0xffff_ffff
  }

  function Le32(x: Word): (r: seq<Byte>)
    ensures |r| == 4
  {
    [(x & 0xff) as Byte, ((x >> 8) & 0xff) as Byte, ((x >> 16) & 0xff) as Byte, (x >> 24) as Byte]
  }

  lemma {:induction false} ShiftZero(n: nat)
    ensures Shift(0, n) == 0
  {
    if n > 0 { ShiftZero(n - 1); }
  }

  /** The table's highest byte is zero only for the byte zero: a shift that feeds back leaves its bit. */
  lemma TableTop(n: Word)
    requires n <= 0xff && Table(n) >> 24 == 0
    ensures n == 0
  {
    var c1 := Shift1(n);
    var c2 := Shift1(c1);
    var c3 := Shift1(c2);
    var c4 := Shift1(c3);
    var c5 := Shift1(c4);
    var c6 := Shift1(c5);
    var c7 := Shift1(c6);
    var c8 := Shift1(c7);
    assert Table(n) == c8 by {
      assert Shift(n, 8) == Shift(c1, 7) == Shift(c2, 6) == Shift(c3, 5) == Shift(c4, 4);
      assert Shift(c4, 4) == Shift(c5, 3) == Shift(c6, 2) == Shift(c7, 1) == Shift(c8, 0);
    }
  }

  /** A byte equal to the low byte of the register shifts it out. */
  lemma LowByteOut(c: Word, b: Byte)
    requires b as Word == c & 0xff
    ensures Update(c, b) == c >> 8
  {
    assert (c ^ (c & 0xff)) & 0xff == 0;
    ShiftZero(8);
  }

  /** If the register's highest byte becomes zero, its low byte was shifted out. */
  lemma LowByteOnly(c: Word, b: Byte)
    requires Update(c, b) >> 24 == 0
    ensures b as Word == c & 0xff && Update(c, b) == c >> 8
  {
    var n := (c ^ b as Word) & 0xff;
    assert Table(n) >> 24 == 0;
    TableTop(n);
    assert b as Word == c & 0xff;
    LowByteOut(c, b);
  }

  function Update4(c: Word, t: seq<Byte>): Word
    requires |t| == 4
  {
    Update(Update(Update(Update(c, t[0]), t[1]), t[2]), t[3])
  }

  lemma Le32Bytes(c: Word, t: seq<Byte>)
    requires |t| == 4
    ensures t == Le32(c) <==>
            t[0] as Word == c & 0xff && t[1] as Word == (c >> 8) & 0xff && t[2] as Word == (c >> 8 >> 8) & 0xff &&
            t[3] as Word == c >> 8 >> 8 >> 8
  {
    assert c >> 8 >> 8 == c >> 16 && c >> 16 >> 8 == c >> 24;
  }

  lemma TwoBytesOut(c: Word, t: Byte, u: Byte)
    requires t as Word == c & 0xff && u as Word == (c >> 8) & 0xff
    ensures Update(Update(c, t), u) == c >> 16
  {
    LowByteOut(c, t);
    LowByteOut(c >> 8, u);
    assert c >> 8 >> 8 == c >> 16;
  }

  lemma OwnBytes(c: Word, t: seq<Byte>)
    requires t == Le32(c)
    ensures Update4(c, t) == 0
  {
    TwoBytesOut(c, t[0], t[1]);
    var d := c >> 16;
    assert t[2] as Word == d & 0xff && t[3] as Word == (d >> 8) & 0xff && d >> 16 == 0;
    TwoBytesOut(d, t[2], t[3]);
  }

  lemma NoOtherBytes(c: Word, t: seq<Byte>)
    requires |t| == 4 && Update4(c, t) == 0
    ensures t == Le32(c)
  {
    var c1 := Update(c, t[0]);
    var c2 := Update(c1, t[1]);
    var c3 := Update(c2, t[2]);
    LowByteOnly(c3, t[3]);
    assert c3 >> 24 == 0 && c3 & 0xff == c3 by { assert c3 >> 8 == 0; }
    LowByteOnly(c2, t[2]);
    assert c2 >> 24 == 0 by { assert c2 >> 8 == c3; }
    LowByteOnly(c1, t[1]);
    assert c1 >> 24 == 0 by { assert c1 >> 8 == c2; }
    LowByteOnly(c, t[0]);
    Le32Bytes(c, t);
  }

  /** The register is driven to zero by its own bytes, lowest first, and by no others. */
  lemma DrivenToZero(c: Word, t: seq<Byte>)
    requires |t| == 4
    ensures Update4(c, t) == 0 <==> t == Le32(c)
  {
    if t == Le32(c) { OwnBytes(c, t); }
    if Update4(c, t) == 0 { NoOtherBytes(c, t); }
  }

  lemma AfterAppend<S>(step: (S, Byte) -> S, s: S, data: seq<Byte>, b: Byte)
    ensures After(step, s, data + [b]) == step(After(step, s, data), b)
  {
    assert (data + [b])[..|data|] == data;
  }

  lemma After2<S>(step: (S, Byte) -> S, s: S, data: seq<Byte>, a: Byte, b: Byte)
    ensures After(step, s, data + [a, b]) == step(step(After(step, s, data), a), b)
  {
    AfterAppend(step, s, data, a);
    AfterAppend(step, s, data + [a], b);
    assert data + [a, b] == data + [a] + [b];
  }

  lemma After4<S>(step: (S, Byte) -> S, s: S, data: seq<Byte>, t: seq<Byte>)
    requires |t| == 4
    ensures After(step, s, data + t) == step(step(step(step(After(step, s, data), t[0]), t[1]), t[2]), t[3])
  {
    var d := data + [t[0], t[1]];
    After2(step, s, data, t[0], t[1]);
    After2(step, s, d, t[2], t[3]);
    assert data + t == d + [t[2], t[3]];
  }

  function InvertCrc(data: seq<Byte>): (r: seq<Byte>)
    ensures |r| == 4
  {
    Le32(Crc32(data) ^ 0xffff_ffff)
  }

  lemma InvertTwice(x: Word)
    ensures x ^ 0xffff_ffff ^ 0xffff_ffff == x && (x ^ 0xffff_ffff == 0xffff_ffff <==> x == 0)
  {
  }

  lemma CrcAppend(data: seq<Byte>, t: seq<Byte>)
    requires |t| == 4
    ensures Crc32(data + t) == Update4(Register(data), t) ^ 0xffff_ffff
  {
    After4(Update, 0xffff_ffff, data, t);
  }

  lemma InvertCrcBytes(data: seq<Byte>)
    ensures InvertCrc(data) == Le32(Register(data))
  {
    InvertTwice(Register(data));
  }

  /** The residue: exactly the inverted CRC, appended, makes the CRC all ones. */
  lemma Residue(data: seq<Byte>, t: seq<Byte>)
    requires |t| == 4
    ensures Crc32(data + t) == 0xffff_ffff <==> t == InvertCrc(data)
  {
    CrcAppend(data, t);
    InvertCrcBytes(data);
    DrivenToZero(Register(data), t);
    InvertTwice(Update4(Register(data), t));
  }

  // ----- the byte sum -----

  function Sum(data: seq<Byte>): nat {
    if data == [] then 0 else Sum(data[..|data| - 1]) + data[|data| - 1] as int
  }

  function Be32(x: nat): (r: seq<Byte>)
    ensures |r| == 4
  {
    [(x / 0x100_0000 % 256) as Byte, (x / 0x1_0000 % 256) as Byte, (x / 0x100 % 256) as Byte, (x % 256) as Byte]
  }

  method CameoSum(data: seq<Byte>) returns (r: seq<Byte>)
    ensures r == Be32(Sum(data) % 0x1_0000_0000)
  {
    var sum := 0;
    for i := 0 to |data|
      invariant sum == Sum(data[..i])
    {
      assert data[..i + 1][..i] == data[..i];
      sum := sum + data[i] as int;
    }
    assert data[..|data|] == data;
    r := Be32(sum % 0x1_0000_0000);
  }

  const CAMEO_TAG: seq<Byte> := [0x43, 0x41, 0x4d, 0x45, 0x4f, 0x54, 0x41, 0x47, 0x00, 0x00, 0x00, 0x01]
  const IMAGE_NAME: seq<Byte> := [0x4f, 0x70, 0x65, 0x6e, 0x57, 0x72, 0x74, 0x00, 0x00, 0x00, 0x00, 0x00]

  /** What the loader looks for: the tag at `i`, followed by the sum of everything up to there. */
  predicate TaggedAt(data: seq<Byte>, i: nat) {
    && i + 16 <= |data| && data[i..i + 12] == CAMEO_TAG
    && data[i + 12..i + 16] == Be32(Sum(data[..i + 12]) % 0x1_0000_0000)
  }

  // ----- the header -----

  const CRC_OFF := 4
  const CRC_END := 8
  const NAME_OFF := 32
  const NAME_END := 56
  const SUM_END := 60

  const ZEROS: seq<Byte> := [0, 0, 0, 0]
  const ONES: seq<Byte> := [0xff, 0xff, 0xff, 0xff]

  /** The header with another CRC field. */
  function WithCrc(h: seq<Byte>, crc: seq<Byte>): seq<Byte>
    requires |h| >= CRC_END
  {
    h[..CRC_OFF] + crc + h[CRC_END..]
  }

  method Assign(buf: array<Byte>, at: nat, data: seq<Byte>)
    requires at + |data| <= buf.Length
    modifies buf
    ensures buf[..] == old(buf[..at]) + data + old(buf[at + |data|..])
  {
    for i := 0 to |data|
      invariant buf[..at + i] == old(buf[..at]) + data[..i]
      invariant buf[at + i..] == old(buf[at + i..])
    {
      buf[at + i] := data[i];
    }
    assert buf[..] == buf[..at + |data|] + buf[at + |data|..];
  }

  /** The header with name and tag in place and the CRC field all ones, up to the sum. */
  function Front(h: seq<Byte>): seq<Byte>
    requires |h| == 64
  {
    h[..CRC_OFF] + ONES + h[CRC_END..NAME_OFF] + IMAGE_NAME + CAMEO_TAG
  }

  /** A header made of `front`, its sum and the inverted CRC satisfies both checks. */
  lemma BothChecks(front: seq<Byte>, sum: seq<Byte>, inv: seq<Byte>)
    requires |front| == NAME_END && front[44..] == CAMEO_TAG && front[CRC_OFF..CRC_END] == ONES
    requires sum == Be32(Sum(front) % 0x1_0000_0000) && inv == InvertCrc(WithCrc(front + sum, ZEROS)) && |inv| == 4
    ensures TaggedAt(front + sum + inv, 44) && Crc32(WithCrc(front + sum + inv, ZEROS)) == 0xffff_ffff
  {
    var h := front + sum + inv;
    assert h[..56] == front && h[44..56] == front[44..] && h[56..60] == sum;
    assert WithCrc(h, ZEROS) == WithCrc(front + sum, ZEROS) + inv;
    Residue(WithCrc(front + sum, ZEROS), inv);
  }

  /** Name and tag and then the CRC field written into the header `h`. */
  lemma FrontBytes(h: seq<Byte>, h1: seq<Byte>, h2: seq<Byte>)
    requires |h| == 64 && h1 == h[..NAME_OFF] + (IMAGE_NAME + CAMEO_TAG) + h[NAME_END..]
    requires |h1| == 64 && h2 == h1[..CRC_OFF] + ONES + h1[CRC_END..]
    ensures h2[..NAME_END] == Front(h)
  {
    assert h1[..CRC_OFF] == h[..CRC_OFF];
    assert h1[CRC_END..NAME_END] == h[CRC_END..NAME_OFF] + IMAGE_NAME + CAMEO_TAG;
    assert h2[..NAME_END] == h1[..CRC_OFF] + ONES + h1[CRC_END..NAME_END];
  }

  /** Everything up to the sum. */
  method PutSum(buf: array<Byte>) returns (ghost sum: seq<Byte>)
    requires buf.Length == 64
    modifies buf
    ensures var front := Front(old(buf[..])); sum == Be32(Sum(front) % 0x1_0000_0000) && buf[..SUM_END] == front + sum
  {
    ghost var h := buf[..];
    Assign(buf, NAME_OFF, IMAGE_NAME + CAMEO_TAG);
    ghost var h1 := buf[..];
    Assign(buf, CRC_OFF, ONES);
    FrontBytes(h, h1, buf[..]);
    ghost var front := buf[..NAME_END];
    assert front == buf[..][..NAME_END];
    var s := CameoSum(buf[..NAME_END]);
    Assign(buf, NAME_END, s);
    assert buf[..SUM_END] == buf[..][..SUM_END] == front + s;
    sum := s;
  }

  /** The CRC field zeroed, the inverted CRC put behind the sum, and the field restored. */
  lemma CrcBytes(h: seq<Byte>, h1: seq<Byte>, inv: seq<Byte>, h2: seq<Byte>, h3: seq<Byte>)
    requires |h| == 64 && h[CRC_OFF..CRC_END] == ONES && |inv| == 4
    requires h1 == h[..CRC_OFF] + ZEROS + h[CRC_END..] && h2 == h1[..SUM_END] + inv
    requires h3 == h2[..CRC_OFF] + ONES + h2[CRC_END..]
    ensures h1[..SUM_END] == WithCrc(h[..SUM_END], ZEROS) && h3 == h[..SUM_END] + inv
  {
    assert h2[CRC_END..] == h[CRC_END..SUM_END] + inv;
    assert h[..SUM_END] == h[..CRC_OFF] + h[CRC_OFF..CRC_END] + h[CRC_END..SUM_END];
  }

  /** The inverted CRC behind the sum. */
  method PutCrc(buf: array<Byte>)
    requires buf.Length == 64 && buf[CRC_OFF..CRC_END] == ONES
    modifies buf
    ensures buf[..] == old(buf[..SUM_END]) + InvertCrc(WithCrc(old(buf[..SUM_END]), ZEROS))
  {
    ghost var h := buf[..];
    Assign(buf, CRC_OFF, ZEROS);
    ghost var h1 := buf[..];
    var inv := InvertCrc(buf[..SUM_END]);
    Assign(buf, SUM_END, inv);
    ghost var h2 := buf[..];
    Assign(buf, CRC_OFF, ONES);
    assert buf[64..] == [] && h2 == h1[..SUM_END] + inv + [];
    CrcBytes(h, h1, inv, h2, buf[..]);
    assert h[..SUM_END] == old(buf[..SUM_END]);
  }

  lemma FrontFields(h: seq<Byte>, sum: seq<Byte>)
    requires |h| == 64 && |sum| == 4
    ensures |Front(h)| == NAME_END && Front(h)[44..] == CAMEO_TAG && Front(h)[CRC_OFF..CRC_END] == ONES
    ensures (Front(h) + sum)[CRC_OFF..CRC_END] == ONES
  {
  }

  method ChecksumHeader(buf: array<Byte>)
    requires buf.Length == 64
    modifies buf
    ensures buf[..NAME_END] == Front(old(buf[..]))
    ensures TaggedAt(buf[..], 44)
    ensures buf[CRC_OFF..CRC_END] == ONES && Crc32(WithCrc(buf[..], ZEROS)) == 0xffff_ffff
  {
    ghost var front := Front(buf[..]);
    ghost var sum := PutSum(buf);
    FrontFields(old(buf[..]), sum);
    assert buf[CRC_OFF..CRC_END] == buf[..SUM_END][CRC_OFF..CRC_END];
    PutCrc(buf);
    ghost var inv := InvertCrc(WithCrc(front + sum, ZEROS));
    assert buf[..] == front + sum + inv;
    BothChecks(front, sum, inv);
    HeaderFields(buf[..], front, sum, inv);
    assert buf[..NAME_END] == buf[..][..NAME_END] && buf[CRC_OFF..CRC_END] == buf[..][CRC_OFF..CRC_END];
  }

  lemma HeaderFields(h: seq<Byte>, front: seq<Byte>, sum: seq<Byte>, inv: seq<Byte>)
    requires h == front + sum + inv && |front| == NAME_END && |h| == 64
    ensures h[..NAME_END] == front && h[CRC_OFF..CRC_END] == front[CRC_OFF..CRC_END]
  {
  }

  /** The tag behind the part of the image in the rootfs partition. */
  method RootTag(data: seq<Byte>) returns (r: seq<Byte>)
    ensures |r| == 16 && TaggedAt(data + r, |data|)
  {
    var sum := CameoSum(data + CAMEO_TAG);
    r := CAMEO_TAG + sum;
    assert (data + r)[..|data| + 12] == data + CAMEO_TAG;
    assert (data + r)[|data| + 12..|data| + 16] == sum;
  }
}
