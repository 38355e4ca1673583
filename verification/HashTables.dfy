/** The tables of the hashes, against what the standards derive them from. */
module HashTables {
  import opened Words32
  import Sha256Stream
  import Md5

  /** The first 64 primes, in four parts. */
  const PRIMES0: seq<nat> := [2, 3, 5, 7, 11, 13, 17, 19, 23, 29, 31, 37, 41, 43, 47, 53]
  const PRIMES1: seq<nat> := [59, 61, 67, 71, 73, 79, 83, 89, 97, 101, 103, 107, 109, 113, 127, 131]
  const PRIMES2: seq<nat> := [137, 139, 149, 151, 157, 163, 167, 173, 179, 181, 191, 193, 197, 199, 211, 223]
  const PRIMES3: seq<nat> := [227, 229, 233, 239, 241, 251, 257, 263, 269, 271, 277, 281, 283, 293, 307, 311]

  function Square(x: int): int { x * x }
  function Cube(x: int): int { x * x * x }

  const TWO_32 := 0x1_0000_0000

  /** `k` is the first 32 bits behind the point of the cube root of `p`, whose whole part is `q`. */
  predicate CubeRootBits(p: nat, q: nat, k: Word) {
    Cube(q * TWO_32 + k) <= p * Cube(TWO_32) < Cube(q * TWO_32 + k + 1)
  }

  predicate SquareRootBits(p: nat, q: nat, k: Word) {
    Square(q * TWO_32 + k) <= p * Square(TWO_32) < Square(q * TWO_32 + k + 1)
  }

  /** The whole part of the cube root of a number up to 342. */
  function CubeRoot(p: nat): nat {
    if p < 8 then 1 else if p < 27 then 2 else if p < 64 then 3 else if p < 125 then 4 else if p < 216 then 5 else 6
  }

  /** Each constant comes from its prime. */
  ghost predicate CubeRoots(ps: seq<nat>, ks: seq<Word>) {
    |ps| == |ks| && forall i | 0 <= i < |ps| :: CubeRootBits(ps[i], CubeRoot(ps[i]), ks[i])
  }

  lemma CubeRoots0()
    ensures CubeRoots(PRIMES0, Sha256Stream.K0)
  {
    assert CubeRootBits(2, 1, 0x428a2f98);
    assert CubeRootBits(3, 1, 0x71374491);
    assert CubeRootBits(5, 1, 0xb5c0fbcf);
    assert CubeRootBits(7, 1, 0xe9b5dba5);
    assert CubeRootBits(11, 2, 0x3956c25b);
    assert CubeRootBits(13, 2, 0x59f111f1);
    assert CubeRootBits(17, 2, 0x923f82a4);
    assert CubeRootBits(19, 2, 0xab1c5ed5);
    assert CubeRootBits(23, 2, 0xd807aa98);
    assert CubeRootBits(29, 3, 0x12835b01);
    assert CubeRootBits(31, 3, 0x243185be);
    assert CubeRootBits(37, 3, 0x550c7dc3);
    assert CubeRootBits(41, 3, 0x72be5d74);
    assert CubeRootBits(43, 3, 0x80deb1fe);
    assert CubeRootBits(47, 3, 0x9bdc06a7);
    assert CubeRootBits(53, 3, 0xc19bf174);
  }

  lemma CubeRoots1()
    ensures CubeRoots(PRIMES1, Sha256Stream.K1)
  {
    assert CubeRootBits(59, 3, 0xe49b69c1);
    assert CubeRootBits(61, 3, 0xefbe4786);
    assert CubeRootBits(67, 4, 0x0fc19dc6);
    assert CubeRootBits(71, 4, 0x240ca1cc);
    assert CubeRootBits(73, 4, 0x2de92c6f);
    assert CubeRootBits(79, 4, 0x4a7484aa);
    assert CubeRootBits(83, 4, 0x5cb0a9dc);
    assert CubeRootBits(89, 4, 0x76f988da);
    assert CubeRootBits(97, 4, 0x983e5152);
    assert CubeRootBits(101, 4, 0xa831c66d);
    assert CubeRootBits(103, 4, 0xb00327c8);
    assert CubeRootBits(107, 4, 0xbf597fc7);
    assert CubeRootBits(109, 4, 0xc6e00bf3);
    assert CubeRootBits(113, 4, 0xd5a79147);
    assert CubeRootBits(127, 5, 0x06ca6351);
    assert CubeRootBits(131, 5, 0x14292967);
  }

  lemma CubeRoots2()
    ensures CubeRoots(PRIMES2, Sha256Stream.K2)
  {
    assert CubeRootBits(137, 5, 0x27b70a85);
    assert CubeRootBits(139, 5, 0x2e1b2138);
    assert CubeRootBits(149, 5, 0x4d2c6dfc);
    assert CubeRootBits(151, 5, 0x53380d13);
    assert CubeRootBits(157, 5, 0x650a7354);
    assert CubeRootBits(163, 5, 0x766a0abb);
    assert CubeRootBits(167, 5, 0x81c2c92e);
    assert CubeRootBits(173, 5, 0x92722c85);
    assert CubeRootBits(179, 5, 0xa2bfe8a1);
    assert CubeRootBits(181, 5, 0xa81a664b);
    assert CubeRootBits(191, 5, 0xc24b8b70);
    assert CubeRootBits(193, 5, 0xc76c51a3);
    assert CubeRootBits(197, 5, 0xd192e819);
    assert CubeRootBits(199, 5, 0xd6990624);
    assert CubeRootBits(211, 5, 0xf40e3585);
    assert CubeRootBits(223, 6, 0x106aa070);
  }

  lemma CubeRoots3()
    ensures CubeRoots(PRIMES3, Sha256Stream.K3)
  {
    assert CubeRootBits(227, 6, 0x19a4c116);
    assert CubeRootBits(229, 6, 0x1e376c08);
    assert CubeRootBits(233, 6, 0x2748774c);
    assert CubeRootBits(239, 6, 0x34b0bcb5);
    assert CubeRootBits(241, 6, 0x391c0cb3);
    assert CubeRootBits(251, 6, 0x4ed8aa4a);
    assert CubeRootBits(257, 6, 0x5b9cca4f);
    assert CubeRootBits(263, 6, 0x682e6ff3);
    assert CubeRootBits(269, 6, 0x748f82ee);
    assert CubeRootBits(271, 6, 0x78a5636f);
    assert CubeRootBits(277, 6, 0x84c87814);
    assert CubeRootBits(281, 6, 0x8cc70208);
    assert CubeRootBits(283, 6, 0x90befffa);
    assert CubeRootBits(293, 6, 0xa4506ceb);
    assert CubeRootBits(307, 6, 0xbef9a3f7);
    assert CubeRootBits(311, 6, 0xc67178f2);
  }

  lemma CubeRootsJoin(ps: seq<nat>, ks: seq<Word>, ps': seq<nat>, ks': seq<Word>)
    requires CubeRoots(ps, ks) && CubeRoots(ps', ks')
    ensures CubeRoots(ps + ps', ks + ks')
  {
  }

  /** The constants of SHA-256 are the first 32 bits behind the point of the cube roots of the first 64 primes. */
  lemma Sha256Constants()
    ensures CubeRoots(PRIMES0 + PRIMES1 + PRIMES2 + PRIMES3, Sha256Stream.K)
  {
    CubeRoots0();
    CubeRoots1();
    CubeRoots2();
    CubeRoots3();
    CubeRootsJoin(PRIMES0, Sha256Stream.K0, PRIMES1, Sha256Stream.K1);
    CubeRootsJoin(PRIMES0 + PRIMES1, Sha256Stream.K0 + Sha256Stream.K1, PRIMES2, Sha256Stream.K2);
    CubeRootsJoin(PRIMES0 + PRIMES1 + PRIMES2, Sha256Stream.K0 + Sha256Stream.K1 + Sha256Stream.K2, PRIMES3,
                  Sha256Stream.K3);
  }

  /** The whole part of the square root of a number up to 24. */
  function SquareRoot(p: nat): nat {
    if p < 4 then 1 else if p < 9 then 2 else if p < 16 then 3 else 4
  }

  /** Its initial hash value comes from the square roots of the first eight primes. */
  lemma Sha256Start()
    ensures |Sha256Stream.H0| == 8
    ensures forall i | 0 <= i < 8 :: SquareRootBits(PRIMES0[i], SquareRoot(PRIMES0[i]), Sha256Stream.H0[i])
  {
    assert SquareRootBits(2, 1, 0x6a09e667);
    assert SquareRootBits(3, 1, 0xbb67ae85);
    assert SquareRootBits(5, 2, 0x3c6ef372);
    assert SquareRootBits(7, 2, 0xa54ff53a);
    assert SquareRootBits(11, 3, 0x510e527f);
    assert SquareRootBits(13, 3, 0x9b05688c);
    assert SquareRootBits(17, 4, 0x1f83d9ab);
    assert SquareRootBits(19, 4, 0x5be0cd19);
  }

  /** The word of the block used in step `i` of MD5. */
  function WordOf(i: nat): nat {
    if i < 16 then i else if i < 32 then (5 * i + 1) % 16 else if i < 48 then (3 * i + 5) % 16 else 7 * i % 16
  }

  /** The rotation in step `i`: four amounts in turn in each round. */
  function RotationOf(i: nat): nat {
    var j := i % 4;
    if i < 16 then (if j == 0 then 7 else if j == 1 then 12 else if j == 2 then 17 else 22)
    else if i < 32 then (if j == 0 then 5 else if j == 1 then 9 else if j == 2 then 14 else 20)
    else if i < 48 then (if j == 0 then 4 else if j == 1 then 11 else if j == 2 then 16 else 23)
    else (if j == 0 then 6 else if j == 1 then 10 else if j == 2 then 15 else 21)
  }

  predicate IsStep(i: nat, k: nat, s: nat) {
    k == WordOf(i) && s == RotationOf(i)
  }

  /** From `lo` up to `hi` the lines are those of the steps counted from `from`. */
  ghost predicate StepsIn(lines: seq<Md5.Line<Word>>, from: nat, lo: nat, hi: nat) {
    hi <= |lines| && forall i | lo <= i < hi :: IsStep(from + i, lines[i].k, lines[i].s)
  }

  lemma Round1a()
    ensures StepsIn(Md5.ROUND1, 0, 0, 8)
  {
    assert IsStep(0, 0, 7) && IsStep(1, 1, 12) && IsStep(2, 2, 17) && IsStep(3, 3, 22);
    assert IsStep(4, 4, 7) && IsStep(5, 5, 12) && IsStep(6, 6, 17) && IsStep(7, 7, 22);
  }

  lemma Round1b()
    ensures StepsIn(Md5.ROUND1, 0, 8, 16)
  {
    assert IsStep(8, 8, 7) && IsStep(9, 9, 12) && IsStep(10, 10, 17) && IsStep(11, 11, 22);
    assert IsStep(12, 12, 7) && IsStep(13, 13, 12) && IsStep(14, 14, 17) && IsStep(15, 15, 22);
  }

  lemma Round2a()
    ensures StepsIn(Md5.ROUND2, 16, 0, 8)
  {
    assert IsStep(16, 1, 5) && IsStep(17, 6, 9) && IsStep(18, 11, 14) && IsStep(19, 0, 20);
    assert IsStep(20, 5, 5) && IsStep(21, 10, 9) && IsStep(22, 15, 14) && IsStep(23, 4, 20);
  }

  lemma Round2b()
    ensures StepsIn(Md5.ROUND2, 16, 8, 16)
  {
    assert IsStep(24, 9, 5) && IsStep(25, 14, 9) && IsStep(26, 3, 14) && IsStep(27, 8, 20);
    assert IsStep(28, 13, 5) && IsStep(29, 2, 9) && IsStep(30, 7, 14) && IsStep(31, 12, 20);
  }

  lemma Round3a()
    ensures StepsIn(Md5.ROUND3, 32, 0, 8)
  {
    assert IsStep(32, 5, 4) && IsStep(33, 8, 11) && IsStep(34, 11, 16) && IsStep(35, 14, 23);
    assert IsStep(36, 1, 4) && IsStep(37, 4, 11) && IsStep(38, 7, 16) && IsStep(39, 10, 23);
  }

  lemma Round3b()
    ensures StepsIn(Md5.ROUND3, 32, 8, 16)
  {
    assert IsStep(40, 13, 4) && IsStep(41, 0, 11) && IsStep(42, 3, 16) && IsStep(43, 6, 23);
    assert IsStep(44, 9, 4) && IsStep(45, 12, 11) && IsStep(46, 15, 16) && IsStep(47, 2, 23);
  }

  lemma Round4a()
    ensures StepsIn(Md5.ROUND4, 48, 0, 8)
  {
    assert IsStep(48, 0, 6) && IsStep(49, 7, 10) && IsStep(50, 14, 15) && IsStep(51, 5, 21);
    assert IsStep(52, 12, 6) && IsStep(53, 3, 10) && IsStep(54, 10, 15) && IsStep(55, 1, 21);
  }

  lemma Round4b()
    ensures StepsIn(Md5.ROUND4, 48, 8, 16)
  {
    assert IsStep(56, 8, 6) && IsStep(57, 15, 10) && IsStep(58, 6, 15) && IsStep(59, 13, 21);
    assert IsStep(60, 4, 6) && IsStep(61, 11, 10) && IsStep(62, 2, 15) && IsStep(63, 9, 21);
  }

  lemma StepsHalves(lines: seq<Md5.Line<Word>>, from: nat)
    requires |lines| == 16 && StepsIn(lines, from, 0, 8) && StepsIn(lines, from, 8, 16)
    ensures StepsIn(lines, from, 0, 16)
  {
  }

  /** Words and rotations of all steps follow the pattern of section 3.4 of RFC 1321. */
  lemma Md5Rounds()
    ensures StepsIn(Md5.ROUND1, 0, 0, 16) && StepsIn(Md5.ROUND2, 16, 0, 16)
    ensures StepsIn(Md5.ROUND3, 32, 0, 16) && StepsIn(Md5.ROUND4, 48, 0, 16)
  {
    Round1a(); Round1b();
    Round2a(); Round2b();
    Round3a(); Round3b();
    Round4a(); Round4b();
    StepsHalves(Md5.ROUND1, 0);
    StepsHalves(Md5.ROUND2, 16);
    StepsHalves(Md5.ROUND3, 32);
    StepsHalves(Md5.ROUND4, 48);
  }
}
