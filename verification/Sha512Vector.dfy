/**
 * The constants of SHA-512 as sections 4.2.3 and 5.3.5 of FIPS 180-4 define them, and the digest of
 * "abc", round by round: together they fix the tables, the functions of a round and the byte order.
 */
module Sha512Vector {
  import opened Bits
  import opened Sha512
  import opened Sha512Hash
  import Primes

  // ----- the first eighty primes -----

  function Prime(t: nat): nat {
    if t < 1 then 2 else if t < 2 then 3 else if t < 3 then 5 else if t < 4 then 7 else if t < 5 then 11 else
    if t < 6 then 13 else if t < 7 then 17 else if t < 8 then 19 else if t < 9 then 23 else if t < 10 then 29 else
    if t < 11 then 31 else if t < 12 then 37 else if t < 13 then 41 else if t < 14 then 43 else if t < 15 then 47 else
    if t < 16 then 53 else if t < 17 then 59 else if t < 18 then 61 else if t < 19 then 67 else if t < 20 then 71 else
    if t < 21 then 73 else if t < 22 then 79 else if t < 23 then 83 else if t < 24 then 89 else if t < 25 then 97 else
    if t < 26 then 101 else if t < 27 then 103 else if t < 28 then 107 else if t < 29 then 109 else if t < 30 then 113 else
    if t < 31 then 127 else if t < 32 then 131 else if t < 33 then 137 else if t < 34 then 139 else if t < 35 then 149 else
    if t < 36 then 151 else if t < 37 then 157 else if t < 38 then 163 else if t < 39 then 167 else if t < 40 then 173 else
    if t < 41 then 179 else if t < 42 then 181 else if t < 43 then 191 else if t < 44 then 193 else if t < 45 then 197 else
    if t < 46 then 199 else if t < 47 then 211 else if t < 48 then 223 else if t < 49 then 227 else if t < 50 then 229 else
    if t < 51 then 233 else if t < 52 then 239 else if t < 53 then 241 else if t < 54 then 251 else if t < 55 then 257 else
    if t < 56 then 263 else if t < 57 then 269 else if t < 58 then 271 else if t < 59 then 277 else if t < 60 then 281 else
    if t < 61 then 283 else if t < 62 then 293 else if t < 63 then 307 else if t < 64 then 311 else if t < 65 then 313 else
    if t < 66 then 317 else if t < 67 then 331 else if t < 68 then 337 else if t < 69 then 347 else if t < 70 then 349 else
    if t < 71 then 353 else if t < 72 then 359 else if t < 73 then 367 else if t < 74 then 373 else if t < 75 then 379 else
    if t < 76 then 383 else if t < 77 then 389 else if t < 78 then 397 else if t < 79 then 401 else 409
  }

  /** Trial division by the primes up to 20, which decides numbers below 21^2. */
  predicate PassesTrial(n: nat) {
    && 2 <= n && (n == 2 || n % 2 != 0) && (n == 3 || n % 3 != 0) && (n == 5 || n % 5 != 0) && (n == 7 || n % 7 != 0)
    && (n == 11 || n % 11 != 0) && (n == 13 || n % 13 != 0) && (n == 17 || n % 17 != 0) && (n == 19 || n % 19 != 0)
  }

  /** q is the next number after p that passes, at most 14 more than p; no even number after 2 does. */
  predicate NextPassing(p: nat, q: nat) {
    && p < q <= p + 14 && q < 441 && PassesTrial(q) && (if p == 2 then q == 3 else p % 2 == 1)
    && (q <= p + 2 || !PassesTrial(p + 2)) && (q <= p + 4 || !PassesTrial(p + 4)) && (q <= p + 6 || !PassesTrial(p + 6))
    && (q <= p + 8 || !PassesTrial(p + 8)) && (q <= p + 10 || !PassesTrial(p + 10)) && (q <= p + 12 || !PassesTrial(p + 12))
  }

  predicate IsFollowed(t: nat) {
    NextPassing(Prime(t), Prime(t + 1))
  }

  lemma PassingFrom0()
    ensures NextPassing(2, 3) && NextPassing(3, 5) && NextPassing(5, 7) && NextPassing(7, 11) &&
      NextPassing(11, 13) && NextPassing(13, 17) && NextPassing(17, 19) && NextPassing(19, 23) &&
      NextPassing(23, 29) && NextPassing(29, 31) && NextPassing(31, 37) && NextPassing(37, 41) &&
      NextPassing(41, 43) && NextPassing(43, 47) && NextPassing(47, 53) && NextPassing(53, 59)
  {
  }

  lemma PrimesFrom0()
    ensures IsFollowed(0) && IsFollowed(1) && IsFollowed(2) && IsFollowed(3) && IsFollowed(4) && IsFollowed(5) &&
      IsFollowed(6) && IsFollowed(7) && IsFollowed(8) && IsFollowed(9) && IsFollowed(10) && IsFollowed(11) &&
      IsFollowed(12) && IsFollowed(13) && IsFollowed(14) && IsFollowed(15)
  {
    hide NextPassing;
    PassingFrom0();
  }

  lemma PassingFrom16()
    ensures NextPassing(59, 61) && NextPassing(61, 67) && NextPassing(67, 71) && NextPassing(71, 73) &&
      NextPassing(73, 79) && NextPassing(79, 83) && NextPassing(83, 89) && NextPassing(89, 97) &&
      NextPassing(97, 101) && NextPassing(101, 103) && NextPassing(103, 107) && NextPassing(107, 109) &&
      NextPassing(109, 113) && NextPassing(113, 127) && NextPassing(127, 131) && NextPassing(131, 137)
  {
  }

  lemma PrimesFrom16()
    ensures IsFollowed(16) && IsFollowed(17) && IsFollowed(18) && IsFollowed(19) && IsFollowed(20) && IsFollowed(21) &&
      IsFollowed(22) && IsFollowed(23) && IsFollowed(24) && IsFollowed(25) && IsFollowed(26) && IsFollowed(27) &&
      IsFollowed(28) && IsFollowed(29) && IsFollowed(30) && IsFollowed(31)
  {
    hide NextPassing;
    PassingFrom16();
  }

  lemma PassingFrom32()
    ensures NextPassing(137, 139) && NextPassing(139, 149) && NextPassing(149, 151) && NextPassing(151, 157) &&
      NextPassing(157, 163) && NextPassing(163, 167) && NextPassing(167, 173) && NextPassing(173, 179) &&
      NextPassing(179, 181) && NextPassing(181, 191) && NextPassing(191, 193) && NextPassing(193, 197) &&
      NextPassing(197, 199) && NextPassing(199, 211) && NextPassing(211, 223) && NextPassing(223, 227)
  {
  }

  lemma PrimesFrom32()
    ensures IsFollowed(32) && IsFollowed(33) && IsFollowed(34) && IsFollowed(35) && IsFollowed(36) && IsFollowed(37) &&
      IsFollowed(38) && IsFollowed(39) && IsFollowed(40) && IsFollowed(41) && IsFollowed(42) && IsFollowed(43) &&
      IsFollowed(44) && IsFollowed(45) && IsFollowed(46) && IsFollowed(47)
  {
    hide NextPassing;
    PassingFrom32();
  }

  lemma PassingFrom48()
    ensures NextPassing(227, 229) && NextPassing(229, 233) && NextPassing(233, 239) && NextPassing(239, 241) &&
      NextPassing(241, 251) && NextPassing(251, 257) && NextPassing(257, 263) && NextPassing(263, 269) &&
      NextPassing(269, 271) && NextPassing(271, 277) && NextPassing(277, 281) && NextPassing(281, 283) &&
      NextPassing(283, 293) && NextPassing(293, 307) && NextPassing(307, 311) && NextPassing(311, 313)
  {
  }

  lemma PrimesFrom48()
    ensures IsFollowed(48) && IsFollowed(49) && IsFollowed(50) && IsFollowed(51) && IsFollowed(52) && IsFollowed(53) &&
      IsFollowed(54) && IsFollowed(55) && IsFollowed(56) && IsFollowed(57) && IsFollowed(58) && IsFollowed(59) &&
      IsFollowed(60) && IsFollowed(61) && IsFollowed(62) && IsFollowed(63)
  {
    hide NextPassing;
    PassingFrom48();
  }

  lemma PassingFrom64()
    ensures NextPassing(313, 317) && NextPassing(317, 331) && NextPassing(331, 337) && NextPassing(337, 347) &&
      NextPassing(347, 349) && NextPassing(349, 353) && NextPassing(353, 359) && NextPassing(359, 367) &&
      NextPassing(367, 373) && NextPassing(373, 379) && NextPassing(379, 383) && NextPassing(383, 389) &&
      NextPassing(389, 397) && NextPassing(397, 401) && NextPassing(401, 409)
  {
  }

  lemma PrimesFrom64()
    ensures IsFollowed(64) && IsFollowed(65) && IsFollowed(66) && IsFollowed(67) && IsFollowed(68) && IsFollowed(69) &&
      IsFollowed(70) && IsFollowed(71) && IsFollowed(72) && IsFollowed(73) && IsFollowed(74) && IsFollowed(75) &&
      IsFollowed(76) && IsFollowed(77) && IsFollowed(78)
  {
    hide NextPassing;
    PassingFrom64();
  }

  /** A divisor beyond 20 of a number below 21^2 has a cofactor up to 20. */
  lemma Cofactor(n: nat, d: nat)
    requires n < 441 && 20 < d < n && n % d == 0
    ensures 2 <= n / d <= 20 && n % (n / d) == 0
  {
    var q := n / d;
    assert n == d * q;
    assert q > 20 ==> d * q >= 21 * 21;
    DivModUnique(n, q, d, 0);
  }

  lemma SmallDivisor(n: nat, d: nat)
    requires PassesTrial(n) && 2 <= d <= 20 && n % d == 0
    ensures n == d
  {
    var e := if d % 2 == 0 then 2 else if d % 3 == 0 then 3 else if d % 5 == 0 then 5 else d;
    Divides(n, d, e);
  }

  /** A divisor of a divisor. */
  lemma Divides(n: nat, d: nat, e: nat)
    requires d > 0 && e > 0 && n % d == 0 && d % e == 0
    ensures n % e == 0 && (n == e ==> d == e)
  {
    var k, m := d / e, n / d;
    assert d == e * k && n == d * m;
    assert n == e * (k * m);
    DivModUnique(n, e, k * m, 0);
  }

  lemma TrialDecides(n: nat)
    requires n < 441
    ensures PassesTrial(n) <==> Primes.IsPrime(n)
  {
    if PassesTrial(n) {
      hide PassesTrial;
      forall d | 2 <= d < n ensures n % d != 0 {
        if n % d == 0 {
          if d > 20 {
            Cofactor(n, d);
            SmallDivisor(n, n / d);
          } else {
            SmallDivisor(n, d);
          }
        }
      }
    }
  }

  lemma AllFollowed(t: nat)
    requires t < 79
    ensures IsFollowed(t)
  {
    hide IsFollowed, NextPassing, Prime;
    PrimesFrom0();
    PrimesFrom16();
    PrimesFrom32();
    PrimesFrom48();
    PrimesFrom64();
  }

  /** The table of primes starts with 2 and goes from each prime to the next. */
  lemma PrimesInOrder(t: nat)
    requires t < 79
    ensures Prime(0) == 2 && Primes.IsPrime(2) && Primes.IsPrime(Prime(t + 1)) && Prime(t) < Prime(t + 1)
    ensures forall k :: Prime(t) < k < Prime(t + 1) ==> !Primes.IsPrime(k)
  {
    assert Prime(0) == 2;
    hide Prime, Primes.IsPrime;
    AllFollowed(t);
    TrialDecides(2);
    TrialDecides(Prime(t + 1));
    forall k | Prime(t) < k < Prime(t + 1) ensures !Primes.IsPrime(k) {
      Between(Prime(t), Prime(t + 1), k) by {
        AtLeastTwo(t);
      }
      TrialDecides(k);
    }
  }

  lemma AtLeastTwo(t: nat)
    ensures Prime(t) >= 2
  {
  }

  lemma Between(p: nat, q: nat, k: nat)
    requires NextPassing(p, q) && 2 <= p < k < q
    ensures q < 441 && !PassesTrial(k)
  {
    hide PassesTrial;
    if k % 2 == 0 {
      EvenFails(k);
    }
  }

  lemma EvenFails(k: nat)
    requires k > 2 && k % 2 == 0
    ensures !PassesTrial(k)
  {
  }

  // ----- the constants -----

  /** r is the square root of p times 2^128, rounded down. */
  predicate SquareRoot(r: nat, p: nat) {
    r * r <= p * 0x1_0000_0000_0000_0000_0000_0000_0000_0000 < (r + 1) * (r + 1)
  }

  /** r is the cube root of p times 2^192, rounded down. */
  predicate CubeRoot(r: nat, p: nat) {
    r * r * r <= p * 0x1_0000_0000_0000_0000_0000_0000_0000_0000_0000_0000_0000_0000 < (r + 1) * (r + 1) * (r + 1)
  }

  /** The square root of p has the whole part c, and word for the first 64 bits of its fraction. */
  predicate SquareFraction(word: bv64, c: nat, p: nat) {
    SquareRoot(c * 0x1_0000_0000_0000_0000 + WordValue(word), p)
  }

  predicate CubeFraction(word: bv64, c: nat, p: nat) {
    CubeRoot(c * 0x1_0000_0000_0000_0000 + WordValue(word), p)
  }

  /** The whole part of the cube root of prime t. */
  function WholePart(t: nat): nat {
    if t < 4 then 1 else if t < 9 then 2 else if t < 18 then 3 else if t < 30 then 4 else if t < 47 then 5
    else if t < 68 then 6 else 7
  }

  predicate IsConstant(t: nat) {
    t < ROUNDS && CubeFraction(K(t), WholePart(t), Prime(t))
  }

  lemma RootsFrom0()
    ensures CubeRoot(0x1_428a2f98d728ae22, 2) && CubeRoot(0x1_7137449123ef65cd, 3) && CubeRoot(0x1_b5c0fbcfec4d3b2f, 5) &&
      CubeRoot(0x1_e9b5dba58189dbbc, 7) && CubeRoot(0x2_3956c25bf348b538, 11) && CubeRoot(0x2_59f111f1b605d019, 13) &&
      CubeRoot(0x2_923f82a4af194f9b, 17) && CubeRoot(0x2_ab1c5ed5da6d8118, 19) && CubeRoot(0x2_d807aa98a3030242, 23) &&
      CubeRoot(0x3_12835b0145706fbe, 29) && CubeRoot(0x3_243185be4ee4b28c, 31) && CubeRoot(0x3_550c7dc3d5ffb4e2, 37) &&
      CubeRoot(0x3_72be5d74f27b896f, 41) && CubeRoot(0x3_80deb1fe3b1696b1, 43) && CubeRoot(0x3_9bdc06a725c71235, 47) &&
      CubeRoot(0x3_c19bf174cf692694, 53) && CubeRoot(0x3_e49b69c19ef14ad2, 59) && CubeRoot(0x3_efbe4786384f25e3, 61) &&
      CubeRoot(0x4_0fc19dc68b8cd5b5, 67) && CubeRoot(0x4_240ca1cc77ac9c65, 71)
  {
  }

  lemma ConstantsFrom0()
    ensures IsConstant(0) && IsConstant(1) && IsConstant(2) && IsConstant(3) && IsConstant(4) && IsConstant(5) &&
      IsConstant(6) && IsConstant(7) && IsConstant(8) && IsConstant(9) && IsConstant(10) && IsConstant(11) &&
      IsConstant(12) && IsConstant(13) && IsConstant(14) && IsConstant(15) && IsConstant(16) && IsConstant(17) &&
      IsConstant(18) && IsConstant(19)
  {
    hide CubeRoot;
    RootsFrom0();
  }

  lemma RootsFrom20()
    ensures CubeRoot(0x4_2de92c6f592b0275, 73) && CubeRoot(0x4_4a7484aa6ea6e483, 79) && CubeRoot(0x4_5cb0a9dcbd41fbd4, 83) &&
      CubeRoot(0x4_76f988da831153b5, 89) && CubeRoot(0x4_983e5152ee66dfab, 97) && CubeRoot(0x4_a831c66d2db43210, 101) &&
      CubeRoot(0x4_b00327c898fb213f, 103) && CubeRoot(0x4_bf597fc7beef0ee4, 107) && CubeRoot(0x4_c6e00bf33da88fc2, 109) &&
      CubeRoot(0x4_d5a79147930aa725, 113) && CubeRoot(0x5_06ca6351e003826f, 127) && CubeRoot(0x5_142929670a0e6e70, 131) &&
      CubeRoot(0x5_27b70a8546d22ffc, 137) && CubeRoot(0x5_2e1b21385c26c926, 139) && CubeRoot(0x5_4d2c6dfc5ac42aed, 149) &&
      CubeRoot(0x5_53380d139d95b3df, 151) && CubeRoot(0x5_650a73548baf63de, 157) && CubeRoot(0x5_766a0abb3c77b2a8, 163) &&
      CubeRoot(0x5_81c2c92e47edaee6, 167) && CubeRoot(0x5_92722c851482353b, 173)
  {
  }

  lemma ConstantsFrom20()
    ensures IsConstant(20) && IsConstant(21) && IsConstant(22) && IsConstant(23) && IsConstant(24) && IsConstant(25) &&
      IsConstant(26) && IsConstant(27) && IsConstant(28) && IsConstant(29) && IsConstant(30) && IsConstant(31) &&
      IsConstant(32) && IsConstant(33) && IsConstant(34) && IsConstant(35) && IsConstant(36) && IsConstant(37) &&
      IsConstant(38) && IsConstant(39)
  {
    hide CubeRoot;
    RootsFrom20();
  }

  lemma RootsFrom40()
    ensures CubeRoot(0x5_a2bfe8a14cf10364, 179) && CubeRoot(0x5_a81a664bbc423001, 181) && CubeRoot(0x5_c24b8b70d0f89791, 191) &&
      CubeRoot(0x5_c76c51a30654be30, 193) && CubeRoot(0x5_d192e819d6ef5218, 197) && CubeRoot(0x5_d69906245565a910, 199) &&
      CubeRoot(0x5_f40e35855771202a, 211) && CubeRoot(0x6_106aa07032bbd1b8, 223) && CubeRoot(0x6_19a4c116b8d2d0c8, 227) &&
      CubeRoot(0x6_1e376c085141ab53, 229) && CubeRoot(0x6_2748774cdf8eeb99, 233) && CubeRoot(0x6_34b0bcb5e19b48a8, 239) &&
      CubeRoot(0x6_391c0cb3c5c95a63, 241) && CubeRoot(0x6_4ed8aa4ae3418acb, 251) && CubeRoot(0x6_5b9cca4f7763e373, 257) &&
      CubeRoot(0x6_682e6ff3d6b2b8a3, 263) && CubeRoot(0x6_748f82ee5defb2fc, 269) && CubeRoot(0x6_78a5636f43172f60, 271) &&
      CubeRoot(0x6_84c87814a1f0ab72, 277) && CubeRoot(0x6_8cc702081a6439ec, 281)
  {
  }

  lemma ConstantsFrom40()
    ensures IsConstant(40) && IsConstant(41) && IsConstant(42) && IsConstant(43) && IsConstant(44) && IsConstant(45) &&
      IsConstant(46) && IsConstant(47) && IsConstant(48) && IsConstant(49) && IsConstant(50) && IsConstant(51) &&
      IsConstant(52) && IsConstant(53) && IsConstant(54) && IsConstant(55) && IsConstant(56) && IsConstant(57) &&
      IsConstant(58) && IsConstant(59)
  {
    hide CubeRoot;
    RootsFrom40();
  }

  lemma RootsFrom60()
    ensures CubeRoot(0x6_90befffa23631e28, 283) && CubeRoot(0x6_a4506cebde82bde9, 293) && CubeRoot(0x6_bef9a3f7b2c67915, 307) &&
      CubeRoot(0x6_c67178f2e372532b, 311) && CubeRoot(0x6_ca273eceea26619c, 313) && CubeRoot(0x6_d186b8c721c0c207, 317) &&
      CubeRoot(0x6_eada7dd6cde0eb1e, 331) && CubeRoot(0x6_f57d4f7fee6ed178, 337) && CubeRoot(0x7_06f067aa72176fba, 347) &&
      CubeRoot(0x7_0a637dc5a2c898a6, 349) && CubeRoot(0x7_113f9804bef90dae, 353) && CubeRoot(0x7_1b710b35131c471b, 359) &&
      CubeRoot(0x7_28db77f523047d84, 367) && CubeRoot(0x7_32caab7b40c72493, 373) && CubeRoot(0x7_3c9ebe0a15c9bebc, 379) &&
      CubeRoot(0x7_431d67c49c100d4c, 383) && CubeRoot(0x7_4cc5d4becb3e42b6, 389) && CubeRoot(0x7_597f299cfc657e2a, 397) &&
      CubeRoot(0x7_5fcb6fab3ad6faec, 401) && CubeRoot(0x7_6c44198c4a475817, 409)
  {
  }

  lemma ConstantsFrom60()
    ensures IsConstant(60) && IsConstant(61) && IsConstant(62) && IsConstant(63) && IsConstant(64) && IsConstant(65) &&
      IsConstant(66) && IsConstant(67) && IsConstant(68) && IsConstant(69) && IsConstant(70) && IsConstant(71) &&
      IsConstant(72) && IsConstant(73) && IsConstant(74) && IsConstant(75) && IsConstant(76) && IsConstant(77) &&
      IsConstant(78) && IsConstant(79)
  {
    hide CubeRoot;
    RootsFrom60();
  }

  lemma AllConstants(t: nat)
    requires t < ROUNDS
    ensures IsConstant(t)
  {
    hide IsConstant, CubeFraction, K, WholePart, Prime;
    ConstantsFrom0();
    ConstantsFrom20();
    ConstantsFrom40();
    ConstantsFrom60();
  }

  /** Constant t is the first 64 bits of the fractional part of the cube root of prime t. */
  lemma ConstantsAreCubeRoots(t: nat)
    requires t < ROUNDS
    ensures exists c: nat :: CubeFraction(K(t), c, Prime(t))
  {
    AllConstants(t);
    hide CubeFraction, K, Prime;
  }

  lemma InitialRoots()
    ensures SquareRoot(0x1_6a09e667f3bcc908, 2) && SquareRoot(0x1_bb67ae8584caa73b, 3) && SquareRoot(0x2_3c6ef372fe94f82b, 5) &&
      SquareRoot(0x2_a54ff53a5f1d36f1, 7) && SquareRoot(0x3_510e527fade682d1, 11) && SquareRoot(0x3_9b05688c2b3e6c1f, 13) &&
      SquareRoot(0x4_1f83d9abfb41bd6b, 17) && SquareRoot(0x4_5be0cd19137e2179, 19)
  {
  }

  /** The initial chaining value: the same for the square roots of the first eight primes. */
  lemma InitialValueIsSquareRoots()
    ensures var h := InitialValue();
      && SquareFraction(h.a, 1, Prime(0)) && SquareFraction(h.b, 1, Prime(1))
      && SquareFraction(h.c, 2, Prime(2)) && SquareFraction(h.d, 2, Prime(3))
      && SquareFraction(h.e, 3, Prime(4)) && SquareFraction(h.f, 3, Prime(5))
      && SquareFraction(h.g, 4, Prime(6)) && SquareFraction(h.h, 4, Prime(7))
  {
    hide SquareRoot;
    InitialRoots();
  }

  // ----- the message "abc" -----

  const Abc: seq<nat> := [0x61, 0x62, 0x63]

  /** The digest that the standard publishes for it. */
  function DigestOfAbc(): Words {
    Words(0xddaf35a193617aba, 0xcc417349ae204131, 0x12e6fa4e89a97ea2, 0x0a9eeee64b55d39a,
      0x2192992a274fc1a8, 0x36ba3c23a3feebbd, 0x454d4423643ce80e, 0x2a9ac94fa54ca49f)
  }

  /** Its schedule words. */
  function Scheduled(t: nat): bv64 {
    if t < 1 then 0x6162638000000000 else if t < 15 then 0x0000000000000000 else if t < 16 then 0x0000000000000018 else
    if t < 17 then 0x6162638000000000 else if t < 18 then 0x00030000000000c0 else if t < 19 then 0x0a9699a24c700003 else
    if t < 20 then 0x00000c0060000603 else if t < 21 then 0x549ef62639858996 else if t < 22 then 0x00c0003300003c00 else
    if t < 23 then 0x1497007a8a0e9dbc else if t < 24 then 0x62e56500cc0780f0 else if t < 25 then 0x7760dd475a538797 else
    if t < 26 then 0xf1554b711c1c0003 else if t < 27 then 0xca2993a4345d9ff2 else if t < 28 then 0x5e0e66b5c783dd32 else
    if t < 29 then 0xe25a625d00494b62 else if t < 30 then 0x9f44486fb1e4fbd2 else if t < 31 then 0xb31b8c2b06085f2f else
    if t < 32 then 0x0e987660934142f6 else if t < 33 then 0xa4af2cfd09fbb924 else if t < 34 then 0xad289e2e0bd53186 else
    if t < 35 then 0x3c74563aa2f9673e else if t < 36 then 0x6ccdcd14cc14b53f else if t < 37 then 0xc3f925b337f22bde else
    if t < 38 then 0x5bcc77a75ad95b54 else if t < 39 then 0x3ec2257adca09a52 else if t < 40 then 0x28246960001fc5eb else
    if t < 41 then 0x04e33a75ce2be88a else if t < 42 then 0x7d5314b3c359e0e7 else if t < 43 then 0xaef7a285ff251266 else
    if t < 44 then 0x0b8472581deea04f else if t < 45 then 0xb174e26eddc7b033 else if t < 46 then 0x5d63bae58ddd88de else
    if t < 47 then 0x4c044007b744ccbb else if t < 48 then 0xe6a9aa4d74dc7d43 else if t < 49 then 0xebeaf1237248019c else
    if t < 50 then 0x361e80b2d00f3193 else if t < 51 then 0x2e9839125df3b175 else if t < 52 then 0x3319629293ad5363 else
    if t < 53 then 0x9cbc5d89ac1b89d5 else if t < 54 then 0x275e23ffeeca50b7 else if t < 55 then 0x3b80d680bf69ef58 else
    if t < 56 then 0x0d0696933945a125 else if t < 57 then 0x7533eabcb786ff00 else if t < 58 then 0xb89826cee6fbf0e5 else
    if t < 59 then 0x249b4fbcad623e9f else if t < 60 then 0x4aea9df2b02d6f1e else if t < 61 then 0x2cc57475a55e8d8f else
    if t < 62 then 0xb2574ae938d8be89 else if t < 63 then 0xc1b35a57b16d6aea else if t < 64 then 0xcc4918b5949206bb else
    if t < 65 then 0x5099c3add79f90ec else if t < 66 then 0x5ea81d78e7660bf1 else if t < 67 then 0xebee6267405ac2a9 else
    if t < 68 then 0xb01f21926108a4ab else if t < 69 then 0x786433dd2fe65556 else if t < 70 then 0xc54a6eaa24a0552c else
    if t < 71 then 0xb3c8f1530bdbaa9e else if t < 72 then 0xbb8abfe56f469338 else if t < 73 then 0xf63d4265cc1c5a78 else
    if t < 74 then 0xbe8355ea73129afb else if t < 75 then 0x49e2db8ebdcfbeb5 else if t < 76 then 0x82269d4a883a3d99 else
    if t < 77 then 0xfdf53df3011f362b else if t < 78 then 0x464af5671d71c12e else if t < 79 then 0xe449b68198ec611c else
    0x92aeeed1a7bcf7d2
  }

  /** The successive values of a: A(t + 3) after t rounds, and A(t) is then d. */
  function A(t: nat): bv64 {
    if t < 1 then 0xa54ff53a5f1d36f1 else if t < 2 then 0x3c6ef372fe94f82b else if t < 3 then 0xbb67ae8584caa73b else
    if t < 4 then 0x6a09e667f3bcc908 else if t < 5 then 0xf6afceb8bcfcddf5 else if t < 6 then 0x1320f8c9fb872cc0 else
    if t < 7 then 0xebcffc07203d91f3 else if t < 8 then 0x5a83cb3e80050e82 else if t < 9 then 0xb680953951604860 else
    if t < 10 then 0xaf573b02403e89cd else if t < 11 then 0xc4875b0c7abc076b else if t < 12 then 0x8093d195e0054fa3 else
    if t < 13 then 0xf1eca5544cb89225 else if t < 14 then 0x81782d4a5db48f03 else if t < 15 then 0x69854c4aa0f25b59 else
    if t < 16 then 0xdb0a9963f80c2eaa else if t < 17 then 0x5e41214388186c14 else if t < 18 then 0x44249631255d2ca0 else
    if t < 19 then 0xfa967eed85a08028 else if t < 20 then 0x0ae07c86b1181c75 else if t < 21 then 0xcaf81a425d800537 else
    if t < 22 then 0x4725be249ad19e6b else if t < 23 then 0x3c4b4104168e3edb else if t < 24 then 0x9a3fb4d38ab6cf06 else
    if t < 25 then 0x8dc5ae65569d3855 else if t < 26 then 0xda34d6673d452dcf else if t < 27 then 0x3e2644567b709a78 else
    if t < 28 then 0x4f6877b58fe55484 else if t < 29 then 0x9aff71163fa3a940 else if t < 30 then 0x0bc5f791f8e6816b else
    if t < 31 then 0x884c3bc27bc4f941 else if t < 32 then 0xeab4a9e5771b8d09 else if t < 33 then 0xe62349090f47d30a else
    if t < 34 then 0x74bf40f869094c63 else if t < 35 then 0x4c4fbbb75f1873a6 else if t < 36 then 0xff4d3f1f0d46a736 else
    if t < 37 then 0xa0509015ca08c8d4 else if t < 38 then 0x60d4e6995ed91fe6 else if t < 39 then 0x2c59ec7743632621 else
    if t < 40 then 0x1a081afc59fdbc2c else if t < 41 then 0x88df85b0bbe77514 else if t < 42 then 0x002bb8e4cd989567 else
    if t < 43 then 0xb3bb8542b3376de5 else if t < 44 then 0x8e01e125b855d225 else if t < 45 then 0xb01521dd6a6be12c else
    if t < 46 then 0xe96f89dd48cbd851 else if t < 47 then 0xbc05ba8de5d3c480 else if t < 48 then 0x35d7e7f41defcbd5 else
    if t < 49 then 0xc47c9d5c7ea8a234 else if t < 50 then 0x021fbadbabab5ac6 else if t < 51 then 0xf61e672694de2d67 else
    if t < 52 then 0x6b69fc1bb482feac else if t < 53 then 0x571f323d96b3a047 else if t < 54 then 0xca9bd862c5050918 else
    if t < 55 then 0x813a43dd2c502043 else if t < 56 then 0xd43f83727325dd77 else if t < 57 then 0x03df11b32d42e203 else
    if t < 58 then 0xd63f68037ddf06aa else if t < 59 then 0xf650857b5babda4d else if t < 60 then 0x63b460e42748817e else
    if t < 61 then 0x7a52912943d52b05 else if t < 62 then 0x4b81c3aec976ea4b else if t < 63 then 0x581ecb3355dcd9b8 else
    if t < 64 then 0x2c074484ef1eac8c else if t < 65 then 0x3857dfd2fc37d3ba else if t < 66 then 0xcfcd928c5424e2b6 else
    if t < 67 then 0xa81dedbb9f19e643 else if t < 68 then 0xab44e86276478d85 else if t < 69 then 0x5a806d7e9821a501 else
    if t < 70 then 0xeeb9c21bb0102598 else if t < 71 then 0x46c4210ab2cc155d else if t < 72 then 0x54ba35cf56a0340e else
    if t < 73 then 0x181839d609c79748 else if t < 74 then 0xfb6aaae5d0b6a447 else if t < 75 then 0x7652c579cb60f19c else
    if t < 76 then 0xf15e9664b2803575 else if t < 77 then 0x358406d165aee9ab else if t < 78 then 0x20878dcd29cdfaf5 else
    if t < 79 then 0x33d48dabb5521de2 else if t < 80 then 0xc8960e6be864b916 else if t < 81 then 0x654ef9abec389ca9 else
    if t < 82 then 0xd67806db8b148677 else if t < 83 then 0x10d9c4c4295599f6 else 0x73a54f399fa4b1b2
  }

  function E(t: nat): bv64 {
    if t < 1 then 0x5be0cd19137e2179 else if t < 2 then 0x1f83d9abfb41bd6b else if t < 3 then 0x9b05688c2b3e6c1f else
    if t < 4 then 0x510e527fade682d1 else if t < 5 then 0x58cb02347ab51f91 else if t < 6 then 0xc3d4ebfd48650ffa else
    if t < 7 then 0xdfa9b239f2697812 else if t < 8 then 0x0b47b4bb1928990e else if t < 9 then 0x745aca4a342ed2e2 else
    if t < 10 then 0x96f60209b6dc35ba else if t < 11 then 0x5a6c781f54dcc00c else if t < 12 then 0x86f67263a0f0ec0a else
    if t < 13 then 0xd0403c398fc40002 else if t < 14 then 0x00091f460be46c52 else if t < 15 then 0xd375471bde1ba3f4 else
    if t < 16 then 0x475975b91a7a462c else if t < 17 then 0xcdf3bff2883fc9d9 else if t < 18 then 0x860acf9effba6f61 else
    if t < 19 then 0x874bfe5f6aae9f2f else if t < 20 then 0xa77b7c035dd4c161 else if t < 21 then 0x2deecc6b39d64d78 else
    if t < 22 then 0xf47e8353f8047455 else if t < 23 then 0x29695fd88d81dbd0 else if t < 24 then 0xf14998dd5f70767e else
    if t < 25 then 0x4bb9e66d1145bfdc else if t < 26 then 0x8e30ff09ad488753 else if t < 27 then 0x0ac2b11da8f571c6 else
    if t < 28 then 0xc66005f87db55233 else if t < 29 then 0xd3ecf13769180e6f else if t < 30 then 0x6ddf1fd7edcce336 else
    if t < 31 then 0xe6e48c9a8e948365 else if t < 32 then 0x09068a4e255a0dac else if t < 33 then 0x0fcdf99710f21584 else
    if t < 34 then 0xf0aec2fe1437f085 else if t < 35 then 0x73e025d91b9efea3 else if t < 36 then 0x3cd388e119e8162e else
    if t < 37 then 0xe1034573654a106f else if t < 38 then 0xefabbd8bf47c041a else if t < 39 then 0x0fbae670fa780fd3 else
    if t < 40 then 0xf098082f502b44cd else if t < 41 then 0x8fbfd0162bbf4675 else if t < 42 then 0x66adcfa249ac7bbd else
    if t < 43 then 0xb49596c20feba7de else if t < 44 then 0x0c710a47ba6a567b else if t < 45 then 0x169008b3a4bb170b else
    if t < 46 then 0xf0996439e7b50cb1 else if t < 47 then 0x639cb938e14dc190 else if t < 48 then 0xcc5100997f5710f2 else
    if t < 49 then 0x858d832ae0e8911c else if t < 50 then 0xe95c2a57572d64d9 else if t < 51 then 0xc6bc35740d8daa9a else
    if t < 52 then 0x35264334c03ac8ad else if t < 53 then 0x271580ed6c3e5650 else if t < 54 then 0xdfe091dab182e645 else
    if t < 55 then 0x07a0d8ef821c5e1a else if t < 56 then 0x483f80a82eaee23e else if t < 57 then 0x504f94e40591cffa else
    if t < 58 then 0xa6781efe1aa1ce02 else if t < 59 then 0x9ccfb31a86df0f86 else if t < 60 then 0xc6b4dd2a9931c509 else
    if t < 61 then 0xd2e89bbd91e00be0 else if t < 62 then 0x70505988124351ac else if t < 63 then 0x6a3c9b0f71c8bf36 else
    if t < 64 then 0x4797cde4ed370692 else if t < 65 then 0xa6af4e9c9f807e51 else if t < 66 then 0x09aee5bda1644de5 else
    if t < 67 then 0x84058865d60a05fa else if t < 68 then 0xcd881ee59ca6bc53 else if t < 69 then 0xaa84b086688a5c45 else
    if t < 70 then 0x3b5fed0d6a1f96e1 else if t < 71 then 0x29fab5a7bff53366 else if t < 72 then 0x1c66f46d95690bcf else
    if t < 73 then 0x0ada78ba2d446140 else if t < 74 then 0xe3711cb6564d112d else if t < 75 then 0xaff62c9665ff80fa else
    if t < 76 then 0x947c3dfafee570ef else if t < 77 then 0x8c7b5fd91a794ca0 else if t < 78 then 0x054d3536539948d0 else
    if t < 79 then 0x2ba18245b50de4cf else if t < 80 then 0x995019a6ff3ba3de else if t < 81 then 0xceb9fc3691ce8326 else
    if t < 82 then 0x25c96a7768fb2aa3 else if t < 83 then 0x9bb4d39778c07f9e else 0xd08446aa79693ed7
  }

  /** The working variables after t rounds. */
  function Working(t: nat): Words {
    Words(A(t + 3), A(t + 2), A(t + 1), A(t), E(t + 3), E(t + 2), E(t + 1), E(t))
  }

  /** What the schedule makes of the words before word t. */
  function NextWord(t: nat): bv64
    requires 16 <= t
  {
    NextScheduled(Scheduled(t - 2), Scheduled(t - 7), Scheduled(t - 15), Scheduled(t - 16))
  }

  /** What round t makes of the working variables before it. */
  function AfterRound(t: nat): Words
    requires t < ROUNDS
  {
    Round(Working(t), K(t), Scheduled(t))
  }

  /** The positions at which the tables of words and of working variables follow the standard. */
  ghost function RightWords(): iset<nat> {
    iset t: nat | 16 <= t && NextWord(t) == Scheduled(t)
  }

  ghost function RightRounds(): iset<nat> {
    iset t: nat | t < ROUNDS && AfterRound(t) == Working(t + 1)
  }

  lemma WordsFrom16()
    ensures 16 in RightWords() && 17 in RightWords() && 18 in RightWords() && 19 in RightWords() &&
      20 in RightWords() && 21 in RightWords() && 22 in RightWords() && 23 in RightWords()
  {
  }

  lemma WordsFrom24()
    ensures 24 in RightWords() && 25 in RightWords() && 26 in RightWords() && 27 in RightWords() &&
      28 in RightWords() && 29 in RightWords() && 30 in RightWords() && 31 in RightWords()
  {
  }

  lemma WordsFrom32()
    ensures 32 in RightWords() && 33 in RightWords() && 34 in RightWords() && 35 in RightWords() &&
      36 in RightWords() && 37 in RightWords() && 38 in RightWords() && 39 in RightWords()
  {
  }

  lemma WordsFrom40()
    ensures 40 in RightWords() && 41 in RightWords() && 42 in RightWords() && 43 in RightWords() &&
      44 in RightWords() && 45 in RightWords() && 46 in RightWords() && 47 in RightWords()
  {
  }

  lemma WordsFrom48()
    ensures 48 in RightWords() && 49 in RightWords() && 50 in RightWords() && 51 in RightWords() &&
      52 in RightWords() && 53 in RightWords() && 54 in RightWords() && 55 in RightWords()
  {
  }

  lemma WordsFrom56()
    ensures 56 in RightWords() && 57 in RightWords() && 58 in RightWords() && 59 in RightWords() &&
      60 in RightWords() && 61 in RightWords() && 62 in RightWords() && 63 in RightWords()
  {
  }

  lemma WordsFrom64()
    ensures 64 in RightWords() && 65 in RightWords() && 66 in RightWords() && 67 in RightWords() &&
      68 in RightWords() && 69 in RightWords() && 70 in RightWords() && 71 in RightWords()
  {
  }

  lemma WordsFrom72()
    ensures 72 in RightWords() && 73 in RightWords() && 74 in RightWords() && 75 in RightWords() &&
      76 in RightWords() && 77 in RightWords() && 78 in RightWords() && 79 in RightWords()
  {
  }

  lemma RoundsFrom0()
    ensures 0 in RightRounds() && 1 in RightRounds() && 2 in RightRounds() && 3 in RightRounds() &&
      4 in RightRounds() && 5 in RightRounds() && 6 in RightRounds() && 7 in RightRounds()
  {
  }

  lemma RoundsFrom8()
    ensures 8 in RightRounds() && 9 in RightRounds() && 10 in RightRounds() && 11 in RightRounds() &&
      12 in RightRounds() && 13 in RightRounds() && 14 in RightRounds() && 15 in RightRounds()
  {
  }

  lemma RoundsFrom16()
    ensures 16 in RightRounds() && 17 in RightRounds() && 18 in RightRounds() && 19 in RightRounds() &&
      20 in RightRounds() && 21 in RightRounds() && 22 in RightRounds() && 23 in RightRounds()
  {
  }

  lemma RoundsFrom24()
    ensures 24 in RightRounds() && 25 in RightRounds() && 26 in RightRounds() && 27 in RightRounds() &&
      28 in RightRounds() && 29 in RightRounds() && 30 in RightRounds() && 31 in RightRounds()
  {
  }

  lemma RoundsFrom32()
    ensures 32 in RightRounds() && 33 in RightRounds() && 34 in RightRounds() && 35 in RightRounds() &&
      36 in RightRounds() && 37 in RightRounds() && 38 in RightRounds() && 39 in RightRounds()
  {
  }

  lemma RoundsFrom40()
    ensures 40 in RightRounds() && 41 in RightRounds() && 42 in RightRounds() && 43 in RightRounds() &&
      44 in RightRounds() && 45 in RightRounds() && 46 in RightRounds() && 47 in RightRounds()
  {
  }

  lemma RoundsFrom48()
    ensures 48 in RightRounds() && 49 in RightRounds() && 50 in RightRounds() && 51 in RightRounds() &&
      52 in RightRounds() && 53 in RightRounds() && 54 in RightRounds() && 55 in RightRounds()
  {
  }

  lemma RoundsFrom56()
    ensures 56 in RightRounds() && 57 in RightRounds() && 58 in RightRounds() && 59 in RightRounds() &&
      60 in RightRounds() && 61 in RightRounds() && 62 in RightRounds() && 63 in RightRounds()
  {
  }

  lemma RoundsFrom64()
    ensures 64 in RightRounds() && 65 in RightRounds() && 66 in RightRounds() && 67 in RightRounds() &&
      68 in RightRounds() && 69 in RightRounds() && 70 in RightRounds() && 71 in RightRounds()
  {
  }

  lemma RoundsFrom72()
    ensures 72 in RightRounds() && 73 in RightRounds() && 74 in RightRounds() && 75 in RightRounds() &&
      76 in RightRounds() && 77 in RightRounds() && 78 in RightRounds() && 79 in RightRounds()
  {
  }

  lemma AllWords(t: nat)
    requires 16 <= t < ROUNDS
    ensures t in RightWords()
  {
    hide RightWords;
    WordsFrom16();
    WordsFrom24();
    WordsFrom32();
    WordsFrom40();
    WordsFrom48();
    WordsFrom56();
    WordsFrom64();
    WordsFrom72();
  }

  lemma AllRounds(t: nat)
    requires t < ROUNDS
    ensures t in RightRounds()
  {
    hide RightRounds;
    RoundsFrom0();
    RoundsFrom8();
    RoundsFrom16();
    RoundsFrom24();
    RoundsFrom32();
    RoundsFrom40();
    RoundsFrom48();
    RoundsFrom56();
    RoundsFrom64();
    RoundsFrom72();
  }

  ghost predicate IsAbc(block: Block) {
    forall t :: 0 <= t < RING ==> block[t] == Scheduled(t)
  }

  lemma {:induction false} ScheduleOfAbc(block: Block, t: nat)
    requires IsAbc(block) && t < ROUNDS
    ensures W(block, t) == Scheduled(t)
    decreases t
  {
    hide NextScheduled, Scheduled;
    if t >= RING {
      ScheduleStep(block, t);
      ScheduleOfAbc(block, t - 2);
      ScheduleOfAbc(block, t - 7);
      ScheduleOfAbc(block, t - 15);
      ScheduleOfAbc(block, t - 16);
      AllWords(t);
    }
  }

  /** The working variables of "abc" after each round. */
  lemma {:induction false} RoundsOfAbc(block: Block, t: nat)
    requires IsAbc(block) && t <= ROUNDS
    ensures Rounds(InitialValue(), block, t) == Working(t)
    decreases t
  {
    if t == 0 {
      StartsWithInitial();
    } else {
      hide Round, K, W, Scheduled, Working, IsAbc;
      RoundsOfAbc(block, t - 1);
      RoundsStep(InitialValue(), block, t - 1);
      ScheduleOfAbc(block, t - 1);
      AllRounds(t - 1);
    }
  }

  lemma StartsWithInitial()
    ensures Working(0) == InitialValue()
  {
  }

  // ----- its padding -----

  function ToWord(n: nat): bv64
    requires n < 0x1_0000_0000_0000_0000
  {
    n as bv64
  }

  lemma EightByteWord(s: seq<nat>)
    requires |s| == 8 && Below(s, 256)
    ensures var n := s[7] + 0x100 * (s[6] + 0x100 * (s[5] + 0x100 * (s[4] + 0x100 * (s[3] + 0x100 * (s[2] + 0x100 * (s[1] + 0x100 * s[0]))))));
      n < 0x1_0000_0000_0000_0000 && WordAt(s) == ToWord(n)
  {
    var r := Reversed(s);
    assert r == [s[7], s[6], s[5], s[4], s[3], s[2], s[1], s[0]];
    Unrolled(r);
  }

  lemma Unrolled(r: seq<nat>)
    requires |r| == 8
    ensures Value(256, r) == r[0] + 256 * (r[1] + 256 * (r[2] + 256 * (r[3] + 256 * (r[4] + 256 * (r[5] + 256 * (r[6] + 256 * r[7]))))))
  {
    forall i | 0 <= i < 8 ensures Value(256, r[i..]) == r[i] + 256 * Value(256, r[i + 1..]) {
      assert r[i..][1..] == r[i + 1..];
    }
    hide Value;
    assert r[0..] == r && Value(256, r[8..]) == 0 by {
      assert r[8..] == [];
      EmptyValue();
    }
  }

  lemma EmptyValue()
    ensures Value(256, []) == 0
  {
  }

  lemma {:induction false} BigEndianZero(n: nat)
    ensures BigEndian(0, n) == Zeros(n)
  {
    if n > 0 {
      BigEndianZero(n - 1);
    }
  }

  lemma PadOfAbc()
    ensures Pad(Abc) == Abc + [0x80] + Zeros(123) + [24]
  {
    BigEndianZero(15);
    assert BigEndian(24, 16) == BigEndian(0, 15) + [24];
    hide BigEndian;
    assert Zeros(108) + (Zeros(15) + [24]) == Zeros(123) + [24];
  }

  lemma BlockOfAbc()
    ensures |Pad(Abc)| == BLOCK_BYTES && IsAbc(BlockOf(Pad(Abc)))
  {
    PadOfAbc();
    hide Pad;
    var bytes := Pad(Abc);
    forall t | 0 <= t < RING ensures BlockOf(bytes)[t] == Scheduled(t) {
      WordOfAbc(bytes, t);
    }
  }

  lemma ByteOfAbc(bytes: seq<nat>, k: nat)
    requires bytes == Abc + [0x80] + Zeros(123) + [24] && k < 128
    ensures bytes[k] == if k == 0 then 0x61 else if k == 1 then 0x62 else if k == 2 then 0x63 else if k == 3 then 0x80
      else if k < 127 then 0 else 24
  {
  }

  lemma WordOfAbc(bytes: seq<nat>, t: nat)
    requires bytes == Abc + [0x80] + Zeros(123) + [24] && t < RING
    ensures WordAt(bytes[8 * t..8 * t + 8]) == Scheduled(t)
  {
    hide WordAt, Scheduled, ToWord;
    var s := bytes[8 * t..8 * t + 8];
    ByteOfAbc(bytes, 8 * t);
    ByteOfAbc(bytes, 8 * t + 1);
    ByteOfAbc(bytes, 8 * t + 2);
    ByteOfAbc(bytes, 8 * t + 3);
    ByteOfAbc(bytes, 8 * t + 4);
    ByteOfAbc(bytes, 8 * t + 5);
    ByteOfAbc(bytes, 8 * t + 6);
    ByteOfAbc(bytes, 8 * t + 7);
    EightByteWord(s);
    FirstWords(t);
  }

  lemma FirstWords(t: nat)
    requires t < RING
    ensures Scheduled(t) == if t == 0 then ToWord(0x6162638000000000) else if t < 15 then ToWord(0) else ToWord(24)
  {
    WordsOfAbc();
    hide ToWord;
  }

  lemma WordsOfAbc()
    ensures ToWord(0x6162638000000000) == 0x6162638000000000 && ToWord(0) == 0 && ToWord(24) == 24
  {
  }

  /** The digest of "abc" is the published one. */
  lemma HashOfAbc()
    ensures Hash(Abc) == DigestOfAbc()
  {
    BlockOfAbc();
    var block := BlockOf(Pad(Abc));
    RoundsOfAbc(block, ROUNDS);
    hide Pad, BlockOf, Rounds;
  }
}
