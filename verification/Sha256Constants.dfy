/** What FIPS 180-4 says of its constants, bits of the roots of the first primes, and what its functions
    do bit by bit. */
module Sha256Constants {
  import opened Sha256Standard

  // ---------------------------------------------------------------- the first 64 primes

  predicate Product(n: nat, a: nat, b: nat) {
    a * b == n
  }

  ghost predicate Prime(n: nat) {
    n > 1 && forall a: nat, b: nat | Product(n, a, b) :: a == 1 || b == 1
  }

  /** The next prime after p is q. */
  ghost predicate NextPrime(p: nat, q: nat) {
    p < q && Prime(q) && forall n | p < n < q :: !Prime(n)
  }

  lemma Composite(n: nat, a: nat, b: nat)
    requires a > 1 && b > 1 && a * b == n
    ensures !Prime(n)
  {
    assert Product(n, a, b);
  }

  lemma ProductGrows(a: nat, b: nat, least: nat)
    requires least <= a && least <= b
    ensures least * least <= a * b
  {
    assert least * least <= least * b <= a * b;
  }

  /** No number of several is a multiple of p: an odd one by one, as remainders. */
  predicate Leaves(n: nat, p: nat)
    requires p > 0
  {
    n % p != 0
  }

  lemma NoMultipleOf2(n: nat, c: nat)
    requires Leaves(n, 2)
    ensures n != 2 * c
  {
  }

  lemma NoMultipleOf3(n: nat, c: nat)
    requires Leaves(n, 3)
    ensures n != 3 * c
  {
  }

  lemma NoMultipleOf5(n: nat, c: nat)
    requires Leaves(n, 5)
    ensures n != 5 * c
  {
  }

  lemma NoMultipleOf7(n: nat, c: nat)
    requires Leaves(n, 7)
    ensures n != 7 * c
  {
  }

  lemma NoMultipleOf11(n: nat, c: nat)
    requires Leaves(n, 11)
    ensures n != 11 * c
  {
  }

  lemma NoMultipleOf13(n: nat, c: nat)
    requires Leaves(n, 13)
    ensures n != 13 * c
  {
  }

  lemma NoMultipleOf17(n: nat, c: nat)
    requires Leaves(n, 17)
    ensures n != 17 * c
  {
  }

  /** No prime up to 17 divides the number. */
  predicate Unsieved(n: nat) {
    Leaves(n, 2) && Leaves(n, 3) && Leaves(n, 5) && Leaves(n, 7) && Leaves(n, 11) && Leaves(n, 13) && Leaves(n, 17)
  }

  lemma NoSmallFactor(n: nat, a: nat, b: nat)
    requires Unsieved(n) && 1 < a < 19
    ensures a * b != n
  {
    hide Leaves;
    if a == 2 { NoMultipleOf2(n, b); }
    else if a == 3 { NoMultipleOf3(n, b); }
    else if a == 4 { NoMultipleOf2(n, 2 * b); }
    else if a == 5 { NoMultipleOf5(n, b); }
    else if a == 6 { NoMultipleOf2(n, 3 * b); }
    else if a == 7 { NoMultipleOf7(n, b); }
    else if a == 8 { NoMultipleOf2(n, 4 * b); }
    else if a == 9 { NoMultipleOf3(n, 3 * b); }
    else if a == 10 { NoMultipleOf2(n, 5 * b); }
    else if a == 11 { NoMultipleOf11(n, b); }
    else if a == 12 { NoMultipleOf2(n, 6 * b); }
    else if a == 13 { NoMultipleOf13(n, b); }
    else if a == 14 { NoMultipleOf2(n, 7 * b); }
    else if a == 15 { NoMultipleOf3(n, 5 * b); }
    else if a == 16 { NoMultipleOf2(n, 8 * b); }
    else if a == 17 { NoMultipleOf17(n, b); }
    else if a == 18 { NoMultipleOf2(n, 9 * b); }
  }

  /** Below 19 * 19 what is not divided by a prime up to 17 is prime. */
  lemma UnsievedIsPrime(n: nat)
    requires 1 < n < 361 && Unsieved(n)
    ensures Prime(n)
  {
    hide Unsieved;
    forall a: nat, b: nat | Product(n, a, b) ensures a == 1 || b == 1 {
      if a > 1 && b > 1 {
        if a < 19 {
          NoSmallFactor(n, a, b);
        } else if b < 19 {
          NoSmallFactor(n, b, a);
        } else {
          ProductGrows(a, b, 19);
        }
      }
    }
  }

  /** A gap between odd primes: the odd numbers in it are no primes. */
  lemma Gap(p: nat, q: nat)
    requires 2 < p < q < 361 && Unsieved(q) && forall n | p < n < q && n % 2 == 1 :: !Prime(n)
    ensures NextPrime(p, q)
  {
    hide Unsieved, Prime;
    UnsievedIsPrime(q);
    forall n | p < n < q ensures !Prime(n) {
      if n % 2 == 0 { Composite(n, 2, n / 2); }
    }
  }

  lemma UpTo(p: nat)
    requires p in {2, 3, 5, 7, 11, 13, 17}
    ensures Prime(p)
  {
    forall a: nat, b: nat | Product(p, a, b) ensures a == 1 || b == 1 {
      if a > 1 && b > 1 { ProductGrows(a, b, if a >= 5 && b >= 5 then 5 else 0); }
    }
  }

  lemma FirstPrimes()
    ensures Prime(2) && NextPrime(2, 3) && NextPrime(3, 5) && NextPrime(5, 7) && NextPrime(7, 11) && NextPrime(11, 13)
    ensures NextPrime(13, 17)
  {
    hide Prime;
    Composite(4, 2, 2); Composite(6, 2, 3); Composite(8, 2, 4); Composite(9, 3, 3); Composite(10, 2, 5);
    Composite(12, 2, 6); Composite(14, 2, 7); Composite(15, 3, 5); Composite(16, 2, 8); UpTo(2); UpTo(3); UpTo(5);
    UpTo(7); UpTo(11); UpTo(13); UpTo(17);
  }

  lemma PrimesTo47()
    ensures NextPrime(17, 19) && NextPrime(19, 23) && NextPrime(23, 29) && NextPrime(29, 31) && NextPrime(31, 37)
    ensures NextPrime(37, 41) && NextPrime(41, 43) && NextPrime(43, 47)
  {
    hide Prime, NextPrime;
    Gap(17, 19); Composite(21, 3, 7); Gap(19, 23); Composite(25, 5, 5); Composite(27, 3, 9); Gap(23, 29); Gap(29, 31);
    Composite(33, 3, 11); Composite(35, 5, 7); Gap(31, 37); Composite(39, 3, 13); Gap(37, 41); Gap(41, 43);
    Composite(45, 3, 15); Gap(43, 47);
  }

  lemma PrimesTo83()
    ensures NextPrime(47, 53) && NextPrime(53, 59) && NextPrime(59, 61) && NextPrime(61, 67) && NextPrime(67, 71)
    ensures NextPrime(71, 73) && NextPrime(73, 79) && NextPrime(79, 83)
  {
    hide Prime, NextPrime;
    Composite(49, 7, 7); Composite(51, 3, 17); Gap(47, 53); Composite(55, 5, 11); Composite(57, 3, 19); Gap(53, 59);
    Gap(59, 61); Composite(63, 3, 21); Composite(65, 5, 13); Gap(61, 67); Composite(69, 3, 23); Gap(67, 71);
    Gap(71, 73); Composite(75, 3, 25); Composite(77, 7, 11); Gap(73, 79); Composite(81, 3, 27); Gap(79, 83);
  }

  lemma PrimesTo127()
    ensures NextPrime(83, 89) && NextPrime(89, 97) && NextPrime(97, 101) && NextPrime(101, 103) && NextPrime(103, 107)
    ensures NextPrime(107, 109) && NextPrime(109, 113) && NextPrime(113, 127)
  {
    hide Prime, NextPrime;
    Composite(85, 5, 17); Composite(87, 3, 29); Gap(83, 89); Composite(91, 7, 13); Composite(93, 3, 31);
    Composite(95, 5, 19); Gap(89, 97); Composite(99, 3, 33); Gap(97, 101); Gap(101, 103); Composite(105, 3, 35);
    Gap(103, 107); Gap(107, 109); Composite(111, 3, 37); Gap(109, 113); Composite(115, 5, 23); Composite(117, 3, 39);
    Composite(119, 7, 17); Composite(121, 11, 11); Composite(123, 3, 41); Composite(125, 5, 25); Gap(113, 127);
  }

  lemma PrimesTo167()
    ensures NextPrime(127, 131) && NextPrime(131, 137) && NextPrime(137, 139)
    ensures NextPrime(139, 149) && NextPrime(149, 151)
    ensures NextPrime(151, 157) && NextPrime(157, 163) && NextPrime(163, 167)
  {
    hide Prime, NextPrime;
    Composite(129, 3, 43); Gap(127, 131); Composite(133, 7, 19); Composite(135, 3, 45); Gap(131, 137); Gap(137, 139);
    Composite(141, 3, 47); Composite(143, 11, 13); Composite(145, 5, 29); Composite(147, 3, 49); Gap(139, 149);
    Gap(149, 151); Composite(153, 3, 51); Composite(155, 5, 31); Gap(151, 157); Composite(159, 3, 53);
    Composite(161, 7, 23); Gap(157, 163); Composite(165, 3, 55); Gap(163, 167);
  }

  lemma PrimesTo211()
    ensures NextPrime(167, 173) && NextPrime(173, 179) && NextPrime(179, 181)
    ensures NextPrime(181, 191) && NextPrime(191, 193)
    ensures NextPrime(193, 197) && NextPrime(197, 199) && NextPrime(199, 211)
  {
    hide Prime, NextPrime;
    Composite(169, 13, 13); Composite(171, 3, 57); Gap(167, 173); Composite(175, 5, 35); Composite(177, 3, 59);
    Gap(173, 179); Gap(179, 181); Composite(183, 3, 61); Composite(185, 5, 37); Composite(187, 11, 17);
    Composite(189, 3, 63); Gap(181, 191); Gap(191, 193); Composite(195, 3, 65); Gap(193, 197); Gap(197, 199);
    Composite(201, 3, 67); Composite(203, 7, 29); Composite(205, 5, 41); Composite(207, 3, 69);
    Composite(209, 11, 19); Gap(199, 211);
  }

  lemma PrimesTo257()
    ensures NextPrime(211, 223) && NextPrime(223, 227) && NextPrime(227, 229)
    ensures NextPrime(229, 233) && NextPrime(233, 239)
    ensures NextPrime(239, 241) && NextPrime(241, 251) && NextPrime(251, 257)
  {
    hide Prime, NextPrime;
    Composite(213, 3, 71); Composite(215, 5, 43); Composite(217, 7, 31); Composite(219, 3, 73);
    Composite(221, 13, 17); Gap(211, 223); Composite(225, 3, 75); Gap(223, 227); Gap(227, 229); Composite(231, 3, 77);
    Gap(229, 233); Composite(235, 5, 47); Composite(237, 3, 79); Gap(233, 239); Gap(239, 241); Composite(243, 3, 81);
    Composite(245, 5, 49); Composite(247, 13, 19); Composite(249, 3, 83); Gap(241, 251); Composite(253, 11, 23);
    Composite(255, 3, 85); Gap(251, 257);
  }

  lemma PrimesTo307()
    ensures NextPrime(257, 263) && NextPrime(263, 269) && NextPrime(269, 271)
    ensures NextPrime(271, 277) && NextPrime(277, 281)
    ensures NextPrime(281, 283) && NextPrime(283, 293) && NextPrime(293, 307)
  {
    hide Prime, NextPrime;
    Composite(259, 7, 37); Composite(261, 3, 87); Gap(257, 263); Composite(265, 5, 53); Composite(267, 3, 89);
    Gap(263, 269); Gap(269, 271); Composite(273, 3, 91); Composite(275, 5, 55); Gap(271, 277); Composite(279, 3, 93);
    Gap(277, 281); Gap(281, 283); Composite(285, 3, 95); Composite(287, 7, 41); Composite(289, 17, 17);
    Composite(291, 3, 97); Gap(283, 293); Composite(295, 5, 59); Composite(297, 3, 99); Composite(299, 13, 23);
    Composite(301, 7, 43); Composite(303, 3, 101); Composite(305, 5, 61); Gap(293, 307);
  }

  lemma PrimesTo311()
    ensures NextPrime(307, 311)
  {
    hide Prime, NextPrime;
    Composite(309, 3, 103); Gap(307, 311);
  }

  // ---------------------------------------------------------------- the constants

  /** The first 64 primes, in order: the next lemma says so. */
  const PRIMES: seq<nat> :=
    [2, 3, 5, 7, 11, 13, 17, 19] +
    [23, 29, 31, 37, 41, 43, 47, 53] +
    [59, 61, 67, 71, 73, 79, 83, 89] +
    [97, 101, 103, 107, 109, 113, 127, 131] +
    [137, 139, 149, 151, 157, 163, 167, 173] +
    [179, 181, 191, 193, 197, 199, 211, 223] +
    [227, 229, 233, 239, 241, 251, 257, 263] +
    [269, 271, 277, 281, 283, 293, 307, 311]

  lemma PrimeRow0()
    ensures |PRIMES| == 64 && forall i | 0 <= i < 8 :: NextPrime(PRIMES[i], PRIMES[i + 1])
  {
    hide NextPrime;
    FirstPrimes();
    PrimesTo47();
    assert PRIMES[0] == 2 && PRIMES[1] == 3 && PRIMES[2] == 5 && PRIMES[3] == 7 && PRIMES[4] == 11;
    assert PRIMES[5] == 13 && PRIMES[6] == 17 && PRIMES[7] == 19 && PRIMES[8] == 23;
  }

  lemma PrimeRow1()
    ensures |PRIMES| == 64 && forall i | 8 <= i < 16 :: NextPrime(PRIMES[i], PRIMES[i + 1])
  {
    hide NextPrime;
    PrimesTo47();
    PrimesTo83();
    assert PRIMES[8] == 23 && PRIMES[9] == 29 && PRIMES[10] == 31 && PRIMES[11] == 37 && PRIMES[12] == 41;
    assert PRIMES[13] == 43 && PRIMES[14] == 47 && PRIMES[15] == 53 && PRIMES[16] == 59;
  }

  lemma PrimeRow2()
    ensures |PRIMES| == 64 && forall i | 16 <= i < 24 :: NextPrime(PRIMES[i], PRIMES[i + 1])
  {
    hide NextPrime;
    PrimesTo83();
    PrimesTo127();
    assert PRIMES[16] == 59 && PRIMES[17] == 61 && PRIMES[18] == 67 && PRIMES[19] == 71 && PRIMES[20] == 73;
    assert PRIMES[21] == 79 && PRIMES[22] == 83 && PRIMES[23] == 89 && PRIMES[24] == 97;
  }

  lemma PrimeRow3()
    ensures |PRIMES| == 64 && forall i | 24 <= i < 32 :: NextPrime(PRIMES[i], PRIMES[i + 1])
  {
    hide NextPrime;
    PrimesTo127();
    PrimesTo167();
    assert PRIMES[24] == 97 && PRIMES[25] == 101 && PRIMES[26] == 103 && PRIMES[27] == 107 && PRIMES[28] == 109;
    assert PRIMES[29] == 113 && PRIMES[30] == 127 && PRIMES[31] == 131 && PRIMES[32] == 137;
  }

  lemma PrimeRow4()
    ensures |PRIMES| == 64 && forall i | 32 <= i < 40 :: NextPrime(PRIMES[i], PRIMES[i + 1])
  {
    hide NextPrime;
    PrimesTo167();
    PrimesTo211();
    assert PRIMES[32] == 137 && PRIMES[33] == 139 && PRIMES[34] == 149 && PRIMES[35] == 151 && PRIMES[36] == 157;
    assert PRIMES[37] == 163 && PRIMES[38] == 167 && PRIMES[39] == 173 && PRIMES[40] == 179;
  }

  lemma PrimeRow5()
    ensures |PRIMES| == 64 && forall i | 40 <= i < 48 :: NextPrime(PRIMES[i], PRIMES[i + 1])
  {
    hide NextPrime;
    PrimesTo211();
    PrimesTo257();
    assert PRIMES[40] == 179 && PRIMES[41] == 181 && PRIMES[42] == 191 && PRIMES[43] == 193 && PRIMES[44] == 197;
    assert PRIMES[45] == 199 && PRIMES[46] == 211 && PRIMES[47] == 223 && PRIMES[48] == 227;
  }

  lemma PrimeRow6()
    ensures |PRIMES| == 64 && forall i | 48 <= i < 56 :: NextPrime(PRIMES[i], PRIMES[i + 1])
  {
    hide NextPrime;
    PrimesTo257();
    PrimesTo307();
    assert PRIMES[48] == 227 && PRIMES[49] == 229 && PRIMES[50] == 233 && PRIMES[51] == 239 && PRIMES[52] == 241;
    assert PRIMES[53] == 251 && PRIMES[54] == 257 && PRIMES[55] == 263 && PRIMES[56] == 269;
  }

  lemma PrimeRow7()
    ensures |PRIMES| == 64 && forall i | 56 <= i < 63 :: NextPrime(PRIMES[i], PRIMES[i + 1])
  {
    hide NextPrime;
    PrimesTo307();
    PrimesTo311();
    assert PRIMES[56] == 269 && PRIMES[57] == 271 && PRIMES[58] == 277 && PRIMES[59] == 281 && PRIMES[60] == 283;
    assert PRIMES[61] == 293 && PRIMES[62] == 307 && PRIMES[63] == 311;
  }

  /** The table holds the first 64 primes. */
  lemma PrimesAreFirst()
    ensures |PRIMES| == 64 && PRIMES[0] == 2 && Prime(2) && forall n | n < 2 :: !Prime(n)
    ensures forall i | 0 <= i < 63 :: NextPrime(PRIMES[i], PRIMES[i + 1])
  {
    FirstPrimes();
    hide NextPrime;
    PrimeRow0(); PrimeRow1(); PrimeRow2(); PrimeRow3(); PrimeRow4(); PrimeRow5(); PrimeRow6(); PrimeRow7();
  }

  /** The word holds the first 32 bits after the point of the cube root of p, whose whole part this is. */
  predicate CubeRoot(whole: nat, fraction: word, p: nat) {
    var k := whole * 0x1_0000_0000 + fraction as int;
    k * k * k <= p * 0x1_0000_0000_0000_0000_0000_0000 < (k + 1) * (k + 1) * (k + 1)
  }

  ghost predicate OfCubeRoot(fraction: word, p: nat) {
    exists whole :: CubeRoot(whole, fraction, p)
  }

  predicate SquareRoot(whole: nat, fraction: word, p: nat) {
    var k := whole * 0x1_0000_0000 + fraction as int;
    k * k <= p * 0x1_0000_0000_0000_0000 < (k + 1) * (k + 1)
  }

  ghost predicate OfSquareRoot(fraction: word, p: nat) {
    exists whole :: SquareRoot(whole, fraction, p)
  }

  lemma CubeRootIs(whole: nat, fraction: word, p: nat, k: nat)
    requires k == whole * 0x1_0000_0000 + fraction as int
    requires k * k * k <= p * 0x1_0000_0000_0000_0000_0000_0000 < (k + 1) * (k + 1) * (k + 1)
    ensures OfCubeRoot(fraction, p)
  {
    assert CubeRoot(whole, fraction, p);
  }

  lemma SquareRootIs(whole: nat, fraction: word, p: nat, k: nat)
    requires k == whole * 0x1_0000_0000 + fraction as int
    requires k * k <= p * 0x1_0000_0000_0000_0000 < (k + 1) * (k + 1)
    ensures OfSquareRoot(fraction, p)
  {
    assert SquareRoot(whole, fraction, p);
  }

  lemma RootRow0()
    ensures OfCubeRoot(0x428a2f98, 2)
    ensures OfCubeRoot(0x71374491, 3)
    ensures OfCubeRoot(0xb5c0fbcf, 5)
    ensures OfCubeRoot(0xe9b5dba5, 7)
    ensures OfCubeRoot(0x3956c25b, 11)
    ensures OfCubeRoot(0x59f111f1, 13)
    ensures OfCubeRoot(0x923f82a4, 17)
    ensures OfCubeRoot(0xab1c5ed5, 19)
  {
    hide OfCubeRoot;
    CubeRootIs(1, 0x428a2f98, 2, 0x1_428a2f98); CubeRootIs(1, 0x71374491, 3, 0x1_71374491);
    CubeRootIs(1, 0xb5c0fbcf, 5, 0x1_b5c0fbcf); CubeRootIs(1, 0xe9b5dba5, 7, 0x1_e9b5dba5);
    CubeRootIs(2, 0x3956c25b, 11, 0x2_3956c25b); CubeRootIs(2, 0x59f111f1, 13, 0x2_59f111f1);
    CubeRootIs(2, 0x923f82a4, 17, 0x2_923f82a4); CubeRootIs(2, 0xab1c5ed5, 19, 0x2_ab1c5ed5);
  }

  lemma ConstantRow0()
    ensures |K| == |PRIMES| == 64 && forall i | 0 <= i < 8 :: OfCubeRoot(K[i], PRIMES[i])
  {
    hide OfCubeRoot;
    RootRow0();
    assert K[0] == 0x428a2f98 && PRIMES[0] == 2 && K[1] == 0x71374491 && PRIMES[1] == 3;
    assert K[2] == 0xb5c0fbcf && PRIMES[2] == 5 && K[3] == 0xe9b5dba5 && PRIMES[3] == 7;
    assert K[4] == 0x3956c25b && PRIMES[4] == 11 && K[5] == 0x59f111f1 && PRIMES[5] == 13;
    assert K[6] == 0x923f82a4 && PRIMES[6] == 17 && K[7] == 0xab1c5ed5 && PRIMES[7] == 19;
  }

  lemma RootRow1()
    ensures OfCubeRoot(0xd807aa98, 23)
    ensures OfCubeRoot(0x12835b01, 29)
    ensures OfCubeRoot(0x243185be, 31)
    ensures OfCubeRoot(0x550c7dc3, 37)
    ensures OfCubeRoot(0x72be5d74, 41)
    ensures OfCubeRoot(0x80deb1fe, 43)
    ensures OfCubeRoot(0x9bdc06a7, 47)
    ensures OfCubeRoot(0xc19bf174, 53)
  {
    hide OfCubeRoot;
    CubeRootIs(2, 0xd807aa98, 23, 0x2_d807aa98); CubeRootIs(3, 0x12835b01, 29, 0x3_12835b01);
    CubeRootIs(3, 0x243185be, 31, 0x3_243185be); CubeRootIs(3, 0x550c7dc3, 37, 0x3_550c7dc3);
    CubeRootIs(3, 0x72be5d74, 41, 0x3_72be5d74); CubeRootIs(3, 0x80deb1fe, 43, 0x3_80deb1fe);
    CubeRootIs(3, 0x9bdc06a7, 47, 0x3_9bdc06a7); CubeRootIs(3, 0xc19bf174, 53, 0x3_c19bf174);
  }

  lemma ConstantRow1()
    ensures |K| == |PRIMES| == 64 && forall i | 8 <= i < 16 :: OfCubeRoot(K[i], PRIMES[i])
  {
    hide OfCubeRoot;
    RootRow1();
    assert K[8] == 0xd807aa98 && PRIMES[8] == 23 && K[9] == 0x12835b01 && PRIMES[9] == 29;
    assert K[10] == 0x243185be && PRIMES[10] == 31 && K[11] == 0x550c7dc3 && PRIMES[11] == 37;
    assert K[12] == 0x72be5d74 && PRIMES[12] == 41 && K[13] == 0x80deb1fe && PRIMES[13] == 43;
    assert K[14] == 0x9bdc06a7 && PRIMES[14] == 47 && K[15] == 0xc19bf174 && PRIMES[15] == 53;
  }

  lemma RootRow2()
    ensures OfCubeRoot(0xe49b69c1, 59)
    ensures OfCubeRoot(0xefbe4786, 61)
    ensures OfCubeRoot(0x0fc19dc6, 67)
    ensures OfCubeRoot(0x240ca1cc, 71)
    ensures OfCubeRoot(0x2de92c6f, 73)
    ensures OfCubeRoot(0x4a7484aa, 79)
    ensures OfCubeRoot(0x5cb0a9dc, 83)
    ensures OfCubeRoot(0x76f988da, 89)
  {
    hide OfCubeRoot;
    CubeRootIs(3, 0xe49b69c1, 59, 0x3_e49b69c1); CubeRootIs(3, 0xefbe4786, 61, 0x3_efbe4786);
    CubeRootIs(4, 0x0fc19dc6, 67, 0x4_0fc19dc6); CubeRootIs(4, 0x240ca1cc, 71, 0x4_240ca1cc);
    CubeRootIs(4, 0x2de92c6f, 73, 0x4_2de92c6f); CubeRootIs(4, 0x4a7484aa, 79, 0x4_4a7484aa);
    CubeRootIs(4, 0x5cb0a9dc, 83, 0x4_5cb0a9dc); CubeRootIs(4, 0x76f988da, 89, 0x4_76f988da);
  }

  lemma ConstantRow2()
    ensures |K| == |PRIMES| == 64 && forall i | 16 <= i < 24 :: OfCubeRoot(K[i], PRIMES[i])
  {
    hide OfCubeRoot;
    RootRow2();
    assert K[16] == 0xe49b69c1 && PRIMES[16] == 59 && K[17] == 0xefbe4786 && PRIMES[17] == 61;
    assert K[18] == 0x0fc19dc6 && PRIMES[18] == 67 && K[19] == 0x240ca1cc && PRIMES[19] == 71;
    assert K[20] == 0x2de92c6f && PRIMES[20] == 73 && K[21] == 0x4a7484aa && PRIMES[21] == 79;
    assert K[22] == 0x5cb0a9dc && PRIMES[22] == 83 && K[23] == 0x76f988da && PRIMES[23] == 89;
  }

  lemma RootRow3()
    ensures OfCubeRoot(0x983e5152, 97)
    ensures OfCubeRoot(0xa831c66d, 101)
    ensures OfCubeRoot(0xb00327c8, 103)
    ensures OfCubeRoot(0xbf597fc7, 107)
    ensures OfCubeRoot(0xc6e00bf3, 109)
    ensures OfCubeRoot(0xd5a79147, 113)
    ensures OfCubeRoot(0x06ca6351, 127)
    ensures OfCubeRoot(0x14292967, 131)
  {
    hide OfCubeRoot;
    CubeRootIs(4, 0x983e5152, 97, 0x4_983e5152); CubeRootIs(4, 0xa831c66d, 101, 0x4_a831c66d);
    CubeRootIs(4, 0xb00327c8, 103, 0x4_b00327c8); CubeRootIs(4, 0xbf597fc7, 107, 0x4_bf597fc7);
    CubeRootIs(4, 0xc6e00bf3, 109, 0x4_c6e00bf3); CubeRootIs(4, 0xd5a79147, 113, 0x4_d5a79147);
    CubeRootIs(5, 0x06ca6351, 127, 0x5_06ca6351); CubeRootIs(5, 0x14292967, 131, 0x5_14292967);
  }

  lemma ConstantRow3()
    ensures |K| == |PRIMES| == 64 && forall i | 24 <= i < 32 :: OfCubeRoot(K[i], PRIMES[i])
  {
    hide OfCubeRoot;
    RootRow3();
    assert K[24] == 0x983e5152 && PRIMES[24] == 97 && K[25] == 0xa831c66d && PRIMES[25] == 101;
    assert K[26] == 0xb00327c8 && PRIMES[26] == 103 && K[27] == 0xbf597fc7 && PRIMES[27] == 107;
    assert K[28] == 0xc6e00bf3 && PRIMES[28] == 109 && K[29] == 0xd5a79147 && PRIMES[29] == 113;
    assert K[30] == 0x06ca6351 && PRIMES[30] == 127 && K[31] == 0x14292967 && PRIMES[31] == 131;
  }

  lemma RootRow4()
    ensures OfCubeRoot(0x27b70a85, 137)
    ensures OfCubeRoot(0x2e1b2138, 139)
    ensures OfCubeRoot(0x4d2c6dfc, 149)
    ensures OfCubeRoot(0x53380d13, 151)
    ensures OfCubeRoot(0x650a7354, 157)
    ensures OfCubeRoot(0x766a0abb, 163)
    ensures OfCubeRoot(0x81c2c92e, 167)
    ensures OfCubeRoot(0x92722c85, 173)
  {
    hide OfCubeRoot;
    CubeRootIs(5, 0x27b70a85, 137, 0x5_27b70a85); CubeRootIs(5, 0x2e1b2138, 139, 0x5_2e1b2138);
    CubeRootIs(5, 0x4d2c6dfc, 149, 0x5_4d2c6dfc); CubeRootIs(5, 0x53380d13, 151, 0x5_53380d13);
    CubeRootIs(5, 0x650a7354, 157, 0x5_650a7354); CubeRootIs(5, 0x766a0abb, 163, 0x5_766a0abb);
    CubeRootIs(5, 0x81c2c92e, 167, 0x5_81c2c92e); CubeRootIs(5, 0x92722c85, 173, 0x5_92722c85);
  }

  lemma ConstantRow4()
    ensures |K| == |PRIMES| == 64 && forall i | 32 <= i < 40 :: OfCubeRoot(K[i], PRIMES[i])
  {
    hide OfCubeRoot;
    RootRow4();
    assert K[32] == 0x27b70a85 && PRIMES[32] == 137 && K[33] == 0x2e1b2138 && PRIMES[33] == 139;
    assert K[34] == 0x4d2c6dfc && PRIMES[34] == 149 && K[35] == 0x53380d13 && PRIMES[35] == 151;
    assert K[36] == 0x650a7354 && PRIMES[36] == 157 && K[37] == 0x766a0abb && PRIMES[37] == 163;
    assert K[38] == 0x81c2c92e && PRIMES[38] == 167 && K[39] == 0x92722c85 && PRIMES[39] == 173;
  }

  lemma RootRow5()
    ensures OfCubeRoot(0xa2bfe8a1, 179)
    ensures OfCubeRoot(0xa81a664b, 181)
    ensures OfCubeRoot(0xc24b8b70, 191)
    ensures OfCubeRoot(0xc76c51a3, 193)
    ensures OfCubeRoot(0xd192e819, 197)
    ensures OfCubeRoot(0xd6990624, 199)
    ensures OfCubeRoot(0xf40e3585, 211)
    ensures OfCubeRoot(0x106aa070, 223)
  {
    hide OfCubeRoot;
    CubeRootIs(5, 0xa2bfe8a1, 179, 0x5_a2bfe8a1); CubeRootIs(5, 0xa81a664b, 181, 0x5_a81a664b);
    CubeRootIs(5, 0xc24b8b70, 191, 0x5_c24b8b70); CubeRootIs(5, 0xc76c51a3, 193, 0x5_c76c51a3);
    CubeRootIs(5, 0xd192e819, 197, 0x5_d192e819); CubeRootIs(5, 0xd6990624, 199, 0x5_d6990624);
    CubeRootIs(5, 0xf40e3585, 211, 0x5_f40e3585); CubeRootIs(6, 0x106aa070, 223, 0x6_106aa070);
  }

  lemma ConstantRow5()
    ensures |K| == |PRIMES| == 64 && forall i | 40 <= i < 48 :: OfCubeRoot(K[i], PRIMES[i])
  {
    hide OfCubeRoot;
    RootRow5();
    assert K[40] == 0xa2bfe8a1 && PRIMES[40] == 179 && K[41] == 0xa81a664b && PRIMES[41] == 181;
    assert K[42] == 0xc24b8b70 && PRIMES[42] == 191 && K[43] == 0xc76c51a3 && PRIMES[43] == 193;
    assert K[44] == 0xd192e819 && PRIMES[44] == 197 && K[45] == 0xd6990624 && PRIMES[45] == 199;
    assert K[46] == 0xf40e3585 && PRIMES[46] == 211 && K[47] == 0x106aa070 && PRIMES[47] == 223;
  }

  lemma RootRow6()
    ensures OfCubeRoot(0x19a4c116, 227)
    ensures OfCubeRoot(0x1e376c08, 229)
    ensures OfCubeRoot(0x2748774c, 233)
    ensures OfCubeRoot(0x34b0bcb5, 239)
    ensures OfCubeRoot(0x391c0cb3, 241)
    ensures OfCubeRoot(0x4ed8aa4a, 251)
    ensures OfCubeRoot(0x5b9cca4f, 257)
    ensures OfCubeRoot(0x682e6ff3, 263)
  {
    hide OfCubeRoot;
    CubeRootIs(6, 0x19a4c116, 227, 0x6_19a4c116); CubeRootIs(6, 0x1e376c08, 229, 0x6_1e376c08);
    CubeRootIs(6, 0x2748774c, 233, 0x6_2748774c); CubeRootIs(6, 0x34b0bcb5, 239, 0x6_34b0bcb5);
    CubeRootIs(6, 0x391c0cb3, 241, 0x6_391c0cb3); CubeRootIs(6, 0x4ed8aa4a, 251, 0x6_4ed8aa4a);
    CubeRootIs(6, 0x5b9cca4f, 257, 0x6_5b9cca4f); CubeRootIs(6, 0x682e6ff3, 263, 0x6_682e6ff3);
  }

  lemma ConstantRow6()
    ensures |K| == |PRIMES| == 64 && forall i | 48 <= i < 56 :: OfCubeRoot(K[i], PRIMES[i])
  {
    hide OfCubeRoot;
    RootRow6();
    assert K[48] == 0x19a4c116 && PRIMES[48] == 227 && K[49] == 0x1e376c08 && PRIMES[49] == 229;
    assert K[50] == 0x2748774c && PRIMES[50] == 233 && K[51] == 0x34b0bcb5 && PRIMES[51] == 239;
    assert K[52] == 0x391c0cb3 && PRIMES[52] == 241 && K[53] == 0x4ed8aa4a && PRIMES[53] == 251;
    assert K[54] == 0x5b9cca4f && PRIMES[54] == 257 && K[55] == 0x682e6ff3 && PRIMES[55] == 263;
  }

  lemma RootRow7()
    ensures OfCubeRoot(0x748f82ee, 269)
    ensures OfCubeRoot(0x78a5636f, 271)
    ensures OfCubeRoot(0x84c87814, 277)
    ensures OfCubeRoot(0x8cc70208, 281)
    ensures OfCubeRoot(0x90befffa, 283)
    ensures OfCubeRoot(0xa4506ceb, 293)
    ensures OfCubeRoot(0xbef9a3f7, 307)
    ensures OfCubeRoot(0xc67178f2, 311)
  {
    hide OfCubeRoot;
    CubeRootIs(6, 0x748f82ee, 269, 0x6_748f82ee); CubeRootIs(6, 0x78a5636f, 271, 0x6_78a5636f);
    CubeRootIs(6, 0x84c87814, 277, 0x6_84c87814); CubeRootIs(6, 0x8cc70208, 281, 0x6_8cc70208);
    CubeRootIs(6, 0x90befffa, 283, 0x6_90befffa); CubeRootIs(6, 0xa4506ceb, 293, 0x6_a4506ceb);
    CubeRootIs(6, 0xbef9a3f7, 307, 0x6_bef9a3f7); CubeRootIs(6, 0xc67178f2, 311, 0x6_c67178f2);
  }

  lemma ConstantRow7()
    ensures |K| == |PRIMES| == 64 && forall i | 56 <= i < 64 :: OfCubeRoot(K[i], PRIMES[i])
  {
    hide OfCubeRoot;
    RootRow7();
    assert K[56] == 0x748f82ee && PRIMES[56] == 269 && K[57] == 0x78a5636f && PRIMES[57] == 271;
    assert K[58] == 0x84c87814 && PRIMES[58] == 277 && K[59] == 0x8cc70208 && PRIMES[59] == 281;
    assert K[60] == 0x90befffa && PRIMES[60] == 283 && K[61] == 0xa4506ceb && PRIMES[61] == 293;
    assert K[62] == 0xbef9a3f7 && PRIMES[62] == 307 && K[63] == 0xc67178f2 && PRIMES[63] == 311;
  }

  /** The 64 constants are the first 32 bits of the fractional parts of the cube roots of the first 64 primes
      (section 4.2.2). */
  lemma RoundConstants()
    ensures |K| == |PRIMES| == 64 && forall i | 0 <= i < 64 :: OfCubeRoot(K[i], PRIMES[i])
  {
    hide OfCubeRoot;
    ConstantRow0(); ConstantRow1(); ConstantRow2(); ConstantRow3(); ConstantRow4(); ConstantRow5(); ConstantRow6();
    ConstantRow7();
  }

  /** The initial hash value is that of the square roots of the first eight (section 5.3.3). */
  lemma InitialHash()
    ensures OfSquareRoot(INITIAL.a, PRIMES[0]) && OfSquareRoot(INITIAL.b, PRIMES[1])
    ensures OfSquareRoot(INITIAL.c, PRIMES[2]) && OfSquareRoot(INITIAL.d, PRIMES[3])
    ensures OfSquareRoot(INITIAL.e, PRIMES[4]) && OfSquareRoot(INITIAL.f, PRIMES[5])
    ensures OfSquareRoot(INITIAL.g, PRIMES[6]) && OfSquareRoot(INITIAL.h, PRIMES[7])
  {
    hide OfSquareRoot;
    assert PRIMES[0] == 2 && PRIMES[1] == 3 && PRIMES[2] == 5 && PRIMES[3] == 7;
    assert PRIMES[4] == 11 && PRIMES[5] == 13 && PRIMES[6] == 17 && PRIMES[7] == 19;
    SquareRootIs(1, INITIAL.a, 2, 0x1_6a09e667); SquareRootIs(1, INITIAL.b, 3, 0x1_bb67ae85);
    SquareRootIs(2, INITIAL.c, 5, 0x2_3c6ef372); SquareRootIs(2, INITIAL.d, 7, 0x2_a54ff53a);
    SquareRootIs(3, INITIAL.e, 11, 0x3_510e527f); SquareRootIs(3, INITIAL.f, 13, 0x3_9b05688c);
    SquareRootIs(4, INITIAL.g, 17, 0x4_1f83d9ab); SquareRootIs(4, INITIAL.h, 19, 0x4_5be0cd19);
  }

  // ---------------------------------------------------------------- the functions, bit by bit

  /** The place of a bit in a word, counting from the lowest. */
  type place = n: bv6 | n < 32

  predicate Bit(x: word, n: place) { (x >> n) & 1 == 1 }

  /** So many places further up, going round at 32. */
  function On(n: place, k: place): place { (n + k) & 31 }

  /** The bit so many places further up; beyond the top there are zeros. */
  predicate Above(x: word, n: place, k: place) {
    n + k < 32 && Bit(x, n + k)
  }

  predicate Odd(p: bool, q: bool, r: bool) { (p != q) != r }

  lemma XorBits(x: word, y: word, z: word, n: place)
    ensures Bit(x ^ y ^ z, n) == Odd(Bit(x, n), Bit(y, n), Bit(z, n))
  {
  }

  lemma Rotated2(x: word, n: place)
    ensures Bit(RotR(x, 2), n) == Bit(x, On(n, 2))
  {
  }

  lemma Rotated6(x: word, n: place)
    ensures Bit(RotR(x, 6), n) == Bit(x, On(n, 6))
  {
  }

  lemma Rotated7(x: word, n: place)
    ensures Bit(RotR(x, 7), n) == Bit(x, On(n, 7))
  {
  }

  lemma Rotated11(x: word, n: place)
    ensures Bit(RotR(x, 11), n) == Bit(x, On(n, 11))
  {
  }

  lemma Rotated13(x: word, n: place)
    ensures Bit(RotR(x, 13), n) == Bit(x, On(n, 13))
  {
  }

  lemma Rotated17(x: word, n: place)
    ensures Bit(RotR(x, 17), n) == Bit(x, On(n, 17))
  {
  }

  lemma Rotated18(x: word, n: place)
    ensures Bit(RotR(x, 18), n) == Bit(x, On(n, 18))
  {
  }

  lemma Rotated19(x: word, n: place)
    ensures Bit(RotR(x, 19), n) == Bit(x, On(n, 19))
  {
  }

  lemma Rotated22(x: word, n: place)
    ensures Bit(RotR(x, 22), n) == Bit(x, On(n, 22))
  {
  }

  lemma Rotated25(x: word, n: place)
    ensures Bit(RotR(x, 25), n) == Bit(x, On(n, 25))
  {
  }

  lemma Shifted3(x: word, n: place)
    ensures Bit(x >> 3, n) == Above(x, n, 3)
  {
  }

  lemma Shifted10(x: word, n: place)
    ensures Bit(x >> 10, n) == Above(x, n, 10)
  {
  }

  lemma BigSigma0Sums(x: word, p: word, q: word, r: word)
    requires p == RotR(x, 2) && q == RotR(x, 13) && r == RotR(x, 22)
    ensures BigSigma0(x) == p ^ q ^ r
  {
    hide RotR;
  }

  lemma BigSigma1Sums(x: word, p: word, q: word, r: word)
    requires p == RotR(x, 6) && q == RotR(x, 11) && r == RotR(x, 25)
    ensures BigSigma1(x) == p ^ q ^ r
  {
    hide RotR;
  }

  lemma SmallSigma0Sums(x: word, p: word, q: word, r: word)
    requires p == RotR(x, 7) && q == RotR(x, 18) && r == x >> 3
    ensures SmallSigma0(x) == p ^ q ^ r
  {
    hide RotR;
  }

  lemma SmallSigma1Sums(x: word, p: word, q: word, r: word)
    requires p == RotR(x, 17) && q == RotR(x, 19) && r == x >> 10
    ensures SmallSigma1(x) == p ^ q ^ r
  {
    hide RotR;
  }

  /** Every bit of the four sigmas is the sum of three bits of the word (section 4.1.2). */
  lemma BigSigma0Bits(x: word, n: place)
    ensures Bit(BigSigma0(x), n) == Odd(Bit(x, On(n, 2)), Bit(x, On(n, 13)), Bit(x, On(n, 22)))
  {
    hide *;
    Rotated2(x, n);
    Rotated13(x, n);
    Rotated22(x, n);
    var p, q, r := RotR(x, 2), RotR(x, 13), RotR(x, 22);
    BigSigma0Sums(x, p, q, r);
    XorBits(p, q, r, n);
  }

  lemma BigSigma1Bits(x: word, n: place)
    ensures Bit(BigSigma1(x), n) == Odd(Bit(x, On(n, 6)), Bit(x, On(n, 11)), Bit(x, On(n, 25)))
  {
    hide *;
    Rotated6(x, n);
    Rotated11(x, n);
    Rotated25(x, n);
    var p, q, r := RotR(x, 6), RotR(x, 11), RotR(x, 25);
    BigSigma1Sums(x, p, q, r);
    XorBits(p, q, r, n);
  }

  lemma SmallSigma0Bits(x: word, n: place)
    ensures Bit(SmallSigma0(x), n) == Odd(Bit(x, On(n, 7)), Bit(x, On(n, 18)), Above(x, n, 3))
  {
    hide *;
    Rotated7(x, n);
    Rotated18(x, n);
    Shifted3(x, n);
    var p, q, r := RotR(x, 7), RotR(x, 18), x >> 3;
    SmallSigma0Sums(x, p, q, r);
    XorBits(p, q, r, n);
  }

  lemma SmallSigma1Bits(x: word, n: place)
    ensures Bit(SmallSigma1(x), n) == Odd(Bit(x, On(n, 17)), Bit(x, On(n, 19)), Above(x, n, 10))
  {
    hide *;
    Rotated17(x, n);
    Rotated19(x, n);
    Shifted10(x, n);
    var p, q, r := RotR(x, 17), RotR(x, 19), x >> 10;
    SmallSigma1Sums(x, p, q, r);
    XorBits(p, q, r, n);
  }

  lemma AndBit(x: word, y: word, n: place)
    ensures Bit(x & y, n) == (Bit(x, n) && Bit(y, n))
  {
  }

  lemma NotBit(x: word, n: place)
    ensures Bit(!x, n) == !Bit(x, n)
  {
  }

  lemma XorBit(x: word, y: word, n: place)
    ensures Bit(x ^ y, n) == (Bit(x, n) != Bit(y, n))
  {
  }

  lemma ChSums(x: word, y: word, z: word, nx: word, p: word, q: word)
    requires nx == !x && p == x & y && q == nx & z
    ensures Ch(x, y, z) == p ^ q
  {
  }

  /** Ch chooses between the bits of y and z by those of x, Maj goes by the majority. */
  lemma ChBits(x: word, y: word, z: word, n: place)
    ensures Bit(Ch(x, y, z), n) == if Bit(x, n) then Bit(y, n) else Bit(z, n)
  {
    hide *;
    var nx := !x;
    NotBit(x, n);
    AndBit(x, y, n);
    AndBit(nx, z, n);
    var p, q := x & y, nx & z;
    ChSums(x, y, z, nx, p, q);
    XorBit(p, q, n);
  }

  function And(x: word, y: word): word { x & y }

  function Sum(x: word, y: word, z: word): word { x ^ y ^ z }

  lemma MajIsSum(x: word, y: word, z: word)
    ensures Maj(x, y, z) == Sum(And(x, y), And(x, z), And(y, z))
  {
  }

  lemma SumBit(x: word, y: word, z: word, n: place)
    ensures Bit(Sum(x, y, z), n) == Odd(Bit(x, n), Bit(y, n), Bit(z, n))
  {
    hide Bit;
    XorBits(x, y, z, n);
  }

  lemma AndedBit(x: word, y: word, n: place)
    ensures Bit(And(x, y), n) == (Bit(x, n) && Bit(y, n))
  {
    hide Bit;
    AndBit(x, y, n);
  }

  lemma MajorityIsOdd(p: bool, q: bool, r: bool)
    ensures Odd(p && q, p && r, q && r) == if p == q then p else r
  {
  }

  lemma MajBits(x: word, y: word, z: word, n: place)
    ensures Bit(Maj(x, y, z), n) == if Bit(x, n) == Bit(y, n) then Bit(x, n) else Bit(z, n)
  {
    hide *;
    AndedBit(x, y, n);
    AndedBit(x, z, n);
    AndedBit(y, z, n);
    MajIsSum(x, y, z);
    SumBit(And(x, y), And(x, z), And(y, z), n);
    MajorityIsOdd(Bit(x, n), Bit(y, n), Bit(z, n));
  }

  // ---------------------------------------------------------------- the digits of a word

  function Joined(a: bv4, b: bv4, c: bv4, d: bv4, e: bv4, f: bv4, g: bv4, h: bv4): word {
    (a as word << 28) | (b as word << 24) | (c as word << 20) | (d as word << 16)
    | (e as word << 12) | (f as word << 8) | (g as word << 4) | h as word
  }

  function Digit(d: bv4): char { "0123456789abcdef"[d as int] }

  predicate Ends(n: word, d: bv4) { n & 0xF == d as word }

  lemma DigitIs(n: word, d: bv4)
    requires Ends(n, d)
    ensures HexDigit(n) == Digit(d)
  {
  }

  lemma Parts(a: bv4, b: bv4, c: bv4, d: bv4, e: bv4, f: bv4, g: bv4, h: bv4, w: word)
    requires w == Joined(a, b, c, d, e, f, g, h)
    ensures Ends(w >> 28, a) && Ends(w >> 24, b) && Ends(w >> 20, c) && Ends(w >> 16, d)
    ensures Ends(w >> 12, e) && Ends(w >> 8, f) && Ends(w >> 4, g) && Ends(w, h)
  {
  }

  lemma HexDigits(w: word)
    ensures var s := HexWord(w);
            && s[0] == HexDigit(w >> 28) && s[1] == HexDigit(w >> 24) && s[2] == HexDigit(w >> 20)
            && s[3] == HexDigit(w >> 16) && s[4] == HexDigit(w >> 12) && s[5] == HexDigit(w >> 8)
            && s[6] == HexDigit(w >> 4) && s[7] == HexDigit(w)
  {
    hide HexDigit;
  }

  /** A word is written as its eight hexadecimal digits, in lower case and the most significant first. */
  lemma HexSpells(a: bv4, b: bv4, c: bv4, d: bv4, e: bv4, f: bv4, g: bv4, h: bv4)
    ensures var s := HexWord(Joined(a, b, c, d, e, f, g, h));
            && s[0] == Digit(a) && s[1] == Digit(b) && s[2] == Digit(c) && s[3] == Digit(d)
            && s[4] == Digit(e) && s[5] == Digit(f) && s[6] == Digit(g) && s[7] == Digit(h)
  {
    hide *;
    var w := Joined(a, b, c, d, e, f, g, h);
    HexDigits(w);
    Parts(a, b, c, d, e, f, g, h, w);
    DigitIs(w >> 28, a);
    DigitIs(w >> 24, b);
    DigitIs(w >> 20, c);
    DigitIs(w >> 16, d);
    DigitIs(w >> 12, e);
    DigitIs(w >> 8, f);
    DigitIs(w >> 4, g);
    DigitIs(w, h);
  }
}
