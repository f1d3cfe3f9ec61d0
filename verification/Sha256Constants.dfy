/**
 Where the constants of SHA-256 come from, as sections 4.2.2 and 5.3.3 of FIPS 180-4 say: the first 32
 bits of the fractional parts of the cube roots of the first 64 primes, and of the square roots of the
 first eight.
 */
module Sha256Constants {
  import opened Sha256

  const PRIMES: seq<nat> :=
    [2, 3, 5, 7, 11, 13, 17, 19] +
    [23, 29, 31, 37, 41, 43, 47, 53] +
    [59, 61, 67, 71, 73, 79, 83, 89] +
    [97, 101, 103, 107, 109, 113, 127, 131] +
    [137, 139, 149, 151, 157, 163, 167, 173] +
    [179, 181, 191, 193, 197, 199, 211, 223] +
    [227, 229, 233, 239, 241, 251, 257, 263] +
    [269, 271, 277, 281, 283, 293, 307, 311]

  function Prime(t: nat): nat
    requires t < 64
  {
    PRIMES[t]
  }

  // ---- the first 64 primes ----

  function Product(d: nat, e: nat): nat { d * e }

  ghost predicate IsPrime(n: nat) {
    n > 1 && forall d, e :: Product(d, e) == n ==> d == 1 || e == 1
  }

  /** No prime up to 17 divides the number, but for itself. */
  predicate Sieved(n: nat) {
    && n > 1
    && (n == 2 || n % 2 != 0) && (n == 3 || n % 3 != 0) && (n == 5 || n % 5 != 0) && (n == 7 || n % 7 != 0)
    && (n == 11 || n % 11 != 0) && (n == 13 || n % 13 != 0) && (n == 17 || n % 17 != 0)
  }

  /** None of the numbers strictly between the two passes the sieve. */
  predicate NoneSieved(p: nat, q: nat)
    decreases q - p
  {
    p + 1 >= q || (!Sieved(p + 1) && NoneSieved(p + 1, q))
  }

  lemma Multiple(n: nat, p: nat, k: nat)
    requires p == 2 || p == 3 || p == 5 || p == 7 || p == 11 || p == 13 || p == 17
    requires n == p * k && k > 1
    ensures !Sieved(n)
  {
    assert n != p by {
      assert p * k >= p * 2;
    }
    assert n % p == 0 by {
      NoRemainder(n, p, k);
    }
  }

  lemma NoRemainder(n: nat, p: nat, k: nat)
    requires p > 0 && n == p * k
    ensures n % p == 0
  {
    var q, r := n / p, n % p;
    assert n == q * p + r;
    if q < k {
      LargerProduct(q + 1, k, p);
    } else {
      LargerProduct(k, q, p);
    }
  }

  lemma LargerProduct(a: nat, b: nat, p: nat)
    requires a <= b
    ensures a * p <= b * p
  {
  }

  lemma SmallFactor(n: nat, d: nat, e: nat)
    requires 1 < d < 19 && e > 1 && n == d * e
    ensures !Sieved(n)
  {
    if d % 2 == 0 {
      var h := d / 2;
      assert d * e == 2 * (h * e) && h * e >= e;
      Multiple(n, 2, h * e);
    } else if d == 9 {
      Multiple(n, 3, 3 * e);
    } else if d == 15 {
      Multiple(n, 3, 5 * e);
    } else {
      Multiple(n, d, e);
    }
  }

  lemma FarFactors(d: nat, e: nat)
    requires d >= 19 && e >= 19
    ensures d * e >= 361
  {
    assert d * e >= 19 * e;
  }

  lemma SievedHasNoFactors(n: nat, d: nat, e: nat)
    requires Sieved(n) && n < 361 && Product(d, e) == n
    ensures d == 1 || e == 1
  {
    if d > 1 && e > 1 {
      if d < 19 {
        SmallFactor(n, d, e);
      } else if e < 19 {
        SmallFactor(n, e, d);
      } else {
        FarFactors(d, e);
      }
    }
  }

  /** Below 19 squared the numbers that pass the sieve are the primes. */
  lemma SievedIsPrime(n: nat)
    requires n < 361
    ensures Sieved(n) <==> IsPrime(n)
  {
    if Sieved(n) {
      forall d, e | Product(d, e) == n
        ensures d == 1 || e == 1
      {
        SievedHasNoFactors(n, d, e);
      }
    } else if n > 1 {
      var p := if n % 2 == 0 && n != 2 then 2 else if n % 3 == 0 && n != 3 then 3 else if n % 5 == 0 && n != 5 then 5
               else if n % 7 == 0 && n != 7 then 7 else if n % 11 == 0 && n != 11 then 11
               else if n % 13 == 0 && n != 13 then 13 else 17;
      assert Product(p, n / p) == n;
    }
  }

  /** The second number is the next prime after the first. */
  ghost predicate NextPrime(p: nat, q: nat) {
    p < q && IsPrime(q) && forall n :: p < n < q ==> !IsPrime(n)
  }

  lemma {:induction false} NoneBetween(p: nat, q: nat, n: nat)
    requires NoneSieved(p, q) && p < n < q < 361
    ensures !IsPrime(n)
    decreases n - p
  {
    if n == p + 1 {
      SievedIsPrime(n);
    } else {
      NoneBetween(p + 1, q, n);
    }
  }

  predicate Follows(p: nat, q: nat) {
    p < q < 361 && Sieved(q) && NoneSieved(p, q)
  }

  lemma FollowsIsNext(p: nat, q: nat)
    requires Follows(p, q)
    ensures NextPrime(p, q)
  {
    SievedIsPrime(q);
    forall n | p < n < q
      ensures !IsPrime(n)
    {
      NoneBetween(p, q, n);
    }
  }

  /** The prime before the t-th, or zero. */
  function Before(t: nat): nat
    requires t < 64
  {
    if t == 0 then 0 else Prime(t - 1)
  }

  lemma FirstPrimes(t: nat)
    requires t < 8
    ensures NextPrime(Before(t), Prime(t))
  {
    match t
    case 0 => FollowsIsNext(0, 2);
    case 1 => FollowsIsNext(2, 3);
    case 2 => FollowsIsNext(3, 5);
    case 3 => FollowsIsNext(5, 7);
    case 4 => FollowsIsNext(7, 11);
    case 5 => FollowsIsNext(11, 13);
    case 6 => FollowsIsNext(13, 17);
    case _ => FollowsIsNext(17, 19);
  }

  lemma SecondPrimes(t: nat)
    requires 8 <= t < 16
    ensures NextPrime(Before(t), Prime(t))
  {
    match t
    case 8 => FollowsIsNext(19, 23);
    case 9 => FollowsIsNext(23, 29);
    case 10 => FollowsIsNext(29, 31);
    case 11 => FollowsIsNext(31, 37);
    case 12 => FollowsIsNext(37, 41);
    case 13 => FollowsIsNext(41, 43);
    case 14 => FollowsIsNext(43, 47);
    case _ => FollowsIsNext(47, 53);
  }

  lemma ThirdPrimes(t: nat)
    requires 16 <= t < 24
    ensures NextPrime(Before(t), Prime(t))
  {
    match t
    case 16 => FollowsIsNext(53, 59);
    case 17 => FollowsIsNext(59, 61);
    case 18 => FollowsIsNext(61, 67);
    case 19 => FollowsIsNext(67, 71);
    case 20 => FollowsIsNext(71, 73);
    case 21 => FollowsIsNext(73, 79);
    case 22 => FollowsIsNext(79, 83);
    case _ => FollowsIsNext(83, 89);
  }

  lemma FourthPrimes(t: nat)
    requires 24 <= t < 32
    ensures NextPrime(Before(t), Prime(t))
  {
    match t
    case 24 => FollowsIsNext(89, 97);
    case 25 => FollowsIsNext(97, 101);
    case 26 => FollowsIsNext(101, 103);
    case 27 => FollowsIsNext(103, 107);
    case 28 => FollowsIsNext(107, 109);
    case 29 => FollowsIsNext(109, 113);
    case 30 => FollowsIsNext(113, 127);
    case _ => FollowsIsNext(127, 131);
  }

  lemma FifthPrimes(t: nat)
    requires 32 <= t < 40
    ensures NextPrime(Before(t), Prime(t))
  {
    match t
    case 32 => FollowsIsNext(131, 137);
    case 33 => FollowsIsNext(137, 139);
    case 34 => FollowsIsNext(139, 149);
    case 35 => FollowsIsNext(149, 151);
    case 36 => FollowsIsNext(151, 157);
    case 37 => FollowsIsNext(157, 163);
    case 38 => FollowsIsNext(163, 167);
    case _ => FollowsIsNext(167, 173);
  }

  lemma SixthPrimes(t: nat)
    requires 40 <= t < 48
    ensures NextPrime(Before(t), Prime(t))
  {
    match t
    case 40 => FollowsIsNext(173, 179);
    case 41 => FollowsIsNext(179, 181);
    case 42 => FollowsIsNext(181, 191);
    case 43 => FollowsIsNext(191, 193);
    case 44 => FollowsIsNext(193, 197);
    case 45 => FollowsIsNext(197, 199);
    case 46 => FollowsIsNext(199, 211);
    case _ => FollowsIsNext(211, 223);
  }

  lemma SeventhPrimes(t: nat)
    requires 48 <= t < 56
    ensures NextPrime(Before(t), Prime(t))
  {
    match t
    case 48 => FollowsIsNext(223, 227);
    case 49 => FollowsIsNext(227, 229);
    case 50 => FollowsIsNext(229, 233);
    case 51 => FollowsIsNext(233, 239);
    case 52 => FollowsIsNext(239, 241);
    case 53 => FollowsIsNext(241, 251);
    case 54 => FollowsIsNext(251, 257);
    case _ => FollowsIsNext(257, 263);
  }

  lemma EighthPrimes(t: nat)
    requires 56 <= t < 64
    ensures NextPrime(Before(t), Prime(t))
  {
    match t
    case 56 => FollowsIsNext(263, 269);
    case 57 => FollowsIsNext(269, 271);
    case 58 => FollowsIsNext(271, 277);
    case 59 => FollowsIsNext(277, 281);
    case 60 => FollowsIsNext(281, 283);
    case 61 => FollowsIsNext(283, 293);
    case 62 => FollowsIsNext(293, 307);
    case _ => FollowsIsNext(307, 311);
  }

  /** The list holds the first 64 primes, in order and with none left out. */
  lemma PrimesInOrder(t: nat)
    requires t < 64
    ensures NextPrime(Before(t), Prime(t))
  {
    if t < 8 {
      FirstPrimes(t);
    } else if t < 16 {
      SecondPrimes(t);
    } else if t < 24 {
      ThirdPrimes(t);
    } else if t < 32 {
      FourthPrimes(t);
    } else if t < 40 {
      FifthPrimes(t);
    } else if t < 48 {
      SixthPrimes(t);
    } else if t < 56 {
      SeventhPrimes(t);
    } else {
      EighthPrimes(t);
    }
  }

  // ---- roots ----

  /** The cube root of the number, scaled by two to the 32nd and rounded down. */
  predicate IsCubeRoot(c: nat, n: nat) {
    c * c * c <= n * 0x1_0000_0000_0000_0000_0000_0000 < (c + 1) * (c + 1) * (c + 1)
  }

  predicate IsSquareRoot(c: nat, n: nat) {
    c * c <= n * 0x1_0000_0000_0000_0000 < (c + 1) * (c + 1)
  }

  /** The cube root of the t-th prime, rounded down. */
  function WholeRoot(t: nat): nat {
    if t < 4 then 1 else if t < 9 then 2 else if t < 18 then 3 else if t < 30 then 4 else if t < 47 then 5 else 6
  }

  /** The constant of round t behind the whole part. */
  function ScaledRoot(t: nat): nat
    requires t < 64
  {
    WholeRoot(t) * 0x1_0000_0000 + RoundConstant(t)
  }

  lemma FirstRoots(t: nat)
    requires t < 16
    ensures IsCubeRoot(ScaledRoot(t), Prime(t))
  {
    match t
    case 0 => assert IsCubeRoot(0x1_428a2f98, 2);
    case 1 => assert IsCubeRoot(0x1_71374491, 3);
    case 2 => assert IsCubeRoot(0x1_b5c0fbcf, 5);
    case 3 => assert IsCubeRoot(0x1_e9b5dba5, 7);
    case 4 => assert IsCubeRoot(0x2_3956c25b, 11);
    case 5 => assert IsCubeRoot(0x2_59f111f1, 13);
    case 6 => assert IsCubeRoot(0x2_923f82a4, 17);
    case 7 => assert IsCubeRoot(0x2_ab1c5ed5, 19);
    case 8 => assert IsCubeRoot(0x2_d807aa98, 23);
    case 9 => assert IsCubeRoot(0x3_12835b01, 29);
    case 10 => assert IsCubeRoot(0x3_243185be, 31);
    case 11 => assert IsCubeRoot(0x3_550c7dc3, 37);
    case 12 => assert IsCubeRoot(0x3_72be5d74, 41);
    case 13 => assert IsCubeRoot(0x3_80deb1fe, 43);
    case 14 => assert IsCubeRoot(0x3_9bdc06a7, 47);
    case _ => assert IsCubeRoot(0x3_c19bf174, 53);
  }

  lemma SecondRoots(t: nat)
    requires 16 <= t < 32
    ensures IsCubeRoot(ScaledRoot(t), Prime(t))
  {
    match t
    case 16 => assert IsCubeRoot(0x3_e49b69c1, 59);
    case 17 => assert IsCubeRoot(0x3_efbe4786, 61);
    case 18 => assert IsCubeRoot(0x4_0fc19dc6, 67);
    case 19 => assert IsCubeRoot(0x4_240ca1cc, 71);
    case 20 => assert IsCubeRoot(0x4_2de92c6f, 73);
    case 21 => assert IsCubeRoot(0x4_4a7484aa, 79);
    case 22 => assert IsCubeRoot(0x4_5cb0a9dc, 83);
    case 23 => assert IsCubeRoot(0x4_76f988da, 89);
    case 24 => assert IsCubeRoot(0x4_983e5152, 97);
    case 25 => assert IsCubeRoot(0x4_a831c66d, 101);
    case 26 => assert IsCubeRoot(0x4_b00327c8, 103);
    case 27 => assert IsCubeRoot(0x4_bf597fc7, 107);
    case 28 => assert IsCubeRoot(0x4_c6e00bf3, 109);
    case 29 => assert IsCubeRoot(0x4_d5a79147, 113);
    case 30 => assert IsCubeRoot(0x5_06ca6351, 127);
    case _ => assert IsCubeRoot(0x5_14292967, 131);
  }

  lemma ThirdRoots(t: nat)
    requires 32 <= t < 48
    ensures IsCubeRoot(ScaledRoot(t), Prime(t))
  {
    match t
    case 32 => assert IsCubeRoot(0x5_27b70a85, 137);
    case 33 => assert IsCubeRoot(0x5_2e1b2138, 139);
    case 34 => assert IsCubeRoot(0x5_4d2c6dfc, 149);
    case 35 => assert IsCubeRoot(0x5_53380d13, 151);
    case 36 => assert IsCubeRoot(0x5_650a7354, 157);
    case 37 => assert IsCubeRoot(0x5_766a0abb, 163);
    case 38 => assert IsCubeRoot(0x5_81c2c92e, 167);
    case 39 => assert IsCubeRoot(0x5_92722c85, 173);
    case 40 => assert IsCubeRoot(0x5_a2bfe8a1, 179);
    case 41 => assert IsCubeRoot(0x5_a81a664b, 181);
    case 42 => assert IsCubeRoot(0x5_c24b8b70, 191);
    case 43 => assert IsCubeRoot(0x5_c76c51a3, 193);
    case 44 => assert IsCubeRoot(0x5_d192e819, 197);
    case 45 => assert IsCubeRoot(0x5_d6990624, 199);
    case 46 => assert IsCubeRoot(0x5_f40e3585, 211);
    case _ => assert IsCubeRoot(0x6_106aa070, 223);
  }

  lemma FourthRoots(t: nat)
    requires 48 <= t < 64
    ensures IsCubeRoot(ScaledRoot(t), Prime(t))
  {
    match t
    case 48 => assert IsCubeRoot(0x6_19a4c116, 227);
    case 49 => assert IsCubeRoot(0x6_1e376c08, 229);
    case 50 => assert IsCubeRoot(0x6_2748774c, 233);
    case 51 => assert IsCubeRoot(0x6_34b0bcb5, 239);
    case 52 => assert IsCubeRoot(0x6_391c0cb3, 241);
    case 53 => assert IsCubeRoot(0x6_4ed8aa4a, 251);
    case 54 => assert IsCubeRoot(0x6_5b9cca4f, 257);
    case 55 => assert IsCubeRoot(0x6_682e6ff3, 263);
    case 56 => assert IsCubeRoot(0x6_748f82ee, 269);
    case 57 => assert IsCubeRoot(0x6_78a5636f, 271);
    case 58 => assert IsCubeRoot(0x6_84c87814, 277);
    case 59 => assert IsCubeRoot(0x6_8cc70208, 281);
    case 60 => assert IsCubeRoot(0x6_90befffa, 283);
    case 61 => assert IsCubeRoot(0x6_a4506ceb, 293);
    case 62 => assert IsCubeRoot(0x6_bef9a3f7, 307);
    case _ => assert IsCubeRoot(0x6_c67178f2, 311);
  }

  lemma Roots(t: nat)
    requires t < 64
    ensures IsCubeRoot(ScaledRoot(t), Prime(t))
  {
    if t < 16 {
      FirstRoots(t);
    } else if t < 32 {
      SecondRoots(t);
    } else if t < 48 {
      ThirdRoots(t);
    } else {
      FourthRoots(t);
    }
  }

  /** The constant of round t is the first 32 bits of the fractional part of the cube root of the t-th prime. */
  lemma RoundConstants(t: nat) returns (c: nat)
    requires t < 64
    ensures IsCubeRoot(c, Prime(t)) && c % 0x1_0000_0000 == RoundConstant(t)
  {
    c := ScaledRoot(t);
    assert c % 0x1_0000_0000 == RoundConstant(t);
    Roots(t);
  }

  /** The initial words, in order. */
  function InitialWord(t: nat): Word
    requires t < 8
  {
    [INITIAL.a, INITIAL.b, INITIAL.c, INITIAL.d, INITIAL.e, INITIAL.f, INITIAL.g, INITIAL.h][t]
  }

  /** The initial words come from the square roots of the first eight primes in the same way. */
  lemma InitialWords(t: nat) returns (c: nat)
    requires t < 8
    ensures IsSquareRoot(c, Prime(t)) && c % 0x1_0000_0000 == InitialWord(t)
  {
    c := (if t < 2 then 1 else if t < 4 then 2 else if t < 6 then 3 else 4) * 0x1_0000_0000 + InitialWord(t);
    match t
    case 0 => assert IsSquareRoot(0x1_6a09e667, 2);
    case 1 => assert IsSquareRoot(0x1_bb67ae85, 3);
    case 2 => assert IsSquareRoot(0x2_3c6ef372, 5);
    case 3 => assert IsSquareRoot(0x2_a54ff53a, 7);
    case 4 => assert IsSquareRoot(0x3_510e527f, 11);
    case 5 => assert IsSquareRoot(0x3_9b05688c, 13);
    case 6 => assert IsSquareRoot(0x4_1f83d9ab, 17);
    case _ => assert IsSquareRoot(0x4_5be0cd19, 19);
  }
}
