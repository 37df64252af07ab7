/** Where the constants of SHA-256 come from (sections 4.2.2 and 5.3.3 of FIPS 180-4). */
module Sha256Constants {
  import opened Words
  import opened Sha256Spec

  /** `k` is the first 32 bits of the fraction of the cube root of p, whose whole part is `whole`. */
  predicate IsCubeRoot(p: nat, whole: nat, k: Word) {
    var r := whole * MODULUS + k;
    r * r * r <= p * (MODULUS * MODULUS * MODULUS) < (r + 1) * (r + 1) * (r + 1)
  }

  predicate IsSquareRoot(p: nat, whole: nat, h: Word) {
    var r := whole * MODULUS + h;
    r * r <= p * (MODULUS * MODULUS) < (r + 1) * (r + 1)
  }

  /** The initial hash value: the square roots of the first eight primes. */
  lemma InitialHash()
    ensures
      && IsSquareRoot(2, 1, INITIAL_HASH[0]) && IsSquareRoot(3, 1, INITIAL_HASH[1])
      && IsSquareRoot(5, 2, INITIAL_HASH[2]) && IsSquareRoot(7, 2, INITIAL_HASH[3])
      && IsSquareRoot(11, 3, INITIAL_HASH[4]) && IsSquareRoot(13, 3, INITIAL_HASH[5])
      && IsSquareRoot(17, 4, INITIAL_HASH[6]) && IsSquareRoot(19, 4, INITIAL_HASH[7])
  {
  }

  /** The first sixteen constants of the rounds: the cube roots of the primes from 2 to 53. */
  lemma FirstConstants()
    ensures
      && IsCubeRoot(2, 1, K_A[0]) && IsCubeRoot(3, 1, K_A[1]) && IsCubeRoot(5, 1, K_A[2])
      && IsCubeRoot(7, 1, K_A[3]) && IsCubeRoot(11, 2, K_A[4]) && IsCubeRoot(13, 2, K_A[5])
      && IsCubeRoot(17, 2, K_A[6]) && IsCubeRoot(19, 2, K_A[7]) && IsCubeRoot(23, 2, K_A[8])
      && IsCubeRoot(29, 3, K_A[9]) && IsCubeRoot(31, 3, K_A[10]) && IsCubeRoot(37, 3, K_A[11])
      && IsCubeRoot(41, 3, K_A[12]) && IsCubeRoot(43, 3, K_A[13]) && IsCubeRoot(47, 3, K_A[14])
      && IsCubeRoot(53, 3, K_A[15])
  {
  }

  /** The second sixteen constants of the rounds: the cube roots of the primes from 59 to 131. */
  lemma SecondConstants()
    ensures
      && IsCubeRoot(59, 3, K_B[0]) && IsCubeRoot(61, 3, K_B[1]) && IsCubeRoot(67, 4, K_B[2])
      && IsCubeRoot(71, 4, K_B[3]) && IsCubeRoot(73, 4, K_B[4]) && IsCubeRoot(79, 4, K_B[5])
      && IsCubeRoot(83, 4, K_B[6]) && IsCubeRoot(89, 4, K_B[7]) && IsCubeRoot(97, 4, K_B[8])
      && IsCubeRoot(101, 4, K_B[9]) && IsCubeRoot(103, 4, K_B[10]) && IsCubeRoot(107, 4, K_B[11])
      && IsCubeRoot(109, 4, K_B[12]) && IsCubeRoot(113, 4, K_B[13]) && IsCubeRoot(127, 5, K_B[14])
      && IsCubeRoot(131, 5, K_B[15])
  {
  }

  /** The third sixteen constants of the rounds: the cube roots of the primes from 137 to 223. */
  lemma ThirdConstants()
    ensures
      && IsCubeRoot(137, 5, K_C[0]) && IsCubeRoot(139, 5, K_C[1]) && IsCubeRoot(149, 5, K_C[2])
      && IsCubeRoot(151, 5, K_C[3]) && IsCubeRoot(157, 5, K_C[4]) && IsCubeRoot(163, 5, K_C[5])
      && IsCubeRoot(167, 5, K_C[6]) && IsCubeRoot(173, 5, K_C[7]) && IsCubeRoot(179, 5, K_C[8])
      && IsCubeRoot(181, 5, K_C[9]) && IsCubeRoot(191, 5, K_C[10]) && IsCubeRoot(193, 5, K_C[11])
      && IsCubeRoot(197, 5, K_C[12]) && IsCubeRoot(199, 5, K_C[13]) && IsCubeRoot(211, 5, K_C[14])
      && IsCubeRoot(223, 6, K_C[15])
  {
  }

  /** The fourth sixteen constants of the rounds: the cube roots of the primes from 227 to 311. */
  lemma FourthConstants()
    ensures
      && IsCubeRoot(227, 6, K_D[0]) && IsCubeRoot(229, 6, K_D[1]) && IsCubeRoot(233, 6, K_D[2])
      && IsCubeRoot(239, 6, K_D[3]) && IsCubeRoot(241, 6, K_D[4]) && IsCubeRoot(251, 6, K_D[5])
      && IsCubeRoot(257, 6, K_D[6]) && IsCubeRoot(263, 6, K_D[7]) && IsCubeRoot(269, 6, K_D[8])
      && IsCubeRoot(271, 6, K_D[9]) && IsCubeRoot(277, 6, K_D[10]) && IsCubeRoot(281, 6, K_D[11])
      && IsCubeRoot(283, 6, K_D[12]) && IsCubeRoot(293, 6, K_D[13]) && IsCubeRoot(307, 6, K_D[14])
      && IsCubeRoot(311, 6, K_D[15])
  {
  }
}
