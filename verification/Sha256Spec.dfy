/** SHA-256 as sections 3.2, 4.1.2, 4.2.2, 5.1.1, 5.2.1, 5.3.3 and 6.2.2 of FIPS 180-4 define it, on bytes. */
module Sha256Spec {
  import opened Words

  type Byte = x: int | 0 <= x < 256

  const K_A: seq<Word> := [
    0x428a2f98, 0x71374491, 0xb5c0fbcf, 0xe9b5dba5, 0x3956c25b, 0x59f111f1, 0x923f82a4, 0xab1c5ed5,
    0xd807aa98, 0x12835b01, 0x243185be, 0x550c7dc3, 0x72be5d74, 0x80deb1fe, 0x9bdc06a7, 0xc19bf174
  ]

  const K_B: seq<Word> := [
    0xe49b69c1, 0xefbe4786, 0x0fc19dc6, 0x240ca1cc, 0x2de92c6f, 0x4a7484aa, 0x5cb0a9dc, 0x76f988da,
    0x983e5152, 0xa831c66d, 0xb00327c8, 0xbf597fc7, 0xc6e00bf3, 0xd5a79147, 0x06ca6351, 0x14292967
  ]

  const K_C: seq<Word> := [
    0x27b70a85, 0x2e1b2138, 0x4d2c6dfc, 0x53380d13, 0x650a7354, 0x766a0abb, 0x81c2c92e, 0x92722c85,
    0xa2bfe8a1, 0xa81a664b, 0xc24b8b70, 0xc76c51a3, 0xd192e819, 0xd6990624, 0xf40e3585, 0x106aa070
  ]

  const K_D: seq<Word> := [
    0x19a4c116, 0x1e376c08, 0x2748774c, 0x34b0bcb5, 0x391c0cb3, 0x4ed8aa4a, 0x5b9cca4f, 0x682e6ff3,
    0x748f82ee, 0x78a5636f, 0x84c87814, 0x8cc70208, 0x90befffa, 0xa4506ceb, 0xbef9a3f7, 0xc67178f2
  ]

  const K: seq<Word> := K_A + K_B + K_C + K_D

  const INITIAL_HASH: seq<Word> := [
    0x6a09e667, 0xbb67ae85, 0x3c6ef372, 0xa54ff53a, 0x510e527f, 0x9b05688c, 0x1f83d9ab, 0x5be0cd19
  ]

  // ---- functions on words (section 4.1.2) ------------------------------------

  function Ch(x: Word, y: Word, z: Word): Word { Xor(And(x, y), And(Not(x), z)) }
  function Maj(x: Word, y: Word, z: Word): Word { Xor(Xor(And(x, y), And(x, z)), And(y, z)) }
  function BigSigma0(x: Word): Word { Xor(Xor(RotR(x, 2), RotR(x, 13)), RotR(x, 22)) }
  function BigSigma1(x: Word): Word { Xor(Xor(RotR(x, 6), RotR(x, 11)), RotR(x, 25)) }
  function SmallSigma0(x: Word): Word { Xor(Xor(RotR(x, 7), RotR(x, 18)), Shr(x, 3)) }
  function SmallSigma1(x: Word): Word { Xor(Xor(RotR(x, 17), RotR(x, 19)), Shr(x, 10)) }

  /** Bit by bit, x chooses between y and z. */
  lemma ChChooses(x: Word, y: Word, z: Word, k: nat)
    requires k < 32
    ensures Bit(Ch(x, y, z), k) == if Bit(x, k) then Bit(y, k) else Bit(z, k)
  {
    BitOfNot(x, k);
    BitOfAnd(x, y, k);
    BitOfAnd(Not(x), z, k);
    BitOfXor(And(x, y), And(Not(x), z), k);
  }

  /** Bit by bit, the one that at least two of the three have. */
  lemma MajIsTheMajority(x: Word, y: Word, z: Word, k: nat)
    requires k < 32
    ensures Bit(Maj(x, y, z), k) == if Bit(x, k) == Bit(y, k) then Bit(x, k) else Bit(z, k)
  {
    BitOfAnd(x, y, k);
    BitOfAnd(x, z, k);
    BitOfAnd(y, z, k);
    BitOfXor(And(x, y), And(x, z), k);
    BitOfXor(Xor(And(x, y), And(x, z)), And(y, z), k);
  }

  lemma BitOfAnd(x: Word, y: Word, k: nat)
    requires k < 32
    ensures Bit(And(x, y), k) == (Bit(x, k) && Bit(y, k))
  {
    BitOfBitwise((a, b) => a && b, x, y, 32, k);
  }

  lemma BitOfXor(x: Word, y: Word, k: nat)
    requires k < 32
    ensures Bit(Xor(x, y), k) == (Bit(x, k) != Bit(y, k))
  {
    BitOfBitwise((a, b) => a != b, x, y, 32, k);
  }

  // ---- bytes and words -------------------------------------------------------

  function Be32(v: nat): (b: seq<Byte>)
    ensures |b| == 4
  {
    [v / 0x100_0000 % 256, v / 0x1_0000 % 256, v / 0x100 % 256, v % 256]
  }

  function Be64(v: nat): (b: seq<Byte>)
    ensures |b| == 8
  {
    [v / 0x100_0000_0000_0000 % 256, v / 0x1_0000_0000_0000 % 256, v / 0x100_0000_0000 % 256, v / 0x1_0000_0000 % 256,
     v / 0x100_0000 % 256, v / 0x1_0000 % 256, v / 0x100 % 256, v % 256]
  }

  function WordAt(bytes: seq<Byte>, at: nat): Word
    requires at + 4 <= |bytes|
  {
    var (b0: int, b1: int, b2: int, b3: int) := (bytes[at], bytes[at + 1], bytes[at + 2], bytes[at + 3]);
    b0 * 0x100_0000 + b1 * 0x1_0000 + b2 * 0x100 + b3
  }

  // ---- preprocessing (sections 5.1.1 and 5.2.1) ------------------------------

  /** The smallest k >= 0 with len + 1 + k = 56 modulo 64. */
  function ZeroBytes(len: nat): (k: nat)
    ensures (len + 1 + k) % 64 == 56 && k < 64
  {
    (55 - len) % 64
  }

  lemma ZeroBytesAreFewest(len: nat, j: nat)
    requires (len + 1 + j) % 64 == 56
    ensures ZeroBytes(len) <= j
  {
  }

  function Zeros(k: nat): seq<Byte> {
    seq(k, _ => 0)
  }

  /** One set bit, the zeros, and the length in bits as a 64-bit number. */
  function Pad(data: seq<Byte>): (p: seq<Byte>)
    ensures |p| == |data| + 1 + ZeroBytes(|data|) + 8
  {
    data + [0x80] + Zeros(ZeroBytes(|data|)) + Be64(8 * |data|)
  }

  function Block(bytes: seq<Byte>, n: nat): (m: seq<Word>)
    requires 64 * n + 64 <= |bytes|
    ensures |m| == 16
  {
    seq(16, i requires 0 <= i < 16 => WordAt(bytes, 64 * n + 4 * i))
  }

  // ---- hash computation (section 6.2.2) --------------------------------------

  /** The first n words of the message schedule. */
  function Schedule(m: seq<Word>, n: nat): (w: seq<Word>)
    requires |m| == 16 && n <= 64
    ensures |w| == n
  {
    if n <= 16 then m[..n]
    else
      var w := Schedule(m, n - 1);
      var t := n - 1;
      w + [Plus(Plus(Plus(SmallSigma1(w[t - 2]), w[t - 7]), SmallSigma0(w[t - 15])), w[t - 16])]
  }

  datatype Working = Working(a: Word, b: Word, c: Word, d: Word, e: Word, f: Word, g: Word, h: Word)

  function Round(v: Working, k: Word, w: Word): Working {
    var t1 := Plus(Plus(Plus(Plus(v.h, BigSigma1(v.e)), Ch(v.e, v.f, v.g)), k), w);
    var t2 := Plus(BigSigma0(v.a), Maj(v.a, v.b, v.c));
    Working(Plus(t1, t2), v.a, v.b, v.c, Plus(v.d, t1), v.e, v.f, v.g)
  }

  function Rounds(v: Working, w: seq<Word>, n: nat): Working
    requires n <= |w| == 64
  {
    if n == 0 then v else Round(Rounds(v, w, n - 1), K[n - 1], w[n - 1])
  }

  function Compress(h: Working, m: seq<Word>): Working
    requires |m| == 16
  {
    Sum(h, Rounds(h, Schedule(m, 64), 64))
  }

  function Sum(u: Working, v: Working): Working {
    Working(Plus(u.a, v.a), Plus(u.b, v.b), Plus(u.c, v.c), Plus(u.d, v.d),
            Plus(u.e, v.e), Plus(u.f, v.f), Plus(u.g, v.g), Plus(u.h, v.h))
  }

  function Loaded(h: seq<Word>): Working
    requires |h| == 8
  {
    Working(h[0], h[1], h[2], h[3], h[4], h[5], h[6], h[7])
  }

  function Stored(v: Working): (h: seq<Word>)
    ensures |h| == 8 && Loaded(h) == v
  {
    [v.a, v.b, v.c, v.d, v.e, v.f, v.g, v.h]
  }

  /** The hash value after the first n blocks. */
  function HashValue(bytes: seq<Byte>, n: nat): Working
    requires 64 * n <= |bytes|
  {
    if n == 0 then Loaded(INITIAL_HASH)
    else Compress(HashValue(bytes, n - 1), Block(bytes, n - 1))
  }

  function WordBytes(words: seq<Word>): (b: seq<Byte>)
    ensures |b| == 4 * |words|
  {
    if words == [] then [] else WordBytes(words[..|words| - 1]) + Be32(words[|words| - 1])
  }

  function Digest(data: seq<Byte>): (d: seq<Byte>)
    ensures |d| == 32
  {
    var p := Pad(data);
    WordBytes(Stored(HashValue(p, |p| / 64)))
  }
}
