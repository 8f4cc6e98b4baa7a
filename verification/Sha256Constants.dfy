/** Where the constants and the bit functions of SHA-256 come from (FIPS 180-4, sections 4.1.2, 4.2.2, 5.1.1
    and 5.3.3). */
module Sha256Constants {
  import opened Base
  import opened ByteIO
  import opened Sha256Spec

  // ----- square and cube roots of the first primes

  /** `v` is the first 32 bits of the fractional part of the square root of `p`. */
  predicate SquareRootBits(v: nat, p: nat, root: nat) {
    var q := root * TWO_32 + v;
    v < TWO_32 && q * q <= p * TWO_64 < (q + 1) * (q + 1)
  }

  /** `v` is the first 32 bits of the fractional part of the cube root of `p`. */
  predicate CubeRootBits(v: nat, p: nat, root: nat) {
    var q := root * TWO_32 + v;
    v < TWO_32 && q * q * q <= p * TWO_64 * TWO_32 < (q + 1) * (q + 1) * (q + 1)
  }

  lemma InitialWords()
    ensures INITIAL.a == 0x6a09e667 && SquareRootBits(0x6a09e667, 2, 1)
    ensures INITIAL.b == 0xbb67ae85 && SquareRootBits(0xbb67ae85, 3, 1)
    ensures INITIAL.c == 0x3c6ef372 && SquareRootBits(0x3c6ef372, 5, 2)
    ensures INITIAL.d == 0xa54ff53a && SquareRootBits(0xa54ff53a, 7, 2)
    ensures INITIAL.e == 0x510e527f && SquareRootBits(0x510e527f, 11, 3)
    ensures INITIAL.f == 0x9b05688c && SquareRootBits(0x9b05688c, 13, 3)
    ensures INITIAL.g == 0x1f83d9ab && SquareRootBits(0x1f83d9ab, 17, 4)
    ensures INITIAL.h == 0x5be0cd19 && SquareRootBits(0x5be0cd19, 19, 4)
  {
  }

  lemma RoundConstants0()
    ensures K[0] == 0x428a2f98 && CubeRootBits(0x428a2f98, 2, 1)
    ensures K[1] == 0x71374491 && CubeRootBits(0x71374491, 3, 1)
    ensures K[2] == 0xb5c0fbcf && CubeRootBits(0xb5c0fbcf, 5, 1)
    ensures K[3] == 0xe9b5dba5 && CubeRootBits(0xe9b5dba5, 7, 1)
    ensures K[4] == 0x3956c25b && CubeRootBits(0x3956c25b, 11, 2)
    ensures K[5] == 0x59f111f1 && CubeRootBits(0x59f111f1, 13, 2)
    ensures K[6] == 0x923f82a4 && CubeRootBits(0x923f82a4, 17, 2)
    ensures K[7] == 0xab1c5ed5 && CubeRootBits(0xab1c5ed5, 19, 2)
  {
  }

  lemma RoundConstants8()
    ensures K[8] == 0xd807aa98 && CubeRootBits(0xd807aa98, 23, 2)
    ensures K[9] == 0x12835b01 && CubeRootBits(0x12835b01, 29, 3)
    ensures K[10] == 0x243185be && CubeRootBits(0x243185be, 31, 3)
    ensures K[11] == 0x550c7dc3 && CubeRootBits(0x550c7dc3, 37, 3)
    ensures K[12] == 0x72be5d74 && CubeRootBits(0x72be5d74, 41, 3)
    ensures K[13] == 0x80deb1fe && CubeRootBits(0x80deb1fe, 43, 3)
    ensures K[14] == 0x9bdc06a7 && CubeRootBits(0x9bdc06a7, 47, 3)
    ensures K[15] == 0xc19bf174 && CubeRootBits(0xc19bf174, 53, 3)
  {
  }

  lemma RoundConstants16()
    ensures K[16] == 0xe49b69c1 && CubeRootBits(0xe49b69c1, 59, 3)
    ensures K[17] == 0xefbe4786 && CubeRootBits(0xefbe4786, 61, 3)
    ensures K[18] == 0x0fc19dc6 && CubeRootBits(0x0fc19dc6, 67, 4)
    ensures K[19] == 0x240ca1cc && CubeRootBits(0x240ca1cc, 71, 4)
    ensures K[20] == 0x2de92c6f && CubeRootBits(0x2de92c6f, 73, 4)
    ensures K[21] == 0x4a7484aa && CubeRootBits(0x4a7484aa, 79, 4)
    ensures K[22] == 0x5cb0a9dc && CubeRootBits(0x5cb0a9dc, 83, 4)
    ensures K[23] == 0x76f988da && CubeRootBits(0x76f988da, 89, 4)
  {
  }

  lemma RoundConstants24()
    ensures K[24] == 0x983e5152 && CubeRootBits(0x983e5152, 97, 4)
    ensures K[25] == 0xa831c66d && CubeRootBits(0xa831c66d, 101, 4)
    ensures K[26] == 0xb00327c8 && CubeRootBits(0xb00327c8, 103, 4)
    ensures K[27] == 0xbf597fc7 && CubeRootBits(0xbf597fc7, 107, 4)
    ensures K[28] == 0xc6e00bf3 && CubeRootBits(0xc6e00bf3, 109, 4)
    ensures K[29] == 0xd5a79147 && CubeRootBits(0xd5a79147, 113, 4)
    ensures K[30] == 0x06ca6351 && CubeRootBits(0x06ca6351, 127, 5)
    ensures K[31] == 0x14292967 && CubeRootBits(0x14292967, 131, 5)
  {
  }

  lemma RoundConstants32()
    ensures K[32] == 0x27b70a85 && CubeRootBits(0x27b70a85, 137, 5)
    ensures K[33] == 0x2e1b2138 && CubeRootBits(0x2e1b2138, 139, 5)
    ensures K[34] == 0x4d2c6dfc && CubeRootBits(0x4d2c6dfc, 149, 5)
    ensures K[35] == 0x53380d13 && CubeRootBits(0x53380d13, 151, 5)
    ensures K[36] == 0x650a7354 && CubeRootBits(0x650a7354, 157, 5)
    ensures K[37] == 0x766a0abb && CubeRootBits(0x766a0abb, 163, 5)
    ensures K[38] == 0x81c2c92e && CubeRootBits(0x81c2c92e, 167, 5)
    ensures K[39] == 0x92722c85 && CubeRootBits(0x92722c85, 173, 5)
  {
  }

  lemma RoundConstants40()
    ensures K[40] == 0xa2bfe8a1 && CubeRootBits(0xa2bfe8a1, 179, 5)
    ensures K[41] == 0xa81a664b && CubeRootBits(0xa81a664b, 181, 5)
    ensures K[42] == 0xc24b8b70 && CubeRootBits(0xc24b8b70, 191, 5)
    ensures K[43] == 0xc76c51a3 && CubeRootBits(0xc76c51a3, 193, 5)
    ensures K[44] == 0xd192e819 && CubeRootBits(0xd192e819, 197, 5)
    ensures K[45] == 0xd6990624 && CubeRootBits(0xd6990624, 199, 5)
    ensures K[46] == 0xf40e3585 && CubeRootBits(0xf40e3585, 211, 5)
    ensures K[47] == 0x106aa070 && CubeRootBits(0x106aa070, 223, 6)
  {
  }

  lemma RoundConstants48()
    ensures K[48] == 0x19a4c116 && CubeRootBits(0x19a4c116, 227, 6)
    ensures K[49] == 0x1e376c08 && CubeRootBits(0x1e376c08, 229, 6)
    ensures K[50] == 0x2748774c && CubeRootBits(0x2748774c, 233, 6)
    ensures K[51] == 0x34b0bcb5 && CubeRootBits(0x34b0bcb5, 239, 6)
    ensures K[52] == 0x391c0cb3 && CubeRootBits(0x391c0cb3, 241, 6)
    ensures K[53] == 0x4ed8aa4a && CubeRootBits(0x4ed8aa4a, 251, 6)
    ensures K[54] == 0x5b9cca4f && CubeRootBits(0x5b9cca4f, 257, 6)
    ensures K[55] == 0x682e6ff3 && CubeRootBits(0x682e6ff3, 263, 6)
  {
  }

  lemma RoundConstants56()
    ensures K[56] == 0x748f82ee && CubeRootBits(0x748f82ee, 269, 6)
    ensures K[57] == 0x78a5636f && CubeRootBits(0x78a5636f, 271, 6)
    ensures K[58] == 0x84c87814 && CubeRootBits(0x84c87814, 277, 6)
    ensures K[59] == 0x8cc70208 && CubeRootBits(0x8cc70208, 281, 6)
    ensures K[60] == 0x90befffa && CubeRootBits(0x90befffa, 283, 6)
    ensures K[61] == 0xa4506ceb && CubeRootBits(0xa4506ceb, 293, 6)
    ensures K[62] == 0xbef9a3f7 && CubeRootBits(0xbef9a3f7, 307, 6)
    ensures K[63] == 0xc67178f2 && CubeRootBits(0xc67178f2, 311, 6)
  {
  }

  // ----- bit functions

  /** Bit by bit, `Ch` takes `y` where `x` is set and `z` where it is not. */
  lemma Choice(x: Word, y: Word, z: Word)
    ensures Ch(x, y, z) & x == y & x
    ensures Ch(x, y, z) & !x == z & !x
  {
  }

  /** Bit by bit, `Maj` takes the value at least two of the three have. */
  lemma Majority(x: Word, y: Word, z: Word)
    ensures Maj(x, y, z) == ((x & y) | (x & z)) | (y & z)
  {
  }

  /** Where a single bit goes: these functions are sums of rotations and shifts of every bit alike. */
  lemma SigmaBits()
    ensures BigSigma0(1) == 0x40080400 && BigSigma1(1) == 0x04200080
    ensures SmallSigma0(1) == 0x02004000 && SmallSigma1(1) == 0x0000a000
    ensures SmallSigma0(0x80000000) == 0x11002000 && SmallSigma1(0x80000000) == 0x00205000
  {
  }

  // ----- bytes

  /** Words are read and written with the most significant byte first. */
  lemma WordBytes()
    ensures BytesToWord(0x61, 0x62, 0x63, 0x80) == 0x61626380
    ensures WordToBytes(0x61626380) == [0x61, 0x62, 0x63, 0x80]
  {
  }

  lemma {:induction false} BigEndianAt(v: nat, n: nat, i: nat)
    requires i < n
    ensures BigEndian(v, n)[n - 1 - i] == (v / Pow256(i)) % 256
  {
    if i > 0 {
      BigEndianAt(v / 256, n - 1, i - 1);
      DivDiv(v, Pow256(i - 1));
    }
  }

  /** The padded message: a set bit, the fewest zeros, and the length in bits, most significant byte first. */
  lemma PaddedShape(message: Bytes)
    ensures var p := Padded(message); var n := |message|;
            && |p| % 64 == 0 && n + 9 <= |p| < n + 9 + 64
            && p[..n] == message && p[n] == 0x80
            && (forall i :: n < i < |p| - 8 ==> p[i] == 0)
            && (forall i :: 0 <= i < 8 ==> p[|p| - 1 - i] == (8 * n / Pow256(i)) % 256)
  {
    hide BigEndian;
    var p, n := Padded(message), |message|;
    forall i | 0 <= i < 8
      ensures p[|p| - 1 - i] == (8 * n / Pow256(i)) % 256
    {
      BigEndianAt(8 * n, 8, i);
    }
  }
}
