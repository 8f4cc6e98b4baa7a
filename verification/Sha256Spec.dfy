/** SHA-256 as FIPS 180-4 defines it: padding (section 5.1.1), message schedule and compression
    (section 6.2.2), folded over the blocks of the padded message. */
module Sha256Spec {
  import opened Base

  type Word = bv32

  const K: seq<Word> :=
    [0x428a2f98, 0x71374491, 0xb5c0fbcf, 0xe9b5dba5, 0x3956c25b, 0x59f111f1, 0x923f82a4, 0xab1c5ed5]
    + [0xd807aa98, 0x12835b01, 0x243185be, 0x550c7dc3, 0x72be5d74, 0x80deb1fe, 0x9bdc06a7, 0xc19bf174]
    + [0xe49b69c1, 0xefbe4786, 0x0fc19dc6, 0x240ca1cc, 0x2de92c6f, 0x4a7484aa, 0x5cb0a9dc, 0x76f988da]
    + [0x983e5152, 0xa831c66d, 0xb00327c8, 0xbf597fc7, 0xc6e00bf3, 0xd5a79147, 0x06ca6351, 0x14292967]
    + [0x27b70a85, 0x2e1b2138, 0x4d2c6dfc, 0x53380d13, 0x650a7354, 0x766a0abb, 0x81c2c92e, 0x92722c85]
    + [0xa2bfe8a1, 0xa81a664b, 0xc24b8b70, 0xc76c51a3, 0xd192e819, 0xd6990624, 0xf40e3585, 0x106aa070]
    + [0x19a4c116, 0x1e376c08, 0x2748774c, 0x34b0bcb5, 0x391c0cb3, 0x4ed8aa4a, 0x5b9cca4f, 0x682e6ff3]
    + [0x748f82ee, 0x78a5636f, 0x84c87814, 0x8cc70208, 0x90befffa, 0xa4506ceb, 0xbef9a3f7, 0xc67178f2]

  /** The eight working words. */
  datatype Words = Words(a: Word, b: Word, c: Word, d: Word, e: Word, f: Word, g: Word, h: Word)

  const INITIAL: Words := Words(0x6a09e667, 0xbb67ae85, 0x3c6ef372, 0xa54ff53a,
                                0x510e527f, 0x9b05688c, 0x1f83d9ab, 0x5be0cd19)

  // ----- functions of section 4.1.2

  /** Addition modulo 2^32. */
  function Add(x: Word, y: Word): Word { x + y }

  function Ch(x: Word, y: Word, z: Word): Word { (x & y) ^ (!x & z) }
  function Maj(x: Word, y: Word, z: Word): Word { ((x & y) ^ (x & z)) ^ (y & z) }
  function Xor(x: Word, y: Word, z: Word): Word { (x ^ y) ^ z }
  function BigSigma0(x: Word): Word { Xor(x.RotateRight(2), x.RotateRight(13), x.RotateRight(22)) }
  function BigSigma1(x: Word): Word { Xor(x.RotateRight(6), x.RotateRight(11), x.RotateRight(25)) }
  function SmallSigma0(x: Word): Word { Xor(x.RotateRight(7), x.RotateRight(18), x >> 3) }
  function SmallSigma1(x: Word): Word { Xor(x.RotateRight(17), x.RotateRight(19), x >> 10) }

  // ----- compression of one 64-byte block

  /** Four bytes, most significant first. */
  function BytesToWord(b0: Byte, b1: Byte, b2: Byte, b3: Byte): Word {
    ((b0 as bv32) << 24) | ((b1 as bv32) << 16) | ((b2 as bv32) << 8) | (b3 as bv32)
  }

  /** A later schedule word; addition is modulo 2^32, so the order of the terms is immaterial. */
  function ScheduleWord(w2: Word, w7: Word, w15: Word, w16: Word): Word {
    Add(Add(Add(w16, SmallSigma0(w15)), w7), SmallSigma1(w2))
  }

  function Schedule(block: Bytes, t: nat): Word
    requires |block| == 64 && t < 64
    decreases t
  {
    if t < 16 then BytesToWord(block[4 * t], block[4 * t + 1], block[4 * t + 2], block[4 * t + 3])
    else ScheduleWord(Schedule(block, t - 2), Schedule(block, t - 7), Schedule(block, t - 15), Schedule(block, t - 16))
  }

  lemma ScheduleEarly(block: Bytes, t: nat)
    requires |block| == 64 && t < 16
    ensures Schedule(block, t) == BytesToWord(block[4 * t], block[4 * t + 1], block[4 * t + 2], block[4 * t + 3])
  {
    hide BytesToWord;
  }

  lemma ScheduleLate(block: Bytes, t: nat)
    requires |block| == 64 && 16 <= t < 64
    ensures Schedule(block, t) ==
            ScheduleWord(Schedule(block, t - 2), Schedule(block, t - 7), Schedule(block, t - 15),
                         Schedule(block, t - 16))
  {
    hide ScheduleWord;
  }

  function Round(s: Words, k: Word, w: Word): Words {
    var t1 := Add(Add(Add(Add(s.h, BigSigma1(s.e)), Ch(s.e, s.f, s.g)), k), w);
    var t2 := Add(BigSigma0(s.a), Maj(s.a, s.b, s.c));
    Words(Add(t1, t2), s.a, s.b, s.c, Add(s.d, t1), s.e, s.f, s.g)
  }

  /** The working words after `t` rounds. */
  function Rounds(start: Words, block: Bytes, t: nat): Words
    requires |block| == 64 && t <= 64
  {
    if t == 0 then start else Round(Rounds(start, block, t - 1), K[t - 1], Schedule(block, t - 1))
  }

  function AddWords(x: Words, y: Words): Words {
    Words(Add(x.a, y.a), Add(x.b, y.b), Add(x.c, y.c), Add(x.d, y.d),
          Add(x.e, y.e), Add(x.f, y.f), Add(x.g, y.g), Add(x.h, y.h))
  }

  function Compress(h: Words, block: Bytes): Words
    requires |block| == 64
  {
    AddWords(h, Rounds(h, block, 64))
  }

  /** The chaining value after all the blocks of `bs`. */
  function Fold(bs: Bytes): Words
    requires |bs| % 64 == 0
  {
    if bs == [] then INITIAL else
      var n := |bs| - 64;
      Compress(Fold(bs[..n]), bs[n..])
  }

  // ----- padding and digest

  /** The `n` low-order bytes of `v`, most significant first. */
  function BigEndian(v: nat, n: nat): (r: Bytes)
    ensures |r| == n
    decreases n, v
  {
    if n == 0 then [] else BigEndian(v / 256, n - 1) + [v % 256]
  }

  function Zeros(n: nat): (r: Bytes)
    ensures |r| == n && forall i :: 0 <= i < n ==> r[i] == 0
  {
    if n == 0 then [] else Zeros(n - 1) + [0]
  }

  /** A one bit, the fewest zeros that leave room for the length, and the length in bits. */
  function Padded(message: Bytes): (r: Bytes)
    ensures |r| % 64 == 0
  {
    message + [0x80] + Zeros((55 - |message|) % 64) + BigEndian(8 * |message|, 8)
  }

  function WordToBytes(w: Word): (r: Bytes)
    ensures |r| == 4
  {
    [((w >> 24) & 0xff) as bv8 as int, ((w >> 16) & 0xff) as bv8 as int,
     ((w >> 8) & 0xff) as bv8 as int, (w & 0xff) as bv8 as int]
  }

  function Digest(s: Words): Hash {
    WordToBytes(s.a) + WordToBytes(s.b) + WordToBytes(s.c) + WordToBytes(s.d)
    + WordToBytes(s.e) + WordToBytes(s.f) + WordToBytes(s.g) + WordToBytes(s.h)
  }

  function HashOf(message: Bytes): Hash {
    Digest(Fold(Padded(message)))
  }
}
