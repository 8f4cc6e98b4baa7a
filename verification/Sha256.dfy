/** The streaming hasher: bytes are buffered into 64-byte blocks, compressed as each fills, and
    finished with one or two padding blocks. */
module Sha256Stream {
  import opened Base
  import opened ByteIO
  import opened Sha256Spec

  const BLOCK_SIZE: nat := 64

  /** The rotation as two shifts. */
  function ShiftRotr(value: Word, bits: nat): Word
    requires 0 < bits < 32
  {
    (value >> bits) | (value << (32 - bits))
  }

  lemma ShiftsRotate(x: Word)
    ensures ShiftRotr(x, 2) == x.RotateRight(2) && ShiftRotr(x, 13) == x.RotateRight(13)
    ensures ShiftRotr(x, 22) == x.RotateRight(22) && ShiftRotr(x, 6) == x.RotateRight(6)
    ensures ShiftRotr(x, 11) == x.RotateRight(11) && ShiftRotr(x, 25) == x.RotateRight(25)
    ensures ShiftRotr(x, 7) == x.RotateRight(7) && ShiftRotr(x, 18) == x.RotateRight(18)
    ensures ShiftRotr(x, 17) == x.RotateRight(17) && ShiftRotr(x, 19) == x.RotateRight(19)
  {
  }

  function ShiftSigma0(x: Word): (r: Word)
    ensures r == SmallSigma0(x)
  {
    hide ShiftRotr, Xor;
    ShiftsRotate(x);
    Xor(ShiftRotr(x, 7), ShiftRotr(x, 18), x >> 3)
  }

  function ShiftSigma1(x: Word): (r: Word)
    ensures r == SmallSigma1(x)
  {
    hide ShiftRotr, Xor;
    ShiftsRotate(x);
    Xor(ShiftRotr(x, 17), ShiftRotr(x, 19), x >> 10)
  }

  /** A later schedule word from four earlier ones. */
  function NextWord(w16: Word, w15: Word, w7: Word, w2: Word): (r: Word)
    ensures r == ScheduleWord(w2, w7, w15, w16)
  {
    hide SmallSigma0, SmallSigma1, ShiftSigma0, ShiftSigma1, Add;
    Add(Add(Add(w16, ShiftSigma0(w15)), w7), ShiftSigma1(w2))
  }

  /** Expands a block to its 64 schedule words. */
  method ExpandSchedule(block: Bytes) returns (w: array<Word>)
    requires |block| == 64
    ensures fresh(w) && w.Length == 64 && forall t :: 0 <= t < 64 ==> w[t] == Schedule(block, t)
  {
    hide BytesToWord, NextWord, ScheduleWord, Schedule;
    w := new Word[64];
    for i := 0 to 16
      invariant forall t :: 0 <= t < i ==> w[t] == Schedule(block, t)
    {
      ScheduleEarly(block, i);
      w[i] := BytesToWord(block[i * 4], block[i * 4 + 1], block[i * 4 + 2], block[i * 4 + 3]);
    }
    for i := 16 to 64
      invariant forall t :: 0 <= t < i ==> w[t] == Schedule(block, t)
    {
      ScheduleLate(block, i);
      w[i] := NextWord(w[i - 16], w[i - 15], w[i - 7], w[i - 2]);
    }
  }

  function ShiftBigSigma0(x: Word): (r: Word)
    ensures r == BigSigma0(x)
  {
    hide ShiftRotr, Xor;
    ShiftsRotate(x);
    Xor(ShiftRotr(x, 2), ShiftRotr(x, 13), ShiftRotr(x, 22))
  }

  function ShiftBigSigma1(x: Word): (r: Word)
    ensures r == BigSigma1(x)
  {
    hide ShiftRotr, Xor;
    ShiftsRotate(x);
    Xor(ShiftRotr(x, 6), ShiftRotr(x, 11), ShiftRotr(x, 25))
  }

  /** The 64 rounds over local words. */
  method RunRounds(start: Words, block: Bytes, w: array<Word>) returns (r: Words)
    requires |block| == 64 && w.Length == 64 && forall t :: 0 <= t < 64 ==> w[t] == Schedule(block, t)
    ensures r == Rounds(start, block, 64)
  {
    hide Schedule, BigSigma0, BigSigma1, ShiftBigSigma0, ShiftBigSigma1, Ch, Maj, Rounds, Add;
    NoRounds(start, block);
    var a, b, c, d := start.a, start.b, start.c, start.d;
    var e, f, g, h := start.e, start.f, start.g, start.h;
    for i := 0 to 64
      invariant Words(a, b, c, d, e, f, g, h) == Rounds(start, block, i)
    {
      NextRound(start, block, i);
      var temp1 := Add(Add(Add(Add(h, ShiftBigSigma1(e)), Ch(e, f, g)), K[i]), w[i]);
      var temp2 := Add(ShiftBigSigma0(a), Maj(a, b, c));
      h := g;
      g := f;
      f := e;
      e := Add(d, temp1);
      d := c;
      c := b;
      b := a;
      a := Add(temp1, temp2);
    }
    r := Words(a, b, c, d, e, f, g, h);
  }

  lemma NoRounds(start: Words, block: Bytes)
    requires |block| == 64
    ensures Rounds(start, block, 0) == start
  {
  }

  lemma NextRound(start: Words, block: Bytes, t: nat)
    requires |block| == 64 && t < 64
    ensures Rounds(start, block, t + 1) == Round(Rounds(start, block, t), K[t], Schedule(block, t))
  {
    hide Schedule, Round;
  }

  // ----- the hasher

  lemma FoldAppend(bs: Bytes, block: Bytes)
    requires |bs| % 64 == 0 && |block| == 64
    ensures Fold(bs + block) == Compress(Fold(bs), block)
  {
    hide Compress;
    assert (bs + block)[..|bs|] == bs && (bs + block)[|bs|..] == block;
  }

  class Sha256Hasher {
    var state: Words
    const buffer: array<Byte>
    var bufferLen: nat
    var totalBytes: U64
    /** Every byte pushed so far, compressed or still buffered. */
    ghost var fed: Bytes

    /** The last `bufferLen` bytes pushed are in the buffer; the others have been compressed. */
    ghost predicate Holds()
      reads this`state, this`bufferLen, this`fed, buffer
    {
      && buffer.Length == BLOCK_SIZE && bufferLen <= BLOCK_SIZE && bufferLen <= |fed|
      && (|fed| - bufferLen) % 64 == 0
      && buffer[..bufferLen] == fed[|fed| - bufferLen..]
      && state == Fold(fed[..|fed| - bufferLen])
    }

    ghost predicate Ready()
      reads this, buffer
    {
      Holds() && bufferLen < BLOCK_SIZE && totalBytes == |fed| % TWO_64
    }

    constructor ()
      ensures Ready() && fed == [] && fresh(buffer)
    {
      state := INITIAL;
      buffer := new Byte[BLOCK_SIZE];
      bufferLen, totalBytes := 0, 0;
      fed := [];
    }

    method Push(b: Byte)
      requires Holds() && bufferLen < BLOCK_SIZE
      modifies this`bufferLen, this`fed, buffer
      ensures Holds() && bufferLen == old(bufferLen) + 1 && fed == old(fed) + [b]
    {
      hide Fold;
      buffer[bufferLen] := b;
      bufferLen := bufferLen + 1;
      fed := fed + [b];
      assert fed[..|fed| - bufferLen] == old(fed)[..|old(fed)| - old(bufferLen)];
    }

    /** Compresses a full buffer. */
    method ProcessBlock()
      requires Holds() && bufferLen == BLOCK_SIZE
      modifies this`state, this`bufferLen
      ensures Holds() && bufferLen == 0
    {
      hide Fold, Rounds, Schedule, Add;
      var block := buffer[..];
      var w := ExpandSchedule(block);
      var out := RunRounds(state, block, w);
      ghost var done := fed[..|fed| - BLOCK_SIZE];
      FoldAppend(done, block);
      assert fed == done + block;
      assert fed[..|fed|] == fed;
      state := Words(Add(state.a, out.a), Add(state.b, out.b), Add(state.c, out.c), Add(state.d, out.d),
                     Add(state.e, out.e), Add(state.f, out.f), Add(state.g, out.g), Add(state.h, out.h));
      bufferLen := 0;
    }

    method Update(data: Bytes)
      requires Ready()
      modifies this, buffer
      ensures Ready() && fed == old(fed) + data
    {
      hide Holds;
      for i := 0 to |data|
        invariant Ready() && fed == old(fed) + data[..i]
      {
        WrapIncrement(|fed|);
        assert data[..i + 1] == data[..i] + [data[i]];
        Push(data[i]);
        if bufferLen == BLOCK_SIZE {
          ProcessBlock();
        }
        totalBytes := (totalBytes + 1) % TWO_64;
      }
    }

    /** Zero bytes until `limit` are buffered. */
    method PushZeros(limit: nat)
      requires Holds() && bufferLen <= limit <= BLOCK_SIZE
      modifies this`bufferLen, this`fed, buffer
      ensures Holds() && bufferLen == limit && fed == old(fed) + Zeros(limit - old(bufferLen))
    {
      hide Fold;
      ghost var n := 0;
      while bufferLen < limit
        invariant Holds() && bufferLen == old(bufferLen) + n <= limit && fed == old(fed) + Zeros(n)
      {
        Push(0);
        n := n + 1;
      }
    }

    /** The one bit and the zeros that bring the buffer to its last eight bytes, compressing once
        on the way when fewer than eight are left. */
    method PushPadding()
      requires Holds() && bufferLen < BLOCK_SIZE && bufferLen == |fed| % 64
      modifies this, buffer
      ensures Holds() && bufferLen == BLOCK_SIZE - 8
      ensures fed == old(fed) + [0x80] + Zeros((55 - |old(fed)|) % 64)
    {
      hide Holds, Zeros;
      ghost var length := |fed|;
      Push(0x80);
      ghost var marked := fed;
      ghost var zeros := 0;
      NoZeros();
      if bufferLen > BLOCK_SIZE - 8 {
        zeros := BLOCK_SIZE - bufferLen;
        PushZeros(BLOCK_SIZE);
        ProcessBlock();
      }
      assert fed == marked + Zeros(zeros);
      ghost var more := BLOCK_SIZE - 8 - bufferLen;
      PushZeros(BLOCK_SIZE - 8);
      ZerosAppend(zeros, more);
      ZerosCount(length, zeros, more);
      assert fed == marked + Zeros(zeros + more);
    }

    /** The length field, most significant byte first. */
    method PushLength(bitLength: U64)
      requires Holds() && bufferLen == BLOCK_SIZE - 8
      modifies this`bufferLen, this`fed, buffer
      ensures Holds() && bufferLen == BLOCK_SIZE && fed == old(fed) + BigEndian(bitLength, 8)
    {
      hide Holds, BigEndian;
      var i := 7;
      while i >= 0
        invariant -1 <= i <= 7 && Holds() && bufferLen == 63 - i
        invariant fed == old(fed) + BigEndian(bitLength, 8)[..7 - i]
      {
        BigEndianAt(bitLength, 8, 7 - i);
        Push(bitLength / Pow256(i) % 256);
        i := i - 1;
      }
    }

    /** The digest of everything fed, for every message. */
    method Finalize() returns (digest: Hash)
      requires Ready()
      modifies this, buffer
      ensures digest == HashOf(old(fed))
    {
      hide Fold, Digest, BigEndian, Zeros;
      var bitLength: U64 := totalBytes * 8 % TWO_64;
      LengthBytes(|fed|, bitLength);
      PushPadding();
      PushLength(bitLength);
      assert fed == Padded(old(fed));
      ProcessBlock();
      assert fed[..|fed|] == fed;
      digest := Digest(state);
    }
  }

  /** One block or two, the zeros come to the fewest that fit. */
  lemma ZerosCount(length: nat, zeros: nat, more: nat)
    requires var used := length % 64 + 1;
             if used > 56 then zeros == 64 - used && more == 56 else zeros == 0 && more == 56 - used
    ensures zeros + more == (55 - length) % 64
  {
  }

  lemma WrapIncrement(n: nat)
    ensures (n % TWO_64 + 1) % TWO_64 == (n + 1) % TWO_64
  {
  }

  lemma NoZeros()
    ensures Zeros(0) == []
  {
  }

  lemma {:induction false} ZerosAppend(m: nat, n: nat)
    ensures Zeros(m) + Zeros(n) == Zeros(m + n)
  {
  }

  /** Byte `i` from the top is what shifting right by `8 * (n - 1 - i)` and masking gives. */
  lemma {:induction false} BigEndianAt(v: nat, n: nat, i: nat)
    requires i < n
    ensures BigEndian(v, n)[i] == v / Pow256(n - 1 - i) % 256
  {
    if i < n - 1 {
      BigEndianAt(v / 256, n - 1, i);
      DivDiv(v, Pow256(n - 2 - i));
    }
  }

  /** The length field depends only on the length modulo its range. */
  lemma {:induction false} BigEndianWraps(v: nat, n: nat, k: nat)
    ensures BigEndian(v + k * Pow256(n), n) == BigEndian(v, n)
  {
    if n > 0 {
      var p := Pow256(n - 1);
      assert k * Pow256(n) == 256 * (k * p);
      assert (v + 256 * (k * p)) / 256 == v / 256 + k * p;
      BigEndianWraps(v / 256, n - 1, k);
    }
  }

  /** The wrapped bit length has the bytes of the true one. */
  lemma LengthBytes(length: nat, bitLength: U64)
    requires bitLength == length % TWO_64 * 8 % TWO_64
    ensures BigEndian(bitLength, 8) == BigEndian(8 * length, 8)
  {
    hide BigEndian;
    Powers();
    var q, r := length / TWO_64, length % TWO_64;
    var k := 8 * q + 8 * r / TWO_64;
    assert 8 * r == bitLength + 8 * r / TWO_64 * TWO_64;
    assert 8 * length == bitLength + k * TWO_64;
    BigEndianWraps(bitLength, 8, k);
  }

  /** One-shot digest; the streaming state depends only on the bytes fed, however they were split. */
  method Sha256(data: Bytes) returns (digest: Hash)
    ensures digest == HashOf(data)
  {
    hide HashOf, Fold;
    var hasher := new Sha256Hasher();
    hasher.Update(data);
    assert hasher.fed == data;
    digest := hasher.Finalize();
  }

  method Sha256Double(data: Bytes) returns (digest: Hash)
    ensures digest == HashOf(HashOf(data))
  {
    var first := Sha256(data);
    digest := Sha256(first);
  }
}
