/** The canonical wire encoding: little-endian integers, raw digests, u32-prefixed lists.
    Encoders and decoders are functions on byte strings; `ByteWriter` and `ByteReader`
    are the mutable cursors that carry them out. */
module ByteIO {
  import opened Base

  // ----- integers

  function Pow256(n: nat): (p: nat)
    ensures p > 0
  {
    if n == 0 then 1 else 256 * Pow256(n - 1)
  }

  /** The `n` low-order bytes of `v`, least significant first. */
  function LittleEndian(v: nat, n: nat): (r: Bytes)
    ensures |r| == n
    decreases n, v
  {
    if n == 0 then [] else [v % 256] + LittleEndian(v / 256, n - 1)
  }

  /** The number a little-endian byte string denotes. */
  function Value(bs: Bytes): nat {
    if bs == [] then 0 else bs[0] + 256 * Value(bs[1..])
  }

  lemma {:induction false} ValueBound(bs: Bytes)
    ensures Value(bs) < Pow256(|bs|)
  {
    if bs != [] {
      ValueBound(bs[1..]);
    }
  }

  lemma {:induction false} ValueOfLittleEndian(v: nat, n: nat)
    requires v < Pow256(n)
    ensures Value(LittleEndian(v, n)) == v
  {
    if n > 0 {
      ValueOfLittleEndian(v / 256, n - 1);
      assert LittleEndian(v, n)[1..] == LittleEndian(v / 256, n - 1);
    }
  }

  lemma {:induction false} LittleEndianOfValue(bs: Bytes)
    ensures LittleEndian(Value(bs), |bs|) == bs
  {
    if bs != [] {
      LittleEndianOfValue(bs[1..]);
      assert Value(bs) % 256 == bs[0] && Value(bs) / 256 == Value(bs[1..]);
      assert bs == [bs[0]] + bs[1..];
    }
  }

  /** Byte `i` is what shifting right by `8 * i` and masking gives. */
  lemma {:induction false} LittleEndianAt(v: nat, n: nat, i: nat)
    requires i < n
    ensures LittleEndian(v, n)[i] == (v / Pow256(i)) % 256
  {
    if i > 0 {
      LittleEndianAt(v / 256, n - 1, i - 1);
      DivDiv(v, Pow256(i - 1));
    }
  }

  lemma DivDiv(v: nat, p: nat)
    requires p > 0
    ensures v / 256 / p == v / (256 * p)
  {
    var q, r := v / 256 / p, v / 256 % p;
    assert v / 256 == q * p + r;
    assert v == (256 * p) * q + (256 * r + v % 256);
    QuotientUnique(v, 256 * p, q, 256 * r + v % 256);
  }

  lemma QuotientUnique(v: int, d: nat, q: int, r: int)
    requires d > 0 && v == d * q + r && 0 <= r < d
    ensures v / d == q
  {
    SmallMultiple(d, v / d - q);
  }

  lemma SmallMultiple(d: int, k: int)
    requires -d < d * k < d
    ensures k == 0
  {
    assert k >= 1 ==> d * k >= d;
    assert k <= -1 ==> d * -k >= d;
  }

  lemma {:induction false} ValueAppend(bs: Bytes, b: Byte)
    ensures Value(bs + [b]) == Value(bs) + b * Pow256(|bs|)
  {
    if bs == [] {
      assert (bs + [b])[1..] == [];
    } else {
      ValueAppend(bs[1..], b);
      assert (bs + [b])[1..] == bs[1..] + [b];
    }
  }

  // ----- primitive fields

  function EncU32(v: U32): (r: Bytes)
    ensures |r| == 4
  {
    LittleEndian(v, 4)
  }

  function EncU64(v: U64): (r: Bytes)
    ensures |r| == 8
  {
    LittleEndian(v, 8)
  }

  lemma Powers()
    ensures Pow256(4) == TWO_32 && Pow256(8) == TWO_64
  {
    assert Pow256(2) == 65536;
    assert Pow256(4) == 65536 * 65536;
    assert Pow256(6) == 65536 * TWO_32;
  }

  /** A decoder returns the value it read and the bytes it left. */
  type Decoded<T> = Result<(T, Bytes)>

  function DecU32(bs: Bytes): (r: Decoded<U32>)
    ensures r.Ok? <==> |bs| >= 4
    ensures r.Ok? ==> bs == EncU32(r.value.0) + r.value.1
  {
    if |bs| < 4 then Err(ParseError) else
      ValueBound(bs[..4]); Powers(); LittleEndianOfValue(bs[..4]);
      Ok((Value(bs[..4]), bs[4..]))
  }

  function DecU64(bs: Bytes): (r: Decoded<U64>)
    ensures r.Ok? <==> |bs| >= 8
    ensures r.Ok? ==> bs == EncU64(r.value.0) + r.value.1
  {
    if |bs| < 8 then Err(ParseError) else
      ValueBound(bs[..8]); Powers(); LittleEndianOfValue(bs[..8]);
      Ok((Value(bs[..8]), bs[8..]))
  }

  lemma U32RoundTrip(v: U32, s: Bytes)
    ensures DecU32(EncU32(v) + s) == Ok((v, s))
  {
    Powers();
    ValueOfLittleEndian(v, 4);
    assert (EncU32(v) + s)[..4] == EncU32(v);
  }

  lemma U64RoundTrip(v: U64, s: Bytes)
    ensures DecU64(EncU64(v) + s) == Ok((v, s))
  {
    Powers();
    ValueOfLittleEndian(v, 8);
    assert (EncU64(v) + s)[..8] == EncU64(v);
  }

  function DecBytes(bs: Bytes, count: nat): (r: Decoded<Bytes>)
    ensures r.Ok? <==> |bs| >= count
    ensures r.Ok? ==> |r.value.0| == count && bs == r.value.0 + r.value.1
  {
    if |bs| < count then Err(ParseError) else Ok((bs[..count], bs[count..]))
  }

  function DecHash(bs: Bytes): (r: Decoded<Hash>)
    ensures r.Ok? <==> |bs| >= 32
    ensures r.Ok? ==> bs == r.value.0 + r.value.1
  {
    if |bs| < 32 then Err(ParseError) else Ok((bs[..32], bs[32..]))
  }

  lemma HashRoundTrip(h: Hash, s: Bytes)
    ensures DecHash(h + s) == Ok((h, s))
  {
  }

  /** A u32 count, refused when above `max`. */
  function DecLength(bs: Bytes, max: U32): (r: Decoded<U32>)
    ensures r.Ok? ==> r.value.0 <= max && bs == EncU32(r.value.0) + r.value.1
  {
    var (n, s) :- DecU32(bs);
    if n > max then Err(ResourceLimitExceeded) else Ok((n, s))
  }

  /** The count a writer emits for a list: a cast of its size to u32. */
  function EncCount(n: nat): (r: Bytes)
    ensures |r| == 4
    ensures n <= MAX_U32 ==> r == EncU32(n)
  {
    EncU32(n % TWO_32)
  }

  lemma LengthRoundTrip(n: nat, max: U32, s: Bytes)
    requires n <= max
    ensures DecLength(EncCount(n) + s, max) == Ok((n, s))
  {
    U32RoundTrip(n, s);
  }

  function EncVarBytes(bs: Bytes): (r: Bytes)
    ensures |r| == 4 + |bs|
  {
    EncCount(|bs|) + bs
  }

  function DecVarBytes(bs: Bytes, max: U32): (r: Decoded<Bytes>)
    ensures r.Ok? ==> |r.value.0| <= max && bs == EncVarBytes(r.value.0) + r.value.1
  {
    var (n, s) :- DecLength(bs, max);
    DecBytes(s, n)
  }

  lemma VarBytesRoundTrip(bs: Bytes, max: U32, s: Bytes)
    requires |bs| <= max
    ensures DecVarBytes(EncVarBytes(bs) + s, max) == Ok((bs, s))
  {
    LengthRoundTrip(|bs|, max, bs + s);
    assert EncVarBytes(bs) + s == EncCount(|bs|) + (bs + s);
  }

  // ----- lists

  function EncMany<T>(xs: seq<T>, enc: T -> Bytes): Bytes {
    if xs == [] then [] else enc(xs[0]) + EncMany(xs[1..], enc)
  }

  function DecMany<T>(n: nat, bs: Bytes, dec: Bytes -> Decoded<T>): (r: Decoded<seq<T>>)
    ensures r.Ok? ==> |r.value.0| == n
  {
    if n == 0 then Ok(([], bs)) else
      var (x, s) :- dec(bs);
      var (xs, t) :- DecMany(n - 1, s, dec);
      Ok(([x] + xs, t))
  }

  /** `dec` undoes `enc` on the values satisfying `wire`, whatever follows them, and accepts
      no byte string but their encodings. */
  ghost predicate Canonical<T(!new)>(enc: T -> Bytes, dec: Bytes -> Decoded<T>, wire: T -> bool) {
    && (forall x: T, s: Bytes {:trigger dec(enc(x) + s)} :: wire(x) ==> dec(enc(x) + s) == Ok((x, s)))
    && (forall bs: Bytes {:trigger dec(bs)} ::
          dec(bs).Ok? ==> wire(dec(bs).value.0) && bs == enc(dec(bs).value.0) + dec(bs).value.1)
  }

  lemma {:induction false} ManyRoundTrip<T(!new)>(
      xs: seq<T>, s: Bytes, enc: T -> Bytes, dec: Bytes -> Decoded<T>, wire: T -> bool)
    requires Canonical(enc, dec, wire)
    requires forall i :: 0 <= i < |xs| ==> wire(xs[i])
    ensures DecMany(|xs|, EncMany(xs, enc) + s, dec) == Ok((xs, s))
  {
    if xs == [] {
      assert EncMany(xs, enc) + s == s;
    } else {
      var tail := EncMany(xs[1..], enc) + s;
      assert EncMany(xs, enc) + s == enc(xs[0]) + tail;
      assert dec(enc(xs[0]) + tail) == Ok((xs[0], tail));
      ManyRoundTrip(xs[1..], s, enc, dec, wire);
      assert xs == [xs[0]] + xs[1..];
    }
  }

  lemma {:induction false} ManyCanonical<T(!new)>(
      n: nat, bs: Bytes, enc: T -> Bytes, dec: Bytes -> Decoded<T>, wire: T -> bool)
    requires Canonical(enc, dec, wire)
    requires DecMany(n, bs, dec).Ok?
    ensures var (xs, s) := DecMany(n, bs, dec).value;
            (forall i :: 0 <= i < |xs| ==> wire(xs[i])) && bs == EncMany(xs, enc) + s
  {
    if n > 0 {
      var (x, t) := dec(bs).value;
      ManyCanonical(n - 1, t, enc, dec, wire);
      var (xs, s) := DecMany(n - 1, t, dec).value;
      assert ([x] + xs)[1..] == xs;
      assert bs == enc(x) + (EncMany(xs, enc) + s);
    }
  }

  lemma {:induction false} ManyAppend<T>(xs: seq<T>, x: T, enc: T -> Bytes)
    ensures EncMany(xs + [x], enc) == EncMany(xs, enc) + enc(x)
  {
    if xs == [] {
      assert (xs + [x])[1..] == [];
    } else {
      ManyAppend(xs[1..], x, enc);
      assert (xs + [x])[1..] == xs[1..] + [x];
    }
  }

  lemma {:induction false} ManyLength<T>(xs: seq<T>, enc: T -> Bytes, width: nat)
    requires forall i :: 0 <= i < |xs| ==> |enc(xs[i])| == width
    ensures |EncMany(xs, enc)| == width * |xs|
  {
    if xs != [] {
      ManyLength(xs[1..], enc, width);
    }
  }

  /** Elements already read, followed by the outcome of reading the others. */
  function Prepend<T>(xs: seq<T>, r: Decoded<seq<T>>): Decoded<seq<T>> {
    match r
    case Ok((ys, s)) => Ok((xs + ys, s))
    case Err(e) => Err(e)
  }

  /** One turn of a reading loop. */
  lemma DecManyStep<T>(xs: seq<T>, n: nat, bs: Bytes, dec: Bytes -> Decoded<T>)
    requires n > 0
    ensures Prepend(xs, DecMany(n, bs, dec)) ==
            match dec(bs)
            case Ok((x, s)) => Prepend(xs + [x], DecMany(n - 1, s, dec))
            case Err(e) => Err(e)
  {
    if dec(bs).Ok? {
      var (x, s) := dec(bs).value;
      if DecMany(n - 1, s, dec).Ok? {
        var (ys, t) := DecMany(n - 1, s, dec).value;
        assert xs + ([x] + ys) == xs + [x] + ys;
      }
    }
  }

  lemma DecManyEnd<T>(xs: seq<T>, bs: Bytes, dec: Bytes -> Decoded<T>)
    ensures Prepend(xs, DecMany(0, bs, dec)) == Ok((xs, bs))
    ensures forall n: nat :: Prepend([], DecMany(n, bs, dec)) == DecMany(n, bs, dec)
  {
    assert xs + [] == xs;
    forall n: nat
      ensures Prepend([], DecMany(n, bs, dec)) == DecMany(n, bs, dec)
    {
      if DecMany(n, bs, dec).Ok? {
        assert [] + DecMany(n, bs, dec).value.0 == DecMany(n, bs, dec).value.0;
      }
    }
  }

  function EncList<T>(xs: seq<T>, enc: T -> Bytes): Bytes {
    EncCount(|xs|) + EncMany(xs, enc)
  }

  function DecList<T>(bs: Bytes, max: U32, dec: Bytes -> Decoded<T>): Decoded<seq<T>> {
    var (n, s) :- DecLength(bs, max);
    DecMany(n, s, dec)
  }

  lemma ListRoundTrip<T(!new)>(
      xs: seq<T>, max: U32, s: Bytes, enc: T -> Bytes, dec: Bytes -> Decoded<T>, wire: T -> bool)
    requires Canonical(enc, dec, wire)
    requires |xs| <= max && forall i :: 0 <= i < |xs| ==> wire(xs[i])
    ensures DecList(EncList(xs, enc) + s, max, dec) == Ok((xs, s))
  {
    assert EncList(xs, enc) + s == EncCount(|xs|) + (EncMany(xs, enc) + s);
    LengthRoundTrip(|xs|, max, EncMany(xs, enc) + s);
    ManyRoundTrip(xs, s, enc, dec, wire);
  }

  lemma ListCanonical<T(!new)>(
      bs: Bytes, max: U32, enc: T -> Bytes, dec: Bytes -> Decoded<T>, wire: T -> bool)
    requires Canonical(enc, dec, wire)
    requires DecList(bs, max, dec).Ok?
    ensures var (xs, s) := DecList(bs, max, dec).value;
            && |xs| <= max
            && (forall i :: 0 <= i < |xs| ==> wire(xs[i]))
            && bs == EncList(xs, enc) + s
  {
    var (n, t) := DecLength(bs, max).value;
    ManyCanonical(n, t, enc, dec, wire);
    var (xs, s) := DecMany(n, t, dec).value;
    assert bs == EncCount(n) + (EncMany(xs, enc) + s);
  }
}
