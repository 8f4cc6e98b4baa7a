/** Exact fee-rate comparison: 128-bit cross products, ties broken by id. */
module FeeRate {
  import opened Base
  import opened Transactions

  datatype Entry = Entry(tx: Transaction, txid: Hash, fee: U64, size: U64)

  // ----- the 128-bit product

  lemma MulLe(x: nat, y: nat, k: nat)
    requires x <= y
    ensures x * k <= y * k
    ensures x < y && k > 0 ==> x * k < y * k
  {
    var d: nat := y - x;
    assert y * k == x * k + d * k;
  }

  lemma SmallProduct(x: nat, y: nat)
    requires x < TWO_32 && y < TWO_32
    ensures 0 <= x * y <= 0xFFFF_FFFE_0000_0001
  {
    MulLe(x, 0xFFFF_FFFF, y);
    MulLe(y, 0xFFFF_FFFF, 0xFFFF_FFFF);
  }

  lemma SplitProduct(x0: nat, x1: nat, y0: nat, y1: nat)
    ensures (x1 * TWO_32 + x0) * (y1 * TWO_32 + y0)
         == (x1 * y1) * TWO_64 + (x0 * y1 + x1 * y0) * TWO_32 + x0 * y0
  {
    var p, q := x1 * TWO_32, y1 * TWO_32;
    assert (p + x0) * (q + y0) == p * q + p * y0 + x0 * q + x0 * y0;
    assert p * q == (x1 * y1) * TWO_64;
    assert p * y0 == (x1 * y0) * TWO_32;
    assert x0 * q == (x0 * y1) * TWO_32;
  }

  /** The high and low words of the product.  Every intermediate fits a u64; the halves joined by
      `or` in the low word do not overlap, so it is addition. */
  function MulU64(x: U64, y: U64): (r: (U64, U64))
    ensures r.0 * TWO_64 + r.1 == x * y
  {
    var x0, x1, y0, y1 := x % TWO_32, x / TWO_32, y % TWO_32, y / TWO_32;
    SmallProduct(x0, y0); SmallProduct(x0, y1); SmallProduct(x1, y0); SmallProduct(x1, y1);
    SplitProduct(x0, x1, y0, y1);
    var p00: U64 := x0 * y0;
    var p01: U64 := x0 * y1;
    var p10: U64 := x1 * y0;
    var p11: U64 := x1 * y1;
    assert x == x1 * TWO_32 + x0 && y == y1 * TWO_32 + y0;
    assert x * y == p11 * TWO_64 + (p01 + p10) * TWO_32 + p00;
    JoinWords(p00, p01, p10, p11);
    var mid: U64 := p00 / TWO_32 + p01 % TWO_32 + p10 % TWO_32;
    var lo: U64 := p00 % TWO_32 + mid * TWO_32 % TWO_64;
    var hi: U64 := p11 + p01 / TWO_32 + p10 / TWO_32 + mid / TWO_32;
    (hi, lo)
  }

  lemma JoinWords(p00: nat, p01: nat, p10: nat, p11: nat)
    requires p00 <= 0xFFFF_FFFE_0000_0001 && p01 <= 0xFFFF_FFFE_0000_0001
    requires p10 <= 0xFFFF_FFFE_0000_0001 && p11 <= 0xFFFF_FFFE_0000_0001
    ensures var mid := p00 / TWO_32 + p01 % TWO_32 + p10 % TWO_32;
            var lo := p00 % TWO_32 + mid * TWO_32 % TWO_64;
            var hi := p11 + p01 / TWO_32 + p10 / TWO_32 + mid / TWO_32;
            && mid < TWO_64 && lo < TWO_64 && hi < TWO_64
            && hi * TWO_64 + lo == p11 * TWO_64 + (p01 + p10) * TWO_32 + p00
  {
    var mid := p00 / TWO_32 + p01 % TWO_32 + p10 % TWO_32;
    var g, h := mid / TWO_32, mid % TWO_32;
    assert mid * TWO_32 == g * TWO_64 + h * TWO_32;
    assert mid * TWO_32 % TWO_64 == h * TWO_32;
  }

  /** Comparison of (high, low) pairs is comparison of the numbers. */
  function Greater(a: (U64, U64), b: (U64, U64)): (r: bool)
    ensures r <==> a.0 * TWO_64 + a.1 > b.0 * TWO_64 + b.1
  {
    if a.0 != b.0 then a.0 > b.0 else a.1 > b.1
  }

  // ----- order on ids

  /** Lexicographic order on bytes. */
  predicate LexLess(a: Bytes, b: Bytes) {
    b != [] && (a == [] || a[0] < b[0] || (a[0] == b[0] && LexLess(a[1..], b[1..])))
  }

  /** Of two ids, the lesser has the smaller byte at the first place where they differ. */
  lemma {:induction false} LexExact(a: Bytes, b: Bytes)
    requires |a| == |b|
    ensures LexLess(a, b) <==> exists k :: 0 <= k < |a| && a[..k] == b[..k] && a[k] < b[k]
  {
    if a != [] {
      var s, t := a[1..], b[1..];
      LexExact(s, t);
      if a[0] < b[0] {
        assert a[..0] == b[..0];
      } else if a[0] == b[0] {
        if LexLess(s, t) {
          var k :| 0 <= k < |s| && s[..k] == t[..k] && s[k] < t[k];
          assert a[..k + 1] == [a[0]] + s[..k] && b[..k + 1] == [b[0]] + t[..k];
          assert a[k + 1] < b[k + 1];
        }
        if k :| 0 <= k < |a| && a[..k] == b[..k] && a[k] < b[k] {
          assert s[..k - 1] == a[..k][1..] && t[..k - 1] == b[..k][1..];
          assert s[k - 1] < t[k - 1];
        }
      } else {
        forall k | 0 < k < |a|
          ensures a[..k] != b[..k]
        {
          assert a[..k][0] != b[..k][0];
        }
      }
    }
  }

  lemma {:induction false} LexTotal(a: Bytes, b: Bytes)
    ensures LexLess(a, b) || LexLess(b, a) || a == b
    ensures !(LexLess(a, b) && LexLess(b, a)) && !LexLess(a, a)
  {
    if a != [] && b != [] && a[0] == b[0] {
      LexTotal(a[1..], b[1..]);
      assert a == [a[0]] + a[1..] && b == [b[0]] + b[1..];
    }
    if a != [] {
      LexTotal(a[1..], a[1..]);
    }
  }

  lemma {:induction false} LexTransitive(a: Bytes, b: Bytes, c: Bytes)
    requires LexLess(a, b) && LexLess(b, c)
    ensures LexLess(a, c)
  {
    if a != [] && a[0] == b[0] == c[0] {
      LexTransitive(a[1..], b[1..], c[1..]);
    }
  }

  // ----- order on entries

  /** `a` is ranked before `b`: higher rate, or same rate and smaller id. */
  predicate HigherFeerate(a: Entry, b: Entry) {
    var lhs, rhs := MulU64(a.fee, b.size), MulU64(b.fee, a.size);
    if lhs != rhs then Greater(lhs, rhs) else LexLess(a.txid, b.txid)
  }

  predicate StrictlyHigherFeerate(a: Entry, b: Entry) {
    Greater(MulU64(a.fee, b.size), MulU64(b.fee, a.size))
  }

  predicate LowerForEviction(a: Entry, b: Entry) {
    if HigherFeerate(a, b) then false
    else if HigherFeerate(b, a) then true
    else !LexLess(a.txid, b.txid)
  }

  /** The comparator decides the order of the exact rates fee / size. */
  lemma HigherExact(a: Entry, b: Entry)
    ensures HigherFeerate(a, b) <==>
            a.fee * b.size > b.fee * a.size || (a.fee * b.size == b.fee * a.size && LexLess(a.txid, b.txid))
    ensures StrictlyHigherFeerate(a, b) <==> a.fee * b.size > b.fee * a.size
  {
    hide LexLess;
    var lhs, rhs := MulU64(a.fee, b.size), MulU64(b.fee, a.size);
    if lhs.0 * TWO_64 + lhs.1 == rhs.0 * TWO_64 + rhs.1 {
      assert lhs.0 == rhs.0;
    }
  }

  lemma Cancel(x: nat, y: nat, k: nat)
    requires k > 0
    ensures x * k >= y * k <==> x >= y
    ensures x * k > y * k <==> x > y
  {
    if x >= y {
      MulLe(y, x, k);
    } else {
      MulLe(x, y, k);
    }
  }

  /** Rates compare transitively by cross products; strictly when either step is strict. */
  lemma RateTransitive(af: nat, s: nat, bf: nat, t: nat, cf: nat, u: nat)
    requires s > 0 && t > 0 && u > 0 && af * t >= bf * s && bf * u >= cf * t
    ensures af * u >= cf * s
    ensures af * t > bf * s || bf * u > cf * t ==> af * u > cf * s
  {
    Cancel(af * t, bf * s, u);
    Cancel(bf * u, cf * t, s);
    Cancel(af * u, cf * s, t);
    assert (af * t) * u == (af * u) * t;
    assert (bf * s) * u == (bf * u) * s;
    assert (cf * t) * s == (cf * s) * t;
  }

  lemma HigherTransitive(a: Entry, b: Entry, c: Entry)
    requires a.size > 0 && b.size > 0 && c.size > 0
    requires HigherFeerate(a, b) && HigherFeerate(b, c)
    ensures HigherFeerate(a, c)
  {
    hide MulU64, HigherFeerate, LexLess;
    HigherExact(a, b);
    HigherExact(b, c);
    HigherExact(a, c);
    RateTransitive(a.fee, a.size, b.fee, b.size, c.fee, c.size);
    if a.fee * c.size == c.fee * a.size {
      LexTransitive(a.txid, b.txid, c.txid);
    }
  }

  /** On entries with different ids exactly one is ranked before the other; eviction prefers the
      one ranked after. */
  lemma HigherTotal(a: Entry, b: Entry)
    ensures a.txid != b.txid ==> HigherFeerate(a, b) || HigherFeerate(b, a)
    ensures !(HigherFeerate(a, b) && HigherFeerate(b, a)) && !HigherFeerate(a, a)
    ensures a.txid != b.txid ==> (LowerForEviction(a, b) <==> HigherFeerate(b, a))
  {
    hide MulU64, HigherFeerate, LexLess;
    HigherExact(a, b);
    HigherExact(b, a);
    HigherExact(a, a);
    LexTotal(a.txid, b.txid);
  }
}
