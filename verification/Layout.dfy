/** The canonical encodings byte by byte: at which offset each field stands, and in which order its bytes. */
module Layout {
  import opened Base
  import opened ByteIO
  import opened Hashing
  import opened Transactions
  import opened Blocks

  /** The `width` bytes from `at` on are `v`, least significant first. */
  ghost predicate Holds(bs: Bytes, at: nat, width: nat, v: nat) {
    at + width <= |bs| && forall i :: 0 <= i < width ==> bs[at + i] == (v / Pow256(i)) % 256
  }

  lemma HoldsU32(bs: Bytes, at: nat, v: U32)
    requires at + 4 <= |bs| && bs[at..at + 4] == EncU32(v)
    ensures Holds(bs, at, 4, v)
  {
    hide LittleEndian;
    forall i | 0 <= i < 4 ensures bs[at + i] == (v / Pow256(i)) % 256 {
      LittleEndianAt(v, 4, i);
      assert bs[at + i] == bs[at..at + 4][i];
    }
  }

  lemma HoldsU64(bs: Bytes, at: nat, v: U64)
    requires at + 8 <= |bs| && bs[at..at + 8] == EncU64(v)
    ensures Holds(bs, at, 8, v)
  {
    hide LittleEndian;
    forall i | 0 <= i < 8 ensures bs[at + i] == (v / Pow256(i)) % 256 {
      LittleEndianAt(v, 8, i);
      assert bs[at + i] == bs[at..at + 8][i];
    }
  }

  // ----- headers

  lemma HeaderLayout(h: BlockHeader)
    ensures var e := EncHeader(h);
            && |e| == 80 && Holds(e, 0, 4, h.version)
            && e[4..36] == h.prevBlock && e[36..68] == h.merkleRoot
            && Holds(e, 68, 8, h.timestamp) && Holds(e, 76, 4, h.height)
  {
    hide EncU32, EncU64, Holds;
    var e := EncHeader(h);
    HoldsU32(e, 0, h.version);
    HoldsU64(e, 68, h.timestamp);
    HoldsU32(e, 76, h.height);
  }

  // ----- lists of fixed-width items

  lemma Within(width: nat, i: nat, n: nat)
    requires i < n
    ensures 0 <= width * i && width * i + width <= width * n
    ensures i > 0 ==> width * i == width + width * (i - 1)
  {
    assert width * n == width * i + width + width * (n - i - 1);
    assert width * (n - i - 1) >= 0;
  }

  lemma {:induction false} ItemAt<T>(xs: seq<T>, enc: T -> Bytes, width: nat, i: nat)
    requires i < |xs| && forall x :: |enc(x)| == width
    ensures 0 <= width * i <= width * i + width <= |EncMany(xs, enc)| == width * |xs|
    ensures EncMany(xs, enc)[width * i..width * i + width] == enc(xs[i])
  {
    ManyLength(xs, enc, width);
    Within(width, i, |xs|);
    if i > 0 {
      ItemAt(xs[1..], enc, width, i - 1);
      var rest := EncMany(xs[1..], enc);
      assert EncMany(xs, enc)[width * i..width * i + width] == rest[width * (i - 1)..width * (i - 1) + width];
    }
  }

  // ----- transactions

  ghost predicate InputAt(bs: Bytes, at: nat, input: OutPoint) {
    at + 36 <= |bs| && bs[at..at + 32] == input.txid && Holds(bs, at + 32, 4, input.index)
  }

  ghost predicate OutputAt(bs: Bytes, at: nat, output: TxOutput) {
    at + 40 <= |bs| && Holds(bs, at, 8, output.value) && bs[at + 8..at + 40] == output.recipient
  }

  lemma InputBytes(bs: Bytes, at: nat, input: OutPoint)
    requires at + 36 <= |bs| && bs[at..at + 36] == EncInput(input)
    ensures InputAt(bs, at, input)
  {
    hide EncU32, Holds;
    assert bs[at..at + 32] == bs[at..at + 36][..32];
    assert bs[at + 32..at + 36] == bs[at..at + 36][32..];
    HoldsU32(bs, at + 32, input.index);
  }

  lemma OutputBytes(bs: Bytes, at: nat, output: TxOutput)
    requires at + 40 <= |bs| && bs[at..at + 40] == EncOutput(output)
    ensures OutputAt(bs, at, output)
  {
    hide EncU64, Holds;
    assert bs[at..at + 8] == bs[at..at + 40][..8];
    assert bs[at + 8..at + 40] == bs[at..at + 40][8..];
    HoldsU64(bs, at, output.value);
  }

  /** Where the inputs and outputs stand in an encoded transaction. */
  lemma TxItems(tx: Transaction)
    requires WireTx(tx)
    ensures var e := EncTx(tx); var n := |tx.inputs|;
            && |e| == 16 + 36 * n + 40 * |tx.outputs|
            && (forall i :: 0 <= i < n ==> InputAt(e, 8 + 36 * i, tx.inputs[i]))
            && (forall j :: 0 <= j < |tx.outputs| ==> OutputAt(e, 12 + 36 * n + 40 * j, tx.outputs[j]))
  {
    hide EncU32, EncCount, EncMany, Holds, InputAt, OutputAt;
    EncTxLength(tx);
    var e, n := EncTx(tx), |tx.inputs|;
    var ins, outs := EncMany(tx.inputs, EncInput), EncMany(tx.outputs, EncOutput);
    ManyLength(tx.inputs, EncInput, 36);
    ManyLength(tx.outputs, EncOutput, 40);
    forall i | 0 <= i < n
      ensures InputAt(e, 8 + 36 * i, tx.inputs[i])
    {
      ItemAt(tx.inputs, EncInput, 36, i);
      assert e[8 + 36 * i..8 + 36 * i + 36] == ins[36 * i..36 * i + 36];
      InputBytes(e, 8 + 36 * i, tx.inputs[i]);
    }
    forall j | 0 <= j < |tx.outputs|
      ensures OutputAt(e, 12 + 36 * n + 40 * j, tx.outputs[j])
    {
      ItemAt(tx.outputs, EncOutput, 40, j);
      var at := 12 + 36 * n + 40 * j;
      assert e[at..at + 40] == outs[40 * j..40 * j + 40];
      OutputBytes(e, at, tx.outputs[j]);
    }
  }

  /** Version, inputs behind their count, outputs behind theirs, lock time. */
  lemma TxLayout(tx: Transaction)
    requires WireTx(tx)
    ensures var e := EncTx(tx); var n, m := |tx.inputs|, |tx.outputs|;
            && |e| == 16 + 36 * n + 40 * m
            && Holds(e, 0, 4, tx.version) && Holds(e, 4, 4, n)
            && (forall i :: 0 <= i < n ==> InputAt(e, 8 + 36 * i, tx.inputs[i]))
            && Holds(e, 8 + 36 * n, 4, m)
            && (forall j :: 0 <= j < m ==> OutputAt(e, 12 + 36 * n + 40 * j, tx.outputs[j]))
            && Holds(e, 12 + 36 * n + 40 * m, 4, tx.lockTime)
  {
    hide EncU32, EncMany, Holds, InputAt, OutputAt, EncCount;
    TxItems(tx);
    ManyLength(tx.inputs, EncInput, 36);
    ManyLength(tx.outputs, EncOutput, 40);
    var e, n, m := EncTx(tx), |tx.inputs|, |tx.outputs|;
    HoldsU32(e, 0, tx.version);
    HoldsU32(e, 4, n);
    HoldsU32(e, 8 + 36 * n, m);
    HoldsU32(e, 12 + 36 * n + 40 * m, tx.lockTime);
  }

  // ----- blocks

  /** Where transaction `i` of a block starts. */
  function TxOffset(txs: seq<Transaction>, i: nat): nat
    requires i <= |txs|
  {
    if i == 0 then 84 else TxOffset(txs, i - 1) + |EncTx(txs[i - 1])|
  }

  lemma {:induction false} ManyAppend<T>(xs: seq<T>, x: T, enc: T -> Bytes)
    ensures EncMany(xs + [x], enc) == EncMany(xs, enc) + enc(x)
  {
    if xs == [] {
      assert [x][1..] == [];
    } else {
      ManyAppend(xs[1..], x, enc);
      assert (xs + [x])[1..] == xs[1..] + [x];
    }
  }

  lemma {:induction false} EncodedPrefix(txs: seq<Transaction>, i: nat)
    requires i <= |txs|
    ensures |EncMany(txs[..i], EncTx)| == TxOffset(txs, i) - 84
    ensures EncMany(txs[..i], EncTx) <= EncMany(txs, EncTx)
    decreases |txs| - i
  {
    hide EncTx, EncMany;
    PrefixLength(txs, i);
    if i == |txs| {
      assert txs[..i] == txs;
    } else {
      EncodedPrefix(txs, i + 1);
      ManyAppend(txs[..i], txs[i], EncTx);
      assert txs[..i + 1] == txs[..i] + [txs[i]];
    }
  }

  lemma {:induction false} PrefixLength(txs: seq<Transaction>, i: nat)
    requires i <= |txs|
    ensures |EncMany(txs[..i], EncTx)| == TxOffset(txs, i) - 84
  {
    hide EncTx;
    if i > 0 {
      PrefixLength(txs, i - 1);
      ManyAppend(txs[..i - 1], txs[i - 1], EncTx);
      assert txs[..i] == txs[..i - 1] + [txs[i - 1]];
    }
  }

  ghost predicate TxBetween(bs: Bytes, from: nat, to: nat, tx: Transaction) {
    from <= to <= |bs| && bs[from..to] == EncTx(tx)
  }

  /** The header, the count, then the transactions one after the other. */
  lemma BlockLayout(b: Block)
    requires WireBlock(b)
    ensures var e := EncBlock(b); var txs := b.transactions;
            && 84 <= |e| == TxOffset(txs, |txs|)
            && e[..80] == EncHeader(b.header) && Holds(e, 80, 4, |txs|)
            && forall i :: 0 <= i < |txs| ==> TxBetween(e, TxOffset(txs, i), TxOffset(txs, i + 1), txs[i])
  {
    hide EncHeader, EncTx, EncU32, EncMany, Holds, TxOffset, EncCount;
    var e, txs, body := EncBlock(b), b.transactions, EncMany(b.transactions, EncTx);
    assert txs[..|txs|] == txs;
    EncodedPrefix(txs, |txs|);
    assert e[80..84] == EncCount(|txs|) && e[84..] == body;
    HoldsU32(e, 80, |txs|);
    forall i | 0 <= i < |txs|
      ensures TxBetween(e, TxOffset(txs, i), TxOffset(txs, i + 1), txs[i])
    {
      TxBytes(txs, i);
      var from, to := TxOffset(txs, i), TxOffset(txs, i + 1);
      assert e[from..to] == body[from - 84..to - 84];
    }
  }

  lemma TxBytes(txs: seq<Transaction>, i: nat)
    requires i < |txs|
    ensures 84 <= TxOffset(txs, i) <= TxOffset(txs, i + 1) <= 84 + |EncMany(txs, EncTx)|
    ensures EncMany(txs, EncTx)[TxOffset(txs, i) - 84..TxOffset(txs, i + 1) - 84] == EncTx(txs[i])
  {
    hide EncTx, EncMany, TxOffset;
    EncodedPrefix(txs, i);
    EncodedPrefix(txs, i + 1);
    ManyAppend(txs[..i], txs[i], EncTx);
    assert txs[..i + 1] == txs[..i] + [txs[i]];
  }

  // ----- what is refused, and how

  /** Bytes after a complete transaction or block are a parse error. */
  lemma TrailingBytes(tx: Transaction, b: Block, extra: Bytes)
    requires WireTx(tx) && WireBlock(b) && extra != []
    ensures ParseTx(EncTx(tx) + extra) == Err(ParseError) && ParseBlock(EncBlock(b) + extra) == Err(ParseError)
  {
    hide EncTx, EncBlock, DecTx, DecBlock, WireTx, WireBlock;
    TxRoundTrip(tx, extra);
    BlockRoundTrip(b, extra);
  }

  /** A count above its limit is a resource error, whatever follows: of inputs, or of transactions. */
  lemma ExcessiveCount(version: U32, h: BlockHeader, count: U32, rest: Bytes)
    ensures count > 4096 ==> ParseTx(EncU32(version) + (EncU32(count) + rest)) == Err(ResourceLimitExceeded)
    ensures count > 65536 ==> ParseBlock(EncHeader(h) + (EncU32(count) + rest)) == Err(ResourceLimitExceeded)
  {
    hide EncU32, DecU32, EncHeader, DecHeader, DecMany;
    U32RoundTrip(version, EncU32(count) + rest);
    U32RoundTrip(count, rest);
    HeaderRoundTrip(h, EncU32(count) + rest);
  }

  /** A block of fewer than 80 bytes, or a transaction of fewer than 4, ends too early. */
  lemma ShortInput(bs: Bytes)
    ensures |bs| < 80 ==> ParseBlock(bs) == Err(ParseError)
    ensures |bs| < 4 ==> ParseTx(bs) == Err(ParseError)
  {
    hide EncU32, EncU64, DecMany;
    if DecHeader(bs).Ok? {
      HeaderCanonical(bs);
    }
  }

  // ----- ids and coinbases

  /** Ids are double hashes of the encodings. */
  lemma IdsAreDoubleHashes(tx: Transaction, h: BlockHeader)
    ensures Txid(tx) == Sha256(Sha256(EncTx(tx))) && HeaderHash(h) == Sha256(Sha256(EncHeader(h)))
  {
    hide EncTx, EncHeader;
  }

  /** The coinbase of a height: one input, whose id has the height in its first four bytes and zeros after,
      and one output. */
  lemma CoinbaseLayout(height: U32, value: U64, recipient: Hash)
    ensures var tx := MakeCoinbase(height, value, recipient);
            && tx.version == 1 && tx.lockTime == 0
            && |tx.inputs| == 1 && tx.inputs[0].index == 0xFFFF_FFFF
            && Holds(tx.inputs[0].txid, 0, 4, height) && (forall i :: 4 <= i < 32 ==> tx.inputs[0].txid[i] == 0)
            && tx.outputs == [TxOutput(value, recipient)]
  {
    hide EncU32, Holds;
    var tag := CoinbaseTag(height);
    assert tag[..4] == EncU32(height);
    HoldsU32(tag, 0, height);
  }
}
