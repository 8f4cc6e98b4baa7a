/** Block headers and blocks, their canonical encoding, and the header hash. */
module Blocks {
  import opened Base
  import opened ByteIO
  import opened Hashing
  import opened Transactions

  const BLOCK_VERSION: U32 := 1
  const MAX_BLOCK_BYTES: U32 := 0x10_0000
  const MAX_BLOCK_TRANSACTIONS: U32 := 0x1_0000

  datatype BlockHeader = BlockHeader(
    version: U32,
    prevBlock: Hash,
    merkleRoot: Hash,
    timestamp: U64,
    height: U32)

  datatype Block = Block(header: BlockHeader, transactions: seq<Transaction>)

  function EncHeader(h: BlockHeader): (r: Bytes)
    ensures |r| == 80
  {
    EncU32(h.version) + h.prevBlock + h.merkleRoot + EncU64(h.timestamp) + EncU32(h.height)
  }

  function DecHeader(bs: Bytes): Decoded<BlockHeader> {
    var (version, r) :- DecU32(bs);
    var (prevBlock, s) :- DecHash(r);
    var (merkleRoot, t) :- DecHash(s);
    var (timestamp, u) :- DecU64(t);
    var (height, v) :- DecU32(u);
    Ok((BlockHeader(version, prevBlock, merkleRoot, timestamp, height), v))
  }

  function EncBlock(b: Block): Bytes {
    EncHeader(b.header) + EncList(b.transactions, EncTx)
  }

  function DecTxs(bs: Bytes): Decoded<seq<Transaction>> {
    DecList(bs, MAX_BLOCK_TRANSACTIONS, DecTx)
  }

  function DecBlock(bs: Bytes): Decoded<Block> {
    var (header, r) :- DecHeader(bs);
    var (transactions, s) :- DecTxs(r);
    Ok((Block(header, transactions), s))
  }

  /** Whole-input parse: trailing bytes are an error. */
  function ParseBlock(bs: Bytes): Result<Block> {
    var (block, rest) :- DecBlock(bs);
    if rest != [] then Err(ParseError) else Ok(block)
  }

  /** The blocks a decoder can return. */
  predicate WireBlock(b: Block) {
    |b.transactions| <= MAX_BLOCK_TRANSACTIONS && forall i :: 0 <= i < |b.transactions| ==> WireTx(b.transactions[i])
  }

  lemma HeaderRoundTrip(h: BlockHeader, s: Bytes)
    ensures DecHeader(EncHeader(h) + s) == Ok((h, s))
  {
    var t4 := EncU32(h.height) + s;
    var t3 := EncU64(h.timestamp) + t4;
    var t2 := h.merkleRoot + t3;
    var t1 := h.prevBlock + t2;
    assert EncHeader(h) + s == EncU32(h.version) + t1;
    U32RoundTrip(h.version, t1);
    HashRoundTrip(h.prevBlock, t2);
    HashRoundTrip(h.merkleRoot, t3);
    U64RoundTrip(h.timestamp, t4);
    U32RoundTrip(h.height, s);
  }

  lemma HeaderCanonical(bs: Bytes)
    requires DecHeader(bs).Ok?
    ensures var (h, s) := DecHeader(bs).value; bs == EncHeader(h) + s
  {
    var (h, s) := DecHeader(bs).value;
    assert bs == EncU32(h.version) + (h.prevBlock + (h.merkleRoot + (EncU64(h.timestamp) + (EncU32(h.height) + s))));
  }

  lemma EncHeaderInjective(a: BlockHeader, b: BlockHeader)
    requires EncHeader(a) == EncHeader(b)
    ensures a == b
  {
    HeaderRoundTrip(a, []);
    HeaderRoundTrip(b, []);
  }

  lemma BlockRoundTrip(b: Block, s: Bytes)
    requires WireBlock(b)
    ensures DecBlock(EncBlock(b) + s) == Ok((b, s))
  {
    TxCodec();
    var t := EncList(b.transactions, EncTx) + s;
    assert EncBlock(b) + s == EncHeader(b.header) + t;
    HeaderRoundTrip(b.header, t);
    ListRoundTrip(b.transactions, MAX_BLOCK_TRANSACTIONS, s, EncTx, DecTx, WireTx);
  }

  lemma TxsCanonical(bs: Bytes)
    requires DecTxs(bs).Ok?
    ensures var (txs, s) := DecTxs(bs).value;
            && |txs| <= MAX_BLOCK_TRANSACTIONS
            && (forall i :: 0 <= i < |txs| ==> WireTx(txs[i]))
            && bs == EncList(txs, EncTx) + s
  {
    TxCodec();
    ListCanonical(bs, MAX_BLOCK_TRANSACTIONS, EncTx, DecTx, WireTx);
  }

  lemma BlockCanonical(bs: Bytes)
    requires DecBlock(bs).Ok?
    ensures var (b, s) := DecBlock(bs).value; WireBlock(b) && bs == EncBlock(b) + s
  {
    HeaderCanonical(bs);
    var (h, r) := DecHeader(bs).value;
    TxsCanonical(r);
    var (txs, s) := DecTxs(r).value;
    assert bs == EncHeader(h) + (EncList(txs, EncTx) + s);
  }

  /** Parsing inverts encoding both ways. */
  lemma ParseBlockExact(bs: Bytes, b: Block)
    ensures ParseBlock(bs) == Ok(b) <==> WireBlock(b) && bs == EncBlock(b)
  {
    if ParseBlock(bs) == Ok(b) {
      BlockCanonical(bs);
    }
    if WireBlock(b) && bs == EncBlock(b) {
      BlockRoundTrip(b, []);
      assert EncBlock(b) + [] == bs;
    }
  }

  function HeaderHash(h: BlockHeader): Hash {
    Sha256d(EncHeader(h))
  }
}
