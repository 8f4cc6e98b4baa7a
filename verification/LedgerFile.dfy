/** The on-disk ledger: blocks, parameters and a pool snapshot behind a checksum. */
module LedgerFile {
  import opened Base
  import opened ByteIO
  import opened Hashing
  import opened Transactions
  import opened Blocks
  import opened BlockValidation

  const LEDGER_MAGIC: U32 := 0xBC57_0001
  const FORMAT_VERSION: U32 := 2
  const FORMAT_VERSION_1: U32 := 1
  const MAX_LEDGER_BLOCKS: U32 := 1_000_000
  const MAX_LEDGER_TRANSACTIONS: U32 := 10_000

  datatype LedgerData = LedgerData(blocks: seq<Block>, params: ConsensusParams, mempool: seq<Transaction>)

  /** The first four digest bytes as a little-endian number. */
  function Checksum(body: Bytes): U32 {
    ValueBound(Sha256(body)[..4]);
    Powers();
    Value(Sha256(body)[..4])
  }

  // ----- length-prefixed items

  function EncBlockItem(b: Block): Bytes {
    EncVarBytes(EncBlock(b))
  }

  function DecBlockItem(bs: Bytes): Decoded<Block> {
    var (raw, rest) :- DecVarBytes(bs, MAX_BLOCK_BYTES);
    var block :- ParseBlock(raw);
    Ok((block, rest))
  }

  predicate StorableBlock(b: Block) {
    WireBlock(b) && |EncBlock(b)| <= MAX_BLOCK_BYTES
  }

  function EncTxItem(tx: Transaction): Bytes {
    EncVarBytes(EncTx(tx))
  }

  function DecTxItem(bs: Bytes): Decoded<Transaction> {
    var (raw, rest) :- DecVarBytes(bs, MAX_TRANSACTION_BYTES);
    var tx :- ParseTx(raw);
    Ok((tx, rest))
  }

  predicate StorableTx(tx: Transaction) {
    WireTx(tx) && |EncTx(tx)| <= MAX_TRANSACTION_BYTES
  }

  lemma BlockItemRoundTrip(b: Block, s: Bytes)
    requires StorableBlock(b)
    ensures DecBlockItem(EncBlockItem(b) + s) == Ok((b, s))
  {
    hide EncBlock, ParseBlock, DecVarBytes, EncVarBytes, WireBlock;
    VarBytesRoundTrip(EncBlock(b), MAX_BLOCK_BYTES, s);
    ParseBlockExact(EncBlock(b), b);
  }

  lemma BlockItemCanonical(bs: Bytes)
    requires DecBlockItem(bs).Ok?
    ensures var (b, s) := DecBlockItem(bs).value; StorableBlock(b) && bs == EncBlockItem(b) + s
  {
    hide EncBlock, ParseBlock, DecVarBytes, EncVarBytes, WireBlock;
    ParseBlockExact(DecVarBytes(bs, MAX_BLOCK_BYTES).value.0, DecBlockItem(bs).value.0);
  }

  lemma TxItemRoundTrip(tx: Transaction, s: Bytes)
    requires StorableTx(tx)
    ensures DecTxItem(EncTxItem(tx) + s) == Ok((tx, s))
  {
    hide EncTx, ParseTx, DecVarBytes, EncVarBytes, WireTx;
    VarBytesRoundTrip(EncTx(tx), MAX_TRANSACTION_BYTES, s);
    ParseTxExact(EncTx(tx), tx);
  }

  lemma TxItemCanonical(bs: Bytes)
    requires DecTxItem(bs).Ok?
    ensures var (tx, s) := DecTxItem(bs).value; StorableTx(tx) && bs == EncTxItem(tx) + s
  {
    hide EncTx, ParseTx, DecVarBytes, EncVarBytes, WireTx;
    ParseTxExact(DecVarBytes(bs, MAX_TRANSACTION_BYTES).value.0, DecTxItem(bs).value.0);
  }

  lemma BlockItemCodec()
    ensures Canonical(EncBlockItem, DecBlockItem, StorableBlock)
  {
    hide EncBlockItem, DecBlockItem, StorableBlock;
    forall b: Block, s: Bytes | StorableBlock(b) ensures DecBlockItem(EncBlockItem(b) + s) == Ok((b, s)) {
      BlockItemRoundTrip(b, s);
    }
    forall bs: Bytes | DecBlockItem(bs).Ok?
      ensures var (b, s) := DecBlockItem(bs).value; StorableBlock(b) && bs == EncBlockItem(b) + s
    {
      BlockItemCanonical(bs);
    }
  }

  lemma TxItemCodec()
    ensures Canonical(EncTxItem, DecTxItem, StorableTx)
  {
    hide EncTxItem, DecTxItem, StorableTx;
    forall tx: Transaction, s: Bytes | StorableTx(tx) ensures DecTxItem(EncTxItem(tx) + s) == Ok((tx, s)) {
      TxItemRoundTrip(tx, s);
    }
    forall bs: Bytes | DecTxItem(bs).Ok?
      ensures var (tx, s) := DecTxItem(bs).value; StorableTx(tx) && bs == EncTxItem(tx) + s
    {
      TxItemCanonical(bs);
    }
  }

  // ----- the file

  /** Heights count up from zero; the comparison is in u32. */
  predicate Sequential(blocks: seq<Block>) {
    && blocks != []
    && blocks[0].header.height == 0
    && forall i :: 1 <= i < |blocks| ==> blocks[i].header.height == (blocks[i - 1].header.height + 1) % TWO_32
  }

  function EncPreamble(version: U32, params: ConsensusParams, count: nat): Bytes {
    EncU32(LEDGER_MAGIC) + EncU32(version) + EncU64(params.blockSubsidy) + EncU32(params.coinbaseMaturity)
    + EncCount(count)
  }

  /** The pool snapshot, which format version 1 lacks. */
  function EncSnapshot(version: U32, mempool: seq<Transaction>): Bytes {
    if version < FORMAT_VERSION then [] else EncList(mempool, EncTxItem)
  }

  function LedgerBody(version: U32, blocks: seq<Block>, params: ConsensusParams, mempool: seq<Transaction>): Bytes {
    EncPreamble(version, params, |blocks|) + EncMany(blocks, EncBlockItem) + EncSnapshot(version, mempool)
  }

  function WithChecksum(body: Bytes): Bytes {
    body + EncU32(Checksum(body))
  }

  function EncodeLedger(blocks: seq<Block>, params: ConsensusParams, mempool: seq<Transaction>): Result<Bytes> {
    if |blocks| > MAX_LEDGER_BLOCKS then Err(ResourceLimitExceeded)
    else if |mempool| > MAX_LEDGER_TRANSACTIONS then Err(ResourceLimitExceeded)
    else if exists i :: 0 <= i < |blocks| && |EncBlock(blocks[i])| > MAX_BLOCK_BYTES then Err(ResourceLimitExceeded)
    else if exists i :: 0 <= i < |mempool| && |EncTx(mempool[i])| > MAX_TRANSACTION_BYTES then
      Err(ResourceLimitExceeded)
    else Ok(WithChecksum(LedgerBody(FORMAT_VERSION, blocks, params, mempool)))
  }

  /** Magic, version, parameters and block count. */
  function DecPreamble(bs: Bytes): Decoded<(U32, ConsensusParams, U32)> {
    var magic := DecU32(bs);
    if magic.Err? || magic.value.0 != LEDGER_MAGIC then Err(StorageCorruption) else
      var (version, r) :- DecU32(magic.value.1);
      if version != FORMAT_VERSION && version != FORMAT_VERSION_1 then Err(UnsupportedVersion) else
        var (subsidy, s) :- DecU64(r);
        var (maturity, t) :- DecU32(s);
        var (count, u) :- DecU32(t);
        if count == 0 || count > MAX_LEDGER_BLOCKS then Err(StorageCorruption)
        else Ok(((version, ConsensusParams(subsidy, maturity), count), u))
  }

  function DecStoredBlocks(count: nat, bs: Bytes): Decoded<seq<Block>> {
    DecMany(count, bs, DecBlockItem)
  }

  function DecSnapshot(version: U32, bs: Bytes): Decoded<seq<Transaction>> {
    if version < FORMAT_VERSION then Ok(([], bs)) else
      var (count, r) :- DecU32(bs);
      if count > MAX_LEDGER_TRANSACTIONS then Err(StorageCorruption) else DecMany(count, r, DecTxItem)
  }

  function DecodeBody(body: Bytes): Result<LedgerData> {
    var ((version, params, count), r) :- DecPreamble(body);
    var (blocks, s) :- DecStoredBlocks(count, r);
    var (mempool, t) :- DecSnapshot(version, s);
    if t != [] then Err(ParseError)
    else if !Sequential(blocks) then Err(StorageCorruption)
    else Ok(LedgerData(blocks, params, mempool))
  }

  function DecodeLedger(bytes: Bytes): Result<LedgerData> {
    if |bytes| < 4 then Err(StorageCorruption) else
      var body := bytes[..|bytes| - 4];
      if Value(bytes[|bytes| - 4..]) != Checksum(body) then Err(StorageCorruption) else DecodeBody(body)
  }

  // ----- round trip

  lemma PreambleRoundTrip(version: U32, params: ConsensusParams, count: nat, s: Bytes)
    requires version == FORMAT_VERSION || version == FORMAT_VERSION_1
    requires 1 <= count <= MAX_LEDGER_BLOCKS
    ensures DecPreamble(EncPreamble(version, params, count) + s) == Ok(((version, params, count), s))
  {
    var t4 := EncCount(count) + s;
    var t3 := EncU32(params.coinbaseMaturity) + t4;
    var t2 := EncU64(params.blockSubsidy) + t3;
    var t1 := EncU32(version) + t2;
    hide EncU32, EncU64, DecU32, DecU64, EncCount;
    assert EncPreamble(version, params, count) + s == EncU32(LEDGER_MAGIC) + t1;
    U32RoundTrip(LEDGER_MAGIC, t1);
    U32RoundTrip(version, t2);
    U64RoundTrip(params.blockSubsidy, t3);
    U32RoundTrip(params.coinbaseMaturity, t4);
    U32RoundTrip(count, s);
  }

  lemma StoredBlocksRoundTrip(blocks: seq<Block>, s: Bytes)
    requires forall i :: 0 <= i < |blocks| ==> StorableBlock(blocks[i])
    ensures DecStoredBlocks(|blocks|, EncMany(blocks, EncBlockItem) + s) == Ok((blocks, s))
  {
    hide StorableBlock;
    BlockItemCodec();
    ManyRoundTrip(blocks, s, EncBlockItem, DecBlockItem, StorableBlock);
  }

  lemma SnapshotRoundTrip(version: U32, txs: seq<Transaction>)
    requires version < FORMAT_VERSION ==> txs == []
    requires |txs| <= MAX_LEDGER_TRANSACTIONS && forall i :: 0 <= i < |txs| ==> StorableTx(txs[i])
    ensures DecSnapshot(version, EncSnapshot(version, txs)) == Ok((txs, []))
  {
    hide StorableTx, DecU32, EncU32;
    if version >= FORMAT_VERSION {
      TxItemCodec();
      U32RoundTrip(|txs|, EncMany(txs, EncTxItem));
      ManyRoundTrip(txs, [], EncTxItem, DecTxItem, StorableTx);
      assert EncMany(txs, EncTxItem) + [] == EncMany(txs, EncTxItem);
    }
  }

  /** A ledger that a file of this version can hold. */
  ghost predicate Storable(version: U32, l: LedgerData) {
    && (version == FORMAT_VERSION || (version == FORMAT_VERSION_1 && l.mempool == []))
    && Sequential(l.blocks) && |l.blocks| <= MAX_LEDGER_BLOCKS && |l.mempool| <= MAX_LEDGER_TRANSACTIONS
    && (forall i :: 0 <= i < |l.blocks| ==> StorableBlock(l.blocks[i]))
    && (forall i :: 0 <= i < |l.mempool| ==> StorableTx(l.mempool[i]))
  }

  lemma BodyRoundTrip(version: U32, l: LedgerData)
    requires Storable(version, l)
    ensures DecodeBody(LedgerBody(version, l.blocks, l.params, l.mempool)) == Ok(l)
  {
    hide StorableBlock, StorableTx, Sequential, EncPreamble, DecPreamble, DecStoredBlocks, DecSnapshot, EncMany,
         EncSnapshot;
    assert l.blocks != [] by { SequentialNonEmpty(l.blocks); }
    var items, snapshot := EncMany(l.blocks, EncBlockItem), EncSnapshot(version, l.mempool);
    assert LedgerBody(version, l.blocks, l.params, l.mempool) ==
           EncPreamble(version, l.params, |l.blocks|) + (items + snapshot);
    PreambleRoundTrip(version, l.params, |l.blocks|, items + snapshot);
    StoredBlocksRoundTrip(l.blocks, snapshot);
    SnapshotRoundTrip(version, l.mempool);
  }

  lemma SequentialNonEmpty(blocks: seq<Block>)
    requires Sequential(blocks)
    ensures blocks != []
  {
  }

  lemma ChecksumPasses(body: Bytes)
    ensures DecodeLedger(WithChecksum(body)) == DecodeBody(body)
  {
    hide DecodeBody, Checksum;
    var bytes := WithChecksum(body);
    assert bytes[..|bytes| - 4] == body && bytes[|bytes| - 4..] == EncU32(Checksum(body));
    Powers();
    ValueOfLittleEndian(Checksum(body), 4);
  }

  /** A ledger that was written reads back as what was written. */
  lemma LedgerRoundTrip(blocks: seq<Block>, params: ConsensusParams, mempool: seq<Transaction>)
    requires EncodeLedger(blocks, params, mempool).Ok? && Sequential(blocks)
    requires forall i :: 0 <= i < |blocks| ==> WireBlock(blocks[i])
    requires forall i :: 0 <= i < |mempool| ==> WireTx(mempool[i])
    ensures DecodeLedger(EncodeLedger(blocks, params, mempool).value) == Ok(LedgerData(blocks, params, mempool))
  {
    hide WireBlock, WireTx, EncBlock, EncTx, DecodeBody, DecodeLedger, LedgerBody, WithChecksum, Sequential;
    ChecksumPasses(LedgerBody(FORMAT_VERSION, blocks, params, mempool));
    BodyRoundTrip(FORMAT_VERSION, LedgerData(blocks, params, mempool));
  }

  // ----- canonicity

  lemma PreambleCanonical(bs: Bytes)
    requires DecPreamble(bs).Ok?
    ensures var ((version, params, count), s) := DecPreamble(bs).value;
            && (version == FORMAT_VERSION || version == FORMAT_VERSION_1)
            && 1 <= count <= MAX_LEDGER_BLOCKS && bs == EncPreamble(version, params, count) + s
  {
    hide EncU32, EncU64, DecU32, DecU64;
    var ((version, params, count), s) := DecPreamble(bs).value;
    assert bs == EncU32(LEDGER_MAGIC) + (EncU32(version) +
                 (EncU64(params.blockSubsidy) + (EncU32(params.coinbaseMaturity) + (EncU32(count) + s))));
  }

  lemma StoredBlocksCanonical(count: nat, bs: Bytes)
    requires DecStoredBlocks(count, bs).Ok?
    ensures var (blocks, s) := DecStoredBlocks(count, bs).value;
            && |blocks| == count && bs == EncMany(blocks, EncBlockItem) + s
            && forall i :: 0 <= i < |blocks| ==> StorableBlock(blocks[i])
  {
    hide StorableBlock;
    BlockItemCodec();
    ManyCanonical(count, bs, EncBlockItem, DecBlockItem, StorableBlock);
  }

  lemma SnapshotCanonical(version: U32, bs: Bytes)
    requires DecSnapshot(version, bs).Ok?
    ensures var (txs, s) := DecSnapshot(version, bs).value;
            && |txs| <= MAX_LEDGER_TRANSACTIONS && bs == EncSnapshot(version, txs) + s
            && (version < FORMAT_VERSION ==> txs == [])
            && forall i :: 0 <= i < |txs| ==> StorableTx(txs[i])
  {
    hide StorableTx, DecU32, EncU32;
    if version >= FORMAT_VERSION {
      TxItemCodec();
      var (count, r) := DecU32(bs).value;
      ManyCanonical(count, r, EncTxItem, DecTxItem, StorableTx);
      var (txs, s) := DecMany(count, r, DecTxItem).value;
      assert bs == EncCount(count) + (EncMany(txs, EncTxItem) + s);
    }
  }

  lemma BodyCanonical(body: Bytes) returns (version: U32)
    requires DecodeBody(body).Ok?
    ensures var l := DecodeBody(body).value;
            Storable(version, l) && body == LedgerBody(version, l.blocks, l.params, l.mempool)
    ensures DecPreamble(body).Ok? && DecPreamble(body).value.0.0 == version
  {
    hide StorableTx, StorableBlock, Sequential, EncPreamble, DecPreamble, DecStoredBlocks, DecSnapshot, EncMany,
         EncSnapshot, EncBlock, EncTx, WireBlock, WireTx;
    PreambleCanonical(body);
    var ((v, params, count), r) := DecPreamble(body).value;
    version := v;
    StoredBlocksCanonical(count, r);
    var (blocks, s) := DecStoredBlocks(count, r).value;
    SnapshotCanonical(version, s);
    var (txs, t) := DecSnapshot(version, s).value;
    assert body == EncPreamble(version, params, count)
                   + (EncMany(blocks, EncBlockItem) + (EncSnapshot(version, txs) + []));
  }

  lemma StorableEncodes(l: LedgerData)
    requires Storable(FORMAT_VERSION, l)
    ensures EncodeLedger(l.blocks, l.params, l.mempool) ==
            Ok(WithChecksum(LedgerBody(FORMAT_VERSION, l.blocks, l.params, l.mempool)))
  {
    hide Sequential, EncBlock, EncTx, WireBlock, WireTx, WithChecksum, LedgerBody;
  }

  /** A version 2 file that reads back re-encodes to exactly its bytes. */
  lemma LedgerCanonical(bytes: Bytes)
    requires DecodeLedger(bytes).Ok? && DecPreamble(bytes[..|bytes| - 4]).value.0.0 == FORMAT_VERSION
    ensures var l := DecodeLedger(bytes).value; EncodeLedger(l.blocks, l.params, l.mempool) == Ok(bytes)
  {
    hide DecPreamble, EncodeLedger, Checksum, DecodeBody, WithChecksum, LedgerBody, Storable;
    ChecksumMatches(bytes);
    var version := BodyCanonical(bytes[..|bytes| - 4]);
    StorableEncodes(DecodeLedger(bytes).value);
  }

  lemma ChecksumMatches(bytes: Bytes)
    requires |bytes| >= 4 && Value(bytes[|bytes| - 4..]) == Checksum(bytes[..|bytes| - 4])
    ensures WithChecksum(bytes[..|bytes| - 4]) == bytes
  {
    hide Checksum;
    LittleEndianOfValue(bytes[|bytes| - 4..]);
  }

  // ----- the files that are read

  /** The checksum, as bytes, is the first four of the digest. */
  lemma ChecksumBytes(body: Bytes)
    ensures WithChecksum(body) == body + Sha256(body)[..4]
  {
    LittleEndianOfValue(Sha256(body)[..4]);
  }

  /** A file whose last four bytes are not the first four of the digest of the rest is corrupt. */
  lemma ChecksumExact(bytes: Bytes)
    ensures DecodeLedger(bytes).Ok? ==> |bytes| >= 4 && bytes[|bytes| - 4..] == Sha256(bytes[..|bytes| - 4])[..4]
    ensures |bytes| < 4 || bytes[|bytes| - 4..] != Sha256(bytes[..|bytes| - 4])[..4] ==>
              DecodeLedger(bytes) == Err(StorageCorruption)
  {
    hide DecodeBody, Sha256d;
    if |bytes| >= 4 && Value(bytes[|bytes| - 4..]) == Checksum(bytes[..|bytes| - 4]) {
      ChecksumMatches(bytes);
      ChecksumBytes(bytes[..|bytes| - 4]);
    }
  }

  /** The bytes of a ledger in format version 1, which ends with the blocks, or 2, which has a pool
      snapshot after them. */
  ghost predicate FileOf(bytes: Bytes, version: U32, l: LedgerData) {
    var body := EncU32(0xBC57_0001) + EncU32(version) + EncU64(l.params.blockSubsidy)
                + EncU32(l.params.coinbaseMaturity) + EncCount(|l.blocks|) + EncMany(l.blocks, EncBlockItem)
                + if version == 1 then [] else EncList(l.mempool, EncTxItem);
    && Sequential(l.blocks) && |l.blocks| <= 1_000_000 && |l.mempool| <= 10_000
    && (version == 2 || (version == 1 && l.mempool == []))
    && (forall i :: 0 <= i < |l.blocks| ==> StorableBlock(l.blocks[i]))
    && (forall i :: 0 <= i < |l.mempool| ==> StorableTx(l.mempool[i]))
    && bytes == body + Sha256(body)[..4]
  }

  lemma FileIsStorable(bytes: Bytes, version: U32, l: LedgerData)
    ensures FileOf(bytes, version, l) <==>
            Storable(version, l) && bytes == WithChecksum(LedgerBody(version, l.blocks, l.params, l.mempool))
  {
    hide Sequential, StorableBlock, StorableTx, EncU32, EncU64, EncCount, EncMany, EncList, WithChecksum;
    ChecksumBytes(LedgerBody(version, l.blocks, l.params, l.mempool));
  }

  /** A byte string reads as a ledger exactly when it is that ledger's file, in either version. */
  lemma FileExact(bytes: Bytes, l: LedgerData)
    ensures DecodeLedger(bytes) == Ok(l) <==> FileOf(bytes, FORMAT_VERSION_1, l) || FileOf(bytes, FORMAT_VERSION, l)
  {
    hide FileOf, Storable, LedgerBody, WithChecksum, Checksum, DecodeBody, DecPreamble;
    FileIsStorable(bytes, FORMAT_VERSION_1, l);
    FileIsStorable(bytes, FORMAT_VERSION, l);
    if DecodeLedger(bytes) == Ok(l) {
      ChecksumMatches(bytes);
      var version := BodyCanonical(bytes[..|bytes| - 4]);
      StorableVersion(version, l);
    }
    if FileOf(bytes, FORMAT_VERSION_1, l) || FileOf(bytes, FORMAT_VERSION, l) {
      var version := if FileOf(bytes, FORMAT_VERSION, l) then FORMAT_VERSION else FORMAT_VERSION_1;
      ChecksumPasses(LedgerBody(version, l.blocks, l.params, l.mempool));
      BodyRoundTrip(version, l);
    }
  }

  lemma StorableVersion(version: U32, l: LedgerData)
    requires Storable(version, l)
    ensures version == FORMAT_VERSION || version == FORMAT_VERSION_1
  {
    hide Sequential, StorableBlock, StorableTx;
  }

  /** What is written is the version 2 file of the ledger, and everything such a file can hold is written. */
  lemma WrittenExact(bytes: Bytes, l: LedgerData)
    requires Sequential(l.blocks)
    requires forall i :: 0 <= i < |l.blocks| ==> WireBlock(l.blocks[i])
    requires forall i :: 0 <= i < |l.mempool| ==> WireTx(l.mempool[i])
    ensures EncodeLedger(l.blocks, l.params, l.mempool) == Ok(bytes) <==> FileOf(bytes, FORMAT_VERSION, l)
  {
    hide Sequential, EncBlock, EncTx, WireBlock, WireTx, WithChecksum, LedgerBody, FileOf;
    FileIsStorable(bytes, FORMAT_VERSION, l);
  }

  /** With the checksum and the magic right, any other version is reported as unsupported. */
  lemma OtherVersion(version: U32, rest: Bytes)
    requires version != 1 && version != 2
    ensures var body := EncU32(0xBC57_0001) + EncU32(version) + rest;
            DecodeLedger(body + Sha256(body)[..4]) == Err(UnsupportedVersion)
  {
    hide EncU32, WithChecksum, DecodeLedger, DecPreamble, DecStoredBlocks, DecSnapshot, Sequential;
    var body := EncU32(0xBC57_0001) + EncU32(version) + rest;
    ChecksumBytes(body);
    ChecksumPasses(body);
    OtherPreamble(version, rest);
  }

  lemma OtherPreamble(version: U32, rest: Bytes)
    requires version != 1 && version != 2
    ensures DecPreamble(EncU32(0xBC57_0001) + EncU32(version) + rest) == Err(UnsupportedVersion)
  {
    hide EncU32, DecU32, DecU64;
    U32RoundTrip(LEDGER_MAGIC, EncU32(version) + rest);
    U32RoundTrip(version, rest);
    assert EncU32(0xBC57_0001) + EncU32(version) + rest == EncU32(LEDGER_MAGIC) + (EncU32(version) + rest);
  }
}
