/** Reading and writing ledger files, and rebuilding a chain and pool from one.  A file is a byte
    string. */
module ChainStore {
  import opened Base
  import opened ByteIO
  import opened Cursors
  import opened Transactions
  import opened Blocks
  import opened Wire
  import opened Utxo
  import opened BlockValidation
  import opened ChainRules
  import opened Chain
  import opened Pools
  import opened Mempool
  import opened LedgerFile
  import opened Restart

  method BlockToBytes(b: Block) returns (bytes: Bytes)
    ensures bytes == EncBlock(b)
  {
    hide EncBlock;
    var w := new ByteWriter();
    SerializeBlock(b, w);
    bytes := w.buffer;
  }

  method TxToBytes(tx: Transaction) returns (bytes: Bytes)
    ensures bytes == EncTx(tx)
  {
    hide EncTx;
    var w := new ByteWriter();
    SerializeTx(tx, w);
    bytes := w.buffer;
  }

  method ValidateBlockSequence(blocks: seq<Block>) returns (r: Result<()>)
    ensures r == if Sequential(blocks) then DONE else Err(StorageCorruption)
  {
    if blocks == [] {
      return Err(StorageCorruption);
    }
    if blocks[0].header.height != 0 {
      return Err(StorageCorruption);
    }
    for i := 1 to |blocks|
      invariant Sequential(blocks[..i])
    {
      if blocks[i].header.height != (blocks[i - 1].header.height + 1) % TWO_32 {
        return Err(StorageCorruption);
      }
    }
    assert blocks[..|blocks|] == blocks;
    r := DONE;
  }

  // ----- encoding

  method PutBlocks(blocks: seq<Block>, w: ByteWriter) returns (r: Result<()>)
    modifies w
    ensures r.Ok? <==> forall i :: 0 <= i < |blocks| ==> |EncBlock(blocks[i])| <= MAX_BLOCK_BYTES
    ensures r.Err? ==> r.code == ResourceLimitExceeded
    ensures r.Ok? ==> w.buffer == old(w.buffer) + EncMany(blocks, EncBlockItem)
  {
    hide EncBlock, EncVarBytes;
    for i := 0 to |blocks|
      invariant forall j :: 0 <= j < i ==> |EncBlock(blocks[j])| <= MAX_BLOCK_BYTES
      invariant w.buffer == old(w.buffer) + EncMany(blocks[..i], EncBlockItem)
    {
      var bytes := BlockToBytes(blocks[i]);
      if |bytes| > MAX_BLOCK_BYTES {
        return Err(ResourceLimitExceeded);
      }
      assert blocks[..i + 1] == blocks[..i] + [blocks[i]];
      ManyAppend(blocks[..i], blocks[i], EncBlockItem);
      w.PutVarBytes(bytes);
    }
    assert blocks[..|blocks|] == blocks;
    r := DONE;
  }

  method PutTransactions(txs: seq<Transaction>, w: ByteWriter) returns (r: Result<()>)
    modifies w
    ensures r.Ok? <==> forall i :: 0 <= i < |txs| ==> |EncTx(txs[i])| <= MAX_TRANSACTION_BYTES
    ensures r.Err? ==> r.code == ResourceLimitExceeded
    ensures r.Ok? ==> w.buffer == old(w.buffer) + EncMany(txs, EncTxItem)
  {
    hide EncTx, EncVarBytes;
    for i := 0 to |txs|
      invariant forall j :: 0 <= j < i ==> |EncTx(txs[j])| <= MAX_TRANSACTION_BYTES
      invariant w.buffer == old(w.buffer) + EncMany(txs[..i], EncTxItem)
    {
      var bytes := TxToBytes(txs[i]);
      if |bytes| > MAX_TRANSACTION_BYTES {
        return Err(ResourceLimitExceeded);
      }
      assert txs[..i + 1] == txs[..i] + [txs[i]];
      ManyAppend(txs[..i], txs[i], EncTxItem);
      w.PutVarBytes(bytes);
    }
    assert txs[..|txs|] == txs;
    r := DONE;
  }

  method WriteLedger(blocks: seq<Block>, params: ConsensusParams, mempool: seq<Transaction>) returns (r: Result<Bytes>)
    ensures r == EncodeLedger(blocks, params, mempool)
  {
    hide EncBlock, EncTx, EncU32, EncU64, EncCount, EncMany, Checksum;
    if |blocks| > MAX_LEDGER_BLOCKS {
      return Err(ResourceLimitExceeded);
    }
    if |mempool| > MAX_LEDGER_TRANSACTIONS {
      return Err(ResourceLimitExceeded);
    }
    var w := new ByteWriter();
    w.PutU32(LEDGER_MAGIC);
    w.PutU32(FORMAT_VERSION);
    w.PutU64(params.blockSubsidy);
    w.PutU32(params.coinbaseMaturity);
    w.PutU32(|blocks|);
    assert w.buffer == EncPreamble(FORMAT_VERSION, params, |blocks|);
    var stored := PutBlocks(blocks, w);
    if stored.Err? {
      return Err(stored.code);
    }
    w.PutU32(|mempool|);
    var snapshot := PutTransactions(mempool, w);
    if snapshot.Err? {
      return Err(snapshot.code);
    }
    assert w.buffer == LedgerBody(FORMAT_VERSION, blocks, params, mempool);
    var body := w.buffer;
    w.PutU32(Checksum(body));
    r := Ok(w.buffer);
  }

  /** What is written to disk when a ledger is saved. */
  method SaveLedger(blocks: seq<Block>, params: ConsensusParams, mempool: seq<Transaction>) returns (r: Result<Bytes>)
    ensures r == if !Sequential(blocks) then Err(StorageCorruption) else EncodeLedger(blocks, params, mempool)
  {
    hide Sequential, EncodeLedger;
    var sequential := ValidateBlockSequence(blocks);
    if sequential.Err? {
      return Err(sequential.code);
    }
    r := WriteLedger(blocks, params, mempool);
  }

  // ----- decoding

  method ReadBlockItem(reader: ByteReader) returns (r: Result<Block>)
    requires reader.Valid()
    modifies reader
    ensures reader.Valid() && Reads(r, reader.Rest(), DecBlockItem(old(reader.Rest())))
  {
    hide DecVarBytes, ParseBlock;
    var raw :- reader.GetVarBytes(MAX_BLOCK_BYTES);
    r := ParseBlockBytes(raw);
  }

  method ReadTxItem(reader: ByteReader) returns (r: Result<Transaction>)
    requires reader.Valid()
    modifies reader
    ensures reader.Valid() && Reads(r, reader.Rest(), DecTxItem(old(reader.Rest())))
  {
    hide DecVarBytes, ParseTx;
    var raw :- reader.GetVarBytes(MAX_TRANSACTION_BYTES);
    r := ParseTxBytes(raw);
  }

  method ReadStoredBlocks(reader: ByteReader, count: U32) returns (r: Result<seq<Block>>)
    requires reader.Valid()
    modifies reader
    ensures reader.Valid() && Reads(r, reader.Rest(), DecStoredBlocks(count, old(reader.Rest())))
  {
    hide DecBlockItem;
    ghost var spec := DecMany(count, reader.Rest(), DecBlockItem);
    var blocks: seq<Block> := [];
    DecManyEnd(blocks, reader.Rest(), DecBlockItem);
    for i := 0 to count
      invariant reader.Valid() && spec == Prepend(blocks, DecMany(count - i, reader.Rest(), DecBlockItem))
    {
      DecManyStep(blocks, count - i, reader.Rest(), DecBlockItem);
      var block :- ReadBlockItem(reader);
      blocks := blocks + [block];
    }
    DecManyEnd(blocks, reader.Rest(), DecBlockItem);
    r := Ok(blocks);
  }

  method ReadSnapshot(reader: ByteReader, version: U32) returns (r: Result<seq<Transaction>>)
    requires reader.Valid()
    modifies reader
    ensures reader.Valid() && Reads(r, reader.Rest(), DecSnapshot(version, old(reader.Rest())))
  {
    hide DecTxItem, DecU32;
    if version < FORMAT_VERSION {
      return Ok([]);
    }
    var count :- reader.GetU32();
    if count > MAX_LEDGER_TRANSACTIONS {
      return Err(StorageCorruption);
    }
    ghost var spec := DecMany(count, reader.Rest(), DecTxItem);
    var txs: seq<Transaction> := [];
    DecManyEnd(txs, reader.Rest(), DecTxItem);
    for i := 0 to count
      invariant reader.Valid() && spec == Prepend(txs, DecMany(count - i, reader.Rest(), DecTxItem))
    {
      DecManyStep(txs, count - i, reader.Rest(), DecTxItem);
      var tx :- ReadTxItem(reader);
      txs := txs + [tx];
    }
    DecManyEnd(txs, reader.Rest(), DecTxItem);
    r := Ok(txs);
  }

  method ReadPreamble(reader: ByteReader) returns (r: Result<(U32, ConsensusParams, U32)>)
    requires reader.Valid()
    modifies reader
    ensures reader.Valid() && Reads(r, reader.Rest(), DecPreamble(old(reader.Rest())))
  {
    hide DecU32, DecU64;
    var magic := reader.GetU32();
    if magic.Err? || magic.value != LEDGER_MAGIC {
      return Err(StorageCorruption);
    }
    var version :- reader.GetU32();
    if version != FORMAT_VERSION && version != FORMAT_VERSION_1 {
      return Err(UnsupportedVersion);
    }
    var subsidy :- reader.GetU64();
    var maturity :- reader.GetU32();
    var count :- reader.GetU32();
    if count == 0 || count > MAX_LEDGER_BLOCKS {
      return Err(StorageCorruption);
    }
    r := Ok((version, ConsensusParams(subsidy, maturity), count));
  }

  method ReadLedger(bytes: Bytes) returns (r: Result<LedgerData>)
    ensures r == DecodeLedger(bytes)
  {
    hide DecPreamble, DecStoredBlocks, DecSnapshot, Sequential, Checksum;
    if |bytes| < 4 {
      return Err(StorageCorruption);
    }
    var body := bytes[..|bytes| - 4];
    var tail := new ByteReader(bytes[|bytes| - 4..]);
    var actual := tail.GetLittleEndian(4);
    assert bytes[|bytes| - 4..][..4] == bytes[|bytes| - 4..];
    if actual != Checksum(body) {
      return Err(StorageCorruption);
    }
    var reader := new ByteReader(body);
    var preamble :- ReadPreamble(reader);
    var (version, params, count) := preamble;
    var blocks :- ReadStoredBlocks(reader, count);
    var mempool :- ReadSnapshot(reader, version);
    var _ :- reader.ExpectEnd();
    var _ :- ValidateBlockSequence(blocks);
    r := Ok(LedgerData(blocks, params, mempool));
  }

  // ----- rebuilding

  /** The chain a stored block list rebuilds. */
  ghost function Rebuilt(blocks: seq<Block>, params: ConsensusParams): Result<ChainState> {
    if !Sequential(blocks) then Err(StorageCorruption) else Replay(blocks, params)
  }

  method ReplayChain(blocks: seq<Block>, params: ConsensusParams) returns (r: Result<ActiveChain>)
    ensures match Rebuilt(blocks, params)
            case Ok(c) => r.Ok? && fresh(r.value) && fresh(r.value.utxos) && r.value.State() == c
            case Err(e) => r == Err(e)
  {
    hide ChainRules.Create, Submit, Valid;
    var sequential := ValidateBlockSequence(blocks);
    if sequential.Err? {
      return Err(sequential.code);
    }
    hide Sequential;
    assert blocks != [] by { SequentialNonEmpty(blocks); }
    var created := ActiveChain.Create(blocks[0], params);
    assert blocks[..1] == [blocks[0]];
    if created.Err? {
      ReplayError(blocks, params, 1);
      return created;
    }
    var chain := created.value;
    for i := 1 to |blocks|
      invariant fresh(chain) && fresh(chain.utxos)
      invariant Replay(blocks[..i], params) == Ok(chain.State())
    {
      assert blocks[..i + 1][..i] == blocks[..i];
      var fees := chain.SubmitBlock(blocks[i], null);
      if fees.Err? {
        ReplayError(blocks, params, i + 1);
        return Err(fees.code);
      }
    }
    assert blocks[..|blocks|] == blocks;
    r := Ok(chain);
  }

  lemma {:induction false} RestoreError(p: Pool, coins: Coins, txs: seq<Transaction>, policy: Policy, k: nat)
    requires Valid(p) && k <= |txs| && Restore(p, coins, txs[..k], policy).0.Err?
    ensures Restore(p, coins, txs, policy) == Restore(p, coins, txs[..k], policy)
    decreases |txs| - k
  {
    hide Valid, Accept;
    if k == |txs| {
      assert txs[..k] == txs;
    } else {
      assert txs[..k + 1][..k] == txs[..k];
      RestoreError(p, coins, txs, policy, k + 1);
    }
  }

  method RestoreMempool(pool: TransactionPool, utxos: UtxoSet, txs: seq<Transaction>, policy: Policy)
    returns (r: Result<()>)
    requires Valid(pool.Contents())
    modifies pool
    ensures Valid(pool.Contents())
    ensures (r, pool.Contents()) == Restore(old(pool.Contents()), utxos.coins, txs, policy)
  {
    hide Valid, Accept;
    ghost var start := pool.Contents();
    for i := 0 to |txs|
      invariant Valid(pool.Contents())
      invariant Restore(start, utxos.coins, txs[..i], policy) == (DONE, pool.Contents())
    {
      assert txs[..i + 1][..i] == txs[..i];
      var ok := pool.Accept(txs[i], utxos, policy);
      if ok.Err? {
        RestoreError(start, utxos.coins, txs, policy, i + 1);
        return Err(StorageCorruption);
      }
    }
    assert txs[..|txs|] == txs;
    r := DONE;
  }
}
