/** Serialization carried out on the byte cursors: every writer emits the encoding, every reader
    does what the decoder says and stays within its input. */
module Wire {
  import opened Base
  import opened ByteIO
  import opened Cursors
  import opened Transactions
  import opened Blocks

  method WriteInputs(inputs: seq<OutPoint>, w: ByteWriter)
    modifies w
    ensures w.buffer == old(w.buffer) + EncList(inputs, EncInput)
  {
    hide EncU32, EncCount;
    w.PutU32(|inputs| % TWO_32);
    CountIs(|inputs|);
    ghost var before := w.buffer;
    for i := 0 to |inputs|
      invariant w.buffer == before + EncMany(inputs[..i], EncInput)
    {
      assert inputs[..i + 1] == inputs[..i] + [inputs[i]];
      ManyAppend(inputs[..i], inputs[i], EncInput);
      w.PutBytes(inputs[i].txid);
      w.PutU32(inputs[i].index);
    }
    assert inputs[..|inputs|] == inputs;
  }

  method WriteOutputs(outputs: seq<TxOutput>, w: ByteWriter)
    modifies w
    ensures w.buffer == old(w.buffer) + EncList(outputs, EncOutput)
  {
    hide EncU32, EncU64, EncCount;
    w.PutU32(|outputs| % TWO_32);
    CountIs(|outputs|);
    ghost var before := w.buffer;
    for i := 0 to |outputs|
      invariant w.buffer == before + EncMany(outputs[..i], EncOutput)
    {
      assert outputs[..i + 1] == outputs[..i] + [outputs[i]];
      ManyAppend(outputs[..i], outputs[i], EncOutput);
      w.PutU64(outputs[i].value);
      w.PutBytes(outputs[i].recipient);
    }
    assert outputs[..|outputs|] == outputs;
  }

  method SerializeTx(tx: Transaction, w: ByteWriter)
    modifies w
    ensures w.buffer == old(w.buffer) + EncTx(tx)
  {
    hide EncU32, EncList;
    w.PutU32(tx.version);
    WriteInputs(tx.inputs, w);
    WriteOutputs(tx.outputs, w);
    w.PutU32(tx.lockTime);
  }

  lemma CountIs(n: nat)
    ensures EncU32(n % TWO_32) == EncCount(n)
  {
  }

  method ReadInput(reader: ByteReader) returns (r: Result<OutPoint>)
    requires reader.Valid()
    modifies reader
    ensures reader.Valid() && Reads(r, reader.Rest(), DecInput(old(reader.Rest())))
  {
    var txid :- reader.GetHash();
    var index :- reader.GetU32();
    r := Ok(OutPoint(txid, index));
  }

  method ReadOutput(reader: ByteReader) returns (r: Result<TxOutput>)
    requires reader.Valid()
    modifies reader
    ensures reader.Valid() && Reads(r, reader.Rest(), DecOutput(old(reader.Rest())))
  {
    var value :- reader.GetU64();
    var recipient :- reader.GetHash();
    r := Ok(TxOutput(value, recipient));
  }

  method ReadInputs(reader: ByteReader) returns (r: Result<seq<OutPoint>>)
    requires reader.Valid()
    modifies reader
    ensures reader.Valid() && Reads(r, reader.Rest(), DecInputs(old(reader.Rest())))
  {
    hide DecInput, DecLength;
    var count :- reader.GetLength(MAX_INPUTS);
    ghost var spec := DecMany(count, reader.Rest(), DecInput);
    var inputs: seq<OutPoint> := [];
    DecManyEnd(inputs, reader.Rest(), DecInput);
    for i := 0 to count
      invariant reader.Valid() && spec == Prepend(inputs, DecMany(count - i, reader.Rest(), DecInput))
    {
      DecManyStep(inputs, count - i, reader.Rest(), DecInput);
      var input :- ReadInput(reader);
      inputs := inputs + [input];
    }
    DecManyEnd(inputs, reader.Rest(), DecInput);
    r := Ok(inputs);
  }

  method ReadOutputs(reader: ByteReader) returns (r: Result<seq<TxOutput>>)
    requires reader.Valid()
    modifies reader
    ensures reader.Valid() && Reads(r, reader.Rest(), DecOutputs(old(reader.Rest())))
  {
    hide DecOutput, DecLength;
    var count :- reader.GetLength(MAX_OUTPUTS);
    ghost var spec := DecMany(count, reader.Rest(), DecOutput);
    var outputs: seq<TxOutput> := [];
    DecManyEnd(outputs, reader.Rest(), DecOutput);
    for i := 0 to count
      invariant reader.Valid() && spec == Prepend(outputs, DecMany(count - i, reader.Rest(), DecOutput))
    {
      DecManyStep(outputs, count - i, reader.Rest(), DecOutput);
      var output :- ReadOutput(reader);
      outputs := outputs + [output];
    }
    DecManyEnd(outputs, reader.Rest(), DecOutput);
    r := Ok(outputs);
  }

  method DeserializeTx(reader: ByteReader) returns (r: Result<Transaction>)
    requires reader.Valid()
    modifies reader
    ensures reader.Valid() && Reads(r, reader.Rest(), DecTx(old(reader.Rest())))
  {
    hide DecU32, DecInputs, DecOutputs;
    var version :- reader.GetU32();
    var inputs :- ReadInputs(reader);
    var outputs :- ReadOutputs(reader);
    var lockTime :- reader.GetU32();
    r := Ok(Transaction(version, inputs, outputs, lockTime));
  }

  method SerializeHeader(h: BlockHeader, w: ByteWriter)
    modifies w
    ensures w.buffer == old(w.buffer) + EncHeader(h)
  {
    hide EncU32, EncU64;
    w.PutU32(h.version);
    w.PutBytes(h.prevBlock);
    w.PutBytes(h.merkleRoot);
    w.PutU64(h.timestamp);
    w.PutU32(h.height);
  }

  method DeserializeHeader(reader: ByteReader) returns (r: Result<BlockHeader>)
    requires reader.Valid()
    modifies reader
    ensures reader.Valid() && Reads(r, reader.Rest(), DecHeader(old(reader.Rest())))
  {
    hide DecU32, DecU64, DecHash;
    var version :- reader.GetU32();
    var prevBlock :- reader.GetHash();
    var merkleRoot :- reader.GetHash();
    var timestamp :- reader.GetU64();
    var height :- reader.GetU32();
    r := Ok(BlockHeader(version, prevBlock, merkleRoot, timestamp, height));
  }

  method WriteTxs(txs: seq<Transaction>, w: ByteWriter)
    modifies w
    ensures w.buffer == old(w.buffer) + EncList(txs, EncTx)
  {
    hide EncTx, EncCount;
    w.PutU32(|txs| % TWO_32);
    CountIs(|txs|);
    ghost var before := w.buffer;
    for i := 0 to |txs|
      invariant w.buffer == before + EncMany(txs[..i], EncTx)
    {
      assert txs[..i + 1] == txs[..i] + [txs[i]];
      ManyAppend(txs[..i], txs[i], EncTx);
      SerializeTx(txs[i], w);
    }
    assert txs[..|txs|] == txs;
  }

  method SerializeBlock(b: Block, w: ByteWriter)
    modifies w
    ensures w.buffer == old(w.buffer) + EncBlock(b)
  {
    hide EncHeader, EncList;
    SerializeHeader(b.header, w);
    WriteTxs(b.transactions, w);
  }

  method ReadTxs(reader: ByteReader) returns (r: Result<seq<Transaction>>)
    requires reader.Valid()
    modifies reader
    ensures reader.Valid() && Reads(r, reader.Rest(), DecTxs(old(reader.Rest())))
  {
    hide DecTx, DecLength;
    var count :- reader.GetLength(MAX_BLOCK_TRANSACTIONS);
    ghost var spec := DecMany(count, reader.Rest(), DecTx);
    var txs: seq<Transaction> := [];
    DecManyEnd(txs, reader.Rest(), DecTx);
    for i := 0 to count
      invariant reader.Valid() && spec == Prepend(txs, DecMany(count - i, reader.Rest(), DecTx))
    {
      DecManyStep(txs, count - i, reader.Rest(), DecTx);
      var tx :- DeserializeTx(reader);
      txs := txs + [tx];
    }
    DecManyEnd(txs, reader.Rest(), DecTx);
    r := Ok(txs);
  }

  method DeserializeBlock(reader: ByteReader) returns (r: Result<Block>)
    requires reader.Valid()
    modifies reader
    ensures reader.Valid() && Reads(r, reader.Rest(), DecBlock(old(reader.Rest())))
  {
    hide DecHeader, DecTxs;
    var header :- DeserializeHeader(reader);
    var transactions :- ReadTxs(reader);
    r := Ok(Block(header, transactions));
  }

  /** Parses a byte string that must hold one block and nothing after it. */
  method ParseBlockBytes(bytes: Bytes) returns (r: Result<Block>)
    ensures r == ParseBlock(bytes)
  {
    hide DecBlock;
    var reader := new ByteReader(bytes);
    var block :- DeserializeBlock(reader);
    var _ :- reader.ExpectEnd();
    r := Ok(block);
  }

  method ParseTxBytes(bytes: Bytes) returns (r: Result<Transaction>)
    ensures r == ParseTx(bytes)
  {
    hide DecTx;
    var reader := new ByteReader(bytes);
    var tx :- DeserializeTx(reader);
    var _ :- reader.ExpectEnd();
    r := Ok(tx);
  }
}
