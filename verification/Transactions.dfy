/** Transactions, their canonical encoding, and their ids. */
module Transactions {
  import opened Base
  import opened ByteIO
  import opened Hashing

  const TRANSACTION_VERSION: U32 := 1
  const MAX_INPUTS: U32 := 4096
  const MAX_OUTPUTS: U32 := 4096
  const MAX_TRANSACTION_BYTES: U32 := 0x1_0000
  const MAX_MONEY: U64 := 21_000_000 * 100_000_000
  /** The output index that marks the input of a coinbase. */
  const NULL_INDEX: U32 := 0xFFFF_FFFF

  datatype OutPoint = OutPoint(txid: Hash, index: U32)
  datatype TxOutput = TxOutput(value: U64, recipient: Hash)

  /** An input holds nothing but the outpoint it spends. */
  datatype Transaction = Transaction(
    version: U32,
    inputs: seq<OutPoint>,
    outputs: seq<TxOutput>,
    lockTime: U32)

  predicate IsCoinbase(tx: Transaction) {
    |tx.inputs| == 1 && tx.inputs[0].index == NULL_INDEX
  }

  // ----- encoding

  function EncInput(input: OutPoint): (r: Bytes)
    ensures |r| == 36
  {
    input.txid + EncU32(input.index)
  }

  function DecInput(bs: Bytes): Decoded<OutPoint> {
    var (txid, s) :- DecHash(bs);
    var (index, t) :- DecU32(s);
    Ok((OutPoint(txid, index), t))
  }

  function EncOutput(output: TxOutput): (r: Bytes)
    ensures |r| == 40
  {
    EncU64(output.value) + output.recipient
  }

  function DecOutput(bs: Bytes): Decoded<TxOutput> {
    var (value, s) :- DecU64(bs);
    var (recipient, t) :- DecHash(s);
    Ok((TxOutput(value, recipient), t))
  }

  function EncTx(tx: Transaction): Bytes {
    EncU32(tx.version) + EncList(tx.inputs, EncInput) + EncList(tx.outputs, EncOutput) + EncU32(tx.lockTime)
  }

  function DecInputs(bs: Bytes): Decoded<seq<OutPoint>> {
    DecList(bs, MAX_INPUTS, DecInput)
  }

  function DecOutputs(bs: Bytes): Decoded<seq<TxOutput>> {
    DecList(bs, MAX_OUTPUTS, DecOutput)
  }

  function DecTx(bs: Bytes): Decoded<Transaction> {
    var (version, r) :- DecU32(bs);
    var (inputs, s) :- DecInputs(r);
    var (outputs, t) :- DecOutputs(s);
    var (lockTime, u) :- DecU32(t);
    Ok((Transaction(version, inputs, outputs, lockTime), u))
  }

  /** Whole-input parse: trailing bytes are an error. */
  function ParseTx(bs: Bytes): Result<Transaction> {
    var (tx, rest) :- DecTx(bs);
    if rest != [] then Err(ParseError) else Ok(tx)
  }

  /** The transactions a decoder can return: counts within the structural limits. */
  predicate WireTx(tx: Transaction) {
    |tx.inputs| <= MAX_INPUTS && |tx.outputs| <= MAX_OUTPUTS
  }

  lemma InputCodec()
    ensures Canonical(EncInput, DecInput, (x: OutPoint) => true)
  {
    forall x: OutPoint, s: Bytes
      ensures DecInput(EncInput(x) + s) == Ok((x, s))
    {
      assert EncInput(x) + s == x.txid + (EncU32(x.index) + s);
      HashRoundTrip(x.txid, EncU32(x.index) + s);
      U32RoundTrip(x.index, s);
    }
    forall bs: Bytes | DecInput(bs).Ok?
      ensures bs == EncInput(DecInput(bs).value.0) + DecInput(bs).value.1
    {
    }
  }

  lemma OutputCodec()
    ensures Canonical(EncOutput, DecOutput, (x: TxOutput) => true)
  {
    forall x: TxOutput, s: Bytes
      ensures DecOutput(EncOutput(x) + s) == Ok((x, s))
    {
      assert EncOutput(x) + s == EncU64(x.value) + (x.recipient + s);
      U64RoundTrip(x.value, x.recipient + s);
      HashRoundTrip(x.recipient, s);
    }
    forall bs: Bytes | DecOutput(bs).Ok?
      ensures bs == EncOutput(DecOutput(bs).value.0) + DecOutput(bs).value.1
    {
    }
  }

  lemma InputsRoundTrip(inputs: seq<OutPoint>, s: Bytes)
    requires |inputs| <= MAX_INPUTS
    ensures DecInputs(EncList(inputs, EncInput) + s) == Ok((inputs, s))
  {
    InputCodec();
    ListRoundTrip(inputs, MAX_INPUTS, s, EncInput, DecInput, (x: OutPoint) => true);
  }

  lemma OutputsRoundTrip(outputs: seq<TxOutput>, s: Bytes)
    requires |outputs| <= MAX_OUTPUTS
    ensures DecOutputs(EncList(outputs, EncOutput) + s) == Ok((outputs, s))
  {
    OutputCodec();
    ListRoundTrip(outputs, MAX_OUTPUTS, s, EncOutput, DecOutput, (x: TxOutput) => true);
  }

  lemma InputsCanonical(bs: Bytes)
    requires DecInputs(bs).Ok?
    ensures var (inputs, s) := DecInputs(bs).value; |inputs| <= MAX_INPUTS && bs == EncList(inputs, EncInput) + s
  {
    InputCodec();
    ListCanonical(bs, MAX_INPUTS, EncInput, DecInput, (x: OutPoint) => true);
  }

  lemma OutputsCanonical(bs: Bytes)
    requires DecOutputs(bs).Ok?
    ensures var (outputs, s) := DecOutputs(bs).value; |outputs| <= MAX_OUTPUTS && bs == EncList(outputs, EncOutput) + s
  {
    OutputCodec();
    ListCanonical(bs, MAX_OUTPUTS, EncOutput, DecOutput, (x: TxOutput) => true);
  }

  lemma Regroup(a: Bytes, b: Bytes, c: Bytes, d: Bytes, s: Bytes)
    ensures a + b + c + d + s == a + (b + (c + (d + s)))
  {
  }

  lemma TxRoundTrip(tx: Transaction, s: Bytes)
    requires WireTx(tx)
    ensures DecTx(EncTx(tx) + s) == Ok((tx, s))
  {
    var inputs, outputs := EncList(tx.inputs, EncInput), EncList(tx.outputs, EncOutput);
    var t := EncU32(tx.lockTime) + s;
    Regroup(EncU32(tx.version), inputs, outputs, EncU32(tx.lockTime), s);
    U32RoundTrip(tx.version, inputs + (outputs + t));
    InputsRoundTrip(tx.inputs, outputs + t);
    OutputsRoundTrip(tx.outputs, t);
    U32RoundTrip(tx.lockTime, s);
  }

  lemma TxCanonical(bs: Bytes)
    requires DecTx(bs).Ok?
    ensures var (tx, s) := DecTx(bs).value; WireTx(tx) && bs == EncTx(tx) + s
  {
    var (tx, u) := DecTx(bs).value;
    var r := DecU32(bs).value.1;
    InputsCanonical(r);
    OutputsCanonical(DecInputs(r).value.1);
    Regroup(EncU32(tx.version), EncList(tx.inputs, EncInput), EncList(tx.outputs, EncOutput), EncU32(tx.lockTime), u);
  }

  lemma TxCodec()
    ensures Canonical(EncTx, DecTx, WireTx)
  {
    forall tx: Transaction, s: Bytes | WireTx(tx)
      ensures DecTx(EncTx(tx) + s) == Ok((tx, s))
    {
      TxRoundTrip(tx, s);
    }
    forall bs: Bytes | DecTx(bs).Ok?
      ensures var (tx, s) := DecTx(bs).value; WireTx(tx) && bs == EncTx(tx) + s
    {
      TxCanonical(bs);
    }
  }

  /** Parsing inverts encoding both ways: one byte string per transaction, one transaction
      per accepted byte string. */
  lemma ParseTxExact(bs: Bytes, tx: Transaction)
    ensures ParseTx(bs) == Ok(tx) <==> WireTx(tx) && bs == EncTx(tx)
  {
    if ParseTx(bs) == Ok(tx) {
      TxCanonical(bs);
    }
    if WireTx(tx) && bs == EncTx(tx) {
      TxRoundTrip(tx, []);
      assert EncTx(tx) + [] == bs;
    }
  }

  lemma EncTxInjective(a: Transaction, b: Transaction)
    requires WireTx(a) && WireTx(b) && EncTx(a) == EncTx(b)
    ensures a == b
  {
    ParseTxExact(EncTx(a), a);
    ParseTxExact(EncTx(b), b);
  }

  lemma EncTxLength(tx: Transaction)
    ensures |EncTx(tx)| == 16 + 36 * |tx.inputs| + 40 * |tx.outputs|
  {
    ManyLength(tx.inputs, EncInput, 36);
    ManyLength(tx.outputs, EncOutput, 40);
  }

  // ----- ids

  function Txid(tx: Transaction): Hash {
    Sha256d(EncTx(tx))
  }

  function Txids(txs: seq<Transaction>): (ids: seq<Hash>)
    ensures |ids| == |txs| && forall i :: 0 <= i < |txs| ==> ids[i] == Txid(txs[i])
  {
    seq(|txs|, i requires 0 <= i < |txs| => Txid(txs[i]))
  }

  /** The messages hashed to obtain the ids of these transactions. */
  ghost function TxMessages(txs: seq<Transaction>): set<Bytes> {
    set i | 0 <= i < |txs| :: EncTx(txs[i])
  }

  /** Where no two of the encodings collide, an id identifies its transaction. */
  lemma TxidInjective(a: Transaction, b: Transaction, messages: set<Bytes>)
    requires WireTx(a) && WireTx(b)
    requires NoCollision(messages) && EncTx(a) in messages && EncTx(b) in messages
    requires Txid(a) == Txid(b)
    ensures a == b
  {
    EncTxInjective(a, b);
  }

  // ----- coinbase

  /** The prevout id of the coinbase at `height`: the height in its leading bytes, zeros after. */
  function CoinbaseTag(height: U32): Hash {
    EncU32(height) + seq(28, i => 0)
  }

  function MakeCoinbase(height: U32, value: U64, recipient: Hash): (tx: Transaction)
    ensures IsCoinbase(tx)
  {
    Transaction(TRANSACTION_VERSION,
                [OutPoint(CoinbaseTag(height), NULL_INDEX)],
                [TxOutput(value, recipient)],
                0)
  }

  lemma CoinbaseTagInjective(g: U32, h: U32)
    requires CoinbaseTag(g) == CoinbaseTag(h)
    ensures g == h
  {
    assert EncU32(g) == CoinbaseTag(g)[..4] == CoinbaseTag(h)[..4] == EncU32(h);
    U32RoundTrip(g, []);
    U32RoundTrip(h, []);
  }
}
