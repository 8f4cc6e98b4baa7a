/** Block sanity and the unspent-set transition of a block. */
module BlockValidation {
  import opened Base
  import opened Transactions
  import opened Blocks
  import opened Merkle
  import opened Utxo
  import opened TxValidation

  datatype ConsensusParams = ConsensusParams(blockSubsidy: U64, coinbaseMaturity: U32)

  // ----- sanity

  /** What a block must satisfy by itself. */
  ghost predicate SaneBlock(b: Block) {
    && |b.transactions| <= MAX_BLOCK_TRANSACTIONS
    && |EncBlock(b)| <= MAX_BLOCK_BYTES
    && b.header.merkleRoot == MerkleRoot(b.transactions)
    && (forall i :: 0 <= i < |b.transactions| ==> SaneTx(b.transactions[i]))
    && (forall i :: 1 <= i < |b.transactions| ==> !IsCoinbase(b.transactions[i]))
    && Distinct(Txids(b.transactions))
  }

  /** The outcome of scanning the transactions from `i` on: the first offender decides. */
  ghost function ScanTransactions(txs: seq<Transaction>, i: nat): Result<()>
    requires i <= |txs|
    decreases |txs| - i
  {
    if i == |txs| then DONE
    else if !SaneTx(txs[i]) then Err(InvalidTransaction)
    else if IsCoinbase(txs[i]) && i != 0 then Err(InvalidBlock)
    else if Txid(txs[i]) in Txids(txs)[..i] then Err(InvalidBlock)
    else ScanTransactions(txs, i + 1)
  }

  ghost function BlockSanity(b: Block): Result<()> {
    if |b.transactions| > MAX_BLOCK_TRANSACTIONS || |EncBlock(b)| > MAX_BLOCK_BYTES
       || b.header.merkleRoot != MerkleRoot(b.transactions)
    then Err(InvalidBlock)
    else ScanTransactions(b.transactions, 0)
  }

  lemma {:induction false} ScanExact(txs: seq<Transaction>, i: nat)
    requires i <= |txs|
    ensures ScanTransactions(txs, i).Ok? <==>
            forall k :: i <= k < |txs| ==>
              SaneTx(txs[k]) && (k == 0 || !IsCoinbase(txs[k])) && Txid(txs[k]) !in Txids(txs)[..k]
    decreases |txs| - i
  {
    hide SaneTx, Txid, IsCoinbase;
    if i < |txs| {
      ScanExact(txs, i + 1);
    }
  }

  lemma SanityExact(b: Block)
    ensures BlockSanity(b).Ok? <==> SaneBlock(b)
  {
    hide SaneTx, Txid, IsCoinbase, EncBlock, MerkleRoot;
    var txs := b.transactions;
    ScanExact(txs, 0);
    var ids := Txids(txs);
    if Distinct(ids) {
      forall k | 0 <= k < |ids| ensures ids[k] !in ids[..k] {
      }
    }
    if forall k :: 0 <= k < |txs| ==> Txid(txs[k]) !in ids[..k] {
      forall i, j | 0 <= i < j < |ids| ensures ids[i] != ids[j] {
        assert ids[i] in ids[..j] && ids[j] == Txid(txs[j]);
      }
    }
  }

  method CheckBlockSanity(b: Block) returns (r: Result<()>)
    ensures r == BlockSanity(b)
  {
    hide SaneTx, Txid, IsCoinbase, EncBlock, MerkleRoot;
    var txs := b.transactions;
    if |txs| > MAX_BLOCK_TRANSACTIONS {
      return Err(InvalidBlock);
    }
    if |EncBlock(b)| > MAX_BLOCK_BYTES {
      return Err(InvalidBlock);
    }
    var root := ComputeMerkleRoot(txs);
    if b.header.merkleRoot != root {
      return Err(InvalidBlock);
    }
    var seen: set<Hash> := {};
    for i := 0 to |txs|
      invariant seen == set k | 0 <= k < i :: Txids(txs)[k]
      invariant ScanTransactions(txs, i) == BlockSanity(b)
    {
      var sane := CheckTransactionSanity(txs[i]);
      if sane.Err? {
        return sane;
      }
      if IsCoinbase(txs[i]) && i != 0 {
        return Err(InvalidBlock);
      }
      var txid := Txid(txs[i]);
      assert txid in seen <==> txid in Txids(txs)[..i];
      if txid in seen {
        return Err(InvalidBlock);
      }
      seen := seen + {txid};
    }
    r := DONE;
  }

  // ----- transition

  /** The outpoints of the first `n` inputs. */
  function FirstInputs(inputs: seq<OutPoint>, n: nat): set<OutPoint>
    requires n <= |inputs|
  {
    set i | 0 <= i < n :: inputs[i]
  }

  function Prevouts(tx: Transaction): set<OutPoint> {
    FirstInputs(tx.inputs, |tx.inputs|)
  }

  predicate Creates(tx: Transaction, op: OutPoint) {
    op.txid == Txid(tx) && op.index < |tx.outputs|
  }

  /** The coins of the first `n` outputs of `tx`, created at `height`. */
  function FirstCoins(tx: Transaction, n: nat, height: U32, coinbase: bool): (r: Coins)
    requires n <= |tx.outputs| <= MAX_OUTPUTS
    ensures forall op :: op in r <==> Creates(tx, op) && op.index < n
    ensures forall op :: op in r ==> op.index < n && r[op] == Coin(tx.outputs[op.index], height, coinbase)
  {
    map i: U32 | 0 <= i < n :: OutPoint(Txid(tx), i) := Coin(tx.outputs[i], height, coinbase)
  }

  /** The coins `tx` creates at `height`. */
  function NewCoins(tx: Transaction, height: U32, coinbase: bool): Coins
    requires |tx.outputs| <= MAX_OUTPUTS
  {
    FirstCoins(tx, |tx.outputs|, height, coinbase)
  }

  /** No output of `tx` would overwrite a coin. */
  ghost predicate Fresh(tx: Transaction, coins: Coins) {
    forall op :: Creates(tx, op) ==> op !in coins
  }

  /** One non-coinbase transaction: its fee and the unspent set after it. */
  ghost function TxEffect(tx: Transaction, coins: Coins, height: U32, maturity: U32): Result<(Coins, U64)>
    requires SaneTx(tx)
  {
    var fee :- TxFee(tx, coins);
    if !Mature(tx.inputs, coins, height, maturity) then Err(InvalidTransaction) else
      var spent := coins - Prevouts(tx);
      if !Fresh(tx, spent) then Err(InvalidStateTransition) else Ok((spent + NewCoins(tx, height, false), fee))
  }

  ghost predicate AllSane(txs: seq<Transaction>) {
    forall i :: 0 <= i < |txs| ==> SaneTx(txs[i])
  }

  /** Non-coinbase transactions in order, accumulating fees. */
  ghost function BodyEffect(txs: seq<Transaction>, coins: Coins, height: U32, maturity: U32): Result<(Coins, U64)>
    requires AllSane(txs)
  {
    if txs == [] then Ok((coins, 0)) else
      var n := |txs| - 1;
      var (before, fees) :- BodyEffect(txs[..n], coins, height, maturity);
      var (after, fee) :- TxEffect(txs[n], before, height, maturity);
      if fees + fee > MAX_U64 then Err(InvalidBlock) else Ok((after, fees + fee))
  }

  predicate HasCoinbase(b: Block) {
    b.transactions != [] && IsCoinbase(b.transactions[0])
  }

  /** The transactions of the block other than its coinbase. */
  function Body(b: Block): seq<Transaction> {
    if HasCoinbase(b) then b.transactions[1..] else b.transactions
  }

  /** The coinbase of `b`, applied last: it pays at most subsidy plus fees. */
  ghost function CoinbaseEffect(b: Block, coins: Coins, fees: U64, params: ConsensusParams): Result<Coins>
    requires HasCoinbase(b) && SaneTx(b.transactions[0])
  {
    var coinbase := b.transactions[0];
    if params.blockSubsidy + fees > MAX_U64 then Err(InvalidBlock)
    else if TotalValue(coinbase.outputs) % TWO_64 > params.blockSubsidy + fees then Err(InvalidBlock)
    else if !Fresh(coinbase, coins) then Err(InvalidStateTransition)
    else Ok(coins + NewCoins(coinbase, b.header.height, true))
  }

  ghost function BlockEffect(b: Block, coins: Coins, params: ConsensusParams): Result<(Coins, U64)> {
    SanityExact(b);
    var _ :- BlockSanity(b);
    var (after, fees) :- BodyEffect(Body(b), coins, b.header.height, params.coinbaseMaturity);
    if !HasCoinbase(b) then Ok((after, fees)) else
      var final :- CoinbaseEffect(b, after, fees, params);
      Ok((final, fees))
  }

  // ----- the transition carried out

  lemma BodyStep(txs: seq<Transaction>, k: nat, coins: Coins, height: U32, maturity: U32, c: Coins, fees: U64)
    requires AllSane(txs) && k < |txs|
    requires BodyEffect(txs[..k], coins, height, maturity) == Ok((c, fees))
    ensures BodyEffect(txs[..k + 1], coins, height, maturity) ==
            match TxEffect(txs[k], c, height, maturity)
            case Err(e) => Err(e)
            case Ok((after, fee)) => if fees + fee > MAX_U64 then Err(InvalidBlock) else Ok((after, fees + fee))
  {
    hide SaneTx, TxEffect;
    assert txs[..k + 1][..k] == txs[..k];
  }

  /** An error part way through the body is the error of the whole body. */
  lemma {:induction false} BodyError(txs: seq<Transaction>, k: nat, coins: Coins, height: U32, maturity: U32)
    requires AllSane(txs) && k <= |txs|
    requires BodyEffect(txs[..k], coins, height, maturity).Err?
    ensures BodyEffect(txs, coins, height, maturity) == BodyEffect(txs[..k], coins, height, maturity)
    decreases |txs| - k
  {
    hide SaneTx, TxEffect;
    if k == |txs| {
      assert txs[..k] == txs;
    } else {
      assert txs[..k + 1][..k] == txs[..k];
      BodyError(txs, k + 1, coins, height, maturity);
    }
  }

  method AddOutputs(tx: Transaction, height: U32, coinbase: bool, working: UtxoSet) returns (r: Result<()>)
    requires |tx.outputs| <= MAX_OUTPUTS
    modifies working
    ensures r == if Fresh(tx, old(working.coins)) then DONE else Err(InvalidStateTransition)
    ensures r.Ok? ==> working.coins == old(working.coins) + NewCoins(tx, height, coinbase)
  {
    hide Txid, FirstCoins;
    ghost var before := working.coins;
    var txid := Txid(tx);
    for i := 0 to |tx.outputs|
      invariant forall op :: Creates(tx, op) && op.index < i ==> op !in before
      invariant working.coins == before + FirstCoins(tx, i, height, coinbase)
    {
      var outpoint := OutPoint(txid, i);
      assert Creates(tx, outpoint);
      var added := working.Add(outpoint, Coin(tx.outputs[i], height, coinbase));
      if added.Err? {
        return added;
      }
    }
    r := DONE;
  }

  method SpendInputs(tx: Transaction, working: UtxoSet) returns (r: Result<()>)
    modifies working
    ensures r == if Distinct(tx.inputs) && Spendable(tx.inputs, old(working.coins)) then DONE
                 else Err(InvalidStateTransition)
    ensures r.Ok? ==> working.coins == old(working.coins) - Prevouts(tx)
  {
    ghost var before := working.coins;
    for i := 0 to |tx.inputs|
      invariant Distinct(tx.inputs[..i]) && Spendable(tx.inputs[..i], before)
      invariant working.coins == before - FirstInputs(tx.inputs, i)
    {
      var spent := working.Spend(tx.inputs[i]);
      if spent.Err? {
        return Err(spent.code);
      }
    }
    assert tx.inputs[..|tx.inputs|] == tx.inputs;
    r := DONE;
  }

  /** One turn of the loop over non-coinbase transactions. */
  method ConnectTx(tx: Transaction, working: UtxoSet, height: U32, maturity: U32) returns (r: Result<U64>)
    requires SaneTx(tx)
    modifies working
    ensures match TxEffect(tx, old(working.coins), height, maturity)
            case Ok((after, fee)) => r == Ok(fee) && working.coins == after
            case Err(e) => r == Err(e)
  {
    hide Txid, TxFee, Mature, EncTx;
    r := CheckTransactionInputs(tx, working);
    if r.Err? {
      return;
    }
    var mature := CheckCoinbaseMaturity(tx, working, height, maturity);
    if mature.Err? {
      return Err(mature.code);
    }
    assert Spendable(tx.inputs, working.coins) by {
      FeeNeedsCoins(tx, working.coins);
    }
    var spent := SpendInputs(tx, working);
    assert spent.Ok?;
    var added := AddOutputs(tx, height, false, working);
    if added.Err? {
      return Err(added.code);
    }
  }

  lemma FeeNeedsCoins(tx: Transaction, coins: Coins)
    requires TxFee(tx, coins).Ok?
    ensures Spendable(tx.inputs, coins)
  {
  }

  lemma EmptyBody(coins: Coins, height: U32, maturity: U32)
    ensures BodyEffect([], coins, height, maturity) == Ok((coins, 0))
  {
  }

  /** The loop over the transactions of a sane block, which passes over its coinbase. */
  method ConnectBody(b: Block, working: UtxoSet, maturity: U32) returns (r: Result<U64>)
    requires AllSane(b.transactions)
    modifies working
    ensures match BodyEffect(Body(b), old(working.coins), b.header.height, maturity)
            case Ok((after, fees)) => r == Ok(fees) && working.coins == after
            case Err(e) => r == Err(e)
  {
    hide SaneTx, TxEffect, BodyEffect, IsCoinbase;
    EmptyBody(working.coins, b.header.height, maturity);
    ghost var before, body, height := working.coins, Body(b), b.header.height;
    var totalFees: U64 := 0;
    var hasCoinbase := HasCoinbase(b);
    ghost var k := 0;
    for i := 0 to |b.transactions|
      invariant k == (if hasCoinbase && i > 0 then i - 1 else i) <= |body|
      invariant BodyEffect(body[..k], before, height, maturity) == Ok((working.coins, totalFees))
    {
      if i == 0 && hasCoinbase {
        continue;
      }
      assert b.transactions[i] == body[k];
      BodyStep(body, k, before, height, maturity, working.coins, totalFees);
      var fee := ConnectTx(b.transactions[i], working, b.header.height, maturity);
      if fee.Err? {
        BodyError(body, k + 1, before, height, maturity);
        return Err(fee.code);
      }
      var sum := CheckedAdd(totalFees, fee.value);
      if sum.Err? {
        BodyError(body, k + 1, before, height, maturity);
        return Err(InvalidBlock);
      }
      totalFees := sum.value;
      k := k + 1;
    }
    assert body[..k] == body;
    r := Ok(totalFees);
  }

  method ConnectCoinbase(b: Block, working: UtxoSet, totalFees: U64, params: ConsensusParams) returns (r: Result<()>)
    requires HasCoinbase(b) && SaneTx(b.transactions[0])
    modifies working
    ensures match CoinbaseEffect(b, old(working.coins), totalFees, params)
            case Ok(after) => r.Ok? && working.coins == after
            case Err(e) => r == Err(e)
  {
    hide Txid, TotalValue, Fresh, FirstCoins;
    var coinbase := b.transactions[0];
    var coinbaseOut := UncheckedTotal(coinbase.outputs);
    var allowed := CheckedAdd(params.blockSubsidy, totalFees);
    if allowed.Err? || coinbaseOut > allowed.value {
      return Err(InvalidBlock);
    }
    r := AddOutputs(coinbase, b.header.height, true, working);
  }

  method ConnectBlock(b: Block, utxos: UtxoSet, params: ConsensusParams) returns (r: Result<U64>)
    modifies utxos
    ensures match BlockEffect(b, old(utxos.coins), params)
            case Ok((after, fees)) => r == Ok(fees) && utxos.coins == after
            case Err(e) => r == Err(e) && utxos.coins == old(utxos.coins)
  {
    hide SaneTx, Txid, EncBlock, MerkleRoot, ScanTransactions, BodyEffect, CoinbaseEffect;
    var sane := CheckBlockSanity(b);
    if sane.Err? {
      return Err(sane.code);
    }
    SanityExact(b);
    var working := new UtxoSet.Copy(utxos);
    var fees := ConnectBody(b, working, params.coinbaseMaturity);
    if fees.Err? {
      return fees;
    }
    if HasCoinbase(b) {
      var paid := ConnectCoinbase(b, working, fees.value, params);
      if paid.Err? {
        return Err(paid.code);
      }
    }
    utxos.coins := working.coins;
    r := fees;
  }
}
