/** The block builder as a program: the selection loop over a private copy of the unspent set,
    then assembly and self-check. */
module BlockBuilder {
  import opened Base
  import opened Transactions
  import opened Blocks
  import opened Merkle
  import opened Utxo
  import opened TxValidation
  import opened BlockValidation
  import opened FeeRate
  import opened Pools
  import opened Eviction
  import opened Mempool
  import opened Builder
  import opened Templates

  /** Applies `tx` to a trial copy and commits it only when every step succeeds. */
  method TryApply(tx: Transaction, height: U32, working: UtxoSet) returns (ok: bool)
    requires |tx.outputs| <= MAX_OUTPUTS
    modifies working
    ensures ok <==> Distinct(tx.inputs) && Spendable(tx.inputs, old(working.coins))
                    && Fresh(tx, old(working.coins) - Prevouts(tx))
    ensures working.coins ==
            if ok then old(working.coins) - Prevouts(tx) + NewCoins(tx, height, false) else old(working.coins)
  {
    hide Fresh, Prevouts, NewCoins, Txid;
    var trial := new UtxoSet.Copy(working);
    var spent := SpendInputs(tx, trial);
    if spent.Err? {
      return false;
    }
    var added := AddOutputs(tx, height, false, trial);
    if added.Err? {
      return false;
    }
    working.coins := trial.coins;
    ok := true;
  }

  /** A full selection takes nothing more. */
  lemma {:induction false} FullStays(entries: seq<Entry>, k: nat, coins: Coins, height: U32, params: TemplateParams)
    requires AllOk(entries) && k <= |entries|
    requires |Select(entries[..k], coins, height, params).txs| >= params.maxTransactions
    ensures Select(entries, coins, height, params) == Select(entries[..k], coins, height, params)
    decreases |entries| - k
  {
    hide EntryOk, TxEffect;
    if k == |entries| {
      assert entries[..k] == entries;
    } else {
      assert entries[..k + 1][..k] == entries[..k];
      FullStays(entries, k + 1, coins, height, params);
    }
  }

  /** A try that passes its checks has the effect the validator gives the transaction. */
  method TryEntry(e: Entry, height: U32, working: UtxoSet, maturity: U32) returns (r: Option<U64>)
    requires EntryOk(e)
    modifies working
    ensures match TxEffect(e.tx, old(working.coins), height, maturity)
            case Ok((after, fee)) => r == Some(fee) && working.coins == after
            case Err(_) => r == None && working.coins == old(working.coins)
  {
    hide Fresh, Prevouts, NewCoins, Txid, Mature, EncTx;
    var fee := CheckTransactionInputs(e.tx, working);
    if fee.Err? {
      return None;
    }
    var mature := CheckCoinbaseMaturity(e.tx, working, height, maturity);
    if mature.Err? {
      return None;
    }
    var applied := TryApply(e.tx, height, working);
    r := if applied then Some(fee.value) else None;
  }

  /** The selection loop. */
  method SelectEntries(entries: seq<Entry>, utxos: UtxoSet, height: U32, params: TemplateParams, size: nat)
    returns (s: Selection)
    requires AllOk(entries) && size == EMPTY_TEMPLATE_BYTES
    ensures s == Select(entries, utxos.coins, height, params)
  {
    hide EntryOk, TxEffect, Select;
    SelectNothing(utxos.coins, height, params);
    var working := new UtxoSet.Copy(utxos);
    var totalFees: U64 := 0;
    var currentSize: nat := size;
    var selected := 0;
    var txs: seq<Transaction> := [];
    for i := 0 to |entries|
      invariant fresh(working) && selected == |txs|
      invariant Select(entries[..i], utxos.coins, height, params) ==
                Selection(working.coins, totalFees, currentSize, txs)
    {
      if selected >= params.maxTransactions {
        FullStays(entries, i, utxos.coins, height, params);
        return Selection(working.coins, totalFees, currentSize, txs);
      }
      SelectNext(entries, i, utxos.coins, height, params);
      var projected := currentSize + entries[i].size;
      if projected > params.maxBlockBytes {
        continue;
      }
      var fee := TryEntry(entries[i], height, working, params.consensus.coinbaseMaturity);
      if fee.None? {
        continue;
      }
      var newFees := CheckedAdd(totalFees, fee.value);
      if newFees.Err? {
        continue;
      }
      totalFees := newFees.value;
      currentSize := projected;
      txs := txs + [entries[i].tx];
      selected := selected + 1;
    }
    assert entries[..|entries|] == entries;
    s := Selection(working.coins, totalFees, currentSize, txs);
  }

  lemma SelectNothing(coins: Coins, height: U32, params: TemplateParams)
    ensures Select([], coins, height, params) == Selection(coins, 0, EMPTY_TEMPLATE_BYTES, [])
  {
  }

  lemma SelectNext(entries: seq<Entry>, i: nat, coins: Coins, height: U32, params: TemplateParams)
    requires AllOk(entries) && i < |entries|
    ensures Select(entries[..i + 1], coins, height, params) ==
            SelectStep(Select(entries[..i], coins, height, params), entries[i], height, params)
  {
    hide EntryOk, SelectStep;
    assert entries[..i + 1][..i] == entries[..i];
  }

  method BuildBlockTemplate(
      tip: BlockHeader, timestamp: U64, pool: TransactionPool, utxos: UtxoSet, params: TemplateParams)
    returns (r: Result<Template>)
    requires Valid(pool.Contents())
    ensures r == Build(tip, timestamp, pool.Contents(), utxos.coins, params)
  {
    hide Valid, BlockEffect, Select, RankedPool, MerkleRoot, HeaderHash, CoinbaseTag, EncTx, EncBlock;
    if tip.height == MAX_U32 {
      return Err(InvalidBlock);
    }
    var height := tip.height + 1;
    var placeholder := MakeCoinbase(height, params.consensus.blockSubsidy, params.recipient);
    var header := BlockHeader(params.version, HeaderHash(tip), ZERO_HASH, timestamp, height);
    var size := |EncBlock(Block(header, [placeholder]))|;
    PlaceholderSize(header, placeholder);
    var entries := pool.EntriesByFeerate();
    PoolEntriesOk(pool.Contents());
    var s := SelectEntries(entries, utxos, height, params, size);
    var reward := CheckedAdd(params.consensus.blockSubsidy, s.fees);
    if reward.Err? {
      return Err(InvalidBlock);
    }
    var txs := [MakeCoinbase(height, reward.value, params.recipient)] + s.txs;
    var root := ComputeMerkleRoot(txs);
    var block := Block(header.(merkleRoot := root), txs);
    var verify := new UtxoSet.Copy(utxos);
    var connected := ConnectBlock(block, verify, params.consensus);
    if connected.Err? {
      return Err(InvalidBlock);
    }
    r := Ok(Template(block, connected.value, |s.txs|));
  }

  lemma PlaceholderSize(header: BlockHeader, placeholder: Transaction)
    requires |placeholder.inputs| == 1 && |placeholder.outputs| == 1
    ensures |EncBlock(Block(header, [placeholder]))| == EMPTY_TEMPLATE_BYTES
  {
    hide EncTx, EncBlock;
    BlockSize(Block(header, [placeholder]));
    EncTxLength(placeholder);
    assert EncodedSize([placeholder][..0]) == 0;
    assert EncodedSize([placeholder]) == |EncTx(placeholder)|;
  }
}
