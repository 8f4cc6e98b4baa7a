/** The block transition as a rule a reader can check by hand: which coins are needed, which are gone and
    which are new, transaction by transaction.  The transition functions compute exactly this. */
module LedgerRules {
  import opened Base
  import opened Transactions
  import opened Blocks
  import opened Merkle
  import opened Utxo
  import opened TxValidation
  import opened BlockValidation
  import opened ChainRules

  // ----- one transaction

  /** `after` is `coins` without the spent ones and with the outputs of `tx`, numbered from zero. */
  ghost predicate Updated(
      coins: Coins, spent: seq<OutPoint>, tx: Transaction, height: U32, coinbase: bool, after: Coins) {
    forall op: OutPoint ::
      if op.txid == Txid(tx) && op.index < |tx.outputs|
      then op in after && after[op] == Coin(tx.outputs[op.index], height, coinbase)
      else (op in after <==> op in coins && op !in spent) && (op in after ==> after[op] == coins[op])
  }

  /** No output of `tx` is a coin that stays. */
  ghost predicate Unclaimed(coins: Coins, spent: seq<OutPoint>, tx: Transaction) {
    forall i: U32 :: i < |tx.outputs| ==> OutPoint(Txid(tx), i) !in coins || OutPoint(Txid(tx), i) in spent
  }

  /** What a transaction needs of the coins, what it leaves of them, and what it pays. */
  ghost predicate TxApplies(
      tx: Transaction, coins: Coins, height: U32, maturity: U32, after: Coins, fee: U64) {
    && (forall i :: 0 <= i < |tx.inputs| ==> tx.inputs[i] in coins)
    && (forall i :: 0 <= i < |tx.inputs| && coins[tx.inputs[i]].coinbase ==>
          coins[tx.inputs[i]].height + maturity <= height)
    && Unclaimed(coins, tx.inputs, tx)
    && InputValue(tx.inputs, coins) <= MAX_U64
    && InputValue(tx.inputs, coins) == TotalValue(tx.outputs) + fee
    && Updated(coins, tx.inputs, tx, height, false, after)
  }

  lemma UpdatedOnce(
      coins: Coins, spent: seq<OutPoint>, tx: Transaction, height: U32, coinbase: bool, a: Coins, b: Coins)
    requires Updated(coins, spent, tx, height, coinbase, a) && Updated(coins, spent, tx, height, coinbase, b)
    ensures a == b
  {
    hide Txid;
    assert forall op :: op in a <==> op in b;
    assert forall op :: op in a ==> a[op] == b[op];
  }

  lemma EffectUpdates(
      coins: Coins, spent: seq<OutPoint>, gone: set<OutPoint>, tx: Transaction, height: U32, coinbase: bool)
    requires |tx.outputs| <= MAX_OUTPUTS && gone == set i | 0 <= i < |spent| :: spent[i]
    ensures Updated(coins, spent, tx, height, coinbase, (coins - gone) + NewCoins(tx, height, coinbase))
    ensures Fresh(tx, coins - gone) <==> Unclaimed(coins, spent, tx)
  {
    hide Txid, FirstCoins;
    assert forall op: OutPoint :: Creates(tx, op) ==> op == OutPoint(Txid(tx), op.index);
    assert forall i: U32 :: i < |tx.outputs| ==> Creates(tx, OutPoint(Txid(tx), i));
  }

  /** A sane transaction has the effect computed exactly when the rule allows it. */
  lemma TxExact(tx: Transaction, coins: Coins, height: U32, maturity: U32, after: Coins, fee: U64)
    requires SaneTx(tx)
    ensures TxEffect(tx, coins, height, maturity) == Ok((after, fee)) <==>
            TxApplies(tx, coins, height, maturity, after, fee)
  {
    hide Txid, EncTx, InputValue, TotalValue, FirstCoins, Updated, Unclaimed, Fresh;
    var effect := (coins - Prevouts(tx)) + NewCoins(tx, height, false);
    EffectUpdates(coins, tx.inputs, Prevouts(tx), tx, height, false);
    if Updated(coins, tx.inputs, tx, height, false, after) {
      UpdatedOnce(coins, tx.inputs, tx, height, false, effect, after);
    }
  }

  // ----- a block

  function Total(fees: seq<U64>): nat {
    if fees == [] then 0 else Total(fees[..|fees| - 1]) + fees[|fees| - 1]
  }

  /** The transactions apply one after the other, through these states and paying these fees. */
  ghost predicate BodyApplies(
      txs: seq<Transaction>, states: seq<Coins>, fees: seq<U64>, height: U32, maturity: U32) {
    && |states| == |txs| + 1 && |fees| == |txs|
    && forall i :: 0 <= i < |txs| ==> TxApplies(txs[i], states[i], height, maturity, states[i + 1], fees[i])
  }

  lemma BodyAppliesPrefix(txs: seq<Transaction>, states: seq<Coins>, fees: seq<U64>, height: U32, maturity: U32)
    requires txs != [] && BodyApplies(txs, states, fees, height, maturity)
    ensures var n := |txs| - 1; BodyApplies(txs[..n], states[..n + 1], fees[..n], height, maturity)
  {
    hide TxApplies;
  }

  /** A body the rule allows has its effect. */
  lemma {:induction false} BodyComplete(
      txs: seq<Transaction>, states: seq<Coins>, fees: seq<U64>, height: U32, maturity: U32)
    requires AllSane(txs) && BodyApplies(txs, states, fees, height, maturity) && Total(fees) <= MAX_U64
    ensures BodyEffect(txs, states[0], height, maturity) == Ok((states[|txs|], Total(fees)))
  {
    hide SaneTx, TxApplies, TxEffect;
    if txs != [] {
      var n := |txs| - 1;
      BodyAppliesPrefix(txs, states, fees, height, maturity);
      BodyComplete(txs[..n], states[..n + 1], fees[..n], height, maturity);
      TxExact(txs[n], states[n], height, maturity, states[n + 1], fees[n]);
    }
  }

  /** A body that has an effect is allowed by the rule. */
  lemma {:induction false} BodySound(txs: seq<Transaction>, coins: Coins, height: U32, maturity: U32)
    returns (states: seq<Coins>, fees: seq<U64>)
    requires AllSane(txs) && BodyEffect(txs, coins, height, maturity).Ok?
    ensures BodyApplies(txs, states, fees, height, maturity) && states[0] == coins
    ensures BodyEffect(txs, coins, height, maturity) == Ok((states[|txs|], Total(fees)))
  {
    hide SaneTx, TxApplies, TxEffect;
    if txs == [] {
      states, fees := [coins], [];
    } else {
      var n := |txs| - 1;
      var earlier, paid := BodySound(txs[..n], coins, height, maturity);
      var (after, fee) := TxEffect(txs[n], earlier[n], height, maturity).value;
      TxExact(txs[n], earlier[n], height, maturity, after, fee);
      states, fees := earlier + [after], paid + [fee];
      assert fees[..n] == paid;
    }
  }

  /** The coinbase, if there is one, comes after the others: it spends nothing, claims at most subsidy and
      fees, and its outputs are coinbase coins. */
  ghost predicate CoinbaseApplies(b: Block, coins: Coins, fees: nat, subsidy: U64, after: Coins) {
    if !HasCoinbase(b) then after == coins else
      var coinbase := b.transactions[0];
      && TotalValue(coinbase.outputs) <= subsidy + fees <= MAX_U64
      && Unclaimed(coins, [], coinbase)
      && Updated(coins, [], coinbase, b.header.height, true, after)
  }

  /** The whole rule of a block. */
  ghost predicate BlockApplies(
      b: Block, states: seq<Coins>, fees: seq<U64>, params: ConsensusParams, after: Coins) {
    && SaneBlock(b)
    && BodyApplies(Body(b), states, fees, b.header.height, params.coinbaseMaturity)
    && Total(fees) <= MAX_U64
    && CoinbaseApplies(b, states[|Body(b)|], Total(fees), params.blockSubsidy, after)
  }

  lemma CoinbaseExact(b: Block, coins: Coins, fees: U64, params: ConsensusParams, after: Coins)
    requires HasCoinbase(b) && SaneTx(b.transactions[0])
    ensures CoinbaseEffect(b, coins, fees, params) == Ok(after) <==>
            CoinbaseApplies(b, coins, fees, params.blockSubsidy, after)
  {
    hide Txid, EncTx, TotalValue, FirstCoins, Updated, Unclaimed, Fresh;
    var coinbase := b.transactions[0];
    var none: set<OutPoint> := {};
    assert coins - none == coins;
    EffectUpdates(coins, [], none, coinbase, b.header.height, true);
    if Updated(coins, [], coinbase, b.header.height, true, after) {
      UpdatedOnce(coins, [], coinbase, b.header.height, true, coins + NewCoins(coinbase, b.header.height, true), after);
    }
  }

  lemma BodySane(b: Block)
    requires SaneBlock(b)
    ensures AllSane(Body(b)) && BlockSanity(b).Ok? && (HasCoinbase(b) ==> SaneTx(b.transactions[0]))
  {
    hide SaneTx, BlockSanity, MerkleRoot, EncBlock;
    SanityExact(b);
  }

  /** A block the rule allows has its effect. */
  lemma BlockComplete(b: Block, states: seq<Coins>, fees: seq<U64>, params: ConsensusParams, after: Coins)
    requires BlockApplies(b, states, fees, params, after)
    ensures BlockEffect(b, states[0], params) == Ok((after, Total(fees)))
  {
    hide SaneBlock, AllSane, SaneTx, BlockSanity, TxApplies, BodyEffect, CoinbaseApplies, CoinbaseEffect, Total;
    BodySane(b);
    BodyComplete(Body(b), states, fees, b.header.height, params.coinbaseMaturity);
    if HasCoinbase(b) {
      CoinbaseExact(b, states[|Body(b)|], Total(fees), params, after);
    } else {
      NoCoinbase(b, states[|Body(b)|], Total(fees), params.blockSubsidy, after);
    }
  }

  lemma NoCoinbase(b: Block, coins: Coins, fees: nat, subsidy: U64, after: Coins)
    requires !HasCoinbase(b)
    ensures CoinbaseApplies(b, coins, fees, subsidy, after) <==> after == coins
  {
  }

  /** A block that has an effect is allowed by the rule. */
  lemma BlockSound(b: Block, coins: Coins, params: ConsensusParams) returns (states: seq<Coins>, fees: seq<U64>)
    requires BlockEffect(b, coins, params).Ok?
    ensures var (after, total) := BlockEffect(b, coins, params).value;
            BlockApplies(b, states, fees, params, after) && states[0] == coins && total == Total(fees)
  {
    hide SaneBlock, AllSane, SaneTx, BlockSanity, TxApplies, BodyEffect, CoinbaseApplies, CoinbaseEffect, Total;
    SanityExact(b);
    BodySane(b);
    states, fees := BodySound(Body(b), coins, b.header.height, params.coinbaseMaturity);
    var (after, total) := BlockEffect(b, coins, params).value;
    if HasCoinbase(b) {
      CoinbaseExact(b, states[|Body(b)|], Total(fees), params, after);
    } else {
      NoCoinbase(b, states[|Body(b)|], Total(fees), params.blockSubsidy, after);
    }
  }

  // ----- the chain

  /** What a genesis block must be, and the chain it starts. */
  lemma CreateExact(genesis: Block, params: ConsensusParams, c: ChainState)
    ensures Create(genesis, params) == Ok(c) <==>
            && genesis.header.version == BLOCK_VERSION && genesis.header.height == 0
            && genesis.header.prevBlock == ZERO_HASH
            && c.tip == genesis.header && c.params == params
            && BlockEffect(genesis, map[], params).Ok? && c.coins == BlockEffect(genesis, map[], params).value.0
  {
    hide BlockSanity, BodyEffect, CoinbaseEffect;
  }

  /** A wrong version is reported as such, and nothing else is. */
  lemma VersionError(c: ChainState, b: Block)
    ensures Submit(c, b) == Err(UnsupportedVersion) <==> b.header.version != BLOCK_VERSION
    ensures Create(b, c.params) == Err(UnsupportedVersion) <==> b.header.version != BLOCK_VERSION
  {
    hide BlockSanity, HeaderHash, BlockEffect;
    EffectErrors(b, c.coins, c.params);
    EffectErrors(b, map[], c.params);
  }

  lemma EffectErrors(b: Block, coins: Coins, params: ConsensusParams)
    ensures BlockSanity(b) != Err(UnsupportedVersion)
    ensures BlockEffect(b, coins, params) != Err(UnsupportedVersion)
  {
    hide SaneTx, Txid, EncBlock, MerkleRoot, ScanTransactions, BodyEffect;
    SanityExact(b);
    ScanErrors(b.transactions, 0);
    if BlockSanity(b).Ok? {
      BodySane(b);
      BodyErrors(Body(b), coins, b.header.height, params.coinbaseMaturity);
    }
  }

  lemma {:induction false} ScanErrors(txs: seq<Transaction>, i: nat)
    requires i <= |txs|
    ensures ScanTransactions(txs, i) != Err(UnsupportedVersion)
    decreases |txs| - i
  {
    hide SaneTx, Txid, IsCoinbase;
    if i < |txs| {
      ScanErrors(txs, i + 1);
    }
  }

  lemma {:induction false} BodyErrors(txs: seq<Transaction>, coins: Coins, height: U32, maturity: U32)
    requires AllSane(txs)
    ensures BodyEffect(txs, coins, height, maturity) != Err(UnsupportedVersion)
  {
    hide SaneTx, Txid, EncTx, Mature;
    if txs != [] {
      BodyErrors(txs[..|txs| - 1], coins, height, maturity);
    }
  }

  // ----- which error a block draws

  /** Nothing is wrong with transaction `i` of the list. */
  ghost predicate Unobjectionable(txs: seq<Transaction>, i: nat)
    requires i < |txs|
  {
    SaneTx(txs[i]) && (i == 0 || !IsCoinbase(txs[i])) && Txid(txs[i]) !in Txids(txs)[..i]
  }

  /** The first transaction with something wrong decides the error. */
  lemma {:induction false} ScanError(txs: seq<Transaction>, i: nat, k: nat)
    requires i <= k < |txs| && !Unobjectionable(txs, k) && forall j :: i <= j < k ==> Unobjectionable(txs, j)
    ensures ScanTransactions(txs, i) == Err(if SaneTx(txs[k]) then InvalidBlock else InvalidTransaction)
    decreases |txs| - i
  {
    hide SaneTx, Txid, IsCoinbase;
    if i < k {
      assert Unobjectionable(txs, i);
      ScanError(txs, i + 1, k);
    }
  }

  /** So a block within the limits and with the right root draws the error of its first bad transaction. */
  lemma SanityError(b: Block, k: nat)
    requires |b.transactions| <= MAX_BLOCK_TRANSACTIONS && |EncBlock(b)| <= MAX_BLOCK_BYTES
    requires b.header.merkleRoot == MerkleRoot(b.transactions) && k < |b.transactions|
    requires !Unobjectionable(b.transactions, k) && forall j :: 0 <= j < k ==> Unobjectionable(b.transactions, j)
    ensures BlockSanity(b) == Err(if SaneTx(b.transactions[k]) then InvalidBlock else InvalidTransaction)
  {
    hide SaneTx, Txid, IsCoinbase, EncBlock, MerkleRoot;
    ScanError(b.transactions, 0, k);
  }
}
