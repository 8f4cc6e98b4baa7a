/** Conservation of value: what the unspent set holds is what coinbases paid out less what was
    spent as fees. */
module Supply {
  import opened Base
  import opened MapSums
  import opened Transactions
  import opened Blocks
  import opened Utxo
  import opened TxValidation
  import opened BlockValidation
  import opened ChainRules

  function CoinValue(c: Coin): nat {
    c.output.value
  }

  /** The value of all unspent outputs. */
  ghost function TotalSupply(coins: Coins): nat {
    Sum(coins, CoinValue)
  }

  lemma {:induction false} SupplyOfOutputs(tx: Transaction, n: nat, height: U32, coinbase: bool)
    requires n <= |tx.outputs| <= MAX_OUTPUTS
    ensures TotalSupply(FirstCoins(tx, n, height, coinbase)) == TotalValue(tx.outputs[..n])
  {
    hide Txid, FirstCoins, Sum;
    if n > 0 {
      SupplyOfOutputs(tx, n - 1, height, coinbase);
      var op, coin := OutPoint(Txid(tx), n - 1), Coin(tx.outputs[n - 1], height, coinbase);
      var before, after := FirstCoins(tx, n - 1, height, coinbase), FirstCoins(tx, n, height, coinbase);
      assert op !in before && after == before[op := coin];
      SumInsert(before, op, coin, CoinValue);
      assert tx.outputs[..n][..n - 1] == tx.outputs[..n - 1];
    } else {
      assert FirstCoins(tx, 0, height, coinbase) == map[];
      NoSupply();
    }
  }

  lemma {:induction false} SupplyOfInputs(inputs: seq<OutPoint>, n: nat, coins: Coins)
    requires n <= |inputs| && Distinct(inputs) && Spendable(inputs, coins)
    ensures TotalSupply(coins) == TotalSupply(coins - FirstInputs(inputs, n)) + InputValue(inputs[..n], coins)
  {
    if n > 0 {
      SupplyOfInputs(inputs, n - 1, coins);
      var before, after := coins - FirstInputs(inputs, n - 1), coins - FirstInputs(inputs, n);
      assert inputs[n - 1] in before && after == before - {inputs[n - 1]};
      SumRemove(before, inputs[n - 1], CoinValue);
      assert inputs[..n][..n - 1] == inputs[..n - 1];
    } else {
      assert coins - FirstInputs(inputs, 0) == coins;
    }
  }

  /** Adding the outputs of a transaction to a set that has none of them. */
  lemma SupplyAdds(tx: Transaction, coins: Coins, height: U32, coinbase: bool)
    requires |tx.outputs| <= MAX_OUTPUTS && Fresh(tx, coins)
    ensures TotalSupply(coins + NewCoins(tx, height, coinbase)) == TotalSupply(coins) + TotalValue(tx.outputs)
  {
    hide Txid;
    SumUnion(coins, NewCoins(tx, height, coinbase), CoinValue);
    SupplyOfOutputs(tx, |tx.outputs|, height, coinbase);
    assert tx.outputs[..|tx.outputs|] == tx.outputs;
  }

  /** A transaction moves value to its outputs and its fee, and creates none. */
  lemma TxConserves(tx: Transaction, coins: Coins, height: U32, maturity: U32)
    requires SaneTx(tx) && TxEffect(tx, coins, height, maturity).Ok?
    ensures var (after, fee) := TxEffect(tx, coins, height, maturity).value;
            TotalSupply(after) + fee == TotalSupply(coins)
  {
    hide Txid, Mature, EncTx;
    SupplyOfInputs(tx.inputs, |tx.inputs|, coins);
    assert tx.inputs[..|tx.inputs|] == tx.inputs;
    SupplyAdds(tx, coins - Prevouts(tx), height, false);
  }

  lemma {:induction false} BodyConserves(txs: seq<Transaction>, coins: Coins, height: U32, maturity: U32)
    requires AllSane(txs) && BodyEffect(txs, coins, height, maturity).Ok?
    ensures var (after, fees) := BodyEffect(txs, coins, height, maturity).value;
            TotalSupply(after) + fees == TotalSupply(coins)
  {
    hide SaneTx, TxEffect;
    if txs != [] {
      var n := |txs| - 1;
      BodyConserves(txs[..n], coins, height, maturity);
      TxConserves(txs[n], BodyEffect(txs[..n], coins, height, maturity).value.0, height, maturity);
    }
  }

  /** What the coinbase of a block pays out. */
  function Payout(b: Block): nat {
    if HasCoinbase(b) then TotalValue(b.transactions[0].outputs) else 0
  }

  /** A block changes the supply by its payout less its fees, and pays out at most subsidy
      plus fees: the wrapping output sum the code compares is the true one. */
  lemma BlockConserves(b: Block, coins: Coins, params: ConsensusParams)
    requires BlockEffect(b, coins, params).Ok?
    ensures var (after, fees) := BlockEffect(b, coins, params).value;
            && TotalSupply(after) + fees == TotalSupply(coins) + Payout(b)
            && Payout(b) <= params.blockSubsidy + fees
  {
    hide Txid, EncBlock, EncTx, BodyEffect, BlockSanity;
    SanityExact(b);
    var (before, fees) := BodyEffect(Body(b), coins, b.header.height, params.coinbaseMaturity).value;
    BodyConserves(Body(b), coins, b.header.height, params.coinbaseMaturity);
    if HasCoinbase(b) {
      SupplyAdds(b.transactions[0], before, b.header.height, true);
    }
  }

  /** The fees collected by the blocks of a replayable list. */
  ghost function TotalFees(blocks: seq<Block>, params: ConsensusParams): nat
    requires Replay(blocks, params).Ok?
  {
    if |blocks| == 1 then BlockEffect(blocks[0], map[], params).value.1 else
      var n := |blocks| - 1;
      TotalFees(blocks[..n], params) + Submit(Replay(blocks[..n], params).value, blocks[n]).value.1
  }

  function TotalPayout(blocks: seq<Block>): nat {
    if blocks == [] then 0 else TotalPayout(blocks[..|blocks| - 1]) + Payout(blocks[|blocks| - 1])
  }

  /** Over every reachable chain: supply plus all fees ever paid is all payouts ever made. */
  lemma {:induction false} ChainConserves(blocks: seq<Block>, params: ConsensusParams)
    requires Replay(blocks, params).Ok?
    ensures TotalSupply(Replay(blocks, params).value.coins) + TotalFees(blocks, params) == TotalPayout(blocks)
  {
    hide Create, Submit, BlockEffect, SaneBlock, TotalSupply, Payout;
    ReplayShape(blocks, params);
    if |blocks| == 1 {
      CreateFacts(blocks[0], params);
      BlockConserves(blocks[0], map[], params);
      NoSupply();
      assert TotalPayout(blocks[..0]) == 0;
    } else {
      var n := |blocks| - 1;
      var c := Replay(blocks[..n], params).value;
      ChainConserves(blocks[..n], params);
      ReplayShape(blocks[..n], params);
      SubmitFacts(c, blocks[n]);
      BlockConserves(blocks[n], c.coins, params);
    }
  }

  /** Every reachable chain holds at most one subsidy per block. */
  lemma {:induction false} SupplyBound(blocks: seq<Block>, params: ConsensusParams)
    requires Replay(blocks, params).Ok?
    ensures var c := Replay(blocks, params).value;
            TotalSupply(c.coins) <= (c.tip.height + 1) * params.blockSubsidy
  {
    hide Create, Submit, BlockEffect, SaneBlock, TotalSupply, Payout;
    ReplayShape(blocks, params);
    if |blocks| == 1 {
      CreateFacts(blocks[0], params);
      BlockConserves(blocks[0], map[], params);
      NoSupply();
    } else {
      var n := |blocks| - 1;
      var c := Replay(blocks[..n], params).value;
      SupplyBound(blocks[..n], params);
      ReplayShape(blocks[..n], params);
      SubmitFacts(c, blocks[n]);
      BlockConserves(blocks[n], c.coins, params);
      OneMore(c.tip.height + 1, params.blockSubsidy);
    }
  }

  lemma OneMore(n: nat, s: nat)
    ensures (n + 1) * s == n * s + s
  {
  }

  lemma NoSupply()
    ensures TotalSupply(map[]) == 0
  {
  }
}
