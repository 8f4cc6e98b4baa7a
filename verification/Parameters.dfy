/** Replaying a block list under other consensus parameters: they decide whether its blocks are
    accepted, and nothing else. */
module Parameters {
  import opened Base
  import opened Transactions
  import opened Blocks
  import opened Merkle
  import opened Utxo
  import opened TxValidation
  import opened BlockValidation
  import opened ChainRules

  /** Each transaction of the body is mature under `n` in the state it applies to. */
  ghost predicate BodyMature(txs: seq<Transaction>, coins: Coins, height: U32, m: U32, n: U32)
    requires AllSane(txs)
  {
    forall i :: 0 <= i < |txs| && BodyEffect(txs[..i], coins, height, m).Ok? ==>
      Mature(txs[i].inputs, BodyEffect(txs[..i], coins, height, m).value.0, height, n)
  }

  lemma BodyMatureStep(txs: seq<Transaction>, coins: Coins, height: U32, m: U32, n: U32)
    requires AllSane(txs) && txs != [] && BodyEffect(txs[..|txs| - 1], coins, height, m).Ok?
    ensures var k := |txs| - 1;
            BodyMature(txs, coins, height, m, n) <==>
              && BodyMature(txs[..k], coins, height, m, n)
              && Mature(txs[k].inputs, BodyEffect(txs[..k], coins, height, m).value.0, height, n)
  {
    hide SaneTx, BodyEffect, Mature;
    assert forall i :: 0 <= i < |txs| - 1 ==> txs[..|txs| - 1][..i] == txs[..i];
  }

  /** A body that applies under one maturity applies under another exactly when it is mature, and
      has the same effect. */
  lemma {:induction false} BodyMaturityExact(txs: seq<Transaction>, coins: Coins, height: U32, m: U32, n: U32)
    requires AllSane(txs) && BodyEffect(txs, coins, height, m).Ok?
    ensures BodyEffect(txs, coins, height, n).Ok? <==> BodyMature(txs, coins, height, m, n)
    ensures BodyEffect(txs, coins, height, n).Ok? ==>
              BodyEffect(txs, coins, height, n) == BodyEffect(txs, coins, height, m)
  {
    hide SaneTx, Txid, NewCoins, Prevouts, Mature, TxFee, Fresh, BodyMature;
    if txs == [] {
      EmptyIsMature(coins, height, m, n);
    } else {
      BodyMaturityExact(txs[..|txs| - 1], coins, height, m, n);
      BodyMatureStep(txs, coins, height, m, n);
    }
  }

  lemma EmptyIsMature(coins: Coins, height: U32, m: U32, n: U32)
    ensures BodyMature([], coins, height, m, n)
  {
  }

  /** A block accepted under `p` meets the rules that `q` decides: maturity, and the cap on its coinbase. */
  ghost predicate BlockPermitted(b: Block, coins: Coins, p: ConsensusParams, q: ConsensusParams)
    requires BlockEffect(b, coins, p).Ok?
  {
    BlockBodySane(b, coins, p);
    var fees := BlockEffect(b, coins, p).value.1;
    && BodyMature(Body(b), coins, b.header.height, p.coinbaseMaturity, q.coinbaseMaturity)
    && (HasCoinbase(b) ==>
          q.blockSubsidy + fees <= MAX_U64 && TotalValue(b.transactions[0].outputs) <= q.blockSubsidy + fees)
  }

  lemma BlockBodySane(b: Block, coins: Coins, p: ConsensusParams)
    requires BlockEffect(b, coins, p).Ok?
    ensures SaneBlock(b) && AllSane(Body(b))
    ensures HasCoinbase(b) ==> TotalValue(b.transactions[0].outputs) <= MAX_MONEY
  {
    hide EncBlock, MerkleRoot, BodyEffect, BlockSanity, EncTx;
    SanityExact(b);
  }

  lemma EffectExact(b: Block, coins: Coins, p: ConsensusParams, q: ConsensusParams)
    requires BlockEffect(b, coins, p).Ok?
    ensures BlockEffect(b, coins, q).Ok? <==> BlockPermitted(b, coins, p, q)
    ensures BlockEffect(b, coins, q).Ok? ==> BlockEffect(b, coins, q) == BlockEffect(b, coins, p)
  {
    hide BodyEffect, BlockSanity, SaneBlock, NewCoins, Fresh, TotalValue, BodyMature;
    SanityExact(b);
    BlockBodySane(b, coins, p);
    BodyMaturityExact(Body(b), coins, b.header.height, p.coinbaseMaturity, q.coinbaseMaturity);
  }

  /** The coins block `k` of a replayable list applies to. */
  ghost function CoinsBefore(blocks: seq<Block>, p: ConsensusParams, k: nat): Coins
    requires k <= |blocks| && Replay(blocks, p).Ok?
  {
    if k == 0 then map[] else
      ReplayPrefix(blocks, p, k);
      Replay(blocks[..k], p).value.coins
  }

  lemma BlockApplied(blocks: seq<Block>, p: ConsensusParams, k: nat)
    requires k < |blocks| && Replay(blocks, p).Ok?
    ensures BlockEffect(blocks[k], CoinsBefore(blocks, p, k), p).Ok?
  {
    hide Create, Submit, BlockEffect, SaneBlock, HeaderHash;
    if k == 0 {
      ReplayPrefix(blocks, p, 1);
      assert blocks[..1] == [blocks[0]];
      CreateFacts(blocks[0], p);
    } else {
      ReplayStep(blocks, p, k);
      ReplayShape(blocks[..k], p);
      SubmitFacts(Replay(blocks[..k], p).value, blocks[k]);
    }
  }

  ghost predicate Permitted(blocks: seq<Block>, p: ConsensusParams, q: ConsensusParams, k: nat)
    requires k < |blocks| && Replay(blocks, p).Ok?
  {
    BlockApplied(blocks, p, k);
    BlockPermitted(blocks[k], CoinsBefore(blocks, p, k), p, q)
  }

  lemma PermittedPrefix(blocks: seq<Block>, p: ConsensusParams, q: ConsensusParams, n: nat, k: nat)
    requires k < n <= |blocks| && Replay(blocks, p).Ok? && Replay(blocks[..n], p).Ok?
    ensures Permitted(blocks[..n], p, q, k) == Permitted(blocks, p, q, k)
  {
    hide Replay, BlockEffect, BlockPermitted;
    assert blocks[..n][..k] == blocks[..k];
  }

  /** A list that replays under `p` replays under `q` exactly when every block meets the rules that
      `q` decides, and then reaches the same tip and unspent set. */
  lemma {:induction false} ReplayExact(blocks: seq<Block>, p: ConsensusParams, q: ConsensusParams)
    requires Replay(blocks, p).Ok?
    ensures Replay(blocks, q).Ok? <==> forall k :: 0 <= k < |blocks| ==> Permitted(blocks, p, q, k)
    ensures Replay(blocks, q).Ok? ==> Replay(blocks, q).value == Replay(blocks, p).value.(params := q)
  {
    hide BlockEffect, BlockPermitted, Permitted, Create, Submit;
    var n := |blocks| - 1;
    ReplayPrefix(blocks, p, |blocks|);
    if n == 0 {
      GenesisExact(blocks[0], p, q);
      FirstPermitted(blocks, p, q);
    } else {
      ReplayPrefix(blocks, p, n);
      ReplayExact(blocks[..n], p, q);
      LastExact(blocks, p, q);
      forall k | 0 <= k < n ensures Permitted(blocks[..n], p, q, k) == Permitted(blocks, p, q, k) {
        PermittedPrefix(blocks, p, q, n, k);
      }
    }
  }

  lemma GenesisExact(b: Block, p: ConsensusParams, q: ConsensusParams)
    requires Create(b, p).Ok?
    ensures BlockEffect(b, map[], p).Ok?
    ensures Create(b, q).Ok? <==> BlockPermitted(b, map[], p, q)
    ensures Create(b, q).Ok? ==> Create(b, q).value == Create(b, p).value.(params := q)
  {
    hide BlockEffect, BlockSanity, BlockPermitted;
    EffectExact(b, map[], p, q);
  }

  lemma FirstPermitted(blocks: seq<Block>, p: ConsensusParams, q: ConsensusParams)
    requires |blocks| == 1 && Replay(blocks, p).Ok? && BlockEffect(blocks[0], map[], p).Ok?
    ensures Permitted(blocks, p, q, 0) == BlockPermitted(blocks[0], map[], p, q)
  {
    hide Replay, BlockEffect, BlockPermitted;
  }

  /** One more block, on top of the same coins. */
  lemma LastExact(blocks: seq<Block>, p: ConsensusParams, q: ConsensusParams)
    requires |blocks| > 1 && Replay(blocks, p).Ok? && Replay(blocks[..|blocks| - 1], p).Ok?
    requires var init := blocks[..|blocks| - 1];
             Replay(init, q).Ok? ==> Replay(init, q).value == Replay(init, p).value.(params := q)
    ensures Replay(blocks, q).Ok? <==> Replay(blocks[..|blocks| - 1], q).Ok? && Permitted(blocks, p, q, |blocks| - 1)
    ensures Replay(blocks, q).Ok? ==> Replay(blocks, q).value == Replay(blocks, p).value.(params := q)
  {
    hide BlockEffect, BlockPermitted, SaneBlock, HeaderHash, Create, Submit;
    var n := |blocks| - 1;
    BlockApplied(blocks, p, n);
    ReplayShape(blocks[..n], p);
    var c := Replay(blocks[..n], p).value;
    SubmitParams(c, blocks[n], q);
  }

  lemma SubmitParams(c: ChainState, b: Block, q: ConsensusParams)
    requires Submit(c, b).Ok?
    ensures BlockEffect(b, c.coins, c.params).Ok?
    ensures Submit(c.(params := q), b).Ok? <==> BlockPermitted(b, c.coins, c.params, q)
    ensures Submit(c.(params := q), b).Ok? ==> Submit(c.(params := q), b).value.0 == Submit(c, b).value.0.(params := q)
  {
    hide BlockEffect, BlockPermitted, SaneBlock, HeaderHash, BlockSanity;
    SubmitFacts(c, b);
    EffectExact(b, c.coins, c.params, q);
  }
}
