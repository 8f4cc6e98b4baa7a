/** The mutable active chain: the tip, the confirmed unspent set, and their advance by blocks. */
module Chain {
  import opened Base
  import opened Transactions
  import opened Blocks
  import opened Utxo
  import opened BlockValidation
  import opened ChainRules
  import opened Pools
  import opened Mempool

  class ActiveChain {
    var tip: BlockHeader
    const utxos: UtxoSet
    const params: ConsensusParams

    ghost function State(): ChainState
      reads this, utxos
    {
      ChainState(tip, utxos.coins, params)
    }

    constructor (tip: BlockHeader, utxos: UtxoSet, params: ConsensusParams)
      ensures this.tip == tip && this.utxos == utxos && this.params == params
    {
      this.tip, this.utxos, this.params := tip, utxos, params;
    }

    static method Create(genesis: Block, params: ConsensusParams) returns (r: Result<ActiveChain>)
      ensures match ChainRules.Create(genesis, params)
              case Ok(c) => r.Ok? && fresh(r.value) && fresh(r.value.utxos) && r.value.State() == c
              case Err(e) => r == Err(e)
    {
      hide BlockEffect, BlockSanity;
      if genesis.header.version != BLOCK_VERSION {
        return Err(UnsupportedVersion);
      }
      if genesis.header.height != 0 {
        return Err(InvalidBlock);
      }
      if genesis.header.prevBlock != ZERO_HASH {
        return Err(InvalidBlock);
      }
      var sane := CheckBlockSanity(genesis);
      if sane.Err? {
        return Err(sane.code);
      }
      var utxos := new UtxoSet();
      var connected := ConnectBlock(genesis, utxos, params);
      if connected.Err? {
        return Err(connected.code);
      }
      var chain := new ActiveChain(genesis.header, utxos, params);
      r := Ok(chain);
    }

    /** All or nothing: a failure leaves the chain and the pool as they were. */
    method SubmitBlock(b: Block, pool: TransactionPool?) returns (r: Result<U64>)
      requires pool != null ==> Valid(pool.Contents())
      modifies this, utxos, if pool == null then {} else {pool}
      ensures match Submit(old(State()), b)
              case Ok((c, fees)) => r == Ok(fees) && State() == c
              case Err(e) => r == Err(e) && State() == old(State())
      ensures pool != null ==>
                && Valid(pool.Contents())
                && pool.Contents() ==
                     if r.Ok? then Prune(old(pool.Contents()), b.transactions) else old(pool.Contents())
    {
      hide BlockEffect, BlockSanity, Valid, Txid, Pools.Remove;
      var linked := LinksTo(tip, b.header);
      if linked.Err? {
        return Err(linked.code);
      }
      var sane := CheckBlockSanity(b);
      if sane.Err? {
        return Err(sane.code);
      }
      var fees := ConnectBlock(b, utxos, params);
      if fees.Err? {
        return fees;
      }
      tip := b.header;
      if pool != null {
        PruneFrom(b.transactions, pool);
      }
      r := fees;
    }
  }

  method PruneFrom(txs: seq<Transaction>, pool: TransactionPool)
    requires Valid(pool.Contents())
    modifies pool
    ensures Valid(pool.Contents()) && pool.Contents() == Prune(old(pool.Contents()), txs)
  {
    hide Valid, Txid, Pools.Remove;
    for i := 0 to |txs|
      invariant Valid(pool.Contents()) && pool.Contents() == Prune(old(pool.Contents()), txs[..i])
    {
      assert txs[..i + 1][..i] == txs[..i];
      pool.Remove(Txid(txs[i]));
    }
    assert txs[..|txs|] == txs;
  }
}
