/** When block production succeeds, and that what it produces is accepted. */
module Templates {
  import opened Base
  import opened ByteIO
  import opened Transactions
  import opened Blocks
  import opened Merkle
  import opened Utxo
  import opened TxValidation
  import opened BlockValidation
  import opened ChainRules
  import opened Parameters
  import opened FeeRate
  import opened Pools
  import opened Eviction
  import opened Builder

  // ----- encoded size

  lemma {:induction false} ManyTxSize(txs: seq<Transaction>)
    ensures |EncMany(txs, EncTx)| == EncodedSize(txs)
  {
    hide EncTx;
    if txs != [] {
      var n := |txs| - 1;
      ManyTxSize(txs[..n]);
      ManyAppend(txs[..n], txs[n], EncTx);
      assert txs == txs[..n] + [txs[n]];
    }
  }

  lemma BlockSize(b: Block)
    ensures |EncBlock(b)| == 84 + EncodedSize(b.transactions)
  {
    hide EncHeader, EncTx;
    ManyTxSize(b.transactions);
  }

  lemma {:induction false} EncodedSizePrepend(tx: Transaction, txs: seq<Transaction>)
    ensures EncodedSize([tx] + txs) == |EncTx(tx)| + EncodedSize(txs)
  {
    hide EncTx;
    var all := [tx] + txs;
    if txs == [] {
      assert all[..0] == [] && all[0] == tx;
    } else {
      var n := |txs| - 1;
      EncodedSizePrepend(tx, txs[..n]);
      assert all[..|all| - 1] == [tx] + txs[..n];
    }
  }

  /** The header, the count and the coinbase of a template take 176 bytes whatever the reward. */
  lemma AssembledSize(tip: BlockHeader, timestamp: U64, s: Selection, params: TemplateParams)
    requires tip.height < MAX_U32 && params.consensus.blockSubsidy + s.fees <= MAX_U64
    ensures |EncBlock(Assemble(tip, timestamp, s, params))| == EMPTY_TEMPLATE_BYTES + EncodedSize(s.txs)
  {
    hide EncTx, EncBlock, HeaderHash, MerkleRoot, EncodedSize;
    var b := Assemble(tip, timestamp, s, params);
    BlockSize(b);
    EncodedSizePrepend(b.transactions[0], s.txs);
    EncTxLength(b.transactions[0]);
  }

  // ----- sanity of the assembled block

  lemma {:induction false} SelectDistinct(entries: seq<Entry>, coins: Coins, height: U32, params: TemplateParams)
    requires AllOk(entries)
    requires forall i, j :: 0 <= i < j < |entries| ==> entries[i].txid != entries[j].txid
    ensures Distinct(Txids(Select(entries, coins, height, params).txs))
  {
    hide SaneTx, TxEffect, Txid, EncTx;
    if entries != [] {
      var n := |entries| - 1;
      SelectDistinct(entries[..n], coins, height, params);
      SelectAccounted(entries[..n], coins, height, params);
      var s := Select(entries[..n], coins, height, params);
      forall i | 0 <= i < |s.txs|
        ensures Txid(s.txs[i]) != Txid(entries[n].tx)
      {
        assert Drawn(s.txs[i], entries[..n]);
        var j :| 0 <= j < n && entries[..n][j].tx == s.txs[i];
        assert EntryOk(entries[j]) && EntryOk(entries[n]);
      }
    }
  }

  /** Every selected transaction is sane, no coinbase, and at least 92 bytes long. */
  lemma {:induction false} DrawnSane(txs: seq<Transaction>, entries: seq<Entry>)
    requires AllOk(entries) && DrawnFrom(txs, entries)
    ensures AllSane(txs) && forall i :: 0 <= i < |txs| ==> !IsCoinbase(txs[i])
    ensures EncodedSize(txs) >= 92 * |txs|
  {
    hide SaneTx, EncTx, Txid;
    forall i | 0 <= i < |txs|
      ensures SaneTx(txs[i]) && !IsCoinbase(txs[i])
    {
      assert Drawn(txs[i], entries);
      var j :| 0 <= j < |entries| && entries[j].tx == txs[i];
      assert EntryOk(entries[j]);
    }
    if txs != [] {
      var n := |txs| - 1;
      DrawnSane(txs[..n], entries);
      SaneSize(txs[n]);
    }
  }

  /** A coinbase made by the producer is sane exactly when its reward is in the money range. */
  lemma CoinbaseSane(height: U32, value: U64, recipient: Hash)
    ensures SaneTx(MakeCoinbase(height, value, recipient)) <==> value <= MAX_MONEY
  {
    hide CoinbaseTag, EncTx;
    var tx := MakeCoinbase(height, value, recipient);
    EncTxLength(tx);
    assert TotalValue(tx.outputs[..0]) == 0;
    assert TotalValue(tx.outputs) == value;
  }

  /** The id of the coinbase is no selected id, and its outpoint is not unspent. */
  ghost predicate CoinbaseFresh(coinbase: Transaction, s: Selection) {
    Txid(coinbase) !in Txids(s.txs) && Fresh(coinbase, s.working)
  }

  lemma DistinctPrepend<T>(x: T, s: seq<T>)
    ensures Distinct([x] + s) <==> x !in s && Distinct(s)
  {
    if Distinct([x] + s) {
      forall i, j | 0 <= i < j < |s| ensures s[i] != s[j] {
        assert ([x] + s)[i + 1] != ([x] + s)[j + 1];
      }
      forall i | 0 <= i < |s| ensures s[i] != x {
        assert ([x] + s)[0] != ([x] + s)[i + 1];
      }
    }
  }

  lemma TxidsPrepend(tx: Transaction, txs: seq<Transaction>)
    ensures Txids([tx] + txs) == [Txid(tx)] + Txids(txs)
  {
    hide Txid;
  }

  /** The selection of a pool, put together: everything block sanity needs but the coinbase and,
      under a budget above the consensus limit, the size. */
  lemma SelectionFacts(p: Pool, coins: Coins, height: U32, params: TemplateParams)
    requires Valid(p)
    ensures var s := SelectFrom(p, coins, height, params);
            && AllSane(s.txs) && Distinct(Txids(s.txs))
            && (forall i :: 0 <= i < |s.txs| ==> !IsCoinbase(s.txs[i]))
            && EncodedSize(s.txs) >= 92 * |s.txs|
            && (params.maxBlockBytes <= MAX_BLOCK_BYTES ==>
                  EMPTY_TEMPLATE_BYTES + EncodedSize(s.txs) <= MAX_BLOCK_BYTES)
  {
    hide Valid, EntryOk, Select, RankedPool, IsCoinbase, SaneTx, Txid;
    PoolEntriesOk(p);
    var ranked := RankedPool(p);
    SelectAccounted(ranked, coins, height, params);
    forall i, j | 0 <= i < j < |ranked| ensures ranked[i].txid != ranked[j].txid {
      RankedDistinct(p, i, j);
    }
    SelectDistinct(ranked, coins, height, params);
    DrawnSane(Select(ranked, coins, height, params).txs, ranked);
  }

  lemma AssembledSanity(tip: BlockHeader, timestamp: U64, s: Selection, params: TemplateParams)
    requires tip.height < MAX_U32 && params.consensus.blockSubsidy + s.fees <= MAX_U64
    requires AllSane(s.txs) && Distinct(Txids(s.txs)) && forall i :: 0 <= i < |s.txs| ==> !IsCoinbase(s.txs[i])
    requires EncodedSize(s.txs) >= 92 * |s.txs|
    ensures var b := Assemble(tip, timestamp, s, params);
            SaneBlock(b) <==>
              && params.consensus.blockSubsidy + s.fees <= MAX_MONEY
              && Txid(b.transactions[0]) !in Txids(s.txs)
              && EMPTY_TEMPLATE_BYTES + EncodedSize(s.txs) <= MAX_BLOCK_BYTES
  {
    hide SaneTx, Txid, EncBlock, MerkleRoot, HeaderHash, EncodedSize, MakeCoinbase, IsCoinbase;
    var b := Assemble(tip, timestamp, s, params);
    AssembledSize(tip, timestamp, s, params);
    CoinbaseSane(tip.height + 1, params.consensus.blockSubsidy + s.fees, params.recipient);
    TxidsPrepend(b.transactions[0], s.txs);
    DistinctPrepend(Txid(b.transactions[0]), Txids(s.txs));
    assert SaneBlock(b) ==> SaneTx(b.transactions[0]);
  }

  /** The self-check of an assembled sane block comes down to its coinbase. */
  lemma AssembledEffect(tip: BlockHeader, timestamp: U64, s: Selection, coins: Coins, params: TemplateParams)
    requires tip.height < MAX_U32 && params.consensus.blockSubsidy + s.fees <= MAX_U64
    requires InSync(s, coins, tip.height + 1, params.consensus.coinbaseMaturity)
    requires SaneBlock(Assemble(tip, timestamp, s, params))
    ensures var b := Assemble(tip, timestamp, s, params);
            BlockEffect(b, coins, params.consensus) ==
            if Fresh(b.transactions[0], s.working)
            then Ok((s.working + NewCoins(b.transactions[0], tip.height + 1, true), s.fees))
            else Err(InvalidStateTransition)
  {
    hide EncBlock, MerkleRoot, HeaderHash, BodyEffect, BlockSanity, Fresh, FirstCoins, CoinbaseTag, EncTx;
    var b := Assemble(tip, timestamp, s, params);
    SanityExact(b);
    assert HasCoinbase(b) && Body(b) == s.txs;
    var outputs := b.transactions[0].outputs;
    assert outputs[..0] == [];
    assert TotalValue(outputs) == outputs[0].value;
  }

  /** The reward is in the money range, the coinbase is new, and the block is within the consensus
      size limit. */
  ghost predicate Producible(height: U32, s: Selection, params: TemplateParams) {
    var reward := params.consensus.blockSubsidy + s.fees;
    && reward <= MAX_MONEY
    && CoinbaseFresh(MakeCoinbase(height, reward, params.recipient), s)
    && EMPTY_TEMPLATE_BYTES + EncodedSize(s.txs) <= MAX_BLOCK_BYTES
  }

  /** Over any unspent set of coins in the money range, production succeeds exactly when there is a
      next height and its block is producible; then the template claims the fees of its selection.
      A selection that overflowed is past the money range, so the reward rules it out. */
  lemma BuildExact(tip: BlockHeader, timestamp: U64, p: Pool, coins: Coins, params: TemplateParams)
    requires Valid(p) && InRange(coins)
    ensures Build(tip, timestamp, p, coins, params).Ok? <==>
              tip.height < MAX_U32 && Producible(tip.height + 1, SelectFrom(p, coins, tip.height + 1, params), params)
    ensures Build(tip, timestamp, p, coins, params).Ok? ==>
              var s := SelectFrom(p, coins, tip.height + 1, params);
              Build(tip, timestamp, p, coins, params) ==
                Ok(Template(Assemble(tip, timestamp, s, params), s.fees, |s.txs|))
  {
    hide Valid, InRange, SelectFrom, EncodedSize, BlockEffect, InSync, Fresh, Txid, MakeCoinbase, SaneBlock, HeaderHash,
         MerkleRoot;
    if tip.height < MAX_U32 {
      SelectionFacts(p, coins, tip.height + 1, params);
      var s := SelectFrom(p, coins, tip.height + 1, params);
      if params.consensus.blockSubsidy + s.fees <= MAX_U64 {
        AssembledSanity(tip, timestamp, s, params);
        var b := Assemble(tip, timestamp, s, params);
        if SaneBlock(b) {
          SelectionInSync(p, coins, tip.height + 1, params);
          AssembledEffect(tip, timestamp, s, coins, params);
        } else {
          InsaneEffect(b, coins, params.consensus);
        }
      }
    }
  }

  lemma SelectionInSync(p: Pool, coins: Coins, height: U32, params: TemplateParams)
    requires Valid(p) && InRange(coins) && SelectFrom(p, coins, height, params).fees <= MAX_MONEY
    ensures InSync(SelectFrom(p, coins, height, params), coins, height, params.consensus.coinbaseMaturity)
  {
    hide Valid, InRange, InSync, RankedPool, Select;
    PoolEntriesOk(p);
    SelectInSync(RankedPool(p), coins, height, params);
  }

  lemma InsaneEffect(b: Block, coins: Coins, params: ConsensusParams)
    requires !SaneBlock(b)
    ensures BlockEffect(b, coins, params).Err?
  {
    hide SaneBlock, BlockSanity, BodyEffect;
    SanityExact(b);
  }

  // ----- acceptance

  /** The template is for this chain: its tip, parameters and version, and a timestamp that does
      not precede the tip. */
  predicate ForChain(c: ChainState, timestamp: U64, params: TemplateParams) {
    params.version == BLOCK_VERSION && params.consensus == c.params && timestamp >= c.tip.timestamp
  }

  /** What a produced block holds: a header on top of the tip, a coinbase that pays subsidy and fees to the
      recipient, and the selection. */
  lemma BuiltBlock(tip: BlockHeader, timestamp: U64, p: Pool, coins: Coins, params: TemplateParams)
    requires Valid(p) && Build(tip, timestamp, p, coins, params).Ok?
    ensures var t := Build(tip, timestamp, p, coins, params).value; var b := t.block;
            && tip.height < MAX_U32 && b.header.height == tip.height + 1
            && b.header.version == params.version && b.header.timestamp == timestamp
            && b.header.prevBlock == HeaderHash(tip) && b.header.merkleRoot == MerkleRoot(b.transactions)
            && b.transactions != [] && t.selectedCount == |b.transactions| - 1
    ensures var b := Build(tip, timestamp, p, coins, params).value.block;
            var s := SelectFrom(p, coins, tip.height + 1, params);
            && b.transactions[1..] == s.txs
            && b.transactions[0].inputs == [OutPoint(CoinbaseTag(tip.height + 1), 0xFFFF_FFFF)]
            && params.consensus.blockSubsidy + s.fees <= MAX_U64
            && b.transactions[0].outputs == [TxOutput(params.consensus.blockSubsidy + s.fees, params.recipient)]
  {
    hide Valid, BlockEffect, SelectFrom, HeaderHash, MerkleRoot, CoinbaseTag;
  }

  /** Every produced block is accepted by the chain it was built for, collects the fees the
      template names, and keeps to the size budget. */
  lemma BuiltIsAccepted(c: ChainState, timestamp: U64, p: Pool, params: TemplateParams)
    requires Valid(p) && Build(c.tip, timestamp, p, c.coins, params).Ok? && ForChain(c, timestamp, params)
    ensures var t := Build(c.tip, timestamp, p, c.coins, params).value;
            var s := SelectFrom(p, c.coins, c.tip.height + 1, params);
            && Submit(c, t.block).Ok? && Submit(c, t.block).value.1 == t.totalFees
            && |EncBlock(t.block)| == EMPTY_TEMPLATE_BYTES + EncodedSize(s.txs)
            && (|EncBlock(t.block)| == EMPTY_TEMPLATE_BYTES || |EncBlock(t.block)| <= params.maxBlockBytes)
  {
    hide Valid, EncodedSize, BlockEffect, MakeCoinbase, HeaderHash, MerkleRoot, RankedPool, Select, EncBlock,
         BlockSanity;
    PoolEntriesOk(p);
    var s := SelectFrom(p, c.coins, c.tip.height + 1, params);
    SelectAccounted(RankedPool(p), c.coins, c.tip.height + 1, params);
    AssembledSize(c.tip, timestamp, s, params);
    EffectNeedsSanity(Assemble(c.tip, timestamp, s, params), c.coins, c.params);
  }

  /** Against any parameters of the chain, a produced block is accepted exactly when its version is the
      consensus one, its timestamp does not precede the tip's, and it meets the maturity and coinbase
      cap that the chain's parameters set. */
  lemma BuiltExact(c: ChainState, timestamp: U64, p: Pool, params: TemplateParams)
    requires Valid(p) && Build(c.tip, timestamp, p, c.coins, params).Ok?
    ensures var t := Build(c.tip, timestamp, p, c.coins, params).value;
            && BlockEffect(t.block, c.coins, params.consensus).Ok?
            && (Submit(c, t.block).Ok? <==>
                  && params.version == BLOCK_VERSION
                  && timestamp >= c.tip.timestamp
                  && BlockPermitted(t.block, c.coins, params.consensus, c.params))
            && (Submit(c, t.block).Ok? ==> Submit(c, t.block).value.1 == t.totalFees)
  {
    hide Valid, BlockEffect, MakeCoinbase, HeaderHash, MerkleRoot, SelectFrom, SaneBlock, BlockPermitted, BlockSanity;
    var b := Build(c.tip, timestamp, p, c.coins, params).value.block;
    EffectNeedsSanity(b, c.coins, params.consensus);
    EffectExact(b, c.coins, params.consensus, c.params);
    SubmitExact(c, b);
  }

  lemma EffectNeedsSanity(b: Block, coins: Coins, params: ConsensusParams)
    requires BlockEffect(b, coins, params).Ok?
    ensures BlockSanity(b).Ok? && SaneBlock(b)
  {
    hide BodyEffect, SaneBlock, ScanTransactions;
    SanityExact(b);
  }
}
