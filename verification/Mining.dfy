/** When a node that mines its own blocks can mine the next one, and what goes into it. */
module Mining {
  import opened Base
  import opened Hashing
  import opened Transactions
  import opened Blocks
  import opened Utxo
  import opened TxValidation
  import opened BlockValidation
  import opened ChainRules
  import opened Traces
  import opened RunSafety
  import opened Pools
  import opened Eviction
  import opened Builder
  import opened Templates
  import opened Agreement
  import opened GreedyPacking
  import opened NodeRuns

  /** What the next template would select. */
  ghost function NextSelection(n: Node, cfg: Config): Selection
    requires Valid(n.pool) && n.chain.tip.height < MAX_U32
  {
    SelectFrom(n.pool, n.chain.coins, n.chain.tip.height + 1, cfg.template)
  }

  ghost function NextReward(n: Node, cfg: Config): nat
    requires Valid(n.pool) && n.chain.tip.height < MAX_U32
  {
    cfg.template.consensus.blockSubsidy + NextSelection(n, cfg).fees
  }

  /** The coinbase the next template would carry. */
  ghost function NextCoinbase(n: Node, cfg: Config): Transaction
    requires Valid(n.pool) && n.chain.tip.height < MAX_U32 && NextReward(n, cfg) <= MAX_U64
  {
    hide Valid, NextSelection;
    MakeCoinbase(n.chain.tip.height + 1, NextReward(n, cfg), cfg.template.recipient)
  }

  /** The template configuration is the chain's own. */
  predicate Configured(n: Node, cfg: Config) {
    cfg.template.version == BLOCK_VERSION && cfg.template.consensus == n.chain.params
  }

  // ----- the next coinbase is new

  /** A coinbase tagged with a height above every event's is none of the events' transactions. */
  lemma CoinbaseIsNew(es: seq<Event>, maturity: U32, coins: Coins, coinbase: Transaction, height: U32,
                      messages: set<Bytes>, j: nat)
    requires Runs(es, maturity, coins) && TaggedEvents(es) && j < |es|
    requires SaneTx(coinbase) && IsCoinbase(coinbase) && coinbase.inputs[0].txid == CoinbaseTag(height)
    requires es[j].minted ==> es[j].height < height
    requires NoCollision(messages) && EncTx(coinbase) in messages && EncTx(es[j].tx) in messages
    ensures Txid(coinbase) != Txid(es[j].tx)
  {
    hide Runs, EncTx, Fresh, Mature, CoinbaseTag, NoCollision;
    var before := RunsPrefix(es, maturity, coins, j);
    assert WireTx(es[j].tx) && WireTx(coinbase);
    if Txid(coinbase) == Txid(es[j].tx) {
      TxidInjective(coinbase, es[j].tx, messages);
      CoinbaseTagInjective(height, es[j].height);
      assert false;
    }
  }

  /** The history of the chain followed by the selection, as one run. */
  lemma SelectionRuns(n: Node, cfg: Config) returns (es: seq<Event>)
    requires NodeOk(n, cfg) && n.chain.tip.height < MAX_U32 && Configured(n, cfg)
    requires NextSelection(n, cfg).fees <= MAX_MONEY
    ensures var s := NextSelection(n, cfg);
            && es == Events(n.ledger) + BodyEvents(s.txs, n.chain.tip.height + 1)
            && Runs(es, n.chain.params.coinbaseMaturity, s.working)
            && TaggedEvents(es)
            && forall j :: 0 <= j < |es| && es[j].minted ==> es[j].height <= n.chain.tip.height
  {
    hide Valid, SelectFrom, BodyEffect, Replay, SaneBlock, HeaderHash, Tagged, Events, Runs, Agrees, CoinbaseTag,
         InRange;
    var height := n.chain.tip.height + 1;
    LiveCoinsInRange(n.ledger, n.chain.params);
    SelectionFacts(n.pool, n.chain.coins, height, cfg.template);
    SelectionInSync(n.pool, n.chain.coins, height, cfg.template);
    var s := NextSelection(n, cfg);
    ReplayShape(n.ledger, n.chain.params);
    ChainRuns(n.ledger, n.chain.params);
    BodyRuns(Events(n.ledger), s.txs, n.chain.coins, height, n.chain.params.coinbaseMaturity);
    EventsTagged(n.ledger);
    EventsOrdered(n.ledger);
    es := Events(n.ledger) + BodyEvents(s.txs, height);
  }

  /** In a node that has mined all its coinbases, with no two of the transactions in play
      colliding, the next coinbase is new to the selection and to the unspent set. */
  lemma NextCoinbaseFresh(n: Node, cfg: Config, messages: set<Bytes>)
    requires NodeOk(n, cfg) && n.chain.tip.height < MAX_U32 && Configured(n, cfg) && NextReward(n, cfg) <= MAX_MONEY
    requires NoCollision(messages) && EncTx(NextCoinbase(n, cfg)) in messages
    requires IdMessages(Events(n.ledger)) <= messages && TxMessages(NextSelection(n, cfg).txs) <= messages
    ensures CoinbaseFresh(NextCoinbase(n, cfg), NextSelection(n, cfg))
  {
    hide NodeOk, Valid, NextSelection, BodyEffect, Runs, NoCollision, EncTx, CoinbaseTag, SaneTx, Txid, Events;
    var height := n.chain.tip.height + 1;
    OkIsValid(n, cfg);
    var s := NextSelection(n, cfg);
    var coinbase := NextCoinbase(n, cfg);
    CoinbaseSane(height, NextReward(n, cfg), cfg.template.recipient);
    var es := SelectionRuns(n, cfg);
    var past := |Events(n.ledger)|;
    forall j | 0 <= j < |es|
      ensures Txid(coinbase) != Txid(es[j].tx)
    {
      if j < past {
        assert EncTx(Events(n.ledger)[j].tx) in IdMessages(Events(n.ledger));
      } else {
        assert EncTx(s.txs[j - past]) in TxMessages(s.txs);
      }
      CoinbaseIsNew(es, n.chain.params.coinbaseMaturity, s.working, coinbase, height, messages, j);
    }
    forall i | 0 <= i < |s.txs| ensures Txids(s.txs)[i] != Txid(coinbase) {
      assert es[past + i].tx == s.txs[i];
    }
    forall op | Creates(coinbase, op) ensures op !in s.working {
      if op in s.working {
        var k := Provenance(es, n.chain.params.coinbaseMaturity, s.working, op);
      }
    }
  }

  // ----- when mining succeeds

  /** There is a next height, its timestamp does not precede the tip's, the reward is in the money
      range, and the selection is within the consensus size limit. */
  ghost predicate CanMine(n: Node, cfg: Config)
    requires Valid(n.pool)
  {
    && n.chain.tip.height < MAX_U32
    && BlockTimestamp(cfg.genesisTimestamp, n.chain.tip.height + 1) >= n.chain.tip.timestamp
    && NextReward(n, cfg) <= MAX_MONEY
    && EMPTY_TEMPLATE_BYTES + EncodedSize(NextSelection(n, cfg).txs) <= MAX_BLOCK_BYTES
  }

  /** The transactions the next template involves are among `messages`. */
  ghost predicate Covers(messages: set<Bytes>, n: Node, cfg: Config)
    requires Valid(n.pool)
  {
    && IdMessages(Events(n.ledger)) <= messages
    && (n.chain.tip.height < MAX_U32 && NextReward(n, cfg) <= MAX_MONEY ==>
          EncTx(NextCoinbase(n, cfg)) in messages && TxMessages(NextSelection(n, cfg).txs) <= messages)
  }

  lemma MineNeedsBuild(n: Node, cfg: Config)
    requires Valid(n.pool)
    ensures MineStep(n, cfg).Ok? <==>
            && n.chain.tip.height < MAX_U32
            && var timestamp := BlockTimestamp(cfg.genesisTimestamp, n.chain.tip.height + 1);
               var t := Build(n.chain.tip, timestamp, n.pool, n.chain.coins, cfg.template);
               t.Ok? && Submit(n.chain, t.value.block).Ok?
  {
    hide Valid, Build, Submit, Prune;
  }

  /** In every reachable state of a self-mining node, mining succeeds exactly when `CanMine`. */
  lemma MiningExact(n: Node, cfg: Config, messages: set<Bytes>)
    requires NodeOk(n, cfg) && Configured(n, cfg) && NoCollision(messages) && Covers(messages, n, cfg)
    ensures MineStep(n, cfg).Ok? <==> CanMine(n, cfg)
  {
    hide Valid, NodeOk, NoCollision, EncTx, Events, Build, Submit, CoinbaseFresh, Txid, EncodedSize, MineStep, InRange,
         SelectFrom;
    OkIsValid(n, cfg);
    MineNeedsBuild(n, cfg);
    if n.chain.tip.height < MAX_U32 {
      var c, timestamp := n.chain, BlockTimestamp(cfg.genesisTimestamp, n.chain.tip.height + 1);
      NodeInRange(n, cfg);
      BuildExact(c.tip, timestamp, n.pool, c.coins, cfg.template);
      if NextReward(n, cfg) <= MAX_MONEY {
        NextCoinbaseFresh(n, cfg, messages);
      }
      if Build(c.tip, timestamp, n.pool, c.coins, cfg.template).Ok? {
        BuiltTimestamp(c, timestamp, n.pool, cfg.template);
        if timestamp >= c.tip.timestamp {
          BuiltIsAccepted(c, timestamp, n.pool, cfg.template);
        }
      }
    }
  }

  lemma NodeInRange(n: Node, cfg: Config)
    requires NodeOk(n, cfg)
    ensures InRange(n.chain.coins)
  {
    hide Replay, Valid, Agrees, Tagged, InRange;
    LiveCoinsInRange(n.ledger, n.chain.params);
  }

  /** A produced block with a timestamp before the tip's is refused. */
  lemma BuiltTimestamp(c: ChainState, timestamp: U64, p: Pool, params: TemplateParams)
    requires Valid(p) && Build(c.tip, timestamp, p, c.coins, params).Ok?
    ensures var b := Build(c.tip, timestamp, p, c.coins, params).value.block;
            b.header.timestamp == timestamp && (Submit(c, b).Ok? ==> timestamp >= c.tip.timestamp)
  {
    hide Valid, SelectFrom, BlockEffect, HeaderHash, MakeCoinbase, SaneBlock, Submit;
    var b := Build(c.tip, timestamp, p, c.coins, params).value.block;
    SubmitExact(c, b);
  }

  // ----- what is mined

  /** The messages hashed for the ids of the pool. */
  ghost function PoolMessages(p: Pool): set<Bytes> {
    set k | k in p.entries :: EncTx(p.entries[k].tx)
  }

  /** In a self-mining node no entry of the pool would create an outpoint that exists: the history
      would have spent its inputs already. */
  lemma PoolIsFresh(n: Node, cfg: Config, messages: set<Bytes>)
    requires NodeOk(n, cfg) && NoCollision(messages)
    requires IdMessages(Events(n.ledger)) <= messages && PoolMessages(n.pool) <= messages
    ensures AllFresh(n.pool, n.chain.coins)
  {
    hide NodeOk, NoCollision, EncTx, Events, Txid;
    forall k, op | k in n.pool.entries && Creates(n.pool.entries[k].tx, op) ensures op !in n.chain.coins {
      EntryIsFresh(n, cfg, messages, k, op);
    }
  }

  lemma EntryIsFresh(n: Node, cfg: Config, messages: set<Bytes>, k: Hash, op: OutPoint)
    requires NodeOk(n, cfg) && NoCollision(messages)
    requires IdMessages(Events(n.ledger)) <= messages && PoolMessages(n.pool) <= messages
    requires k in n.pool.entries && op.txid == Txid(n.pool.entries[k].tx)
    ensures op !in n.chain.coins
  {
    hide NoCollision, EncTx, Events, Replay, Tagged, IndexOk, Runs, SaneTx, TxFee, DistinctIds, DistinctCoinbases;
    if op in n.chain.coins {
      var es, maturity, tx := Events(n.ledger), n.chain.params.coinbaseMaturity, n.pool.entries[k].tx;
      ChainRuns(n.ledger, n.chain.params);
      var j := Provenance(es, maturity, n.chain.coins, op);
      var before := RunsPrefix(es, maturity, n.chain.coins, j);
      assert EncTx(es[j].tx) in IdMessages(es) && EncTx(tx) in PoolMessages(n.pool);
      SaneTxIsWire(tx);
      SaneTxIsWire(es[j].tx);
      TxidInjective(tx, es[j].tx, messages);
      TaggedAreDistinct(n.ledger, n.chain.params, messages);
      NoRecreation(n.ledger, n.chain.params, messages);
      assert es[..|es|] == es;
      FirstInputSpends(tx);
      FeeNeedsPrevouts(tx, n.chain.coins, tx.inputs[0]);
      assert false;
    }
  }

  lemma SaneTxIsWire(tx: Transaction)
    requires SaneTx(tx)
    ensures WireTx(tx)
  {
  }

  lemma FirstInputSpends(tx: Transaction)
    requires SaneTx(tx)
    ensures tx.inputs != [] && tx.inputs[0] in Prevouts(tx)
  {
  }

  /** Every block a self-mining node mines is the greedy packing of its pool. */
  lemma MinesGreedily(n: Node, cfg: Config, messages: set<Bytes>)
    requires NodeOk(n, cfg) && MineStep(n, cfg).Ok? && NoCollision(messages)
    requires IdMessages(Events(n.ledger)) <= messages && PoolMessages(n.pool) <= messages
    ensures Valid(n.pool) && n.chain.tip.height < MAX_U32
    ensures Body(MineStep(n, cfg).value.0.block) ==
            TxsOf(Pack(RankedPool(n.pool), n.chain.coins, n.chain.tip.height + 1, cfg.template))
  {
    hide NodeOk, NoCollision, EncTx, Events, Valid, Agrees, InRange, Build, Submit, Prune, MineStep, Pack, RankedPool,
         FeesOf, CoinbaseFresh, EncodedSize, AllFresh, MakeCoinbase, TxsOf, Tagged, HasCoinbase, Select, NeverOverflows;
    OkIsValid(n, cfg);
    MineStepFacts(n, cfg);
    NodeInRange(n, cfg);
    PoolIsFresh(n, cfg, messages);
    assert Agrees(n.pool, n.chain.coins) by { OkAgrees(n, cfg); }
    var height, timestamp := n.chain.tip.height + 1, BlockTimestamp(cfg.genesisTimestamp, n.chain.tip.height + 1);
    TemplateShape(n.chain.tip, timestamp, n.pool, n.chain.coins, cfg.template);
    BuildExact(n.chain.tip, timestamp, n.pool, n.chain.coins, cfg.template);
    SelectionIsGreedy(n.pool, n.chain.coins, height, cfg.template);
    if FeesOf(Pack(RankedPool(n.pool), n.chain.coins, height, cfg.template)) > MAX_U64 {
      ExcessIsNotSelected(n.pool, n.chain.coins, height, cfg.template);
      RichAfterOverflow(RankedPool(n.pool), n.chain.coins, height, cfg.template);
      assert false;
    }
  }

  lemma OkAgrees(n: Node, cfg: Config)
    requires NodeOk(n, cfg)
    ensures Agrees(n.pool, n.chain.coins)
  {
  }

  /** The coinbase of a mined block is no entry of the pool, given no collision: entries are no coinbases. */
  lemma CoinbaseIsNoEntry(n: Node, cfg: Config, messages: set<Bytes>)
    requires NodeOk(n, cfg) && MineStep(n, cfg).Ok? && NoCollision(messages) && PoolMessages(n.pool) <= messages
    requires TxMessages(MineStep(n, cfg).value.0.block.transactions) <= messages
    ensures var txs := MineStep(n, cfg).value.0.block.transactions; txs != [] && Txid(txs[0]) !in n.pool.entries
  {
    hide NodeOk, NoCollision, EncTx, Valid, Build, Submit, Prune, MineStep, SelectFrom, CoinbaseTag, Txid;
    OkIsValid(n, cfg);
    MineStepFacts(n, cfg);
    var timestamp := BlockTimestamp(cfg.genesisTimestamp, n.chain.tip.height + 1);
    TemplateShape(n.chain.tip, timestamp, n.pool, n.chain.coins, cfg.template);
    var txs := MineStep(n, cfg).value.0.block.transactions;
    assert EncTx(txs[0]) in TxMessages(txs);
    if Txid(txs[0]) in n.pool.entries {
      var tx := n.pool.entries[Txid(txs[0])].tx;
      assert EncTx(tx) in PoolMessages(n.pool);
      PoolTxFacts(n.pool, Txid(txs[0]));
      TxidInjective(tx, txs[0], messages);
      assert false;
    }
  }

  lemma PoolTxFacts(p: Pool, k: Hash)
    requires Valid(p) && k in p.entries
    ensures var tx := p.entries[k].tx; Txid(tx) == k && !IsCoinbase(tx) && WireTx(tx)
  {
    hide Txid, EncTx, IndexOk;
    SaneTxIsWire(p.entries[k].tx);
  }

  /** A mined block removes exactly the entries it selected. */
  lemma MinedPoolExact(n: Node, cfg: Config, messages: set<Bytes>)
    requires NodeOk(n, cfg) && MineStep(n, cfg).Ok? && NoCollision(messages) && PoolMessages(n.pool) <= messages
    requires TxMessages(MineStep(n, cfg).value.0.block.transactions) <= messages
    ensures var (t, m) := MineStep(n, cfg).value; var ids := Txids(Body(t.block));
            && (forall k :: k in m.pool.entries <==> k in n.pool.entries && k !in ids)
            && (forall k :: k in m.pool.entries ==> m.pool.entries[k] == n.pool.entries[k])
            && (forall k :: k in ids ==> k in n.pool.entries)
  {
    hide NodeOk, NoCollision, MineStep, Txid;
    CoinbaseIsNoEntry(n, cfg, messages);
    MinedLeavesUnselected(n, cfg);
  }
}
