/** Runs of a node that mines its own blocks: every sequence of admissions and mined blocks. */
module NodeRuns {
  import opened Base
  import opened Transactions
  import opened Blocks
  import opened Utxo
  import opened BlockValidation
  import opened ChainRules
  import opened RunSafety
  import opened Pools
  import opened Eviction
  import opened Builder
  import opened Agreement

  /** What a node holds: the blocks it has connected, the chain they make, and its pool. */
  datatype Node = Node(ledger: seq<Block>, chain: ChainState, pool: Pool)

  datatype Config = Config(genesisTimestamp: U64, template: TemplateParams, policy: Policy)

  datatype Step = Admit(tx: Transaction) | Mine

  /** The deterministic timestamp of a block: a u64 sum, which wraps. */
  function BlockTimestamp(genesisTimestamp: U64, height: U32): U64 {
    (genesisTimestamp + height) % TWO_64
  }

  /** One second per block from the genesis on, except that the clock starts over at 2^64; a block comes
      before the last exactly when it is the first past that. */
  lemma TimestampExact(genesisTimestamp: U64, height: U32)
    ensures var t, sum := BlockTimestamp(genesisTimestamp, height), genesisTimestamp + height;
            t == if sum <= MAX_U64 then sum else sum - TWO_64
    ensures height < MAX_U32 ==>
              (BlockTimestamp(genesisTimestamp, height + 1) < BlockTimestamp(genesisTimestamp, height) <==>
               genesisTimestamp + height == MAX_U64)
  {
  }

  /** The chain is what its ledger replays to, every coinbase carries its height, and the pool is
      valid, agrees with the chain, and pays the minimum rate. */
  ghost predicate NodeOk(n: Node, cfg: Config) {
    && Replay(n.ledger, n.chain.params) == Ok(n.chain)
    && (forall i :: 0 <= i < |n.ledger| ==> Tagged(n.ledger[i]))
    && Valid(n.pool)
    && Agrees(n.pool, n.chain.coins)
    && PaysRate(n.pool.entries, cfg.policy.minRelayFeerate)
  }

  ghost function AdmitStep(n: Node, tx: Transaction, cfg: Config): (Result<()>, Node)
    requires Valid(n.pool)
  {
    var (r, pool) := Accept(n.pool, tx, n.chain.coins, cfg.policy);
    (r, n.(pool := pool))
  }

  /** One mined block: template, submission, pruning, and the ledger extended. */
  ghost function MineStep(n: Node, cfg: Config): (r: Result<(Template, Node)>)
    requires Valid(n.pool)
    ensures r.Ok? ==> Valid(r.value.1.pool)
  {
    if n.chain.tip.height == MAX_U32 then Err(InvalidBlock) else
    var timestamp := BlockTimestamp(cfg.genesisTimestamp, n.chain.tip.height + 1);
    var t :- Build(n.chain.tip, timestamp, n.pool, n.chain.coins, cfg.template);
    var (chain, _) :- Submit(n.chain, t.block);
    Ok((t, Node(n.ledger + [t.block], chain, Prune(n.pool, t.block.transactions))))
  }

  /** The node after a step; a step that fails leaves what it had changed by then. */
  ghost function After(n: Node, step: Step, cfg: Config): Node
    requires Valid(n.pool)
  {
    match step
    case Admit(tx) => AdmitStep(n, tx, cfg).1
    case Mine => match MineStep(n, cfg) case Ok((_, next)) => next case Err(_) => n
  }

  // ----- the invariant over runs

  lemma AdmitKeeps(n: Node, tx: Transaction, cfg: Config)
    requires NodeOk(n, cfg)
    ensures NodeOk(AdmitStep(n, tx, cfg).1, cfg)
  {
    hide Replay, Tagged, Valid, Accept, Agrees, PaysRate;
    AcceptValid(n.pool, tx, n.chain.coins, cfg.policy);
    AcceptAgrees(n.pool, tx, n.chain.coins, cfg.policy);
    AcceptKeepsRate(n.pool, tx, n.chain.coins, cfg.policy);
  }

  /** What a template is made of. */
  lemma TemplateShape(tip: BlockHeader, timestamp: U64, p: Pool, coins: Coins, params: TemplateParams)
    requires Valid(p) && Build(tip, timestamp, p, coins, params).Ok?
    ensures tip.height < MAX_U32
    ensures var b := Build(tip, timestamp, p, coins, params).value.block;
            var s := SelectFrom(p, coins, tip.height + 1, params);
            && HasCoinbase(b) && Body(b) == s.txs && b.header.height == tip.height + 1 && Tagged(b)
            && DrawnFrom(s.txs, RankedPool(p))
            && params.consensus.blockSubsidy + s.fees <= MAX_U64
            && b.transactions[0] ==
                 MakeCoinbase(tip.height + 1, params.consensus.blockSubsidy + s.fees, params.recipient)
  {
    hide Valid, BlockEffect, Select, RankedPool, HeaderHash, CoinbaseTag, Drawn;
    PoolEntriesOk(p);
    SelectAccounted(RankedPool(p), coins, tip.height + 1, params);
  }

  /** The pieces of a mined block. */
  lemma MineStepFacts(n: Node, cfg: Config)
    requires Valid(n.pool) && MineStep(n, cfg).Ok?
    ensures n.chain.tip.height < MAX_U32
    ensures var (t, m) := MineStep(n, cfg).value;
            var timestamp := BlockTimestamp(cfg.genesisTimestamp, n.chain.tip.height + 1);
            && Build(n.chain.tip, timestamp, n.pool, n.chain.coins, cfg.template) == Ok(t)
            && Submit(n.chain, t.block).Ok?
            && m == Node(n.ledger + [t.block], Submit(n.chain, t.block).value.0, Prune(n.pool, t.block.transactions))
  {
    hide Valid, Build, Submit, Prune;
  }

  lemma MineKeeps(n: Node, cfg: Config)
    requires NodeOk(n, cfg) && MineStep(n, cfg).Ok?
    ensures NodeOk(MineStep(n, cfg).value.1, cfg)
  {
    hide Tagged, Valid, Agrees, Build, Submit, Prune, DrawnFrom, Replay, SelectFrom, MineStep, MakeCoinbase,
         HasCoinbase, PaysRate;
    MineStepFacts(n, cfg);
    var timestamp := BlockTimestamp(cfg.genesisTimestamp, n.chain.tip.height + 1);
    TemplateShape(n.chain.tip, timestamp, n.pool, n.chain.coins, cfg.template);
    var b := MineStep(n, cfg).value.0.block;
    OwnBlockAgrees(n.pool, n.chain, b);
    PruneKeepsRate(n.pool, b.transactions, cfg.policy.minRelayFeerate);
    ReplayNonEmpty(n.ledger, n.chain.params);
    ReplayAppend(n.ledger, b, n.chain.params);
    SubmitKeepsParams(n.chain, b);
  }

  lemma PruneKeepsRate(p: Pool, txs: seq<Transaction>, rate: nat)
    requires Valid(p) && PaysRate(p.entries, rate)
    ensures PaysRate(Prune(p, txs).entries, rate)
  {
    hide Valid, Prune, Txid;
    PruneExact(p, txs);
  }

  lemma ReplayNonEmpty(blocks: seq<Block>, params: ConsensusParams)
    requires Replay(blocks, params).Ok?
    ensures blocks != []
  {
  }

  lemma SubmitKeepsParams(c: ChainState, b: Block)
    requires Submit(c, b).Ok?
    ensures Submit(c, b).value.0.params == c.params
  {
    hide BlockEffect, BlockSanity, LinksTo;
  }

  lemma StepKeeps(n: Node, step: Step, cfg: Config)
    requires NodeOk(n, cfg)
    ensures NodeOk(After(n, step, cfg), cfg)
  {
    hide NodeOk, AdmitStep, MineStep, Valid;
    assert Valid(n.pool) by { OkIsValid(n, cfg); }
    match step
    case Admit(tx) => AdmitKeeps(n, tx, cfg);
    case Mine =>
      if MineStep(n, cfg).Ok? {
        MineKeeps(n, cfg);
      }
  }

  lemma OkIsValid(n: Node, cfg: Config)
    requires NodeOk(n, cfg)
    ensures Valid(n.pool)
  {
  }

  /** The node after a whole run. */
  ghost function AfterAll(n: Node, steps: seq<Step>, cfg: Config): (m: Node)
    requires NodeOk(n, cfg)
    ensures NodeOk(m, cfg)
  {
    if steps == [] then n else
      var before := AfterAll(n, steps[..|steps| - 1], cfg);
      StepKeeps(before, steps[|steps| - 1], cfg);
      After(before, steps[|steps| - 1], cfg)
  }

  /** What one step does: an admission changes the pool as `Accept` does; a block that can be mined is
      appended, and one that cannot leaves everything as it was. */
  ghost predicate Took(n: Node, step: Step, m: Node, cfg: Config)
    requires Valid(n.pool)
  {
    match step
    case Admit(tx) =>
      m.ledger == n.ledger && m.chain == n.chain && m.pool == Accept(n.pool, tx, n.chain.coins, cfg.policy).1
    case Mine =>
      if MineStep(n, cfg).Err? then m == n else
        var b := MineStep(n, cfg).value.0.block;
        && m.ledger == n.ledger + [b] && Submit(n.chain, b).Ok? && m.chain == Submit(n.chain, b).value.0
        && m.pool == Prune(n.pool, b.transactions)
  }

  lemma StepTaken(n: Node, step: Step, cfg: Config)
    requires Valid(n.pool)
    ensures Took(n, step, After(n, step, cfg), cfg)
  {
    hide Valid, Accept, Submit, Prune, MineStep;
    if step.Mine? && MineStep(n, cfg).Ok? {
      MineStepFacts(n, cfg);
    }
  }

  /** A run takes every step, in order, through nodes in the invariant. */
  lemma {:induction false} RunTrace(n: Node, steps: seq<Step>, cfg: Config) returns (nodes: seq<Node>)
    requires NodeOk(n, cfg)
    ensures |nodes| == |steps| + 1 && nodes[0] == n && nodes[|steps|] == AfterAll(n, steps, cfg)
    ensures forall i :: 0 <= i <= |steps| ==> NodeOk(nodes[i], cfg) && Valid(nodes[i].pool)
    ensures forall i :: 0 <= i < |steps| ==> Took(nodes[i], steps[i], nodes[i + 1], cfg)
  {
    hide NodeOk, Valid, Took, After;
    OkIsValid(n, cfg);
    if steps == [] {
      nodes := [n];
    } else {
      var k := |steps| - 1;
      var earlier := RunTrace(n, steps[..k], cfg);
      StepTaken(earlier[k], steps[k], cfg);
      StepKeeps(earlier[k], steps[k], cfg);
      OkIsValid(After(earlier[k], steps[k], cfg), cfg);
      nodes := earlier + [After(earlier[k], steps[k], cfg)];
    }
  }

  /** A fresh node on an empty genesis starts in the invariant, so `AfterAll` carries it through
      every run. */
  lemma FreshNodeOk(genesis: Block, params: ConsensusParams, limits: Limits, cfg: Config)
    requires Create(genesis, params).Ok? && genesis.transactions == []
    ensures NodeOk(Node([genesis], Create(genesis, params).value, Pool(limits, map[], map[], 0)), cfg)
  {
    hide BlockEffect, BlockSanity;
  }

  // ----- what mining does to the pool

  /** A mined block removes exactly the entries it selected, given that the id of its coinbase is
      that of no entry. */
  lemma MinedLeavesUnselected(n: Node, cfg: Config)
    requires NodeOk(n, cfg) && MineStep(n, cfg).Ok?
    requires var txs := MineStep(n, cfg).value.0.block.transactions; txs == [] || Txid(txs[0]) !in n.pool.entries
    ensures var (t, m) := MineStep(n, cfg).value; var ids := Txids(Body(t.block));
            && (forall k :: k in m.pool.entries <==> k in n.pool.entries && k !in ids)
            && (forall k :: k in m.pool.entries ==> m.pool.entries[k] == n.pool.entries[k])
            && (forall k :: k in ids ==> k in n.pool.entries)
  {
    hide Tagged, Valid, Agrees, Build, Submit, Prune, Replay, SelectFrom, Txid, RankedPool, MineStep, MakeCoinbase;
    MineStepFacts(n, cfg);
    var timestamp := BlockTimestamp(cfg.genesisTimestamp, n.chain.tip.height + 1);
    TemplateShape(n.chain.tip, timestamp, n.pool, n.chain.coins, cfg.template);
    var b := MineStep(n, cfg).value.0.block;
    PruneExact(n.pool, b.transactions);
    var ids := Txids(Body(b));
    forall k | k in ids ensures k in n.pool.entries {
      var i :| 0 <= i < |ids| && ids[i] == k;
      assert Drawn(Body(b)[i], RankedPool(n.pool));
      var j :| 0 <= j < |RankedPool(n.pool)| && RankedPool(n.pool)[j].tx == Body(b)[i];
      RankedEntry(n.pool, RankedPool(n.pool)[j]);
    }
    forall k
      ensures k in (set i | 0 <= i < |b.transactions| :: Txid(b.transactions[i]))
              <==> k in ids || k == Txid(b.transactions[0])
    {
      assert forall i :: 0 <= i < |ids| ==> ids[i] == Txid(b.transactions[i + 1]);
    }
  }
}
