/** The single-process simulator: start fresh or from a file, then admit transactions and mine
    blocks step by step, keeping the ledger. */
module Simulator {
  import opened Base
  import opened Transactions
  import opened Blocks
  import opened Utxo
  import opened BlockValidation
  import opened ChainRules
  import opened Chain
  import opened Pools
  import opened Eviction
  import opened Mempool
  import opened Builder
  import opened BlockBuilder
  import opened LedgerFile
  import opened Restart
  import opened ChainStore
  import opened NodeRuns

  /** The mutable pieces of a running node, seen as a value. */
  ghost function Snapshot(ledger: seq<Block>, chain: ActiveChain, pool: TransactionPool): Node
    reads chain, chain.utxos, pool
  {
    Node(ledger, chain.State(), pool.Contents())
  }

  /** Admitting a list stops at the first refusal, keeping what was done. */
  ghost function AdmitAll(n: Node, txs: seq<Transaction>, cfg: Config): (r: (Result<()>, Node))
    requires Valid(n.pool)
    ensures Valid(r.1.pool)
  {
    if txs == [] then (DONE, n) else
      var k := |txs| - 1;
      var (done, m) := AdmitAll(n, txs[..k], cfg);
      if done.Err? then (done, m) else
        AcceptValid(m.pool, txs[k], m.chain.coins, cfg.policy);
        AdmitStep(m, txs[k], cfg)
  }

  /** Mining `count` blocks stops at the first failure, keeping the blocks already mined. */
  ghost function MineMany(n: Node, count: nat, cfg: Config): (r: (Result<()>, Node))
    requires Valid(n.pool)
    ensures Valid(r.1.pool)
  {
    hide Valid, Build, Submit, Prune;
    if count == 0 then (DONE, n) else
      var (done, m) := MineMany(n, count - 1, cfg);
      if done.Err? then (done, m) else
        match MineStep(m, cfg)
        case Ok((_, next)) => (DONE, next)
        case Err(e) => (Err(e), m)
  }

  /** One scripted step: admissions, then blocks. */
  datatype SimulatorStep = SimulatorStep(submit: seq<Transaction>, mine: U32)

  ghost function RunSteps(n: Node, steps: seq<SimulatorStep>, cfg: Config): (r: (Result<()>, Node))
    requires Valid(n.pool)
    ensures Valid(r.1.pool)
  {
    if steps == [] then (DONE, n) else
      var k := |steps| - 1;
      var (done, m) := RunSteps(n, steps[..k], cfg);
      if done.Err? then (done, m) else
        var (admitted, m') := AdmitAll(m, steps[k].submit, cfg);
        if admitted.Err? then (admitted, m') else MineMany(m', steps[k].mine, cfg)
  }

  // ----- every run keeps the node's invariant

  lemma {:induction false} AdmitAllKeeps(n: Node, txs: seq<Transaction>, cfg: Config)
    requires NodeOk(n, cfg)
    ensures NodeOk(AdmitAll(n, txs, cfg).1, cfg)
  {
    hide NodeOk, Valid, AdmitStep;
    OkIsValid(n, cfg);
    if txs != [] {
      var k := |txs| - 1;
      AdmitAllKeeps(n, txs[..k], cfg);
      AdmitKeeps(AdmitAll(n, txs[..k], cfg).1, txs[k], cfg);
    }
  }

  lemma {:induction false} MineManyKeeps(n: Node, count: nat, cfg: Config)
    requires NodeOk(n, cfg)
    ensures NodeOk(MineMany(n, count, cfg).1, cfg)
  {
    hide NodeOk, Valid, MineStep;
    OkIsValid(n, cfg);
    if count > 0 {
      MineManyKeeps(n, count - 1, cfg);
      var m := MineMany(n, count - 1, cfg).1;
      OkIsValid(m, cfg);
      if MineStep(m, cfg).Ok? {
        MineKeeps(m, cfg);
      }
    }
  }

  lemma {:induction false} RunStepsKeeps(n: Node, steps: seq<SimulatorStep>, cfg: Config)
    requires NodeOk(n, cfg)
    ensures NodeOk(RunSteps(n, steps, cfg).1, cfg)
  {
    hide NodeOk, Valid, AdmitAll, MineMany;
    OkIsValid(n, cfg);
    if steps != [] {
      var k := |steps| - 1;
      RunStepsKeeps(n, steps[..k], cfg);
      var m := RunSteps(n, steps[..k], cfg).1;
      OkIsValid(m, cfg);
      AdmitAllKeeps(m, steps[k].submit, cfg);
      var m' := AdmitAll(m, steps[k].submit, cfg).1;
      OkIsValid(m', cfg);
      MineManyKeeps(m', steps[k].mine, cfg);
    }
  }

  /** The empty genesis block of a configuration. */
  function Genesis(timestamp: U64): Block {
    Block(BlockHeader(BLOCK_VERSION, ZERO_HASH, ZERO_HASH, timestamp, 0), [])
  }

  /** A fresh chain on the empty genesis always exists: at height zero and at the configured time, without
      a coin. */
  lemma GenesisCreates(timestamp: U64, params: ConsensusParams)
    ensures var r := Create(Genesis(timestamp), params);
            && r.Ok? && r.value.tip.height == 0 && r.value.tip.timestamp == timestamp
            && r.value.coins == map[] && r.value.params == params
  {
    var g := Genesis(timestamp);
    assert |EncBlock(g)| <= MAX_BLOCK_BYTES by { EmptyBlockSize(g); }
    hide EncBlock;
  }

  lemma EmptyBlockSize(b: Block)
    requires b.transactions == []
    ensures |EncBlock(b)| == 84
  {
  }

  // ----- what every run leaves alone

  /** The node runs under this configuration: parameters, genesis and pool limits. */
  ghost predicate RunsUnder(n: Node, params: ConsensusParams, genesis: Block, limits: Limits) {
    n.chain.params == params && n.ledger != [] && n.ledger[0] == genesis && n.pool.limits == limits
  }

  lemma AdmitRunsUnder(n: Node, tx: Transaction, cfg: Config, params: ConsensusParams, genesis: Block, limits: Limits)
    requires Valid(n.pool) && RunsUnder(n, params, genesis, limits)
    ensures RunsUnder(AdmitStep(n, tx, cfg).1, params, genesis, limits)
  {
    hide Valid, Accept;
    AcceptKeepsLimits(n.pool, tx, n.chain.coins, cfg.policy);
  }

  lemma {:induction false} AdmitAllRunsUnder(
      n: Node, txs: seq<Transaction>, cfg: Config, params: ConsensusParams, genesis: Block, limits: Limits)
    requires Valid(n.pool) && RunsUnder(n, params, genesis, limits)
    ensures RunsUnder(AdmitAll(n, txs, cfg).1, params, genesis, limits)
  {
    hide Valid, AdmitStep, RunsUnder;
    if txs != [] {
      var k := |txs| - 1;
      AdmitAllRunsUnder(n, txs[..k], cfg, params, genesis, limits);
      AdmitRunsUnder(AdmitAll(n, txs[..k], cfg).1, txs[k], cfg, params, genesis, limits);
    }
  }

  lemma MineRunsUnder(n: Node, cfg: Config, params: ConsensusParams, genesis: Block, limits: Limits)
    requires Valid(n.pool) && MineStep(n, cfg).Ok? && RunsUnder(n, params, genesis, limits)
    ensures RunsUnder(MineStep(n, cfg).value.1, params, genesis, limits)
  {
    hide Valid, Build, Submit, Prune, MineStep;
    MineStepFacts(n, cfg);
    var b := MineStep(n, cfg).value.0.block;
    SubmitKeepsParams(n.chain, b);
    PruneExact(n.pool, b.transactions);
  }

  lemma {:induction false} MineManyRunsUnder(
      n: Node, count: nat, cfg: Config, params: ConsensusParams, genesis: Block, limits: Limits)
    requires Valid(n.pool) && RunsUnder(n, params, genesis, limits)
    ensures RunsUnder(MineMany(n, count, cfg).1, params, genesis, limits)
  {
    hide Valid, MineStep, RunsUnder;
    if count > 0 {
      MineManyRunsUnder(n, count - 1, cfg, params, genesis, limits);
      var m := MineMany(n, count - 1, cfg).1;
      if MineStep(m, cfg).Ok? {
        MineRunsUnder(m, cfg, params, genesis, limits);
      }
    }
  }

  /** A run never changes its parameters, its first block or its pool limits. */
  lemma {:induction false} RunStepsRunsUnder(
      n: Node, steps: seq<SimulatorStep>, cfg: Config, params: ConsensusParams, genesis: Block, limits: Limits)
    requires Valid(n.pool) && RunsUnder(n, params, genesis, limits)
    ensures RunsUnder(RunSteps(n, steps, cfg).1, params, genesis, limits)
  {
    hide Valid, AdmitAll, MineMany, RunsUnder;
    if steps != [] {
      var k := |steps| - 1;
      RunStepsRunsUnder(n, steps[..k], cfg, params, genesis, limits);
      var m := RunSteps(n, steps[..k], cfg).1;
      AdmitAllRunsUnder(m, steps[k].submit, cfg, params, genesis, limits);
      MineManyRunsUnder(AdmitAll(m, steps[k].submit, cfg).1, steps[k].mine, cfg, params, genesis, limits);
    }
  }

  // ----- restarts

  /** A node that runs under a configuration loads back under that configuration. */
  lemma ReloadsUnder(
      n: Node, cfg: Config, exported: seq<Transaction>, params: ConsensusParams, genesis: Block, limits: Limits)
    requires NodeOk(n, cfg) && RunsUnder(n, params, genesis, limits)
    requires IsExport(exported, n.pool.entries) && Save(n, exported).Ok?
    ensures Load(Save(n, exported).value, params, genesis, limits, cfg.policy) == Ok(n)
  {
    hide NodeOk, Save, Load, IsExport, HeaderHash;
    RestartTransparent(n, cfg, exported, params, genesis);
  }

  /** Over every scripted run from a fresh node: whatever the outcome, the node satisfies its
      invariant, and if it then saves, a restart under the configuration it was started with gives
      the same node. */
  lemma RunsRestartTransparently(
      timestamp: U64, params: ConsensusParams, limits: Limits, steps: seq<SimulatorStep>, cfg: Config,
      exported: seq<Transaction>)
    ensures Create(Genesis(timestamp), params).Ok?
    ensures var g := Genesis(timestamp);
            var start := Node([g], Create(g, params).value, Pool(limits, map[], map[], 0));
            && NodeOk(start, cfg)
            && var end := RunSteps(start, steps, cfg).1;
               && NodeOk(end, cfg)
               && (IsExport(exported, end.pool.entries) && Save(end, exported).Ok? ==>
                     Load(Save(end, exported).value, params, Genesis(timestamp), limits, cfg.policy) == Ok(end))
  {
    hide NodeOk, Create, RunSteps, Save, Load, IsExport, Valid;
    GenesisCreates(timestamp, params);
    FreshNodeOk(Genesis(timestamp), params, limits, cfg);
    var start := Node([Genesis(timestamp)], Create(Genesis(timestamp), params).value, Pool(limits, map[], map[], 0));
    OkIsValid(start, cfg);
    CreateKeepsParams(Genesis(timestamp), params);
    RunStepsKeeps(start, steps, cfg);
    RunStepsRunsUnder(start, steps, cfg, params, Genesis(timestamp), limits);
    var end := RunSteps(start, steps, cfg).1;
    if IsExport(exported, end.pool.entries) && Save(end, exported).Ok? {
      ReloadsUnder(end, cfg, exported, params, Genesis(timestamp), limits);
    }
  }

  lemma CreateKeepsParams(genesis: Block, params: ConsensusParams)
    requires Create(genesis, params).Ok?
    ensures Create(genesis, params).value.params == params
  {
    hide BlockEffect, BlockSanity;
  }

  /** A run can be cut anywhere between steps. */
  lemma {:induction false} RunSplits(n: Node, first: seq<SimulatorStep>, second: seq<SimulatorStep>, cfg: Config)
    requires Valid(n.pool) && RunSteps(n, first, cfg).0.Ok?
    ensures RunSteps(n, first + second, cfg) == RunSteps(RunSteps(n, first, cfg).1, second, cfg)
    decreases |second|
  {
    hide Valid, AdmitAll, MineMany;
    if second == [] {
      assert first + second == first;
      DoneIsUnique(RunSteps(n, first, cfg).0);
    } else {
      var k := |second| - 1;
      RunSplits(n, first, second[..k], cfg);
      assert (first + second)[..|first| + k] == first + second[..k];
    }
  }

  /** Stopping a run, saving, loading under the configuration it was started with and carrying on
      comes to the same result and node as never stopping. */
  lemma InterruptedRun(
      n: Node, first: seq<SimulatorStep>, second: seq<SimulatorStep>, cfg: Config, exported: seq<Transaction>,
      params: ConsensusParams, genesis: Block, limits: Limits)
    requires NodeOk(n, cfg) && RunsUnder(n, params, genesis, limits) && RunSteps(n, first, cfg).0.Ok?
    requires var mid := RunSteps(n, first, cfg).1; IsExport(exported, mid.pool.entries) && Save(mid, exported).Ok?
    ensures var mid := RunSteps(n, first, cfg).1;
            var loaded := Load(Save(mid, exported).value, params, genesis, limits, cfg.policy);
            && loaded.Ok? && Valid(loaded.value.pool)
            && RunSteps(loaded.value, second, cfg) == RunSteps(n, first + second, cfg)
  {
    hide NodeOk, RunSteps, Save, Load, IsExport, Valid, RunsUnder;
    OkIsValid(n, cfg);
    RunStepsKeeps(n, first, cfg);
    RunStepsRunsUnder(n, first, cfg, params, genesis, limits);
    ReloadsUnder(RunSteps(n, first, cfg).1, cfg, exported, params, genesis, limits);
    RunSplits(n, first, second, cfg);
  }

  // ----- the program

  /** Restoring a node from a ledger file. */
  method LoadNode(bytes: Bytes, params: ConsensusParams, genesis: Block, limits: Limits, policy: Policy)
    returns (r: Result<(seq<Block>, ActiveChain, TransactionPool)>)
    ensures match Load(bytes, params, genesis, limits, policy)
            case Ok(n) => && r.Ok? && fresh(r.value.1) && fresh(r.value.1.utxos) && fresh(r.value.2)
                          && Snapshot(r.value.0, r.value.1, r.value.2) == n
            case Err(e) => r == Err(e)
  {
    hide DecodeLedger, Replay, Restore, Valid, HeaderHash, Sequential;
    var ledger := ReadLedger(bytes);
    if ledger.Err? {
      return Err(ledger.code);
    }
    DecodedSequential(bytes);
    var blocks := ledger.value.blocks;
    if ledger.value.params != params {
      return Err(StorageCorruption);
    }
    if HeaderHash(blocks[0].header) != HeaderHash(genesis.header) {
      return Err(StorageCorruption);
    }
    var chain := ReplayChain(blocks, ledger.value.params);
    if chain.Err? {
      return Err(chain.code);
    }
    var pool := new TransactionPool(limits);
    var restored := RestoreMempool(pool, chain.value.utxos, ledger.value.mempool, policy);
    if restored.Err? {
      return Err(restored.code);
    }
    r := Ok((blocks, chain.value, pool));
  }

  lemma DecodedSequential(bytes: Bytes)
    requires DecodeLedger(bytes).Ok?
    ensures Sequential(DecodeLedger(bytes).value.blocks) && DecodeLedger(bytes).value.blocks != []
  {
    hide DecPreamble, DecStoredBlocks, DecSnapshot, Checksum;
  }

  method AdmitTransactions(
      ghost ledger: seq<Block>, pool: TransactionPool, chain: ActiveChain, txs: seq<Transaction>, cfg: Config)
    returns (r: Result<()>)
    requires Valid(pool.Contents())
    modifies pool
    ensures Valid(pool.Contents())
    ensures (r, Snapshot(ledger, chain, pool)) == AdmitAll(old(Snapshot(ledger, chain, pool)), txs, cfg)
  {
    hide Valid, Accept;
    ghost var start := Snapshot(ledger, chain, pool);
    for i := 0 to |txs|
      invariant Valid(pool.Contents())
      invariant AdmitAll(start, txs[..i], cfg) == (DONE, Snapshot(ledger, chain, pool))
    {
      assert txs[..i + 1][..i] == txs[..i];
      var ok := pool.Accept(txs[i], chain.utxos, cfg.policy);
      if ok.Err? {
        AdmitError(start, txs, cfg, i + 1);
        return ok;
      }
      DoneIsUnique(ok);
    }
    assert txs[..|txs|] == txs;
    r := DONE;
  }

  lemma {:induction false} AdmitError(n: Node, txs: seq<Transaction>, cfg: Config, k: nat)
    requires Valid(n.pool) && k <= |txs| && AdmitAll(n, txs[..k], cfg).0.Err?
    ensures AdmitAll(n, txs, cfg) == AdmitAll(n, txs[..k], cfg)
    decreases |txs| - k
  {
    hide Valid, AdmitStep;
    if k == |txs| {
      assert txs[..k] == txs;
    } else {
      assert txs[..k + 1][..k] == txs[..k];
      AdmitError(n, txs, cfg, k + 1);
    }
  }

  lemma {:induction false} MineError(n: Node, count: nat, cfg: Config, k: nat)
    requires Valid(n.pool) && k <= count && MineMany(n, k, cfg).0.Err?
    ensures MineMany(n, count, cfg) == MineMany(n, k, cfg)
    decreases count - k
  {
    hide Valid, MineStep;
    if k < count {
      MineError(n, count, cfg, k + 1);
    }
  }

  lemma NothingMined(n: Node, cfg: Config)
    requires Valid(n.pool)
    ensures MineMany(n, 0, cfg) == (DONE, n)
  {
  }

  lemma MineFails(start: Node, n: nat, before: Node, cfg: Config)
    requires Valid(start.pool) && Valid(before.pool) && MineMany(start, n, cfg) == (DONE, before)
    requires MineStep(before, cfg).Err?
    ensures MineMany(start, n + 1, cfg) == (Err(MineStep(before, cfg).code), before)
  {
    hide Valid, MineStep;
  }

  /** One more block: what the step makes of the template built on the node so far. */
  lemma MineTurn(start: Node, n: nat, before: Node, t: Template, cfg: Config)
    requires Valid(start.pool) && Valid(before.pool) && MineMany(start, n, cfg) == (DONE, before)
    requires before.chain.tip.height < MAX_U32
    requires var timestamp := BlockTimestamp(cfg.genesisTimestamp, before.chain.tip.height + 1);
             Build(before.chain.tip, timestamp, before.pool, before.chain.coins, cfg.template) == Ok(t)
    ensures MineMany(start, n + 1, cfg) ==
            match Submit(before.chain, t.block)
            case Err(e) => (Err(e), before)
            case Ok((chain, _)) =>
              (DONE, Node(before.ledger + [t.block], chain, Prune(before.pool, t.block.transactions)))
  {
    hide Valid, Build, Submit, Prune;
  }

  method MineBlocks(chain: ActiveChain, pool: TransactionPool, cfg: Config, count: U32, ledger: seq<Block>)
    returns (r: Result<()>, extended: seq<Block>)
    requires Valid(pool.Contents())
    modifies chain, chain.utxos, pool
    ensures Valid(pool.Contents())
    ensures (r, Snapshot(extended, chain, pool)) == MineMany(old(Snapshot(ledger, chain, pool)), count, cfg)
  {
    hide Valid, Build, Submit, Prune, MineMany;
    ghost var start := Snapshot(ledger, chain, pool);
    NothingMined(start, cfg);
    extended := ledger;
    for n := 0 to count
      invariant Valid(pool.Contents())
      invariant MineMany(start, n, cfg) == (DONE, Snapshot(extended, chain, pool))
    {
      ghost var before := Snapshot(extended, chain, pool);
      var timestamp := BlockTimestamp(cfg.genesisTimestamp, (chain.tip.height + 1) % TWO_32);
      var template := BuildBlockTemplate(chain.tip, timestamp, pool, chain.utxos, cfg.template);
      if template.Err? {
        assert MineStep(before, cfg) == Err(template.code) by { BuildFailure(before, timestamp, cfg); }
        MineFails(start, n, before, cfg);
        MineError(start, count, cfg, n + 1);
        return Err(template.code), extended;
      }
      assert chain.tip.height < MAX_U32 by {
        BuildNeedsHeight(chain.tip, timestamp, before.pool, before.chain.coins, cfg.template);
      }
      MineTurn(start, n, before, template.value, cfg);
      var fees := chain.SubmitBlock(template.value.block, pool);
      if fees.Err? {
        MineError(start, count, cfg, n + 1);
        return Err(fees.code), extended;
      }
      extended := extended + [template.value.block];
    }
    r := DONE;
  }

  lemma BuildNeedsHeight(tip: BlockHeader, timestamp: U64, p: Pool, coins: Coins, params: TemplateParams)
    requires Valid(p) && Build(tip, timestamp, p, coins, params).Ok?
    ensures tip.height < MAX_U32
  {
    hide Valid, BlockEffect;
  }

  lemma BuildFailure(n: Node, timestamp: U64, cfg: Config)
    requires Valid(n.pool) && timestamp == BlockTimestamp(cfg.genesisTimestamp, (n.chain.tip.height + 1) % TWO_32)
    requires Build(n.chain.tip, timestamp, n.pool, n.chain.coins, cfg.template).Err?
    ensures MineStep(n, cfg) == Err(Build(n.chain.tip, timestamp, n.pool, n.chain.coins, cfg.template).code)
  {
    hide Valid, BlockEffect, Submit, Prune, SelectFrom, Assemble;
  }

  method RunScenario(
      chain: ActiveChain, pool: TransactionPool, cfg: Config, steps: seq<SimulatorStep>, ledger: seq<Block>)
    returns (r: Result<()>, extended: seq<Block>)
    requires Valid(pool.Contents())
    modifies chain, chain.utxos, pool
    ensures Valid(pool.Contents())
    ensures (r, Snapshot(extended, chain, pool)) == RunSteps(old(Snapshot(ledger, chain, pool)), steps, cfg)
  {
    hide Valid, AdmitAll, MineMany;
    ghost var start := Snapshot(ledger, chain, pool);
    extended := ledger;
    for i := 0 to |steps|
      invariant Valid(pool.Contents())
      invariant RunSteps(start, steps[..i], cfg) == (DONE, Snapshot(extended, chain, pool))
    {
      assert steps[..i + 1][..i] == steps[..i];
      var admitted := AdmitTransactions(extended, pool, chain, steps[i].submit, cfg);
      if admitted.Err? {
        StepsError(start, steps, cfg, i + 1);
        return admitted, extended;
      }
      var mined;
      mined, extended := MineBlocks(chain, pool, cfg, steps[i].mine, extended);
      if mined.Err? {
        StepsError(start, steps, cfg, i + 1);
        return mined, extended;
      }
      DoneIsUnique(mined);
    }
    assert steps[..|steps|] == steps;
    r := DONE;
  }

  lemma {:induction false} StepsError(n: Node, steps: seq<SimulatorStep>, cfg: Config, k: nat)
    requires Valid(n.pool) && k <= |steps| && RunSteps(n, steps[..k], cfg).0.Err?
    ensures RunSteps(n, steps, cfg) == RunSteps(n, steps[..k], cfg)
    decreases |steps| - k
  {
    hide Valid, AdmitAll, MineMany;
    if k == |steps| {
      assert steps[..k] == steps;
    } else {
      assert steps[..k + 1][..k] == steps[..k];
      StepsError(n, steps, cfg, k + 1);
    }
  }
}
