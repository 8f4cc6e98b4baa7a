/** What a simulator run comes to: every transaction submitted is admitted, and exactly the blocks
    asked for are mined. */
module Scenarios {
  import opened Base
  import opened Transactions
  import opened Blocks
  import opened Utxo
  import opened ChainRules
  import opened FeeRate
  import opened Pools
  import opened Eviction
  import opened Builder
  import opened NodeRuns
  import opened Simulator

  // ----- admissions

  /** `d` is in the pool, or one of the transactions from the `from`th on outbid it. */
  ghost predicate KeptOrOutbid(d: Entry, p: Pool, txs: seq<Transaction>, from: nat, coins: Coins, policy: Policy) {
    || (d.txid in p.entries && p.entries[d.txid] == d)
    || exists j :: from <= j < |txs| && Outbids(txs[j], d, coins, policy)
  }

  ghost predicate Outbids(tx: Transaction, d: Entry, coins: Coins, policy: Policy) {
    Admission(tx, coins, policy).Ok? && StrictlyHigherFeerate(Incoming(tx, coins, policy), d)
  }

  /** `e` is the entry of one of the transactions. */
  ghost predicate EntryOf(e: Entry, txs: seq<Transaction>, coins: Coins, policy: Policy) {
    exists i :: 0 <= i < |txs| && Admission(txs[i], coins, policy).Ok? && e == Incoming(txs[i], coins, policy)
  }

  /** From `n` to `m` all the transactions were admitted: only the pool differs, each of them and each
      earlier entry is in it or was outbid by a later one, and it holds nothing else. */
  ghost predicate AllAdmitted(n: Node, txs: seq<Transaction>, m: Node, policy: Policy) {
    var coins := n.chain.coins;
    && m.ledger == n.ledger && m.chain == n.chain
    && (forall i :: 0 <= i < |txs| ==>
          Admission(txs[i], coins, policy).Ok? &&
          KeptOrOutbid(Incoming(txs[i], coins, policy), m.pool, txs, i + 1, coins, policy))
    && (forall k :: k in n.pool.entries ==> KeptOrOutbid(n.pool.entries[k], m.pool, txs, 0, coins, policy))
    && (forall k :: k in m.pool.entries ==>
          (k in n.pool.entries && m.pool.entries[k] == n.pool.entries[k]) ||
          EntryOf(m.pool.entries[k], txs, coins, policy))
  }

  lemma KeptStep(d: Entry, p: Pool, q: Pool, txs: seq<Transaction>, from: nat, coins: Coins, policy: Policy)
    requires txs != [] && from < |txs| && Valid(p) && Accept(p, txs[|txs| - 1], coins, policy).0.Ok?
    requires q == Accept(p, txs[|txs| - 1], coins, policy).1
    requires KeptOrOutbid(d, p, txs[..|txs| - 1], from, coins, policy)
    ensures KeptOrOutbid(d, q, txs, from, coins, policy)
  {
    hide Valid, Accept, Admission, StrictlyHigherFeerate, Txid;
    var k := |txs| - 1;
    AcceptEntries(p, txs[k], coins, policy);
    if j :| from <= j < k && Outbids(txs[..k][j], d, coins, policy) {
      assert Outbids(txs[j], d, coins, policy);
    } else {
      assert d.txid in q.entries || Outbids(txs[k], d, coins, policy);
    }
  }

  lemma EntryStep(e: Entry, txs: seq<Transaction>, coins: Coins, policy: Policy)
    requires txs != [] && EntryOf(e, txs[..|txs| - 1], coins, policy)
    ensures EntryOf(e, txs, coins, policy)
  {
    hide Admission, Txid;
    var i :| 0 <= i < |txs| - 1 && Admission(txs[..|txs| - 1][i], coins, policy).Ok? &&
             e == Incoming(txs[..|txs| - 1][i], coins, policy);
    assert txs[..|txs| - 1][i] == txs[i];
  }

  lemma AdmittedStep(n: Node, txs: seq<Transaction>, m: Node, q: Pool, policy: Policy)
    requires txs != [] && Valid(m.pool) && AllAdmitted(n, txs[..|txs| - 1], m, policy)
    requires Accept(m.pool, txs[|txs| - 1], m.chain.coins, policy) == (DONE, q)
    ensures AllAdmitted(n, txs, m.(pool := q), policy)
  {
    hide Valid, Accept, Admission, StrictlyHigherFeerate, KeptOrOutbid, EntryOf, Incoming;
    var k, coins := |txs| - 1, n.chain.coins;
    AcceptEntries(m.pool, txs[k], coins, policy);
    var e := Incoming(txs[k], coins, policy);
    forall i | 0 <= i < |txs|
      ensures Admission(txs[i], coins, policy).Ok?
      ensures KeptOrOutbid(Incoming(txs[i], coins, policy), q, txs, i + 1, coins, policy)
    {
      if i < k {
        assert txs[..k][i] == txs[i];
        KeptStep(Incoming(txs[i], coins, policy), m.pool, q, txs, i + 1, coins, policy);
      } else {
        InPool(e, q, txs, i + 1, coins, policy);
      }
    }
    forall d | d in n.pool.entries
      ensures KeptOrOutbid(n.pool.entries[d], q, txs, 0, coins, policy)
    {
      KeptStep(n.pool.entries[d], m.pool, q, txs, 0, coins, policy);
    }
    forall d | d in q.entries
      ensures (d in n.pool.entries && q.entries[d] == n.pool.entries[d]) || EntryOf(q.entries[d], txs, coins, policy)
    {
      if d == e.txid {
        LastEntry(txs, coins, policy);
      } else if EntryOf(q.entries[d], txs[..k], coins, policy) {
        EntryStep(q.entries[d], txs, coins, policy);
      }
    }
  }

  lemma InPool(d: Entry, p: Pool, txs: seq<Transaction>, from: nat, coins: Coins, policy: Policy)
    requires d.txid in p.entries && p.entries[d.txid] == d
    ensures KeptOrOutbid(d, p, txs, from, coins, policy)
  {
  }

  lemma LastEntry(txs: seq<Transaction>, coins: Coins, policy: Policy)
    requires txs != [] && Admission(txs[|txs| - 1], coins, policy).Ok?
    ensures EntryOf(Incoming(txs[|txs| - 1], coins, policy), txs, coins, policy)
  {
    hide Admission, Incoming;
  }

  lemma NothingAdmitted(n: Node, policy: Policy)
    requires Valid(n.pool)
    ensures AllAdmitted(n, [], n, policy)
  {
    hide IndexOk, EntryOk;
  }

  /** Admitting a list, where it succeeds, admits every transaction of it. */
  lemma {:induction false} AdmitAllExact(n: Node, txs: seq<Transaction>, cfg: Config)
    requires Valid(n.pool) && AdmitAll(n, txs, cfg).0.Ok?
    ensures AllAdmitted(n, txs, AdmitAll(n, txs, cfg).1, cfg.policy)
  {
    hide Valid, Accept, AllAdmitted;
    if txs == [] {
      NothingAdmitted(n, cfg.policy);
    } else {
      var k := |txs| - 1;
      var m := AdmitAll(n, txs[..k], cfg).1;
      AdmitAllExact(n, txs[..k], cfg);
      var (r, q) := Accept(m.pool, txs[k], m.chain.coins, cfg.policy);
      DoneIsUnique(r);
      AdmittedStep(n, txs, m, q, cfg.policy);
    }
  }

  /** Where it fails, it stops at the first refusal, with everything before it admitted. */
  lemma {:induction false} AdmitAllStops(n: Node, txs: seq<Transaction>, cfg: Config) returns (k: nat)
    requires Valid(n.pool) && AdmitAll(n, txs, cfg).0.Err?
    ensures k < |txs| && AdmitAll(n, txs[..k], cfg).0.Ok?
    ensures var (r, end) := AdmitAll(n, txs, cfg); var m := AdmitAll(n, txs[..k], cfg).1;
            && AllAdmitted(n, txs[..k], m, cfg.policy)
            && (r, end.pool) == Accept(m.pool, txs[k], m.chain.coins, cfg.policy)
            && end.ledger == n.ledger && end.chain == n.chain
  {
    hide Valid, Accept;
    var last := |txs| - 1;
    if AdmitAll(n, txs[..last], cfg).0.Ok? {
      k := last;
    } else {
      k := AdmitAllStops(n, txs[..last], cfg);
      assert txs[..last][..k] == txs[..k];
    }
    AdmitAllExact(n, txs[..k], cfg);
  }

  // ----- blocks

  /** The ledger of `m` is that of `n` with exactly `count` blocks more, and so is the height. */
  ghost predicate Grown(n: Node, count: nat, m: Node) {
    && n.ledger <= m.ledger && |m.ledger| == |n.ledger| + count
    && m.chain.tip.height == n.chain.tip.height + count
    && m.chain.tip == if count == 0 then n.chain.tip else m.ledger[|m.ledger| - 1].header
  }

  lemma MineGrows(n: Node, cfg: Config)
    requires Valid(n.pool) && MineStep(n, cfg).Ok?
    ensures var (t, m) := MineStep(n, cfg).value; Grown(n, 1, m) && m.ledger[|n.ledger|] == t.block
  {
    hide Valid, MineStep, Build, Submit, Prune;
    MineStepFacts(n, cfg);
    var b := MineStep(n, cfg).value.0.block;
    SubmitTip(n.chain, b);
  }

  lemma SubmitTip(c: ChainState, b: Block)
    requires Submit(c, b).Ok?
    ensures Submit(c, b).value.0.tip == b.header && b.header.height == c.tip.height + 1
  {
    hide HeaderHash;
  }

  /** Mining, where it succeeds, mines exactly the blocks asked for. */
  lemma {:induction false} MineManyExact(n: Node, count: nat, cfg: Config)
    requires Valid(n.pool) && MineMany(n, count, cfg).0.Ok?
    ensures Grown(n, count, MineMany(n, count, cfg).1)
  {
    hide Valid, MineStep;
    if count > 0 {
      MineManyExact(n, count - 1, cfg);
      MineGrows(MineMany(n, count - 1, cfg).1, cfg);
    }
  }

  /** Where it fails, it stops at the first failure, with every block before it mined. */
  lemma {:induction false} MineManyStops(n: Node, count: nat, cfg: Config) returns (k: nat)
    requires Valid(n.pool) && MineMany(n, count, cfg).0.Err?
    ensures k < count && MineMany(n, k, cfg).0.Ok?
    ensures var (r, end) := MineMany(n, count, cfg);
            end == MineMany(n, k, cfg).1 && Grown(n, k, end) && MineStep(end, cfg) == Err(r.code)
  {
    hide Valid, MineStep;
    if MineMany(n, count - 1, cfg).0.Ok? {
      k := count - 1;
    } else {
      k := MineManyStops(n, count - 1, cfg);
    }
    MineManyExact(n, k, cfg);
  }

  // ----- runs

  function TotalMined(steps: seq<SimulatorStep>): nat {
    if steps == [] then 0 else TotalMined(steps[..|steps| - 1]) + steps[|steps| - 1].mine
  }

  /** Step `i` of a run that succeeds: all its transactions are admitted, then its blocks are mined. */
  lemma {:induction false} RunStepExact(n: Node, steps: seq<SimulatorStep>, cfg: Config, i: nat) returns (mid: Node)
    requires Valid(n.pool) && RunSteps(n, steps, cfg).0.Ok? && i < |steps|
    ensures RunSteps(n, steps[..i], cfg).0.Ok? && RunSteps(n, steps[..i + 1], cfg).0.Ok?
    ensures AllAdmitted(RunSteps(n, steps[..i], cfg).1, steps[i].submit, mid, cfg.policy)
    ensures Grown(mid, steps[i].mine, RunSteps(n, steps[..i + 1], cfg).1)
  {
    hide Valid, AdmitAll, MineMany, AllAdmitted, Grown;
    var k := |steps| - 1;
    var before := RunSteps(n, steps[..k], cfg).1;
    if i == k {
      mid := AdmitAll(before, steps[k].submit, cfg).1;
      AdmitAllExact(before, steps[k].submit, cfg);
      MineManyExact(mid, steps[k].mine, cfg);
      assert steps[..i + 1] == steps;
    } else {
      mid := RunStepExact(n, steps[..k], cfg, i);
      assert steps[..k][..i] == steps[..i] && steps[..k][..i + 1] == steps[..i + 1];
    }
  }

  /** A run that succeeds extends the ledger by exactly the blocks its steps ask for. */
  lemma {:induction false} RunStepsExact(n: Node, steps: seq<SimulatorStep>, cfg: Config)
    requires Valid(n.pool) && RunSteps(n, steps, cfg).0.Ok?
    ensures Grown(n, TotalMined(steps), RunSteps(n, steps, cfg).1)
  {
    hide Valid, AdmitAll, MineMany;
    if steps != [] {
      var k := |steps| - 1;
      RunStepsExact(n, steps[..k], cfg);
      var mid := RunStepExact(n, steps, cfg, k);
      assert steps[..k + 1] == steps;
      AdmittedSameChain(RunSteps(n, steps[..k], cfg).1, steps[k].submit, mid, cfg.policy);
    }
  }

  /** A run that fails does so in one step, at a transaction or at a block, keeping what was done. */
  lemma {:induction false} RunStepsStop(n: Node, steps: seq<SimulatorStep>, cfg: Config) returns (i: nat, mid: Node)
    requires Valid(n.pool) && RunSteps(n, steps, cfg).0.Err?
    ensures i < |steps| && RunSteps(n, steps[..i], cfg).0.Ok? && Valid(mid.pool)
    ensures var (r, end) := RunSteps(n, steps, cfg); var before := RunSteps(n, steps[..i], cfg).1;
            || (AdmitAll(before, steps[i].submit, cfg) == (r, end) && mid == end)
            || (&& AdmitAll(before, steps[i].submit, cfg) == (DONE, mid)
                && MineMany(mid, steps[i].mine, cfg) == (r, end))
  {
    hide Valid, AdmitAll, MineMany;
    var k := |steps| - 1;
    if RunSteps(n, steps[..k], cfg).0.Ok? {
      i := k;
      var admitted := AdmitAll(RunSteps(n, steps[..k], cfg).1, steps[k].submit, cfg);
      mid := admitted.1;
      if admitted.0.Ok? {
        DoneIsUnique(admitted.0);
      }
    } else {
      i, mid := RunStepsStop(n, steps[..k], cfg);
      assert steps[..k][..i] == steps[..i];
    }
  }

  lemma AdmittedSameChain(n: Node, txs: seq<Transaction>, m: Node, policy: Policy)
    requires AllAdmitted(n, txs, m, policy)
    ensures m.ledger == n.ledger && m.chain == n.chain
  {
    hide KeptOrOutbid, EntryOf, Admission;
  }
}
