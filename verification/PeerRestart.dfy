/** When a peer that saved its ledger can be restored, and what it gets back.  Unlike a node that
    mines all its own blocks, a peer may hold pool entries that a block from elsewhere has made
    unspendable. */
module PeerRestart {
  import opened Base
  import opened MapSums
  import opened Transactions
  import opened Blocks
  import opened Utxo
  import opened TxValidation
  import opened BlockValidation
  import opened ChainRules
  import opened Parameters
  import opened FeeRate
  import opened Ranking
  import opened Pools
  import opened Eviction
  import opened Mempool
  import opened Agreement
  import opened LedgerFile
  import opened NodeRuns
  import opened Restart
  import opened ChainStore
  import opened Peers

  /** A peer restored from a ledger file: replayed under the parameters in the file. */
  ghost function RestoredPeer(bytes: Bytes, limits: Limits, policy: Policy): Result<Node> {
    var l :- DecodeLedger(bytes);
    var chain :- Rebuilt(l.blocks, l.params);
    EmptyPoolValid(limits);
    var (restored, pool) := Restore(Pool(limits, map[], map[], 0), chain.coins, l.mempool, policy);
    if restored.Err? then Err(restored.code) else Ok(Node(l.blocks, chain, pool))
  }

  lemma RestoredPeerOk(bytes: Bytes, limits: Limits, policy: Policy)
    requires RestoredPeer(bytes, limits, policy).Ok?
    ensures var n := RestoredPeer(bytes, limits, policy).value;
            && PeerOk(n)
            && n.ledger == DecodeLedger(bytes).value.blocks
            && n.chain.params == DecodeLedger(bytes).value.params
  {
    hide DecodeLedger, Replay, Restore, Valid, Sequential, HeaderHash, SaneBlock;
    var l := DecodeLedger(bytes).value;
    ReplayShape(l.blocks, l.params);
    EmptyPoolValid(limits);
  }

  // ----- the pool

  /** Every entry would be admitted now. */
  ghost predicate Admissible(p: Pool, coins: Coins, policy: Policy) {
    forall k :: k in p.entries ==> Admission(p.entries[k].tx, coins, policy).Ok?
  }

  ghost function Refresh(e: Entry, coins: Coins, policy: Policy): Entry {
    match Admission(e.tx, coins, policy)
    case Ok((fee, _)) => e.(fee := fee)
    case Err(_) => e
  }

  /** The pool with every fee as the current coins give it. */
  ghost function Refreshed(p: Pool, coins: Coins, policy: Policy): Pool {
    p.(entries := map k | k in p.entries :: Refresh(p.entries[k], coins, policy))
  }

  lemma {:induction false} SameSizes(m: Entries, n: Entries)
    requires m.Keys == n.Keys && forall k :: k in m ==> m[k].size == n[k].size
    ensures Sum(m, EntrySize) == Sum(n, EntrySize) && |m| == |n|
    decreases |m|
  {
    if m == map[] {
      assert n == map[];
    } else {
      var k := Pick(m);
      SameSizes(m - {k}, n - {k});
      SumRemove(n, k, EntrySize);
    }
  }

  lemma RefreshedValid(p: Pool, coins: Coins, policy: Policy)
    requires Valid(p) && Admissible(p, coins, policy)
    ensures var q := Refreshed(p, coins, policy);
            Valid(q) && Agrees(q, coins) && PaysRate(q.entries, policy.minRelayFeerate)
  {
    hide Sum, IndexOk, EntryOk, Admission;
    var q := Refreshed(p, coins, policy);
    forall k | k in p.entries
      ensures q.entries[k].txid == k && EntryOk(q.entries[k])
      ensures q.entries[k].tx == p.entries[k].tx && q.entries[k].size == p.entries[k].size
      ensures TxFee(q.entries[k].tx, coins) == Ok(q.entries[k].fee)
      ensures q.entries[k].fee >= policy.minRelayFeerate * q.entries[k].size
    {
      RefreshedEntry(p.entries[k], coins, policy);
    }
    SameSizes(p.entries, q.entries);
    SameIndex(p.entries, q.entries, p.spentBy);
  }

  lemma RefreshedEntry(e: Entry, coins: Coins, policy: Policy)
    requires EntryOk(e) && Admission(e.tx, coins, policy).Ok?
    ensures var f := Refresh(e, coins, policy);
            && EntryOk(f) && f.tx == e.tx && f.txid == e.txid && f.size == e.size
            && TxFee(f.tx, coins) == Ok(f.fee) && f.fee >= policy.minRelayFeerate * f.size
  {
    hide SaneTx, TxFee, EncTx, Txid;
  }

  lemma SameIndex(m: Entries, n: Entries, spentBy: map<OutPoint, Hash>)
    requires IndexOk(m, spentBy) && m.Keys == n.Keys && forall k :: k in m ==> m[k].tx == n[k].tx
    ensures IndexOk(n, spentBy)
  {
    hide Prevouts;
  }

  lemma RefreshedExport(p: Pool, coins: Coins, policy: Policy, txs: seq<Transaction>)
    requires IsExport(txs, p.entries)
    ensures IsExport(txs, Refreshed(p, coins, policy).entries)
  {
    hide Txid, LexLess, Admission;
    var m := Refreshed(p, coins, policy).entries;
    assert m.Keys == p.entries.Keys;
    assert |m| == |p.entries| by { SameSizes(p.entries, m); }
  }

  /** A successful restore admitted every transaction. */
  lemma {:induction false} RestoreAdmits(p: Pool, coins: Coins, txs: seq<Transaction>, policy: Policy)
    requires Valid(p) && Restore(p, coins, txs, policy).0.Ok?
    ensures forall i :: 0 <= i < |txs| ==> Admission(txs[i], coins, policy).Ok?
  {
    hide Valid, Admission, Accept;
    if txs != [] {
      var k := |txs| - 1;
      RestoreAdmits(p, coins, txs[..k], policy);
      AcceptAdmits(Restore(p, coins, txs[..k], policy).1, txs[k], coins, policy);
    }
  }

  lemma AcceptAdmits(p: Pool, tx: Transaction, coins: Coins, policy: Policy)
    requires Valid(p) && Accept(p, tx, coins, policy).0.Ok?
    ensures Admission(tx, coins, policy).Ok?
  {
    hide Valid, Admission, MakeRoom, Conflicts;
  }

  /** Restoring an exported pool succeeds exactly when every entry is still admissible, and then
      gives the same transactions with their fees brought up to date. */
  lemma RestoreIff(p: Pool, coins: Coins, txs: seq<Transaction>, policy: Policy)
    requires Valid(p) && IsExport(txs, p.entries)
    ensures Valid(Pool(p.limits, map[], map[], 0))
    ensures var (r, q) := Restore(Pool(p.limits, map[], map[], 0), coins, txs, policy);
            && (r.Ok? <==> Admissible(p, coins, policy))
            && (r.Ok? ==> q == Refreshed(p, coins, policy))
  {
    hide Valid, Restore, Agrees, PaysRate, Txid, LexLess, Admission;
    EmptyPoolValid(p.limits);
    var empty := Pool(p.limits, map[], map[], 0);
    if Admissible(p, coins, policy) {
      RefreshedValid(p, coins, policy);
      RefreshedExport(p, coins, policy, txs);
      RestoreExact(Refreshed(p, coins, policy), coins, txs, policy);
    }
    if Restore(empty, coins, txs, policy).0.Ok? {
      RestoreAdmits(empty, coins, txs, policy);
      ExportComplete(txs, p.entries);
    }
  }

  // ----- the peer

  /** `bytes` is a ledger file written for `n` under `params`. */
  ghost predicate Records(bytes: Bytes, n: Node, params: ConsensusParams) {
    && DecodeLedger(bytes).Ok?
    && var l := DecodeLedger(bytes).value;
       l.blocks == n.ledger && l.params == params && IsExport(l.mempool, n.pool.entries)
  }

  /** A peer restarts from a file of its own exactly when every block of its ledger meets the rules
      that the parameters in the file decide, and no pool entry has become inadmissible.  Then it
      has the same ledger, tip and unspent set, the file's parameters, and the same transactions in
      its pool.  The parameters a peer saves under are the configured ones, which need not be those
      of its chain. */
  lemma PeerRestartExact(n: Node, bytes: Bytes, params: ConsensusParams, policy: Policy)
    requires PeerOk(n) && Records(bytes, n, params)
    ensures var r, replayed := RestoredPeer(bytes, n.pool.limits, policy), Replay(n.ledger, params);
            && (replayed.Ok? <==> forall k :: 0 <= k < |n.ledger| ==> Permitted(n.ledger, n.chain.params, params, k))
            && (r.Ok? <==> replayed.Ok? && Admissible(n.pool, n.chain.coins, policy))
            && (r.Ok? ==>
                  r.value == Node(n.ledger, n.chain.(params := params), Refreshed(n.pool, n.chain.coins, policy)))
            && (r.Err? ==> r.code == if replayed.Err? then replayed.code else StorageCorruption)
  {
    hide DecodeLedger, Replay, Restore, Valid, Sequential, Admissible, IsExport, Permitted;
    PeerLedgerStorable(n);
    ReplayExact(n.ledger, n.chain.params, params);
    if Replay(n.ledger, params).Ok? {
      var txs := DecodeLedger(bytes).value.mempool;
      RestoreIff(n.pool, n.chain.coins, txs, policy);
      RestoreFailure(Pool(n.pool.limits, map[], map[], 0), n.chain.coins, txs, policy);
    }
  }

  /** A file saved under the chain's own parameters always replays. */
  lemma OwnParamsRestart(n: Node, bytes: Bytes, policy: Policy)
    requires PeerOk(n) && Records(bytes, n, n.chain.params)
    ensures var r := RestoredPeer(bytes, n.pool.limits, policy);
            && (r.Ok? <==> Admissible(n.pool, n.chain.coins, policy))
            && (r.Ok? ==> r.value == n.(pool := Refreshed(n.pool, n.chain.coins, policy)))
            && (r.Err? ==> r.code == StorageCorruption)
  {
    hide RestoredPeer, Valid, Records, Admissible, Refreshed, Replay, Permitted;
    PeerRestartExact(n, bytes, n.chain.params, policy);
  }

  lemma {:induction false} RestoreFailure(p: Pool, coins: Coins, txs: seq<Transaction>, policy: Policy)
    requires Valid(p)
    ensures Restore(p, coins, txs, policy).0 in {DONE, Err(StorageCorruption)}
  {
    hide Valid, Accept;
    if txs != [] {
      RestoreFailure(p, coins, txs[..|txs| - 1], policy);
    }
  }
}
