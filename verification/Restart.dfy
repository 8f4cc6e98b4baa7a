/** Saving a node and restoring it gives the node back: the same ledger, tip, unspent set and pool. */
module Restart {
  import opened Base
  import opened MapSums
  import opened Transactions
  import opened Blocks
  import opened Utxo
  import opened TxValidation
  import opened BlockValidation
  import opened ChainRules
  import opened FeeRate
  import opened Ranking
  import opened Pools
  import opened Eviction
  import opened Mempool
  import opened Agreement
  import opened LedgerFile
  import opened RunSafety
  import opened NodeRuns

  // ----- the pool

  /** Re-admits stored transactions in order; the first refusal means the store is corrupt. */
  ghost function Restore(p: Pool, coins: Coins, txs: seq<Transaction>, policy: Policy): (r: (Result<()>, Pool))
    requires Valid(p)
    ensures Valid(r.1)
  {
    if txs == [] then (DONE, p) else
      var n := |txs| - 1;
      var (done, q) := Restore(p, coins, txs[..n], policy);
      if done.Err? then (done, q) else
        AcceptValid(q, txs[n], coins, policy);
        var (r, q') := Accept(q, txs[n], coins, policy);
        (if r.Ok? then DONE else Err(StorageCorruption), q')
  }

  /** A valid pool is determined by its limits and entries. */
  lemma PoolDetermined(p: Pool, q: Pool)
    requires Valid(p) && Valid(q) && p.limits == q.limits && p.entries == q.entries
    ensures p == q
  {
    hide EntriesOk, Prevouts;
    assert p.spentBy.Keys == q.spentBy.Keys;
  }

  /** `q` holds some of the entries of `p`, under the same limits. */
  ghost predicate PartOf(q: Pool, p: Pool) {
    && q.limits == p.limits
    && q.entries.Keys <= p.entries.Keys
    && forall k :: k in q.entries ==> q.entries[k] == p.entries[k]
  }

  /** There is room in a part of a pool for any entry of the pool that it lacks. */
  lemma PartHasRoom(p: Pool, q: Pool, k: Hash)
    requires Valid(p) && Valid(q) && PartOf(q, p) && k in p.entries && k !in q.entries
    ensures CanInsert(q, p.entries[k])
    ensures !NeedsRoom(|q.entries|, q.totalBytes, p.entries[k].size, q.limits)
    ensures !Conflicts(q, p.entries[k].tx)
  {
    hide EntryOk, Prevouts, Sum, IndexOk, Conflicts;
    SumPartPlus(q.entries, p.entries, k, EntrySize);
    PartReservesLess(p, q, k);
  }

  lemma PartReservesLess(p: Pool, q: Pool, k: Hash)
    requires Valid(p) && Valid(q) && PartOf(q, p) && k in p.entries && k !in q.entries
    ensures Prevouts(p.entries[k].tx) !! q.spentBy.Keys && !Conflicts(q, p.entries[k].tx)
  {
    hide EntriesOk, Sum;
    var tx := p.entries[k].tx;
    forall op | op in Prevouts(tx) ensures op !in q.spentBy {
      if op in q.spentBy {
        NoConflicts(p, k, q.spentBy[op]);
      }
    }
    assert forall i :: 0 <= i < |tx.inputs| ==> tx.inputs[i] in Prevouts(tx);
  }

  /** An entry of the saved pool is re-admitted as it was, and evicts nothing. */
  lemma ReadmitExact(p: Pool, q: Pool, coins: Coins, policy: Policy, k: Hash)
    requires Valid(p) && Agrees(p, coins) && PaysRate(p.entries, policy.minRelayFeerate)
    requires Valid(q) && PartOf(q, p) && k in p.entries && k !in q.entries
    ensures var e := p.entries[k];
            CanInsert(q, e) && Accept(q, e.tx, coins, policy) == (DONE, Insert(q, e))
  {
    hide Sum, IndexOk, Prevouts, Conflicts, TxFee, SaneTx, EncTx, Txid;
    var e := p.entries[k];
    PartHasRoom(p, q, k);
    assert Admission(e.tx, coins, policy) == Ok((e.fee, e.size));
    assert e == Entry(e.tx, Txid(e.tx), e.fee, e.size);
    assert e.size <= q.limits.maxTotalBytes;
  }

  /** `q` is the part of `p` with these ids. */
  ghost predicate PartWith(q: Pool, p: Pool, ids: seq<Hash>) {
    PartOf(q, p) && forall k :: k in q.entries <==> k in ids
  }

  lemma ReadmitStep(p: Pool, q: Pool, coins: Coins, policy: Policy, ids: seq<Hash>, k: Hash)
    requires Valid(p) && Agrees(p, coins) && PaysRate(p.entries, policy.minRelayFeerate)
    requires Valid(q) && PartWith(q, p, ids) && k in p.entries && k !in ids
    ensures var (r, q') := Accept(q, p.entries[k].tx, coins, policy); r.Ok? && PartWith(q', p, ids + [k])
  {
    hide Valid, Agrees, PaysRate, Accept, CanInsert;
    ReadmitExact(p, q, coins, policy, k);
    assert p.entries[k].txid == k by { KeyIsId(p, k); }
  }

  lemma KeyIsId(p: Pool, k: Hash)
    requires Valid(p) && k in p.entries
    ensures p.entries[k].txid == k
  {
  }

  /** Restoring the export of a pool into an empty pool rebuilds it entry by entry. */
  lemma {:induction false} RestorePrefix(p: Pool, coins: Coins, txs: seq<Transaction>, policy: Policy, n: nat)
    requires Valid(p) && Agrees(p, coins) && PaysRate(p.entries, policy.minRelayFeerate)
    requires IsExport(txs, p.entries) && n <= |txs|
    ensures Valid(Pool(p.limits, map[], map[], 0))
    ensures var (r, q) := Restore(Pool(p.limits, map[], map[], 0), coins, txs[..n], policy);
            r.Ok? && PartWith(q, p, Txids(txs)[..n])
  {
    hide Valid, Restore, Agrees, PaysRate, Txid, LexLess, PartWith;
    EmptyPoolValid(p.limits);
    var empty := Pool(p.limits, map[], map[], 0);
    if n == 0 {
      RestoreNothing(p, coins, policy);
    } else {
      RestorePrefix(p, coins, txs, policy, n - 1);
      RestoreNext(empty, coins, txs, policy, n - 1);
      var q, k := Restore(empty, coins, txs[..n - 1], policy).1, Txid(txs[n - 1]);
      ExportDistinct(txs, p.entries, n - 1);
      ReadmitStep(p, q, coins, policy, Txids(txs)[..n - 1], k);
      assert Txids(txs)[..n] == Txids(txs)[..n - 1] + [k];
    }
  }

  lemma RestoreNothing(p: Pool, coins: Coins, policy: Policy)
    ensures Valid(Pool(p.limits, map[], map[], 0))
    ensures var (r, q) := Restore(Pool(p.limits, map[], map[], 0), coins, [], policy); r.Ok? && PartWith(q, p, [])
  {
    EmptyPoolValid(p.limits);
    hide Valid;
  }

  lemma RestoreNext(p: Pool, coins: Coins, txs: seq<Transaction>, policy: Policy, n: nat)
    requires Valid(p) && n < |txs| && Restore(p, coins, txs[..n], policy).0.Ok?
    ensures var (r, q) := Accept(Restore(p, coins, txs[..n], policy).1, txs[n], coins, policy);
            r.Ok? ==> Restore(p, coins, txs[..n + 1], policy) == (DONE, q)
  {
    hide Valid, Accept;
    assert txs[..n + 1][..n] == txs[..n];
  }

  lemma EmptyPoolValid(limits: Limits)
    ensures Valid(Pool(limits, map[], map[], 0))
  {
  }

  lemma ExportDistinct(txs: seq<Transaction>, m: Entries, n: nat)
    requires IsExport(txs, m) && n < |txs|
    ensures Txid(txs[n]) !in Txids(txs)[..n]
  {
    hide Txid, LexLess;
    forall i | 0 <= i < n ensures Txid(txs[i]) != Txid(txs[n]) {
      LexTotal(Txid(txs[n]), Txid(txs[n]));
    }
  }

  /** An export names every entry. */
  lemma ExportComplete(txs: seq<Transaction>, m: Entries)
    requires IsExport(txs, m)
    ensures forall k :: k in m <==> k in Txids(txs)
  {
    hide Txid, LexLess;
    var ids := set i | 0 <= i < |txs| :: Txids(txs)[i];
    assert |ids| == |txs| by {
      forall i, j | 0 <= i < j < |txs| ensures Txids(txs)[i] != Txids(txs)[j] {
        LexTotal(Txid(txs[i]), Txid(txs[i]));
      }
      DistinctCount(Txids(txs));
    }
    SubsetSameSize(ids, m.Keys);
  }

  lemma {:induction false} DistinctCount(s: seq<Hash>)
    requires Distinct(s)
    ensures |set i | 0 <= i < |s| :: s[i]| == |s|
  {
    if s != [] {
      var n := |s| - 1;
      DistinctCount(s[..n]);
      var init := set i | 0 <= i < n :: s[..n][i];
      assert (set i | 0 <= i < |s| :: s[i]) == init + {s[n]};
    }
  }

  lemma SubsetSameSize(a: set<Hash>, b: set<Hash>)
    requires a <= b && |a| == |b|
    ensures a == b
  {
    assert b == a + (b - a);
  }

  lemma RestoreExact(p: Pool, coins: Coins, txs: seq<Transaction>, policy: Policy)
    requires Valid(p) && Agrees(p, coins) && PaysRate(p.entries, policy.minRelayFeerate) && IsExport(txs, p.entries)
    ensures Valid(Pool(p.limits, map[], map[], 0))
    ensures var (r, q) := Restore(Pool(p.limits, map[], map[], 0), coins, txs, policy); r.Ok? && q == p
  {
    hide Valid, Restore, Agrees, PaysRate, Txid;
    RestorePrefix(p, coins, txs, policy, |txs|);
    assert txs[..|txs|] == txs && Txids(txs)[..|txs|] == Txids(txs);
    ExportComplete(txs, p.entries);
    var q := Restore(Pool(p.limits, map[], map[], 0), coins, txs, policy).1;
    assert q.entries == p.entries;
    PoolDetermined(p, q);
  }

  // ----- the node

  /** The file a node writes: its ledger, parameters, and an export of its pool. */
  ghost function Save(n: Node, exported: seq<Transaction>): Result<Bytes> {
    if !Sequential(n.ledger) then Err(StorageCorruption) else EncodeLedger(n.ledger, n.chain.params, exported)
  }

  /** A node restored from a file, checked against the configured parameters and genesis. */
  ghost function Load(bytes: Bytes, params: ConsensusParams, genesis: Block, limits: Limits, policy: Policy)
    : Result<Node>
  {
    var ledger :- DecodeLedger(bytes);
    if ledger.params != params then Err(StorageCorruption)
    else if ledger.blocks == [] || HeaderHash(ledger.blocks[0].header) != HeaderHash(genesis.header) then
      Err(StorageCorruption)
    else
      var chain :- Replay(ledger.blocks, ledger.params);
      EmptyPoolValid(limits);
      var (restored, pool) := Restore(Pool(limits, map[], map[], 0), chain.coins, ledger.mempool, policy);
      if restored.Err? then Err(restored.code) else Ok(Node(ledger.blocks, chain, pool))
  }

  lemma LedgerIsStorable(n: Node, cfg: Config)
    requires NodeOk(n, cfg)
    ensures Sequential(n.ledger) && forall i :: 0 <= i < |n.ledger| ==> WireBlock(n.ledger[i])
  {
    hide Replay, Valid, Agrees, Tagged, HeaderHash, SaneBlock, WireBlock, PaysRate;
    ReplayShape(n.ledger, n.chain.params);
    forall i | 0 <= i < |n.ledger| ensures WireBlock(n.ledger[i]) {
      SaneIsWire(n.ledger[i]);
    }
  }

  lemma SaneIsWire(b: Block)
    requires SaneBlock(b)
    ensures WireBlock(b)
  {
    hide EncBlock, EncTx;
  }

  lemma ExportIsWire(p: Pool, txs: seq<Transaction>)
    requires Valid(p) && IsExport(txs, p.entries)
    ensures forall i :: 0 <= i < |txs| ==> WireTx(txs[i])
  {
    hide IndexOk, EncTx, Txid, LexLess;
    forall i | 0 <= i < |txs| ensures WireTx(txs[i]) {
      assert EntryOk(p.entries[Txid(txs[i])]);
    }
  }

  /** Restart transparency: whenever saving succeeds, loading under the same pool limits and policy
      gives back the same node, with no eviction during restore, if the configured parameters and
      genesis are the node's own, and is refused otherwise. */
  lemma RestartTransparent(n: Node, cfg: Config, exported: seq<Transaction>, params: ConsensusParams, genesis: Block)
    requires NodeOk(n, cfg) && IsExport(exported, n.pool.entries) && Save(n, exported).Ok?
    ensures n.ledger != []
    ensures Load(Save(n, exported).value, params, genesis, n.pool.limits, cfg.policy) ==
            if params == n.chain.params && HeaderHash(genesis.header) == HeaderHash(n.ledger[0].header) then Ok(n)
            else Err(StorageCorruption)
  {
    hide Replay, Valid, Agrees, Tagged, HeaderHash, DecodeLedger, EncodeLedger, Restore, PaysRate, IsExport, Sequential,
         WireBlock, WireTx;
    LedgerIsStorable(n, cfg);
    ReplayNonEmpty(n.ledger, n.chain.params);
    ExportIsWire(n.pool, exported);
    LedgerRoundTrip(n.ledger, n.chain.params, exported);
    RestoreExact(n.pool, n.chain.coins, exported, cfg.policy);
  }
}
