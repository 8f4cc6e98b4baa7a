/** What a template selects from a pool that agrees with the chain: the builder's simulated ledger
    comes down to a greedy packing by count and size. */
module GreedyPacking {
  import opened Base
  import opened Transactions
  import opened Utxo
  import opened TxValidation
  import opened BlockValidation
  import opened FeeRate
  import opened Ranking
  import opened Pools
  import opened Eviction
  import opened Builder
  import opened Agreement

  /** Down the ranking, take each mature entry that still fits the two budgets.  No ledger is
      consulted but the confirmed one. */
  ghost function Pack(entries: seq<Entry>, coins: Coins, height: U32, params: TemplateParams): seq<Entry> {
    if entries == [] then [] else
      var e := entries[|entries| - 1];
      var kept := Pack(entries[..|entries| - 1], coins, height, params);
      if Takes(kept, e, coins, height, params) then kept + [e] else kept
  }

  ghost predicate Takes(kept: seq<Entry>, e: Entry, coins: Coins, height: U32, params: TemplateParams) {
    && |kept| < params.maxTransactions
    && EMPTY_TEMPLATE_BYTES + SizeOf(kept) + e.size <= params.maxBlockBytes
    && Mature(e.tx.inputs, coins, height, params.consensus.coinbaseMaturity)
  }

  function TxsOf(entries: seq<Entry>): (txs: seq<Transaction>)
    ensures |txs| == |entries|
  {
    seq(|entries|, i requires 0 <= i < |entries| => entries[i].tx)
  }

  function FeesOf(entries: seq<Entry>): nat {
    if entries == [] then 0 else FeesOf(entries[..|entries| - 1]) + entries[|entries| - 1].fee
  }

  /** The working set still has, unchanged, every coin that no taken entry spends. */
  ghost predicate KeepsRest(working: Coins, coins: Coins, kept: seq<Entry>) {
    forall op :: op in coins && !SpentBy(TxsOf(kept), op) ==> op in working && working[op] == coins[op]
  }

  /** And what it has beyond them was created by a taken entry. */
  ghost predicate AddsOnly(working: Coins, coins: Coins, kept: seq<Entry>) {
    forall op :: op in working && op !in coins ==> exists j :: 0 <= j < |kept| && kept[j].txid == op.txid
  }

  ghost predicate Packed(s: Selection, kept: seq<Entry>, coins: Coins) {
    && s.txs == TxsOf(kept) && s.size == EMPTY_TEMPLATE_BYTES + SizeOf(kept) && s.fees == FeesOf(kept)
    && KeepsRest(s.working, coins, kept) && AddsOnly(s.working, coins, kept)
  }

  /** The working set once `tx` is applied. */
  ghost function Applied(tx: Transaction, working: Coins, height: U32): Coins
    requires |tx.outputs| <= MAX_OUTPUTS
  {
    working - Prevouts(tx) + NewCoins(tx, height, false)
  }

  /** Against a working set that has the same coins for its inputs and none of its outputs, a
      transaction applies exactly when it is mature. */
  lemma EffectIsLocal(tx: Transaction, fee: U64, working: Coins, coins: Coins, height: U32, maturity: U32)
    requires SaneTx(tx) && TxFee(tx, coins) == Ok(fee) && Fresh(tx, working)
    requires forall op :: op in Prevouts(tx) ==> op in working && op in coins && working[op] == coins[op]
    ensures TxEffect(tx, working, height, maturity) ==
            if Mature(tx.inputs, coins, height, maturity) then Ok((Applied(tx, working, height), fee))
            else Err(InvalidTransaction)
  {
    hide SaneTx, TxFee, Txid, NewCoins;
    FeeIsLocal(tx, coins, working);
    assert forall i :: 0 <= i < |tx.inputs| ==> tx.inputs[i] in Prevouts(tx);
  }

  lemma TxsAppend(kept: seq<Entry>, e: Entry)
    ensures TxsOf(kept + [e]) == TxsOf(kept) + [e.tx]
    ensures SizeOf(kept + [e]) == SizeOf(kept) + e.size && FeesOf(kept + [e]) == FeesOf(kept) + e.fee
  {
    assert (kept + [e])[..|kept|] == kept;
  }

  /** Applying an entry keeps the account of the working set. */
  lemma PackedCoins(working: Coins, kept: seq<Entry>, e: Entry, coins: Coins, height: U32)
    requires KeepsRest(working, coins, kept) && AddsOnly(working, coins, kept)
    requires EntryOk(e) && Fresh(e.tx, working)
    ensures var after := Applied(e.tx, working, height);
            KeepsRest(after, coins, kept + [e]) && AddsOnly(after, coins, kept + [e])
  {
    assert |e.tx.outputs| <= MAX_OUTPUTS;
    hide SaneTx, Txid, Prevouts, EncTx;
    TxsAppend(kept, e);
    var after := Applied(e.tx, working, height);
    forall op | op in coins && !SpentBy(TxsOf(kept + [e]), op) ensures op in after && after[op] == coins[op] {
      NotSpentByFewer(TxsOf(kept), e.tx, op);
    }
    forall op | op in after && op !in coins
      ensures exists j :: 0 <= j < |kept + [e]| && (kept + [e])[j].txid == op.txid
    {
      if op in working {
        var j :| 0 <= j < |kept| && kept[j].txid == op.txid;
        assert (kept + [e])[j] == kept[j];
      } else {
        assert (kept + [e])[|kept|] == e;
      }
    }
  }

  lemma NotSpentByFewer(txs: seq<Transaction>, tx: Transaction, op: OutPoint)
    requires !SpentBy(txs + [tx], op)
    ensures !SpentBy(txs, op) && op !in Prevouts(tx)
  {
    hide Prevouts;
    assert (txs + [tx])[|txs|] == tx;
    forall i | 0 <= i < |txs| ensures op !in Prevouts(txs[i]) {
      assert (txs + [tx])[i] == txs[i];
    }
  }

  /** Against this working set the entry applies, for its recorded fee, exactly when it is mature. */
  lemma PackedEffect(s: Selection, kept: seq<Entry>, e: Entry, coins: Coins, height: U32, maturity: U32)
    requires Packed(s, kept, coins) && EntryOk(e) && TxFee(e.tx, coins) == Ok(e.fee) && Fresh(e.tx, s.working)
    requires forall op :: op in Prevouts(e.tx) ==> op in coins && !SpentBy(TxsOf(kept), op)
    ensures SaneTx(e.tx)
    ensures TxEffect(e.tx, s.working, height, maturity) ==
            if Mature(e.tx.inputs, coins, height, maturity) then Ok((Applied(e.tx, s.working, height), e.fee))
            else Err(InvalidTransaction)
  {
    hide EntryOk, TxFee, TxEffect, Fresh, Mature, KeepsRest, AddsOnly, SpentBy, Prevouts, Applied, SizeOf, FeesOf,
         TxsOf;
    EntrySane(e);
    KeptInputs(s.working, coins, kept, e.tx);
    EffectIsLocal(e.tx, e.fee, s.working, coins, height, maturity);
  }

  /** One turn of the builder's loop is one turn of the packing, while the fees of the packing fit 64 bits. */
  lemma PackedStep(s: Selection, kept: seq<Entry>, e: Entry, coins: Coins, height: U32, params: TemplateParams)
    requires Packed(s, kept, coins) && EntryOk(e) && TxFee(e.tx, coins) == Ok(e.fee) && Fresh(e.tx, s.working)
    requires forall op :: op in Prevouts(e.tx) ==> op in coins && !SpentBy(TxsOf(kept), op)
    ensures var t := SelectStep(s, e, height, params);
            if !Takes(kept, e, coins, height, params) then Packed(t, kept, coins)
            else if FeesOf(kept) + e.fee <= MAX_U64 then Packed(t, kept + [e], coins)
            else t.txs == s.txs && Overflows(s, e, height, params)
  {
    hide EntryOk, SaneTx, TxFee, TxEffect, Fresh, Mature, KeepsRest, AddsOnly, SpentBy, Prevouts, Applied, SizeOf,
         FeesOf, TxsOf, SelectStep, EncTx, Txid;
    PackedEffect(s, kept, e, coins, height, params.consensus.coinbaseMaturity);
    if Takes(kept, e, coins, height, params) {
      StepTakes(s, e, height, params);
      PackedCoins(s.working, kept, e, coins, height);
      TxsAppend(kept, e);
    } else {
      StepSkips(s, e, height, params);
    }
  }

  lemma StepTakes(s: Selection, e: Entry, height: U32, params: TemplateParams)
    requires EntryOk(e) && InBudget(s, e, params)
    requires TxEffect(e.tx, s.working, height, params.consensus.coinbaseMaturity).Ok?
    ensures var (after, fee) := TxEffect(e.tx, s.working, height, params.consensus.coinbaseMaturity).value;
            SelectStep(s, e, height, params) ==
            if s.fees + fee > MAX_U64 then s.(working := after)
            else Selection(after, s.fees + fee, s.size + e.size, s.txs + [e.tx])
  {
    hide TxEffect, SaneTx;
  }

  lemma StepSkips(s: Selection, e: Entry, height: U32, params: TemplateParams)
    requires EntryOk(e)
    requires !InBudget(s, e, params) || TxEffect(e.tx, s.working, height, params.consensus.coinbaseMaturity).Err?
    ensures SelectStep(s, e, height, params) == s
  {
    hide TxEffect, SaneTx;
  }

  lemma EntrySane(e: Entry)
    requires EntryOk(e)
    ensures SaneTx(e.tx) && e.txid == Txid(e.tx)
  {
  }

  lemma KeptInputs(working: Coins, coins: Coins, kept: seq<Entry>, tx: Transaction)
    requires KeepsRest(working, coins, kept)
    requires forall op :: op in Prevouts(tx) ==> op in coins && !SpentBy(TxsOf(kept), op)
    ensures forall op :: op in Prevouts(tx) ==> op in working && working[op] == coins[op]
  {
  }

  /** Every taken entry is one of those ranked so far. */
  lemma {:induction false} PackIsDrawn(entries: seq<Entry>, coins: Coins, height: U32, params: TemplateParams)
    ensures forall e :: e in Pack(entries, coins, height, params) ==> e in entries
  {
    hide Takes;
    if entries != [] {
      PackIsDrawn(entries[..|entries| - 1], coins, height, params);
    }
  }

  /** No output of an entry of the pool is unspent already. */
  ghost predicate AllFresh(p: Pool, coins: Coins) {
    forall k :: k in p.entries ==> Fresh(p.entries[k].tx, coins)
  }

  /** The next entry of the ranking conflicts with none taken before it. */
  lemma NextIsUntouched(p: Pool, coins: Coins, kept: seq<Entry>, n: nat, working: Coins)
    requires Valid(p) && Agrees(p, coins) && AllFresh(p, coins) && n < |RankedPool(p)|
    requires forall e :: e in kept ==> e in RankedPool(p)[..n]
    requires AddsOnly(working, coins, kept)
    ensures var e := RankedPool(p)[n];
            && EntryOk(e) && TxFee(e.tx, coins) == Ok(e.fee) && Fresh(e.tx, working)
            && forall op :: op in Prevouts(e.tx) ==> op in coins && !SpentBy(TxsOf(kept), op)
  {
    hide Valid, RankedPool, TxFee, Prevouts, Txid, EntryOk;
    var e := RankedPool(p)[n];
    PoolEntriesOk(p);
    EntrySane(e);
    RankedEntry(p, e);
    forall j | 0 <= j < |kept| ensures kept[j].txid != e.txid && Prevouts(kept[j].tx) !! Prevouts(e.tx) {
      assert kept[j] in kept;
      var i :| 0 <= i < n && RankedPool(p)[..n][i] == kept[j];
      RankedDistinct(p, i, n);
      RankedEntry(p, kept[j]);
      NoConflicts(p, kept[j].txid, e.txid);
    }
    forall op | op in Prevouts(e.tx) ensures op in coins && !SpentBy(TxsOf(kept), op) {
      FeeNeedsPrevouts(e.tx, coins, op);
    }
  }

  lemma {:induction false} SelectPacks(p: Pool, coins: Coins, height: U32, params: TemplateParams, n: nat)
    requires Valid(p) && Agrees(p, coins) && AllFresh(p, coins) && n <= |RankedPool(p)|
    requires FeesOf(Pack(RankedPool(p)[..n], coins, height, params)) <= MAX_U64
    ensures AllOk(RankedPool(p)[..n])
    ensures var seen := RankedPool(p)[..n];
            Packed(Select(seen, coins, height, params), Pack(seen, coins, height, params), coins)
  {
    hide Valid, RankedPool, Agrees, AllFresh, EntryOk, Packed, Pack, Select;
    PoolEntriesOk(p);
    if n == 0 {
      NothingPacked(coins, height, params);
    } else {
      PackNext(RankedPool(p), coins, height, params, n - 1);
      SelectPacks(p, coins, height, params, n - 1);
      TurnPacks(p, coins, height, params, n - 1);
    }
  }

  /** The packing of one more entry. */
  lemma PackNext(entries: seq<Entry>, coins: Coins, height: U32, params: TemplateParams, n: nat)
    requires n < |entries|
    ensures var kept, e := Pack(entries[..n], coins, height, params), entries[n];
            && Pack(entries[..n + 1], coins, height, params) ==
                 (if Takes(kept, e, coins, height, params) then kept + [e] else kept)
            && FeesOf(Pack(entries[..n + 1], coins, height, params)) ==
                 FeesOf(kept) + if Takes(kept, e, coins, height, params) then e.fee else 0
  {
    hide Takes;
    assert entries[..n + 1][..n] == entries[..n];
    TxsAppend(Pack(entries[..n], coins, height, params), entries[n]);
  }

  /** One turn over the ranking: packed on, or skipped because the packed fees no longer fit. */
  lemma TurnPacks(p: Pool, coins: Coins, height: U32, params: TemplateParams, n: nat)
    requires Valid(p) && Agrees(p, coins) && AllFresh(p, coins) && n < |RankedPool(p)|
    requires AllOk(RankedPool(p)[..n]) && AllOk(RankedPool(p)[..n + 1]) && EntryOk(RankedPool(p)[n])
    requires var seen := RankedPool(p)[..n];
             Packed(Select(seen, coins, height, params), Pack(seen, coins, height, params), coins)
    ensures var before := Select(RankedPool(p)[..n], coins, height, params);
            var after := Select(RankedPool(p)[..n + 1], coins, height, params);
            var kept := Pack(RankedPool(p)[..n + 1], coins, height, params);
            if FeesOf(kept) <= MAX_U64 then Packed(after, kept, coins)
            else after.txs == before.txs && Overflows(before, RankedPool(p)[n], height, params)
  {
    hide Valid, RankedPool, Agrees, AllFresh, EntryOk, SelectStep, Takes, Packed, Pack, FeesOf, Overflows;
    var ranked, seen := RankedPool(p), RankedPool(p)[..n];
    var s, kept := Select(seen, coins, height, params), Pack(seen, coins, height, params);
    assert ranked[..n + 1][..n] == seen;
    PackNext(ranked, coins, height, params, n);
    PackIsDrawn(seen, coins, height, params);
    PackedAdds(s, kept, coins);
    NextIsUntouched(p, coins, kept, n, s.working);
    PackedStep(s, kept, ranked[n], coins, height, params);
  }

  lemma PackedAdds(s: Selection, kept: seq<Entry>, coins: Coins)
    requires Packed(s, kept, coins)
    ensures AddsOnly(s.working, coins, kept) && s.fees == FeesOf(kept)
  {
  }

  lemma NothingPacked(coins: Coins, height: U32, params: TemplateParams)
    ensures Packed(Select([], coins, height, params), Pack([], coins, height, params), coins)
  {
  }

  // ----- when the fees do not fit

  /** The packing of a prefix is a prefix of the packing. */
  lemma {:induction false} PackGrows(entries: seq<Entry>, coins: Coins, height: U32, params: TemplateParams, n: nat)
    requires n <= |entries|
    ensures Pack(entries[..n], coins, height, params) <= Pack(entries, coins, height, params)
    decreases |entries| - n
  {
    hide Pack, FeesOf;
    if n == |entries| {
      assert entries[..n] == entries;
    } else {
      PackNext(entries, coins, height, params, n);
      PackGrows(entries, coins, height, params, n + 1);
    }
  }

  /** The turn at which the packed fees stop fitting. */
  lemma {:induction false} FirstExcess(entries: seq<Entry>, coins: Coins, height: U32, params: TemplateParams)
    returns (n: nat)
    requires FeesOf(Pack(entries, coins, height, params)) > MAX_U64
    ensures n < |entries| && FeesOf(Pack(entries[..n], coins, height, params)) <= MAX_U64
    ensures FeesOf(Pack(entries[..n + 1], coins, height, params)) > MAX_U64
  {
    hide Pack, FeesOf;
    n := |entries|;
    assert entries[..n] == entries;
    while FeesOf(Pack(entries[..n], coins, height, params)) > MAX_U64
      invariant n <= |entries|
      invariant n < |entries| ==> FeesOf(Pack(entries[..n + 1], coins, height, params)) > MAX_U64
      decreases n
    {
      if n == 0 {
        NothingPaid(coins, height, params);
        assert false;
      }
      n := n - 1;
    }
  }

  lemma NothingPaid(coins: Coins, height: U32, params: TemplateParams)
    ensures FeesOf(Pack([], coins, height, params)) == 0
  {
  }

  /** No two entries have the same transaction. */
  ghost predicate DistinctTxs(entries: seq<Entry>) {
    forall i, j :: 0 <= i < j < |entries| ==> entries[i].tx != entries[j].tx
  }

  /** An entry skipped at its turn is not selected later. */
  lemma {:induction false} NeverSelected(
      entries: seq<Entry>, coins: Coins, height: U32, params: TemplateParams, n: nat, m: nat)
    requires AllOk(entries) && DistinctTxs(entries) && n < m <= |entries|
    requires Select(entries[..n + 1], coins, height, params).txs == Select(entries[..n], coins, height, params).txs
    ensures entries[n].tx !in Select(entries[..m], coins, height, params).txs
    decreases m
  {
    hide EntryOk, Select;
    if m == n + 1 {
      SelectAccounted(entries[..n], coins, height, params);
      var txs := Select(entries[..n], coins, height, params).txs;
      forall i | 0 <= i < |txs| ensures txs[i] != entries[n].tx {
        assert Drawn(txs[i], entries[..n]);
      }
    } else {
      NeverSelected(entries, coins, height, params, n, m - 1);
      SelectAdds(entries, coins, height, params, m - 1);
    }
  }

  lemma SelectAdds(entries: seq<Entry>, coins: Coins, height: U32, params: TemplateParams, n: nat)
    requires AllOk(entries) && n < |entries|
    ensures var s, t := Select(entries[..n], coins, height, params), Select(entries[..n + 1], coins, height, params);
            t.txs == s.txs || t.txs == s.txs + [entries[n].tx]
  {
    hide EntryOk, TxEffect;
    assert entries[..n + 1][..n] == entries[..n];
  }

  lemma RankedTxsDistinct(p: Pool)
    requires Valid(p)
    ensures DistinctTxs(RankedPool(p))
  {
    hide Valid, RankedPool, Txid;
    var ranked := RankedPool(p);
    forall i, j | 0 <= i < j < |ranked| ensures ranked[i].tx != ranked[j].tx {
      RankedDistinct(p, i, j);
      RankedEntry(p, ranked[i]);
      RankedEntry(p, ranked[j]);
    }
  }

  /** A packing whose fees do not fit overflows the loop, and is not what it selects. */
  lemma ExcessIsNotSelected(p: Pool, coins: Coins, height: U32, params: TemplateParams)
    requires Valid(p) && Agrees(p, coins) && AllFresh(p, coins)
    requires FeesOf(Pack(RankedPool(p), coins, height, params)) > MAX_U64
    ensures AllOk(RankedPool(p)) && !NeverOverflows(RankedPool(p), coins, height, params)
    ensures SelectFrom(p, coins, height, params).txs != TxsOf(Pack(RankedPool(p), coins, height, params))
  {
    hide Valid, Agrees, AllFresh, RankedPool, Pack, Select, Packed, FeesOf, EntryOk, Takes, Overflows;
    PoolEntriesOk(p);
    var ranked := RankedPool(p);
    var n := FirstExcess(ranked, coins, height, params);
    SelectPacks(p, coins, height, params, n);
    TurnPacks(p, coins, height, params, n);
    RankedTxsDistinct(p);
    NeverSelected(ranked, coins, height, params, n, |ranked|);
    assert ranked[..|ranked|] == ranked;
    PackNext(ranked, coins, height, params, n);
    PackGrows(ranked, coins, height, params, n + 1);
    var kept, k := Pack(ranked, coins, height, params), |Pack(ranked[..n], coins, height, params)|;
    assert kept[k] == ranked[n] && TxsOf(kept)[k] == ranked[n].tx;
  }

  /** For a pool that agrees with the chain and creates nothing that exists, the template's
      transactions are those of the greedy packing of the ranking if and only if its fees fit 64 bits;
      then its fees and size are those of the packing too. */
  lemma SelectionIsGreedy(p: Pool, coins: Coins, height: U32, params: TemplateParams)
    requires Valid(p) && Agrees(p, coins) && AllFresh(p, coins)
    ensures var s, kept := SelectFrom(p, coins, height, params), Pack(RankedPool(p), coins, height, params);
            && (s.txs == TxsOf(kept) <==> FeesOf(kept) <= MAX_U64)
            && (s.txs == TxsOf(kept) ==> s.fees == FeesOf(kept) && s.size == EMPTY_TEMPLATE_BYTES + SizeOf(kept))
  {
    hide Valid, Agrees, AllFresh, RankedPool, Pack, Select, KeepsRest, AddsOnly, FeesOf;
    var ranked := RankedPool(p);
    assert ranked[..|ranked|] == ranked;
    if FeesOf(Pack(ranked, coins, height, params)) <= MAX_U64 {
      SelectPacks(p, coins, height, params, |ranked|);
    } else {
      ExcessIsNotSelected(p, coins, height, params);
    }
  }

  /** Entries that are all mature and fit the budgets together are all packed. */
  lemma {:induction false} PackTakesAll(entries: seq<Entry>, coins: Coins, height: U32, params: TemplateParams)
    requires |entries| <= params.maxTransactions && EMPTY_TEMPLATE_BYTES + SizeOf(entries) <= params.maxBlockBytes
    requires forall i :: 0 <= i < |entries| ==>
               Mature(entries[i].tx.inputs, coins, height, params.consensus.coinbaseMaturity)
    ensures Pack(entries, coins, height, params) == entries
  {
    hide Mature;
    if entries != [] {
      PackTakesAll(entries[..|entries| - 1], coins, height, params);
    }
  }

  /** A mature pool that fits a block, its fees included, goes into it whole. */
  lemma FittingPoolIsSelected(p: Pool, coins: Coins, height: U32, params: TemplateParams)
    requires Valid(p) && Agrees(p, coins) && AllFresh(p, coins)
    requires |p.entries| <= params.maxTransactions && EMPTY_TEMPLATE_BYTES + p.totalBytes <= params.maxBlockBytes
    requires forall k :: k in p.entries ==>
               Mature(p.entries[k].tx.inputs, coins, height, params.consensus.coinbaseMaturity)
    ensures SelectFrom(p, coins, height, params).txs == TxsOf(RankedPool(p)) <==> FeesOf(RankedPool(p)) <= MAX_U64
  {
    hide Valid, Agrees, AllFresh, RankedPool, SelectFrom, Mature, Txid, FeesOf;
    SelectionIsGreedy(p, coins, height, params);
    RankedPoolBytes(p);
    forall i | 0 <= i < |RankedPool(p)|
      ensures Mature(RankedPool(p)[i].tx.inputs, coins, height, params.consensus.coinbaseMaturity)
    {
      RankedEntry(p, RankedPool(p)[i]);
    }
    PackTakesAll(RankedPool(p), coins, height, params);
  }
}
