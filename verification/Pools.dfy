/** The transaction pool as a value: admission, eviction and removal over two indexes and a byte
    counter that always agree. */
module Pools {
  import opened Base
  import opened MapSums
  import opened Transactions
  import opened Utxo
  import opened TxValidation
  import opened BlockValidation
  import opened FeeRate
  import opened Ranking

  datatype Limits = Limits(maxTransactions: U32, maxTotalBytes: U64)
  datatype Policy = Policy(minRelayFeerate: U64)

  datatype Pool = Pool(limits: Limits, entries: Entries, spentBy: map<OutPoint, Hash>, totalBytes: U64)

  // ----- admission

  /** Consensus checks, then the minimum fee rate: the admitted fee and size. */
  ghost function Admission(tx: Transaction, coins: Coins, policy: Policy): Result<(U64, U64)> {
    if !SaneTx(tx) || IsCoinbase(tx) then Err(InvalidTransaction) else
      var fee :- TxFee(tx, coins);
      var size: U64 := |EncTx(tx)|;
      if fee < policy.minRelayFeerate * size then Err(PolicyRejected) else Ok((fee, size))
  }

  /** The rate check in 128-bit arithmetic decides the exact inequality. */
  method CheckMinRelayFeerate(fee: U64, size: U64, policy: Policy) returns (r: Result<()>)
    ensures r == if fee >= policy.minRelayFeerate * size then DONE else Err(PolicyRejected)
  {
    if policy.minRelayFeerate == 0 || size == 0 {
      return DONE;
    }
    var required := MulU64(policy.minRelayFeerate, size);
    r := if Greater(required, (0, fee)) then Err(PolicyRejected) else DONE;
  }

  method ValidateForMempool(tx: Transaction, utxos: UtxoSet, policy: Policy) returns (r: Result<(U64, U64)>)
    ensures r == Admission(tx, utxos.coins, policy)
  {
    hide SaneTx, TxFee;
    var sane := CheckTransactionSanity(tx);
    if sane.Err? {
      return Err(sane.code);
    }
    if IsCoinbase(tx) {
      return Err(InvalidTransaction);
    }
    var fee := CheckTransactionInputs(tx, utxos);
    if fee.Err? {
      return Err(fee.code);
    }
    var size: U64 := |EncTx(tx)| by { SaneSize(tx); }
    var allowed := CheckMinRelayFeerate(fee.value, size, policy);
    if allowed.Err? {
      return Err(allowed.code);
    }
    r := Ok((fee.value, size));
  }

  lemma SaneSize(tx: Transaction)
    requires SaneTx(tx)
    ensures 92 <= |EncTx(tx)| <= MAX_TRANSACTION_BYTES
  {
    EncTxLength(tx);
  }

  // ----- the invariant

  ghost predicate EntryOk(e: Entry) {
    SaneTx(e.tx) && !IsCoinbase(e.tx) && e.txid == Txid(e.tx) && e.size == |EncTx(e.tx)|
  }

  ghost predicate EntriesOk(m: Entries) {
    forall k :: k in m ==> m[k].txid == k && EntryOk(m[k])
  }

  /** `spentBy` is exactly the inverse of the inputs of the entries. */
  ghost predicate IndexOk(m: Entries, spentBy: map<OutPoint, Hash>) {
    && (forall op :: op in spentBy ==> spentBy[op] in m && op in Prevouts(m[spentBy[op]].tx))
    && (forall k, op :: k in m && op in Prevouts(m[k].tx) ==> op in spentBy && spentBy[op] == k)
  }

  ghost predicate Valid(p: Pool) {
    && EntriesOk(p.entries)
    && IndexOk(p.entries, p.spentBy)
    && p.totalBytes == Sum(p.entries, EntrySize)
    && |p.entries| <= p.limits.maxTransactions
    && p.totalBytes <= p.limits.maxTotalBytes
  }

  lemma EntriesKeyed(m: Entries)
    requires EntriesOk(m)
    ensures Keyed(m)
  {
    hide SaneTx;
    forall k | k in m
      ensures m[k].size > 0
    {
      SaneSize(m[k].tx);
    }
  }

  /** No two entries of a valid pool spend the same outpoint. */
  lemma NoConflicts(p: Pool, j: Hash, k: Hash)
    requires Valid(p) && j in p.entries && k in p.entries && j != k
    ensures Prevouts(p.entries[j].tx) !! Prevouts(p.entries[k].tx)
  {
    hide EntriesOk, Prevouts;
    assert forall op :: op in Prevouts(p.entries[j].tx) ==> p.spentBy[op] == j;
  }

  // ----- operations

  ghost function Remove(p: Pool, txid: Hash): Pool
    requires Valid(p)
  {
    if txid !in p.entries then p else
      var e := p.entries[txid];
      SumRemove(p.entries, txid, EntrySize);
      Pool(p.limits, p.entries - {txid}, p.spentBy - Prevouts(e.tx), p.totalBytes - e.size)
  }

  lemma RemoveKeepsIndex(m: Entries, spentBy: map<OutPoint, Hash>, txid: Hash)
    requires IndexOk(m, spentBy) && txid in m
    ensures IndexOk(m - {txid}, spentBy - Prevouts(m[txid].tx))
  {
    hide Prevouts;
    var m', spentBy' := m - {txid}, spentBy - Prevouts(m[txid].tx);
    assert forall op :: op in Prevouts(m[txid].tx) ==> op in spentBy && spentBy[op] == txid;
    forall k, op | k in m' && op in Prevouts(m'[k].tx)
      ensures op in spentBy' && spentBy'[op] == k
    {
      assert op in Prevouts(m[k].tx);
    }
  }

  lemma RemoveValid(p: Pool, txid: Hash)
    requires Valid(p)
    ensures Valid(Remove(p, txid))
    ensures txid in p.entries ==> |Remove(p, txid).entries| == |p.entries| - 1
  {
    hide IndexOk, EntryOk, Prevouts;
    if txid in p.entries {
      SumRemove(p.entries, txid, EntrySize);
      RemoveKeepsIndex(p.entries, p.spentBy, txid);
      RemoveShrinks(p.entries, txid);
    }
  }

  lemma RemoveShrinks(m: Entries, txid: Hash)
    requires txid in m
    ensures |m - {txid}| == |m| - 1
  {
    assert m.Keys == (m - {txid}).Keys + {txid};
  }

  /** `e` can be added without exceeding a limit or touching another entry. */
  ghost predicate CanInsert(p: Pool, e: Entry) {
    && EntryOk(e) && e.txid !in p.entries && Prevouts(e.tx) !! p.spentBy.Keys
    && |p.entries| < p.limits.maxTransactions && p.totalBytes + e.size <= p.limits.maxTotalBytes
  }

  /** `spentBy` with these outpoints reserved for `txid`. */
  function Reserve(spentBy: map<OutPoint, Hash>, ops: set<OutPoint>, txid: Hash): map<OutPoint, Hash> {
    spentBy + map op | op in ops :: txid
  }

  method ReserveInputs(spentBy: map<OutPoint, Hash>, tx: Transaction, txid: Hash) returns (r: map<OutPoint, Hash>)
    ensures r == Reserve(spentBy, Prevouts(tx), txid)
  {
    r := spentBy;
    for i := 0 to |tx.inputs|
      invariant r == Reserve(spentBy, FirstInputs(tx.inputs, i), txid)
    {
      r := r[tx.inputs[i] := txid];
    }
  }

  method ReleaseInputs(spentBy: map<OutPoint, Hash>, tx: Transaction) returns (r: map<OutPoint, Hash>)
    ensures r == spentBy - Prevouts(tx)
  {
    r := spentBy;
    for i := 0 to |tx.inputs|
      invariant r == spentBy - FirstInputs(tx.inputs, i)
    {
      r := r - {tx.inputs[i]};
    }
  }

  ghost function Insert(p: Pool, e: Entry): Pool
    requires CanInsert(p, e)
  {
    Pool(p.limits,
         p.entries[e.txid := e],
         Reserve(p.spentBy, Prevouts(e.tx), e.txid),
         p.totalBytes + e.size)
  }

  lemma InsertKeepsIndex(m: Entries, spentBy: map<OutPoint, Hash>, e: Entry)
    requires IndexOk(m, spentBy) && e.txid !in m && Prevouts(e.tx) !! spentBy.Keys
    ensures IndexOk(m[e.txid := e], Reserve(spentBy, Prevouts(e.tx), e.txid))
  {
    hide Prevouts;
  }

  lemma InsertValid(p: Pool, e: Entry)
    requires Valid(p) && CanInsert(p, e)
    ensures Valid(Insert(p, e))
  {
    hide IndexOk, EntryOk, Prevouts, Sum;
    SumInsert(p.entries, e.txid, e, EntrySize);
    InsertKeepsIndex(p.entries, p.spentBy, e);
    InsertGrows(p.entries, e);
  }

  lemma InsertGrows(m: Entries, e: Entry)
    requires e.txid !in m
    ensures |m[e.txid := e]| == |m| + 1
  {
    assert m[e.txid := e].Keys == m.Keys + {e.txid};
  }

  /** The loop condition of admission; the subtraction is in u64 and wraps when the incoming
      entry alone exceeds the limit. */
  predicate NeedsRoom(count: nat, bytes: nat, size: U64, limits: Limits) {
    count + 1 > limits.maxTransactions || bytes > (limits.maxTotalBytes - size) % TWO_64
  }

  /** Evicts from the bottom of the ranking until `e` fits or the victim does not rank strictly
      lower.  Evictions stand even when it fails. */
  ghost function MakeRoom(p: Pool, e: Entry): (r: (bool, Pool))
    requires Valid(p)
    ensures Valid(r.1)
    decreases |p.entries|
  {
    EntriesKeyed(p.entries);
    if !NeedsRoom(|p.entries|, p.totalBytes, e.size, p.limits) then (true, p)
    else if p.entries == map[] || !StrictlyHigherFeerate(e, Lowest(p.entries)) then (false, p)
    else
      var w := Lowest(p.entries);
      RemoveValid(p, w.txid);
      MakeRoom(Remove(p, w.txid), e)
  }

  /** `tx` spends an outpoint that an entry of the pool already spends. */
  predicate Conflicts(p: Pool, tx: Transaction) {
    exists i :: 0 <= i < |tx.inputs| && tx.inputs[i] in p.spentBy
  }

  /** Admission of `tx`: the outcome and the pool left behind. */
  ghost function Accept(p: Pool, tx: Transaction, coins: Coins, policy: Policy): (Result<()>, Pool)
    requires Valid(p)
  {
    var admission := Admission(tx, coins, policy);
    if admission.Err? then (Err(admission.code), p)
    else if Txid(tx) in p.entries || Conflicts(p, tx) then (Err(InvalidTransaction), p)
    else
      var e := Entry(tx, Txid(tx), admission.value.0, admission.value.1);
      var (room, q) := MakeRoom(p, e);
      if !room || e.size > p.limits.maxTotalBytes then (Err(ResourceLimitExceeded), q)
      else
        RoomLetsInsert(p, e);
        (DONE, Insert(q, e))
  }

  /** The pool an eviction leaves is a part of the pool it started from. */
  lemma {:induction false} MakeRoomShrinks(p: Pool, e: Entry)
    requires Valid(p)
    ensures var (room, q) := MakeRoom(p, e);
            && q.limits == p.limits
            && q.entries.Keys <= p.entries.Keys
            && q.spentBy.Keys <= p.spentBy.Keys
            && (room ==> !NeedsRoom(|q.entries|, q.totalBytes, e.size, q.limits))
    decreases |p.entries|
  {
    hide EntriesOk, IndexOk, Sum, NeedsRoom, StrictlyHigherFeerate;
    EntriesKeyed(p.entries);
    if NeedsRoom(|p.entries|, p.totalBytes, e.size, p.limits) && p.entries != map[] &&
       StrictlyHigherFeerate(e, Lowest(p.entries)) {
      var w := Lowest(p.entries);
      RemoveValid(p, w.txid);
      MakeRoomShrinks(Remove(p, w.txid), e);
    }
  }

  lemma RoomLetsInsert(p: Pool, e: Entry)
    requires Valid(p) && EntryOk(e) && e.txid !in p.entries && !Conflicts(p, e.tx)
    requires MakeRoom(p, e).0 && e.size <= p.limits.maxTotalBytes
    ensures CanInsert(MakeRoom(p, e).1, e)
  {
    hide EntryOk, EntriesOk, IndexOk, Sum, MakeRoom;
    MakeRoomShrinks(p, e);
  }

  /** Every outcome of admission keeps the pool valid. */
  lemma AcceptValid(p: Pool, tx: Transaction, coins: Coins, policy: Policy)
    requires Valid(p)
    ensures Valid(Accept(p, tx, coins, policy).1)
  {
    hide Valid, SaneTx, TxFee, MakeRoom, Insert;
    var admission := Admission(tx, coins, policy);
    if admission.Ok? && Txid(tx) !in p.entries && !Conflicts(p, tx) {
      var e := Entry(tx, Txid(tx), admission.value.0, admission.value.1);
      if MakeRoom(p, e).0 && e.size <= p.limits.maxTotalBytes {
        RoomLetsInsert(p, e);
        InsertValid(MakeRoom(p, e).1, e);
      }
    }
  }

  // ----- pruning

  /** The pool after removing each of these transactions by id. */
  ghost function Prune(p: Pool, txs: seq<Transaction>): (q: Pool)
    requires Valid(p)
    ensures Valid(q)
  {
    if txs == [] then p else
      var q := Prune(p, txs[..|txs| - 1]);
      RemoveValid(q, Txid(txs[|txs| - 1]));
      Remove(q, Txid(txs[|txs| - 1]))
  }

  /** Pruning drops exactly the entries whose ids were named. */
  lemma {:induction false} PruneExact(p: Pool, txs: seq<Transaction>)
    requires Valid(p)
    ensures Prune(p, txs).limits == p.limits
    ensures Prune(p, txs).entries == p.entries - set i | 0 <= i < |txs| :: Txid(txs[i])
  {
    hide Valid, Txid, Prevouts;
    if txs != [] {
      PruneExact(p, txs[..|txs| - 1]);
      var n := |txs| - 1;
      var ids, ids' := set i | 0 <= i < n :: Txid(txs[..n][i]), set i | 0 <= i < |txs| :: Txid(txs[i]);
      assert ids' == ids + {Txid(txs[n])};
    }
  }
}
