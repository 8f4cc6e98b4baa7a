/** The mutable transaction pool. */
module Mempool {
  import opened Base
  import opened Transactions
  import opened Utxo
  import opened TxValidation
  import opened BlockValidation
  import opened FeeRate
  import opened Ranking
  import opened Pools
  import opened Eviction

  /** `txs` is the pool's transactions, each once, in ascending order of id. */
  ghost predicate IsExport(txs: seq<Transaction>, m: Entries) {
    && |txs| == |m|
    && (forall i, j :: 0 <= i < j < |txs| ==> LexLess(Txid(txs[i]), Txid(txs[j])))
    && (forall i :: 0 <= i < |txs| ==> Txid(txs[i]) in m && m[Txid(txs[i])].tx == txs[i])
  }

  class TransactionPool {
    const limits: Limits
    var byTxid: Entries
    var spentBy: map<OutPoint, Hash>
    var totalBytes: U64

    ghost function Contents(): Pool
      reads this
    {
      Pool(limits, byTxid, spentBy, totalBytes)
    }

    constructor (limits: Limits)
      ensures Contents() == Pool(limits, map[], map[], 0) && Valid(Contents())
    {
      this.limits := limits;
      byTxid, spentBy, totalBytes := map[], map[], 0;
    }

    method Remove(txid: Hash)
      requires Valid(Contents())
      modifies this
      ensures Contents() == Pools.Remove(old(Contents()), txid) && Valid(Contents())
    {
      hide Valid, Prevouts;
      RemoveValid(Contents(), txid);
      if txid !in byTxid {
        return;
      }
      var e := byTxid[txid];
      spentBy := ReleaseInputs(spentBy, e.tx);
      totalBytes := totalBytes - e.size;
      byTxid := byTxid - {txid};
    }

    method Accept(tx: Transaction, utxos: UtxoSet, policy: Policy) returns (r: Result<()>)
      requires Valid(Contents())
      modifies this
      ensures (r, Contents()) == Pools.Accept(old(Contents()), tx, utxos.coins, policy)
      ensures Valid(Contents())
    {
      hide Valid, SaneTx, Prevouts, EncTx, Admission, Pools.Remove, NeedsRoom, MakeRoom;
      AcceptValid(Contents(), tx, utxos.coins, policy);
      var admission := ValidateForMempool(tx, utxos, policy);
      if admission.Err? {
        return Err(admission.code);
      }
      var txid := Txid(tx);
      if txid in byTxid {
        return Err(InvalidTransaction);
      }
      for i := 0 to |tx.inputs|
        invariant forall j :: 0 <= j < i ==> tx.inputs[j] !in spentBy
      {
        if tx.inputs[i] in spentBy {
          return Err(InvalidTransaction);
        }
      }
      var (fee, size) := admission.value;
      var incoming := Entry(tx, txid, fee, size);
      var room := EvictFor(incoming);
      if !room {
        return Err(ResourceLimitExceeded);
      }
      if size > limits.maxTotalBytes {
        return Err(ResourceLimitExceeded);
      }
      assert CanInsert(Contents(), incoming) by {
        AdmittedOk(tx, utxos.coins, policy);
        RoomLetsInsert(old(Contents()), incoming);
      }
      Add(incoming);
      r := DONE;
    }

    /** The eviction loop of admission. */
    method EvictFor(incoming: Entry) returns (room: bool)
      requires Valid(Contents())
      modifies this
      ensures (room, Contents()) == MakeRoom(old(Contents()), incoming)
      ensures Valid(Contents())
    {
      hide Valid, Pools.Remove, StrictlyHigherFeerate, IsLowest;
      while |byTxid| + 1 > limits.maxTransactions || totalBytes > (limits.maxTotalBytes - incoming.size) % TWO_64
        invariant Valid(Contents())
        invariant MakeRoom(Contents(), incoming) == MakeRoom(old(Contents()), incoming)
        decreases |byTxid|
      {
        assert Keyed(byTxid) by { PoolKeyed(Contents()); }
        var worst := FindLowest(byTxid);
        if worst.None? || !StrictlyHigherFeerate(incoming, worst.value) {
          if worst.Some? {
            LowestUnique(byTxid, worst.value, Lowest(byTxid));
          }
          return false;
        }
        LowestUnique(byTxid, worst.value, Lowest(byTxid));
        MakeRoomStep(Contents(), incoming);
        RankedPoolStep(Contents());
        Remove(worst.value.txid);
      }
      room := true;
    }

    method Add(e: Entry)
      requires Valid(Contents()) && CanInsert(Contents(), e)
      modifies this
      ensures Contents() == Insert(old(Contents()), e)
    {
      hide Valid, EntryOk, Prevouts;
      spentBy := ReserveInputs(spentBy, e.tx, e.txid);
      byTxid := byTxid[e.txid := e];
      totalBytes := totalBytes + e.size;
    }

    /** Selection order of block templates. */
    method EntriesByFeerate() returns (out: seq<Entry>)
      requires Valid(Contents())
      ensures out == RankedPool(Contents())
    {
      hide Valid;
      PoolKeyed(Contents());
      out := RankEntries(byTxid);
    }

    method SortedTransactions() returns (out: seq<Transaction>)
      requires Valid(Contents())
      ensures IsExport(out, byTxid)
    {
      hide Valid, Txid, LexLess;
      PoolIds(Contents());
      out := [];
      var todo := byTxid.Keys;
      while todo != {}
        invariant todo <= byTxid.Keys && |out| == |byTxid| - |todo|
        invariant forall i :: 0 <= i < |out| ==> Txid(out[i]) in byTxid && byTxid[Txid(out[i])].tx == out[i]
        invariant forall i, j :: 0 <= i < j < |out| ==> LexLess(Txid(out[i]), Txid(out[j]))
        invariant forall i, k :: 0 <= i < |out| && k in todo ==> LexLess(Txid(out[i]), k)
      {
        var k := LeastKey(todo);
        out := out + [byTxid[k].tx];
        todo := todo - {k};
      }
    }
  }

  method LeastKey(keys: set<Hash>) returns (least: Hash)
    requires keys != {}
    ensures least in keys && forall k :: k in keys && k != least ==> LexLess(least, k)
  {
    hide LexLess;
    least :| least in keys;
    var todo := keys - {least};
    while todo != {}
      invariant todo <= keys && least in keys - todo
      invariant forall k :: k in keys - todo && k != least ==> LexLess(least, k)
    {
      var k :| k in todo;
      LexTotal(k, least);
      if LexLess(k, least) {
        forall j | j in keys - todo && j != least ensures LexLess(k, j) {
          LexTransitive(k, least, j);
        }
        least := k;
      }
      todo := todo - {k};
    }
  }

  lemma PoolIds(p: Pool)
    requires Valid(p)
    ensures forall k :: k in p.entries ==> Txid(p.entries[k].tx) == k
  {
  }

  lemma PoolKeyed(p: Pool)
    requires Valid(p)
    ensures Keyed(p.entries)
  {
    EntriesKeyed(p.entries);
  }

  /** What admission lets through is a well-formed entry. */
  lemma AdmittedOk(tx: Transaction, coins: Coins, policy: Policy)
    requires Admission(tx, coins, policy).Ok?
    ensures var (fee, size) := Admission(tx, coins, policy).value; EntryOk(Entry(tx, Txid(tx), fee, size))
  {
    hide SaneTx, Txid, TxFee;
  }
}
