/** Admission to the pool as a rule: every outcome, and exactly when it occurs. */
module PoolRules {
  import opened Base
  import opened Transactions
  import opened Utxo
  import opened TxValidation
  import opened BlockValidation
  import opened Pools
  import opened Eviction

  // ----- sanity

  /** The context-free rule in terms of the numbers of inputs and outputs: no input twice, none with the
      null index unless it is alone, no more than the money there is, and at most 65536 bytes. */
  lemma SaneExact(tx: Transaction)
    ensures var n, m := |tx.inputs|, |tx.outputs|;
            SaneTx(tx) <==>
              && 1 <= n <= 4096 && 1 <= m <= 4096
              && (n == 1 || forall i :: 0 <= i < n ==> tx.inputs[i].index < 0xFFFF_FFFF)
              && (forall i, j :: 0 <= i < j < n ==> tx.inputs[i] != tx.inputs[j])
              && TotalValue(tx.outputs) <= 2_100_000_000_000_000
              && 16 + 36 * n + 40 * m <= 65536
  {
    hide EncTx, TotalValue;
    EncTxLength(tx);
  }

  // ----- admission

  /** An entry of the pool spends an outpoint that `tx` spends. */
  ghost predicate SharesInput(p: Pool, tx: Transaction) {
    exists k, i :: k in p.entries && 0 <= i < |tx.inputs| && tx.inputs[i] in p.entries[k].tx.inputs
  }

  lemma PrevoutsExact(tx: Transaction, op: OutPoint)
    ensures op in Prevouts(tx) <==> op in tx.inputs
  {
  }

  /** The index of spent outpoints finds exactly the conflicts there are. */
  lemma ConflictsExact(p: Pool, tx: Transaction)
    requires Valid(p)
    ensures Conflicts(p, tx) <==> SharesInput(p, tx)
  {
    hide EntriesOk, Prevouts;
    if Conflicts(p, tx) {
      var i :| 0 <= i < |tx.inputs| && tx.inputs[i] in p.spentBy;
      var k := p.spentBy[tx.inputs[i]];
      PrevoutsExact(p.entries[k].tx, tx.inputs[i]);
    }
    if SharesInput(p, tx) {
      var k, i :| k in p.entries && 0 <= i < |tx.inputs| && tx.inputs[i] in p.entries[k].tx.inputs;
      PrevoutsExact(p.entries[k].tx, tx.inputs[i]);
    }
  }

  /** Sane, no coinbase, and paid for by coins that exist. */
  ghost predicate WellFunded(tx: Transaction, coins: Coins) {
    SaneTx(tx) && !IsCoinbase(tx) && TxFee(tx, coins).Ok?
  }

  /** The fee is at least the minimum rate for every byte of the encoding. */
  ghost predicate PaysMinimum(tx: Transaction, coins: Coins, policy: Policy)
    requires WellFunded(tx, coins)
  {
    TxFee(tx, coins).value >= policy.minRelayFeerate * |EncTx(tx)|
  }

  /** The fee of a sane transaction: what its inputs hold beyond its outputs. */
  lemma FeeExact(tx: Transaction, coins: Coins, fee: U64)
    requires SaneTx(tx)
    ensures TxFee(tx, coins) == Ok(fee) <==>
            && (forall i :: 0 <= i < |tx.inputs| ==> tx.inputs[i] in coins)
            && InputValue(tx.inputs, coins) <= MAX_U64
            && InputValue(tx.inputs, coins) == TotalValue(tx.outputs) + fee
    ensures TxFee(tx, coins).Err? ==> TxFee(tx, coins) == Err(InvalidTransaction)
  {
    hide EncTx, InputValue, TotalValue;
  }

  lemma AdmissionRule(tx: Transaction, coins: Coins, policy: Policy)
    ensures Admission(tx, coins, policy).Ok? <==> WellFunded(tx, coins) && PaysMinimum(tx, coins, policy)
    ensures Admission(tx, coins, policy) == Err(PolicyRejected) <==>
            WellFunded(tx, coins) && !PaysMinimum(tx, coins, policy)
    ensures Admission(tx, coins, policy) == Err(InvalidTransaction) <==> !WellFunded(tx, coins)
    ensures Admission(tx, coins, policy).Ok? ==>
              Admission(tx, coins, policy).value == (TxFee(tx, coins).value, |EncTx(tx)|)
  {
    hide SaneTx, EncTx, TxFee;
    if SaneTx(tx) && TxFee(tx, coins).Err? {
      FeeExact(tx, coins, 0);
    }
  }

  /** Every outcome of admission, and when it is the one. */
  lemma AcceptOutcomes(p: Pool, tx: Transaction, coins: Coins, policy: Policy)
    requires Valid(p)
    ensures var r := Accept(p, tx, coins, policy).0;
            var known := Txid(tx) in p.entries || SharesInput(p, tx);
            && (r == Err(InvalidTransaction) <==>
                  !WellFunded(tx, coins) || (PaysMinimum(tx, coins, policy) && known))
            && (r == Err(PolicyRejected) <==> WellFunded(tx, coins) && !PaysMinimum(tx, coins, policy))
            && (r == Err(ResourceLimitExceeded) <==>
                  && WellFunded(tx, coins) && PaysMinimum(tx, coins, policy) && !known
                  && Admission(tx, coins, policy).Ok? && !CanMakeRoom(p, Incoming(tx, coins, policy)))
            && (r == DONE <==>
                  && WellFunded(tx, coins) && PaysMinimum(tx, coins, policy) && !known
                  && Admission(tx, coins, policy).Ok? && CanMakeRoom(p, Incoming(tx, coins, policy)))
  {
    hide Valid, Accept, Admission, WellFunded, PaysMinimum, SharesInput, Conflicts, CanMakeRoom, Incoming, Txid;
    AdmissionRule(tx, coins, policy);
    ConflictsExact(p, tx);
    AdmissionExact(p, tx, coins, policy);
    RefusalCode(p, tx, coins, policy);
    if Admission(tx, coins, policy).Ok? && Txid(tx) !in p.entries && !Conflicts(p, tx) {
      AcceptNeedsRoom(p, tx, coins, policy);
    }
  }

  lemma RefusalCode(p: Pool, tx: Transaction, coins: Coins, policy: Policy)
    requires Valid(p)
    ensures Admission(tx, coins, policy).Err? ==>
              Accept(p, tx, coins, policy).0 == Err(Admission(tx, coins, policy).code)
    ensures Admission(tx, coins, policy).Ok? && (Txid(tx) in p.entries || Conflicts(p, tx)) ==>
              Accept(p, tx, coins, policy).0 == Err(InvalidTransaction)
    ensures Accept(p, tx, coins, policy).0.Ok? ==> Accept(p, tx, coins, policy).0 == DONE
  {
    hide Valid, Admission, Conflicts, MakeRoom, Txid, Insert;
  }
}
