/** Consensus validity of a single transaction.  The rules are stated declaratively; each check
    is a method with the source's loops and accumulators, proved to decide its rule. */
module TxValidation {
  import opened Base
  import opened Transactions
  import opened Utxo

  /** Addition that reports overflow instead of wrapping. */
  function CheckedAdd(lhs: U64, rhs: U64): (r: Result<U64>)
    ensures r.Ok? <==> lhs + rhs <= MAX_U64
    ensures r.Ok? ==> r.value == lhs + rhs
  {
    if lhs > MAX_U64 - rhs then Err(InvalidTransaction) else Ok(lhs + rhs)
  }

  function TotalValue(outputs: seq<TxOutput>): nat {
    if outputs == [] then 0 else TotalValue(outputs[..|outputs| - 1]) + outputs[|outputs| - 1].value
  }

  lemma {:induction false} TotalValueGrows(outputs: seq<TxOutput>, i: nat)
    requires i <= |outputs|
    ensures TotalValue(outputs[..i]) <= TotalValue(outputs)
    decreases |outputs| - i
  {
    if i < |outputs| {
      TotalValueGrows(outputs, i + 1);
      assert outputs[..i + 1][..i] == outputs[..i];
    } else {
      assert outputs[..i] == outputs;
    }
  }

  lemma {:induction false} SumBoundsEach(outputs: seq<TxOutput>, i: nat)
    requires i < |outputs|
    ensures outputs[i].value <= TotalValue(outputs)
  {
    assert outputs[..i + 1][..i] == outputs[..i];
    TotalValueGrows(outputs, i + 1);
  }

  // ----- context-free sanity

  ghost predicate SaneTx(tx: Transaction) {
    && 1 <= |tx.inputs| <= MAX_INPUTS
    && 1 <= |tx.outputs| <= MAX_OUTPUTS
    && (IsCoinbase(tx) || forall i :: 0 <= i < |tx.inputs| ==> tx.inputs[i].index != NULL_INDEX)
    && Distinct(tx.inputs)
    && TotalValue(tx.outputs) <= MAX_MONEY
    && |EncTx(tx)| <= MAX_TRANSACTION_BYTES
  }

  method CheckTransactionSanity(tx: Transaction) returns (r: Result<()>)
    ensures r == if SaneTx(tx) then DONE else Err(InvalidTransaction)
  {
    if tx.inputs == [] || tx.outputs == [] || |tx.inputs| > MAX_INPUTS || |tx.outputs| > MAX_OUTPUTS {
      return Err(InvalidTransaction);
    }
    if !IsCoinbase(tx) {
      for i := 0 to |tx.inputs|
        invariant forall j :: 0 <= j < i ==> tx.inputs[j].index != NULL_INDEX
      {
        if tx.inputs[i].index == NULL_INDEX {
          return Err(InvalidTransaction);
        }
      }
    }
    var seen: set<OutPoint> := {};
    for i := 0 to |tx.inputs|
      invariant seen == set j | 0 <= j < i :: tx.inputs[j]
      invariant Distinct(tx.inputs[..i])
    {
      if tx.inputs[i] in seen {
        return Err(InvalidTransaction);
      }
      seen := seen + {tx.inputs[i]};
    }
    assert tx.inputs[..|tx.inputs|] == tx.inputs;
    var totalOut: U64 := 0;
    for i := 0 to |tx.outputs|
      invariant totalOut == TotalValue(tx.outputs[..i]) <= MAX_MONEY
    {
      TotalValueGrows(tx.outputs, i + 1);
      assert tx.outputs[..i + 1][..i] == tx.outputs[..i];
      if tx.outputs[i].value > MAX_MONEY {
        return Err(InvalidTransaction);
      }
      var sum := CheckedAdd(totalOut, tx.outputs[i].value);
      if sum.Err? || sum.value > MAX_MONEY {
        return Err(InvalidTransaction);
      }
      totalOut := sum.value;
    }
    assert tx.outputs[..|tx.outputs|] == tx.outputs;
    if |EncTx(tx)| > MAX_TRANSACTION_BYTES {
      return Err(InvalidTransaction);
    }
    r := DONE;
  }

  /** The plain u64 sum of output values: it wraps, but on a total in the money range it cannot. */
  method UncheckedTotal(outputs: seq<TxOutput>) returns (total: U64)
    ensures total == TotalValue(outputs) % TWO_64
    ensures TotalValue(outputs) <= MAX_MONEY ==> total == TotalValue(outputs)
  {
    total := 0;
    for i := 0 to |outputs|
      invariant total == TotalValue(outputs[..i]) % TWO_64
    {
      assert outputs[..i + 1][..i] == outputs[..i];
      total := (total + outputs[i].value) % TWO_64;
    }
    assert outputs[..|outputs|] == outputs;
  }

  // ----- inputs against the unspent set

  /** No coin holds more than the money range allows. */
  ghost predicate InRange(coins: Coins) {
    forall op :: op in coins ==> coins[op].output.value <= MAX_MONEY
  }

  predicate Spendable(inputs: seq<OutPoint>, coins: Coins) {
    forall i :: 0 <= i < |inputs| ==> inputs[i] in coins
  }

  function InputValue(inputs: seq<OutPoint>, coins: Coins): nat
    requires Spendable(inputs, coins)
  {
    if inputs == [] then 0 else
      InputValue(inputs[..|inputs| - 1], coins) + coins[inputs[|inputs| - 1]].output.value
  }

  lemma {:induction false} InputValueGrows(inputs: seq<OutPoint>, coins: Coins, i: nat)
    requires i <= |inputs| && Spendable(inputs, coins)
    ensures InputValue(inputs[..i], coins) <= InputValue(inputs, coins)
    decreases |inputs| - i
  {
    if i < |inputs| {
      InputValueGrows(inputs, coins, i + 1);
      assert inputs[..i + 1][..i] == inputs[..i];
    } else {
      assert inputs[..i] == inputs;
    }
  }

  /** The fee of `tx` over `coins`.  The output sum is the unchecked u64 sum of the source,
      which wraps; on a sane transaction it cannot. */
  function TxFee(tx: Transaction, coins: Coins): Result<U64> {
    if !Spendable(tx.inputs, coins) then Err(InvalidTransaction) else
      var totalIn := InputValue(tx.inputs, coins);
      var totalOut := TotalValue(tx.outputs) % TWO_64;
      if totalIn > MAX_U64 || totalIn < totalOut then Err(InvalidTransaction) else Ok(totalIn - totalOut)
  }

  method CheckTransactionInputs(tx: Transaction, utxos: UtxoSet) returns (r: Result<U64>)
    ensures r == TxFee(tx, utxos.coins)
  {
    var totalIn: U64 := 0;
    for i := 0 to |tx.inputs|
      invariant Spendable(tx.inputs[..i], utxos.coins)
      invariant totalIn == InputValue(tx.inputs[..i], utxos.coins)
    {
      if tx.inputs[i] !in utxos.coins {
        return Err(InvalidTransaction);
      }
      assert tx.inputs[..i + 1][..i] == tx.inputs[..i];
      var sum := CheckedAdd(totalIn, utxos.coins[tx.inputs[i]].output.value);
      if sum.Err? {
        if Spendable(tx.inputs, utxos.coins) {
          InputValueGrows(tx.inputs, utxos.coins, i + 1);
        }
        return Err(InvalidTransaction);
      }
      totalIn := sum.value;
    }
    assert tx.inputs[..|tx.inputs|] == tx.inputs;
    var totalOut := UncheckedTotal(tx.outputs);
    r := if totalIn < totalOut then Err(InvalidTransaction) else Ok(totalIn - totalOut);
  }

  // ----- coinbase maturity

  /** Every coinbase coin among the inputs is at least `maturity` blocks old at `height`. */
  predicate Mature(inputs: seq<OutPoint>, coins: Coins, height: U32, maturity: U32) {
    forall i :: 0 <= i < |inputs| && inputs[i] in coins && coins[inputs[i]].coinbase ==>
      height >= coins[inputs[i]].height + maturity
  }

  method CheckCoinbaseMaturity(tx: Transaction, utxos: UtxoSet, spendHeight: U32, maturity: U32)
    returns (r: Result<()>)
    ensures r == if Mature(tx.inputs, utxos.coins, spendHeight, maturity) then DONE else Err(InvalidTransaction)
  {
    for i := 0 to |tx.inputs|
      invariant Mature(tx.inputs[..i], utxos.coins, spendHeight, maturity)
    {
      assert tx.inputs[..i + 1][..i] == tx.inputs[..i];
      if tx.inputs[i] in utxos.coins && utxos.coins[tx.inputs[i]].coinbase {
        var spendableAt: U64 := utxos.coins[tx.inputs[i]].height + maturity;
        if spendHeight < spendableAt {
          return Err(InvalidTransaction);
        }
      }
    }
    r := DONE;
  }
}
