/** Unspent outputs. */
module Utxo {
  import opened Base
  import opened Transactions

  datatype Coin = Coin(output: TxOutput, height: U32, coinbase: bool)

  type Coins = map<OutPoint, Coin>

  class UtxoSet {
    var coins: Coins

    constructor ()
      ensures coins == map[]
    {
      coins := map[];
    }

    constructor Copy(other: UtxoSet)
      ensures coins == other.coins
    {
      coins := other.coins;
    }

    method Add(outpoint: OutPoint, coin: Coin) returns (r: Result<()>)
      modifies this
      ensures r == if outpoint in old(coins) then Err(InvalidStateTransition) else DONE
      ensures coins == if r.Ok? then old(coins)[outpoint := coin] else old(coins)
    {
      if outpoint in coins {
        return Err(InvalidStateTransition);
      }
      coins := coins[outpoint := coin];
      r := DONE;
    }

    method Spend(outpoint: OutPoint) returns (r: Result<Coin>)
      modifies this
      ensures r == if outpoint in old(coins) then Ok(old(coins)[outpoint]) else Err(InvalidStateTransition)
      ensures coins == old(coins) - {outpoint}
    {
      if outpoint !in coins {
        return Err(InvalidStateTransition);
      }
      r := Ok(coins[outpoint]);
      coins := coins - {outpoint};
    }
  }
}
