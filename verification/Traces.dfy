/** A chain's history flattened to the transactions in the order they took effect: the body of
    each block, then its coinbase.  Facts about every reachable chain are inductions over it. */
module Traces {
  import opened Base
  import opened Transactions
  import opened Blocks
  import opened Utxo
  import opened TxValidation
  import opened BlockValidation
  import opened ChainRules

  /** A transaction taking effect in the block at `height`; `minted` marks the coinbase. */
  datatype Event = Event(tx: Transaction, height: U32, minted: bool)

  function BodyEvents(txs: seq<Transaction>, height: U32): (es: seq<Event>)
    ensures |es| == |txs|
    ensures forall i :: 0 <= i < |txs| ==> es[i] == Event(txs[i], height, false)
  {
    seq(|txs|, i requires 0 <= i < |txs| => Event(txs[i], height, false))
  }

  function BlockEvents(b: Block): seq<Event> {
    BodyEvents(Body(b), b.header.height) +
    if HasCoinbase(b) then [Event(b.transactions[0], b.header.height, true)] else []
  }

  function Events(blocks: seq<Block>): seq<Event> {
    if blocks == [] then [] else Events(blocks[..|blocks| - 1]) + BlockEvents(blocks[|blocks| - 1])
  }

  /** The event meets its rules over `coins`. */
  ghost predicate Applies(e: Event, coins: Coins, maturity: U32) {
    && SaneTx(e.tx)
    && e.minted == IsCoinbase(e.tx)
    && if e.minted then Fresh(e.tx, coins) else
         && Spendable(e.tx.inputs, coins)
         && Mature(e.tx.inputs, coins, e.height, maturity)
         && Fresh(e.tx, coins - Prevouts(e.tx))
  }

  ghost function After(e: Event, coins: Coins): Coins
    requires SaneTx(e.tx)
  {
    (if e.minted then coins else coins - Prevouts(e.tx)) + NewCoins(e.tx, e.height, e.minted)
  }

  /** `es`, started from nothing, runs without breaking a rule and ends in `coins`. */
  ghost predicate Runs(es: seq<Event>, maturity: U32, coins: Coins) {
    if es == [] then coins == map[] else
      var n := |es| - 1;
      exists before ::
        Runs(es[..n], maturity, before) && Applies(es[n], before, maturity) && coins == After(es[n], before)
  }

  /** Heights never fall, and nothing else happens at the height of a coinbase after it. */
  ghost predicate Ordered(es: seq<Event>) {
    forall i, j :: 0 <= i < j < |es| ==>
      es[i].height <= es[j].height && (es[i].minted ==> es[i].height < es[j].height)
  }

  lemma RunsStep(es: seq<Event>, e: Event, maturity: U32, coins: Coins)
    requires Runs(es, maturity, coins) && Applies(e, coins, maturity)
    ensures Runs(es + [e], maturity, After(e, coins))
  {
    hide Applies, After;
    assert (es + [e])[..|es|] == es;
  }

  /** The state in which event `k` took effect. */
  lemma {:induction false} RunsPrefix(es: seq<Event>, maturity: U32, coins: Coins, k: nat) returns (before: Coins)
    requires Runs(es, maturity, coins) && k < |es|
    ensures Runs(es[..k], maturity, before) && Applies(es[k], before, maturity)
    ensures Runs(es[..k + 1], maturity, After(es[k], before))
    decreases |es|
  {
    hide SaneTx, After, Spendable, Mature, Fresh, IsCoinbase;
    var n := |es| - 1;
    var c0 :| Runs(es[..n], maturity, c0) && Applies(es[n], c0, maturity) && coins == After(es[n], c0);
    if k == n {
      before := c0;
      assert es[..k + 1] == es;
    } else {
      before := RunsPrefix(es[..n], maturity, c0, k);
      assert es[..n][..k] == es[..k] && es[..n][..k + 1] == es[..k + 1];
    }
  }

  // ----- from blocks to events

  lemma TxRuns(es: seq<Event>, tx: Transaction, coins: Coins, height: U32, maturity: U32)
    requires Runs(es, maturity, coins) && SaneTx(tx) && !IsCoinbase(tx) && TxEffect(tx, coins, height, maturity).Ok?
    ensures Runs(es + [Event(tx, height, false)], maturity, TxEffect(tx, coins, height, maturity).value.0)
  {
    hide Runs, Txid, EncTx;
    RunsStep(es, Event(tx, height, false), maturity, coins);
  }

  lemma {:induction false} BodyRuns(es: seq<Event>, txs: seq<Transaction>, coins: Coins, height: U32, maturity: U32)
    requires Runs(es, maturity, coins)
    requires AllSane(txs) && forall i :: 0 <= i < |txs| ==> !IsCoinbase(txs[i])
    requires BodyEffect(txs, coins, height, maturity).Ok?
    ensures Runs(es + BodyEvents(txs, height), maturity, BodyEffect(txs, coins, height, maturity).value.0)
  {
    hide Runs, SaneTx, TxEffect, IsCoinbase;
    if txs == [] {
      assert es + BodyEvents(txs, height) == es;
    } else {
      var n := |txs| - 1;
      BodyRuns(es, txs[..n], coins, height, maturity);
      var es' := es + BodyEvents(txs[..n], height);
      TxRuns(es', txs[n], BodyEffect(txs[..n], coins, height, maturity).value.0, height, maturity);
      assert es + BodyEvents(txs, height) == es' + [Event(txs[n], height, false)];
    }
  }

  lemma BlockRuns(es: seq<Event>, b: Block, coins: Coins, params: ConsensusParams)
    requires Runs(es, params.coinbaseMaturity, coins) && BlockEffect(b, coins, params).Ok?
    ensures Runs(es + BlockEvents(b), params.coinbaseMaturity, BlockEffect(b, coins, params).value.0)
  {
    hide Runs, BodyEffect, BlockSanity, SaneTx, Txid, EncBlock;
    SanityExact(b);
    var height, maturity := b.header.height, params.coinbaseMaturity;
    BodyRuns(es, Body(b), coins, height, maturity);
    var es', before := es + BodyEvents(Body(b), height), BodyEffect(Body(b), coins, height, maturity).value.0;
    if HasCoinbase(b) {
      var e := Event(b.transactions[0], height, true);
      RunsStep(es', e, maturity, before);
      assert es + BlockEvents(b) == es' + [e];
    } else {
      assert es + BlockEvents(b) == es';
    }
  }

  /** Every reachable chain is a run of its events. */
  lemma {:induction false} ChainRuns(blocks: seq<Block>, params: ConsensusParams)
    requires Replay(blocks, params).Ok?
    ensures Runs(Events(blocks), params.coinbaseMaturity, Replay(blocks, params).value.coins)
  {
    hide Create, Submit, BlockEffect, SaneBlock, BlockEvents;
    ReplayShape(blocks, params);
    var n := |blocks| - 1;
    if n == 0 {
      CreateFacts(blocks[0], params);
      BlockRuns([], blocks[0], map[], params);
      assert Events(blocks[..0]) == [];
    } else {
      hide Runs;
      ChainRuns(blocks[..n], params);
      ReplayShape(blocks[..n], params);
      var c := Replay(blocks[..n], params).value;
      SubmitFacts(c, blocks[n]);
      BlockRuns(Events(blocks[..n]), blocks[n], c.coins, params);
    }
  }

  lemma BlockEventsHeight(b: Block)
    ensures forall i :: 0 <= i < |BlockEvents(b)| ==> BlockEvents(b)[i].height == b.header.height
    ensures Ordered(BlockEvents(b))
  {
  }

  /** Block heights count up from zero, so events are ordered. */
  lemma {:induction false} EventsOrdered(blocks: seq<Block>)
    requires forall i :: 0 <= i < |blocks| ==> blocks[i].header.height == i
    ensures Ordered(Events(blocks))
    ensures forall i :: 0 <= i < |Events(blocks)| ==> Events(blocks)[i].height < |blocks|
  {
    hide BlockEvents;
    if blocks != [] {
      var n := |blocks| - 1;
      EventsOrdered(blocks[..n]);
      BlockEventsHeight(blocks[n]);
    }
  }

  // ----- provenance

  /** `coin` at `op` is what event `e` created there. */
  ghost predicate CreatedBy(e: Event, op: OutPoint, coin: Coin) {
    Creates(e.tx, op) && coin == Coin(e.tx.outputs[op.index], e.height, e.minted)
  }

  lemma AfterMembers(e: Event, before: Coins, op: OutPoint)
    requires SaneTx(e.tx) && op in After(e, before)
    ensures CreatedBy(e, op, After(e, before)[op]) ||
            (op in before && After(e, before)[op] == before[op] && (e.minted || op !in Prevouts(e.tx)))
  {
    hide Txid, EncTx, FirstCoins;
  }

  /** Every unspent coin was created by some event, with its height and coinbase mark. */
  lemma {:induction false} Provenance(es: seq<Event>, maturity: U32, coins: Coins, op: OutPoint) returns (k: nat)
    requires Runs(es, maturity, coins) && op in coins
    ensures k < |es| && CreatedBy(es[k], op, coins[op])
  {
    hide Txid, SaneTx, After, CreatedBy;
    var n := |es| - 1;
    var before :| Runs(es[..n], maturity, before) && Applies(es[n], before, maturity) && coins == After(es[n], before);
    AfterMembers(es[n], before, op);
    if CreatedBy(es[n], op, coins[op]) {
      k := n;
    } else {
      k := Provenance(es[..n], maturity, before, op);
    }
  }
}
