/** Safety over whole runs: coinbase maturity, bounds on live coins, and no re-creation. */
module RunSafety {
  import opened Base
  import opened Hashing
  import opened Transactions
  import opened Blocks
  import opened Utxo
  import opened TxValidation
  import opened BlockValidation
  import opened ChainRules
  import opened Traces

  /** Every live coin of a reachable chain was created at or below the tip, at an index below the
      output limit, with a value within the money range. */
  lemma LiveCoins(blocks: seq<Block>, params: ConsensusParams, op: OutPoint)
    requires Replay(blocks, params).Ok? && op in Replay(blocks, params).value.coins
    ensures var c := Replay(blocks, params).value;
            && c.coins[op].height <= c.tip.height
            && op.index < MAX_OUTPUTS
            && c.coins[op].output.value <= MAX_MONEY
  {
    hide Create, Submit, SaneBlock, Txid, EncTx, Runs, Events;
    var c := Replay(blocks, params).value;
    ReplayShape(blocks, params);
    ChainRuns(blocks, params);
    EventsOrdered(blocks);
    var es := Events(blocks);
    var k := Provenance(es, params.coinbaseMaturity, c.coins, op);
    var before := RunsPrefix(es, params.coinbaseMaturity, c.coins, k);
    SumBoundsEach(es[k].tx.outputs, op.index);
  }

  lemma LiveCoinsInRange(blocks: seq<Block>, params: ConsensusParams)
    requires Replay(blocks, params).Ok?
    ensures InRange(Replay(blocks, params).value.coins)
  {
    hide Replay;
    var coins := Replay(blocks, params).value.coins;
    forall op | op in coins ensures coins[op].output.value <= MAX_MONEY {
      LiveCoins(blocks, params, op);
    }
  }

  /** In every reachable chain, whatever event `k` spends was created by an earlier event `j`; if
      that was a coinbase, at least `coinbaseMaturity` blocks and at least one block before. */
  lemma SpendsMatureCoins(blocks: seq<Block>, params: ConsensusParams, k: nat, i: nat) returns (j: nat, before: Coins)
    requires Replay(blocks, params).Ok? && k < |Events(blocks)|
    requires !Events(blocks)[k].minted && i < |Events(blocks)[k].tx.inputs|
    ensures var es := Events(blocks); var op := es[k].tx.inputs[i];
            && j < k
            && Runs(es[..k], params.coinbaseMaturity, before)
            && op in before && CreatedBy(es[j], op, before[op])
            && (es[j].minted ==>
                  es[k].height >= es[j].height + params.coinbaseMaturity && es[k].height >= es[j].height + 1)
  {
    hide Create, Submit, SaneBlock, Txid, Runs, Events;
    ReplayShape(blocks, params);
    ChainRuns(blocks, params);
    EventsOrdered(blocks);
    var es := Events(blocks);
    before := RunsPrefix(es, params.coinbaseMaturity, Replay(blocks, params).value.coins, k);
    j := Provenance(es[..k], params.coinbaseMaturity, before, es[k].tx.inputs[i]);
  }

  // ----- no re-creation

  /** The messages hashed for the ids of these events. */
  ghost function IdMessages(es: seq<Event>): set<Bytes> {
    set i | 0 <= i < |es| :: EncTx(es[i].tx)
  }

  /** No id occurs twice. */
  ghost predicate DistinctIds(es: seq<Event>) {
    forall i, j :: 0 <= i < j < |es| ==> Txid(es[i].tx) != Txid(es[j].tx)
  }

  /** Nothing these events spent is among `coins`. */
  ghost predicate StaysSpent(es: seq<Event>, coins: Coins) {
    forall i, op :: 0 <= i < |es| && !es[i].minted && op in Prevouts(es[i].tx) ==> op !in coins
  }

  /** Whatever an event spends carries the id of an earlier event. */
  lemma SpentHasCreator(es: seq<Event>, maturity: U32, coins: Coins, k: nat, op: OutPoint) returns (j: nat)
    requires Runs(es, maturity, coins) && k < |es| && !es[k].minted && op in Prevouts(es[k].tx)
    ensures j < k && op.txid == Txid(es[j].tx)
  {
    hide Txid, Runs, SaneTx;
    var before := RunsPrefix(es, maturity, coins, k);
    j := Provenance(es[..k], maturity, before, op);
  }

  /** No two coinbases have the same id. */
  ghost predicate DistinctMints(es: seq<Event>) {
    forall i, j :: 0 <= i < j < |es| && es[i].minted && es[j].minted ==> Txid(es[i].tx) != Txid(es[j].tx)
  }

  /** An event that applies after a run repeats no id of it, unless it repeats a coinbase: to repeat
      a spend it would need an input that is gone. */
  lemma FreshId(es: seq<Event>, e: Event, maturity: U32, coins: Coins, messages: set<Bytes>, j: nat)
    requires Runs(es, maturity, coins) && Applies(e, coins, maturity) && StaysSpent(es, coins)
    requires DistinctMints(es + [e])
    requires NoCollision(messages) && IdMessages(es + [e]) <= messages
    requires j < |es|
    ensures Txid(e.tx) != Txid(es[j].tx)
  {
    hide Runs, EncTx, Fresh, Mature, NoCollision;
    var all := es + [e];
    assert all[j] == es[j] && all[|es|] == e;
    var before := RunsPrefix(es, maturity, coins, j);
    assert WireTx(es[j].tx) && WireTx(e.tx);
    assert es[j].tx.inputs[0] in Prevouts(es[j].tx);
    if Txid(e.tx) == Txid(es[j].tx) {
      assert EncTx(all[j].tx) in IdMessages(all) && EncTx(all[|es|].tx) in IdMessages(all);
      TxidInjective(e.tx, es[j].tx, messages);
      assert false;
    }
  }

  lemma SpentStepsOver(es: seq<Event>, e: Event, before: Coins, i: nat, op: OutPoint)
    requires SaneTx(e.tx) && StaysSpent(es, before) && op.txid != Txid(e.tx)
    requires i <= |es| && var s := (es + [e])[i]; !s.minted && op in Prevouts(s.tx)
    ensures op !in After(e, before)
  {
    hide Txid, EncTx;
  }

  /** An event with a new id brings back nothing that was spent. */
  lemma StaysSpentStep(es: seq<Event>, e: Event, maturity: U32, before: Coins)
    requires Runs(es, maturity, before) && Applies(e, before, maturity) && StaysSpent(es, before)
    requires forall j :: 0 <= j < |es| ==> Txid(es[j].tx) != Txid(e.tx)
    ensures StaysSpent(es + [e], After(e, before))
  {
    hide Txid, EncTx, SaneTx, IsCoinbase, Fresh, Mature, Spendable, Runs, After, Prevouts;
    var all := es + [e];
    RunsStep(es, e, maturity, before);
    forall i, op | 0 <= i < |all| && !all[i].minted && op in Prevouts(all[i].tx)
      ensures op !in After(e, before)
    {
      var j := SpentHasCreator(all, maturity, After(e, before), i, op);
      SpentStepsOver(es, e, before, i, op);
    }
  }

  /** Invariant of runs with distinct coinbases: all ids stay distinct and spent outpoints stay spent. */
  lemma {:induction false} RunInvariant(es: seq<Event>, maturity: U32, coins: Coins, messages: set<Bytes>)
    requires Runs(es, maturity, coins) && DistinctMints(es)
    requires NoCollision(messages) && IdMessages(es) <= messages
    ensures DistinctIds(es) && StaysSpent(es, coins)
  {
    hide Txid, EncTx, NoCollision, SaneTx, IsCoinbase, Fresh, Mature, Spendable, After, Prevouts;
    if es != [] {
      var n := |es| - 1;
      var init, e := es[..n], es[n];
      var before :| Runs(init, maturity, before) && Applies(e, before, maturity) && coins == After(e, before);
      assert es == init + [e];
      RunInvariant(init, maturity, before, messages);
      forall j | 0 <= j < n ensures Txid(init[j].tx) != Txid(e.tx) {
        FreshId(init, e, maturity, before, messages, j);
      }
      StaysSpentStep(init, e, maturity, before);
    }
  }

  /** Nothing spent at any point of the run is unspent at that point. */
  ghost predicate AlwaysStaysSpent(es: seq<Event>, maturity: U32) {
    forall k, before :: 0 <= k <= |es| && Runs(es[..k], maturity, before) ==> StaysSpent(es[..k], before)
  }

  /** An outpoint that an event created and that is gone was spent by a later event. */
  lemma {:induction false} LostWasSpent(es: seq<Event>, maturity: U32, coins: Coins, i: nat, op: OutPoint)
    returns (m: nat)
    requires Runs(es, maturity, coins) && i < |es| && Creates(es[i].tx, op) && op !in coins
    ensures i < m < |es| && !es[m].minted && op in Prevouts(es[m].tx)
    decreases |es|
  {
    hide Txid, SaneTx, Fresh, Mature, Spendable, IsCoinbase, Prevouts, FirstCoins;
    var n := |es| - 1;
    var before :| Runs(es[..n], maturity, before) && Applies(es[n], before, maturity) && coins == After(es[n], before);
    if op in before {
      m := n;
    } else {
      m := LostWasSpent(es[..n], maturity, before, i, op);
    }
  }

  /** A second coinbase with the id of an earlier one brings back an output that was spent in between. */
  lemma RemintBringsBack(es: seq<Event>, maturity: U32, coins: Coins, i: nat, j: nat)
    requires Runs(es, maturity, coins) && i < j < |es| && es[i].minted && es[j].minted
    requires Txid(es[i].tx) == Txid(es[j].tx)
    ensures !AlwaysStaysSpent(es, maturity)
  {
    hide Runs, Mature, Spendable, IsCoinbase, Txid, EncTx, Prevouts, FirstCoins;
    var before := RunsPrefix(es, maturity, coins, j);
    var first := RunsPrefix(es, maturity, coins, i);
    var op := OutPoint(Txid(es[j].tx), 0);
    assert Creates(es[j].tx, op) && Creates(es[i].tx, op);
    var m := LostWasSpent(es[..j], maturity, before, i, op);
    var after := After(es[j], before);
    assert op in after;
    assert es[..j + 1][m] == es[m];
  }

  /** For every run, three things are the same: ids are pairwise distinct, those of the coinbases are,
      and nothing spent at any point of the run is ever unspent again. */
  lemma DistinctIdsExact(es: seq<Event>, maturity: U32, coins: Coins, messages: set<Bytes>)
    requires Runs(es, maturity, coins) && NoCollision(messages) && IdMessages(es) <= messages
    ensures DistinctIds(es) <==> DistinctMints(es)
    ensures AlwaysStaysSpent(es, maturity) <==> DistinctMints(es)
  {
    hide Txid, EncTx, NoCollision, Runs, Prevouts;
    if DistinctMints(es) {
      RunInvariant(es, maturity, coins, messages);
      forall k, before | 0 <= k <= |es| && Runs(es[..k], maturity, before)
        ensures StaysSpent(es[..k], before)
      {
        RunInvariant(es[..k], maturity, before, messages);
      }
    } else {
      var i, j :| 0 <= i < j < |es| && es[i].minted && es[j].minted && Txid(es[i].tx) == Txid(es[j].tx);
      RemintBringsBack(es, maturity, coins, i, j);
    }
  }

  // ----- from events back to blocks

  /** No two blocks have coinbases with the same id. */
  ghost predicate DistinctCoinbases(blocks: seq<Block>) {
    forall i, j :: 0 <= i < j < |blocks| && HasCoinbase(blocks[i]) && HasCoinbase(blocks[j]) ==>
      Txid(blocks[i].transactions[0]) != Txid(blocks[j].transactions[0])
  }

  /** The coinbase of a block is an event at its height. */
  lemma {:induction false} CoinbaseEvent(blocks: seq<Block>, k: nat) returns (i: nat)
    requires k < |blocks| && HasCoinbase(blocks[k])
    ensures i < |Events(blocks)| && Events(blocks)[i] == Event(blocks[k].transactions[0], blocks[k].header.height, true)
    decreases |blocks|
  {
    var n := |blocks| - 1;
    if k == n {
      i := |Events(blocks)| - 1;
    } else {
      i := CoinbaseEvent(blocks[..n], k);
    }
  }

  /** Every minted event is the coinbase of the block at its height. */
  lemma {:induction false} MintIsCoinbase(blocks: seq<Block>, i: nat)
    requires forall k :: 0 <= k < |blocks| ==> blocks[k].header.height == k
    requires i < |Events(blocks)| && Events(blocks)[i].minted
    ensures var k := Events(blocks)[i].height;
            k < |blocks| && HasCoinbase(blocks[k]) && Events(blocks)[i].tx == blocks[k].transactions[0]
    decreases |blocks|
  {
    var n := |blocks| - 1;
    if i < |Events(blocks[..n])| {
      MintIsCoinbase(blocks[..n], i);
    }
  }

  lemma {:induction false} MintsExact(blocks: seq<Block>)
    requires forall k :: 0 <= k < |blocks| ==> blocks[k].header.height == k
    ensures DistinctMints(Events(blocks)) <==> DistinctCoinbases(blocks)
  {
    hide Txid, Events, IsCoinbase;
    var es := Events(blocks);
    EventsOrdered(blocks);
    if DistinctMints(es) {
      forall j, k | 0 <= j < k < |blocks| && HasCoinbase(blocks[j]) && HasCoinbase(blocks[k])
        ensures Txid(blocks[j].transactions[0]) != Txid(blocks[k].transactions[0])
      {
        MintsDiffer(blocks, j, k);
      }
    }
    if DistinctCoinbases(blocks) {
      forall i, i' | 0 <= i < i' < |es| && es[i].minted && es[i'].minted ensures Txid(es[i].tx) != Txid(es[i'].tx) {
        MintIsCoinbase(blocks, i);
        MintIsCoinbase(blocks, i');
      }
    }
  }

  lemma MintsDiffer(blocks: seq<Block>, j: nat, k: nat)
    requires j < k < |blocks| && HasCoinbase(blocks[j]) && HasCoinbase(blocks[k])
    requires blocks[j].header.height == j && blocks[k].header.height == k
    requires Ordered(Events(blocks)) && DistinctMints(Events(blocks))
    ensures Txid(blocks[j].transactions[0]) != Txid(blocks[k].transactions[0])
  {
    hide Txid, Events, IsCoinbase;
    var i := CoinbaseEvent(blocks, j);
    var i' := CoinbaseEvent(blocks, k);
    assert i < i';
  }

  /** In every reachable chain, no id is connected twice if and only if no two coinbases share one, and
      if and only if an outpoint that was spent is absent from every later state. */
  lemma NoRecreation(blocks: seq<Block>, params: ConsensusParams, messages: set<Bytes>)
    requires Replay(blocks, params).Ok?
    requires NoCollision(messages) && IdMessages(Events(blocks)) <= messages
    ensures DistinctIds(Events(blocks)) <==> DistinctCoinbases(blocks)
    ensures AlwaysStaysSpent(Events(blocks), params.coinbaseMaturity) <==> DistinctCoinbases(blocks)
  {
    hide Create, Submit, SaneBlock, NoCollision, Txid, EncTx, Runs, Events, AlwaysStaysSpent, DistinctIds;
    ReplayShape(blocks, params);
    ChainRuns(blocks, params);
    MintsExact(blocks);
    DistinctIdsExact(Events(blocks), params.coinbaseMaturity, Replay(blocks, params).value.coins, messages);
  }

  // ----- coinbases that carry their heights

  /** The coinbase of `b`, if any, carries the height of `b` as `MakeCoinbase` writes it. */
  predicate Tagged(b: Block) {
    HasCoinbase(b) ==> b.transactions[0].inputs[0].txid == CoinbaseTag(b.header.height)
  }

  ghost predicate TaggedEvents(es: seq<Event>) {
    forall i :: 0 <= i < |es| && es[i].minted ==>
      es[i].tx.inputs != [] && es[i].tx.inputs[0].txid == CoinbaseTag(es[i].height)
  }

  lemma {:induction false} EventsTagged(blocks: seq<Block>)
    requires forall i :: 0 <= i < |blocks| ==> Tagged(blocks[i]) && blocks[i].header.height == i
    ensures TaggedEvents(Events(blocks))
  {
    hide CoinbaseTag, Events;
    forall i | 0 <= i < |Events(blocks)| && Events(blocks)[i].minted
      ensures var e := Events(blocks)[i]; e.tx.inputs != [] && e.tx.inputs[0].txid == CoinbaseTag(e.height)
    {
      MintIsCoinbase(blocks, i);
    }
  }

  /** Coinbases that carry their heights have distinct ids, so nothing is recreated. */
  lemma TaggedAreDistinct(blocks: seq<Block>, params: ConsensusParams, messages: set<Bytes>)
    requires Replay(blocks, params).Ok? && forall i :: 0 <= i < |blocks| ==> Tagged(blocks[i])
    requires NoCollision(messages) && IdMessages(Events(blocks)) <= messages
    ensures DistinctCoinbases(blocks)
  {
    hide Create, Submit, SaneBlock, NoCollision, EncTx, Events, CoinbaseTag;
    ReplayShape(blocks, params);
    forall j, k | 0 <= j < k < |blocks| && HasCoinbase(blocks[j]) && HasCoinbase(blocks[k])
      ensures Txid(blocks[j].transactions[0]) != Txid(blocks[k].transactions[0])
    {
      var a, b := blocks[j].transactions[0], blocks[k].transactions[0];
      var i := CoinbaseEvent(blocks, j);
      var i' := CoinbaseEvent(blocks, k);
      assert EncTx(a) in IdMessages(Events(blocks)) && EncTx(b) in IdMessages(Events(blocks));
      CoinbaseIsWire(blocks[j]);
      CoinbaseIsWire(blocks[k]);
      if Txid(a) == Txid(b) {
        TxidInjective(a, b, messages);
        CoinbaseTagInjective(j, k);
        assert false;
      }
    }
  }

  lemma CoinbaseIsWire(b: Block)
    requires SaneBlock(b) && HasCoinbase(b)
    ensures WireTx(b.transactions[0])
  {
  }
}
