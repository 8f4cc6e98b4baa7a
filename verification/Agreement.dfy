/** Pool and chain: which entries still apply after a block, and why mining from one's own pool
    strands none. */
module Agreement {
  import opened Base
  import opened Hashing
  import opened Transactions
  import opened Blocks
  import opened Utxo
  import opened TxValidation
  import opened BlockValidation
  import opened ChainRules
  import opened Traces
  import opened RunSafety
  import opened FeeRate
  import opened Ranking
  import opened Pools
  import opened Eviction
  import opened Builder

  /** Every entry's inputs are unspent and its recorded fee is its fee. */
  ghost predicate Agrees(p: Pool, coins: Coins) {
    forall k :: k in p.entries ==> TxFee(p.entries[k].tx, coins) == Ok(p.entries[k].fee)
  }

  // ----- what a block leaves alone

  lemma {:induction false} SameInputs(inputs: seq<OutPoint>, c: Coins, d: Coins)
    requires Spendable(inputs, c)
    requires forall i :: 0 <= i < |inputs| ==> inputs[i] in d && d[inputs[i]] == c[inputs[i]]
    ensures Spendable(inputs, d) && InputValue(inputs, d) == InputValue(inputs, c)
  {
    if inputs != [] {
      SameInputs(inputs[..|inputs| - 1], c, d);
    }
  }

  /** The fee depends only on the coins the transaction spends. */
  lemma FeeIsLocal(tx: Transaction, c: Coins, d: Coins)
    requires TxFee(tx, c).Ok?
    requires forall op :: op in Prevouts(tx) ==> op in d && op in c && d[op] == c[op]
    ensures TxFee(tx, d) == TxFee(tx, c)
  {
    assert forall i :: 0 <= i < |tx.inputs| ==> tx.inputs[i] in Prevouts(tx);
    SameInputs(tx.inputs, c, d);
  }

  ghost predicate SpentBy(txs: seq<Transaction>, op: OutPoint) {
    exists i :: 0 <= i < |txs| && op in Prevouts(txs[i])
  }

  lemma TxKeeps(tx: Transaction, coins: Coins, height: U32, maturity: U32, op: OutPoint)
    requires SaneTx(tx) && TxEffect(tx, coins, height, maturity).Ok? && op in coins && op !in Prevouts(tx)
    ensures var after := TxEffect(tx, coins, height, maturity).value.0; op in after && after[op] == coins[op]
  {
    hide Txid, EncTx, Prevouts, Mature, TxFee;
  }

  lemma {:induction false} BodyKeeps(txs: seq<Transaction>, coins: Coins, height: U32, maturity: U32, op: OutPoint)
    requires AllSane(txs) && BodyEffect(txs, coins, height, maturity).Ok? && op in coins && !SpentBy(txs, op)
    ensures var after := BodyEffect(txs, coins, height, maturity).value.0; op in after && after[op] == coins[op]
  {
    hide SaneTx, TxEffect, Prevouts;
    if txs != [] {
      var n := |txs| - 1;
      assert op !in Prevouts(txs[n]);
      forall i | 0 <= i < n ensures op !in Prevouts(txs[..n][i]) {
        assert txs[..n][i] == txs[i];
      }
      BodyKeeps(txs[..n], coins, height, maturity, op);
      TxKeeps(txs[n], BodyEffect(txs[..n], coins, height, maturity).value.0, height, maturity, op);
    }
  }

  /** A coin the body does not spend is untouched by the block. */
  lemma BlockKeeps(b: Block, coins: Coins, params: ConsensusParams, op: OutPoint)
    requires BlockEffect(b, coins, params).Ok? && op in coins && !SpentBy(Body(b), op)
    ensures var after := BlockEffect(b, coins, params).value.0; op in after && after[op] == coins[op]
  {
    hide BodyEffect, BlockSanity, SaneTx, Txid, SpentBy, EncBlock;
    SanityExact(b);
    BodyKeeps(Body(b), coins, b.header.height, params.coinbaseMaturity, op);
  }

  /** A coin the body spends is gone, unless the block creates it anew. */
  lemma {:induction false} BodySpends(txs: seq<Transaction>, coins: Coins, height: U32, maturity: U32, op: OutPoint)
    requires AllSane(txs) && BodyEffect(txs, coins, height, maturity).Ok?
    requires op !in coins || SpentBy(txs, op)
    requires forall i :: 0 <= i < |txs| ==> Txid(txs[i]) != op.txid
    ensures op !in BodyEffect(txs, coins, height, maturity).value.0
  {
    hide SaneTx, Prevouts, Txid, EncTx;
    if txs != [] {
      var n := |txs| - 1;
      var before := BodyEffect(txs[..n], coins, height, maturity).value.0;
      if op !in Prevouts(txs[n]) {
        if op in coins {
          var i :| 0 <= i < |txs| && op in Prevouts(txs[i]);
          assert op in Prevouts(txs[..n][i]);
        }
        BodySpends(txs[..n], coins, height, maturity, op);
      }
      TxSpends(txs[n], before, height, maturity, op);
    }
  }

  lemma TxSpends(tx: Transaction, coins: Coins, height: U32, maturity: U32, op: OutPoint)
    requires SaneTx(tx) && TxEffect(tx, coins, height, maturity).Ok? && Txid(tx) != op.txid
    requires op !in coins || op in Prevouts(tx)
    ensures op !in TxEffect(tx, coins, height, maturity).value.0
  {
    hide Txid, EncTx, Prevouts, Mature, TxFee;
  }

  // ----- after any accepted block

  /** After any accepted block, a surviving entry whose inputs the block does not recreate still
      agrees with the chain exactly when the block spends none of them. */
  lemma AgreesAfterBlock(p: Pool, c: ChainState, b: Block, k: Hash)
    requires Valid(p) && Agrees(p, c.coins) && Submit(c, b).Ok? && k in Prune(p, b.transactions).entries
    ensures k in p.entries && Prune(p, b.transactions).entries[k] == p.entries[k]
    ensures var e, coins := p.entries[k], Submit(c, b).value.0.coins;
            && ((forall op :: op in Prevouts(e.tx) ==> !SpentBy(Body(b), op)) ==> TxFee(e.tx, coins) == Ok(e.fee))
            && ((exists op :: op in Prevouts(e.tx) && SpentBy(Body(b), op) && op.txid !in Txids(b.transactions)) ==>
                  TxFee(e.tx, coins).Err?)
  {
    hide Valid, BlockEffect, Submit, SpentBy, Prevouts, Txid, TxFee;
    PruneExact(p, b.transactions);
    SubmitFacts(c, b);
    var e, coins := p.entries[k], Submit(c, b).value.0.coins;
    if forall op :: op in Prevouts(e.tx) ==> !SpentBy(Body(b), op) {
      forall op | op in Prevouts(e.tx) ensures op in c.coins && op in coins && coins[op] == c.coins[op] {
        FeeNeedsPrevouts(e.tx, c.coins, op);
        BlockKeeps(b, c.coins, c.params, op);
      }
      FeeIsLocal(e.tx, c.coins, coins);
    }
    if op :| op in Prevouts(e.tx) && SpentBy(Body(b), op) && op.txid !in Txids(b.transactions) {
      SpentIsGone(b, c.coins, c.params, op);
      if TxFee(e.tx, coins).Ok? {
        FeeNeedsPrevouts(e.tx, coins, op);
      }
    }
  }

  lemma SpentIsGone(b: Block, coins: Coins, params: ConsensusParams, op: OutPoint)
    requires BlockEffect(b, coins, params).Ok? && SpentBy(Body(b), op) && op.txid !in Txids(b.transactions)
    ensures op !in BlockEffect(b, coins, params).value.0
  {
    hide BodyEffect, BlockSanity, SaneTx, Txid, SpentBy, EncBlock;
    SanityExact(b);
    forall i | 0 <= i < |Body(b)| ensures Txid(Body(b)[i]) != op.txid {
      var j := if HasCoinbase(b) then i + 1 else i;
      assert Txids(b.transactions)[j] == Txid(Body(b)[i]);
    }
    BodySpends(Body(b), coins, b.header.height, params.coinbaseMaturity, op);
    if HasCoinbase(b) {
      assert Txids(b.transactions)[0] == Txid(b.transactions[0]);
    }
  }

  lemma FeeNeedsPrevouts(tx: Transaction, coins: Coins, op: OutPoint)
    requires TxFee(tx, coins).Ok? && op in Prevouts(tx)
    ensures op in coins
  {
  }

  /** A body transaction of the last block is an event of the history. */
  lemma BodyEvent(blocks: seq<Block>, b: Block, i: nat)
    requires i < |Body(b)|
    ensures var k := |Events(blocks)| + i;
            k < |Events(blocks + [b])| && Events(blocks + [b])[k] == Event(Body(b)[i], b.header.height, false)
  {
    assert (blocks + [b])[..|blocks|] == blocks;
  }

  /** Over every reachable chain with distinct coinbases, its next block included: an entry that
      survives the block keeps its fee if and only if the body spends none of its inputs, and
      cannot be spent at all otherwise. */
  lemma SurvivorExact(p: Pool, blocks: seq<Block>, params: ConsensusParams, b: Block, k: Hash, messages: set<Bytes>)
    requires Replay(blocks, params).Ok?
    requires var c := Replay(blocks, params).value; Valid(p) && Agrees(p, c.coins) && Submit(c, b).Ok?
    requires k in Prune(p, b.transactions).entries && DistinctCoinbases(blocks + [b])
    requires NoCollision(messages) && IdMessages(Events(blocks + [b])) <= messages
    ensures k in p.entries && Prune(p, b.transactions).entries[k] == p.entries[k]
    ensures var e, coins := p.entries[k], Submit(Replay(blocks, params).value, b).value.0.coins;
            if exists op :: op in Prevouts(e.tx) && SpentBy(Body(b), op) then TxFee(e.tx, coins).Err?
            else TxFee(e.tx, coins) == Ok(e.fee)
  {
    hide Valid, Submit, Prune, Prevouts, Txid, TxFee, Replay, Events, NoCollision, IdMessages, DistinctCoinbases,
         DistinctIds, Runs;
    var c := Replay(blocks, params).value;
    AgreesAfterBlock(p, c, b, k);
    var e, coins := p.entries[k], Submit(c, b).value.0.coins;
    if op :| op in Prevouts(e.tx) && SpentBy(Body(b), op) {
      var i :| 0 <= i < |Body(b)| && op in Prevouts(Body(b)[i]);
      var all, es := blocks + [b], Events(blocks + [b]);
      ReplayExtends(blocks, params, b);
      ChainRuns(all, params);
      NoRecreation(all, params, messages);
      assert es[..|es|] == es;
      BodyEvent(blocks, b, i);
      assert op !in coins;
      if TxFee(e.tx, coins).Ok? {
        FeeNeedsPrevouts(e.tx, coins, op);
        assert false;
      }
    }
  }

  lemma ReplayExtends(blocks: seq<Block>, params: ConsensusParams, b: Block)
    requires Replay(blocks, params).Ok? && Submit(Replay(blocks, params).value, b).Ok?
    ensures Replay(blocks + [b], params) == Ok(Submit(Replay(blocks, params).value, b).value.0)
  {
    hide Submit, Create;
    assert blocks != [];
    ReplayAppend(blocks, b, params);
  }

  // ----- after a block of one's own

  /** A survivor of a block drawn from the pool shares no input with it. */
  lemma SurvivorUntouched(p: Pool, txs: seq<Transaction>, k: Hash, op: OutPoint)
    requires Valid(p) && DrawnFrom(txs, RankedPool(p)) && k in p.entries && k !in Txids(txs)
    requires op in Prevouts(p.entries[k].tx)
    ensures !SpentBy(txs, op)
  {
    hide Prevouts, EncTx, SaneTx, RankedPool;
    if SpentBy(txs, op) {
      var i :| 0 <= i < |txs| && op in Prevouts(txs[i]);
      assert Drawn(txs[i], RankedPool(p));
      var j :| 0 <= j < |RankedPool(p)| && RankedPool(p)[j].tx == txs[i];
      RankedEntry(p, RankedPool(p)[j]);
      assert Txids(txs)[i] == Txid(txs[i]);
      NoConflicts(p, Txid(txs[i]), k);
      assert false;
    }
  }

  lemma RankedEntry(p: Pool, e: Entry)
    requires Valid(p) && e in RankedPool(p)
    ensures e.txid in p.entries && p.entries[e.txid] == e && e.txid == Txid(e.tx)
  {
    hide IndexOk, SaneTx, EncTx, Txid;
    EntriesKeyed(p.entries);
    RankedMembers(p.entries, e);
  }

  /** A block whose body was drawn from the pool leaves the survivors in agreement with the chain. */
  lemma OwnBlockAgrees(p: Pool, c: ChainState, b: Block)
    requires Valid(p) && Agrees(p, c.coins) && Submit(c, b).Ok? && DrawnFrom(Body(b), RankedPool(p))
    ensures Agrees(Prune(p, b.transactions), Submit(c, b).value.0.coins)
  {
    hide Valid, Submit, SpentBy, Prevouts, Txid, TxFee, RankedPool, Drawn;
    var q := Prune(p, b.transactions);
    PruneExact(p, b.transactions);
    forall k | k in q.entries
      ensures TxFee(q.entries[k].tx, Submit(c, b).value.0.coins) == Ok(q.entries[k].fee)
    {
      forall op | op in Prevouts(p.entries[k].tx) ensures !SpentBy(Body(b), op) {
        assert k !in Txids(Body(b)) by {
          assert forall i :: 0 <= i < |b.transactions| ==> Txid(b.transactions[i]) != k;
        }
        SurvivorUntouched(p, Body(b), k, op);
      }
      AgreesAfterBlock(p, c, b, k);
    }
  }

  /** Admission, with whatever it evicts, keeps the pool in agreement. */
  lemma AcceptAgrees(p: Pool, tx: Transaction, coins: Coins, policy: Policy)
    requires Valid(p) && Agrees(p, coins)
    ensures Agrees(Accept(p, tx, coins, policy).1, coins)
  {
    hide Valid, SaneTx, TxFee, MakeRoom, EncTx, Conflicts;
    if Admission(tx, coins, policy).Ok? {
      MakeRoomSubmap(p, Incoming(tx, coins, policy));
    }
  }
}
