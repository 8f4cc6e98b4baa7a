/** Inputs on which properties one might expect do not hold.  The hash is arbitrary, so where two
    ids must differ that is a hypothesis about the two encodings. */
module Counterexamples {
  import opened Base
  import opened MapSums
  import opened Hashing
  import opened Transactions
  import opened Blocks
  import opened Merkle
  import opened Utxo
  import opened TxValidation
  import opened BlockValidation
  import opened ChainRules
  import opened Traces
  import opened RunSafety
  import opened FeeRate
  import opened Ranking
  import opened Pools
  import opened Eviction
  import opened Builder
  import opened Templates
  import opened Agreement
  import opened NodeRuns
  import opened PeerRestart
  import opened Simulator
  import opened Peers
  import opened Relay

  // ----- small transactions

  /** Spends `op` into one output. */
  function Pay(op: OutPoint, value: U64): Transaction {
    Transaction(TRANSACTION_VERSION, [op], [TxOutput(value, ZERO_HASH)], 0)
  }

  lemma PayFacts(op: OutPoint, value: U64)
    requires op.index != NULL_INDEX && value <= MAX_MONEY
    ensures SaneTx(Pay(op, value)) && !IsCoinbase(Pay(op, value)) && |EncTx(Pay(op, value))| == 92
    ensures Prevouts(Pay(op, value)) == {op} && TotalValue(Pay(op, value).outputs) == value
  {
    var tx := Pay(op, value);
    EncTxLength(tx);
    hide EncTx;
    OneOutput(tx.outputs);
    assert tx.inputs[0] in Prevouts(tx);
    assert Prevouts(tx) == {op};
  }

  lemma OneOutput(outputs: seq<TxOutput>)
    requires |outputs| == 1
    ensures TotalValue(outputs) == outputs[0].value
  {
    assert outputs[..0] == [] && TotalValue([]) == 0;
  }

  lemma InputOf(op: OutPoint, coins: Coins)
    requires op in coins
    ensures Spendable([op], coins) && InputValue([op], coins) == coins[op].output.value
  {
    assert [op][..0] == [];
  }

  lemma PayFee(op: OutPoint, value: U64, coins: Coins)
    requires op.index != NULL_INDEX && value <= MAX_MONEY && op in coins && value <= coins[op].output.value
    ensures TxFee(Pay(op, value), coins) == Ok(coins[op].output.value - value)
  {
    assert Pay(op, value).inputs == [op] && value % TWO_64 == value;
    hide Pay, Txid, TotalValue, InputValue, Spendable, SaneTx, EncTx, Prevouts;
    PayFacts(op, value);
    InputOf(op, coins);
  }

  /** Different transactions whose encodings do not collide have different ids. */
  lemma IdsDiffer(a: Transaction, b: Transaction, messages: set<Bytes>)
    requires SaneTx(a) && SaneTx(b) && a != b
    requires NoCollision(messages) && EncTx(a) in messages && EncTx(b) in messages
    ensures Txid(a) != Txid(b)
  {
    hide EncTx, NoCollision;
    if Txid(a) == Txid(b) {
      TxidInjective(a, b, messages);
      assert false;
    }
  }

  // ----- a rejection that loses an entry

  const FIRST := OutPoint(ZERO_HASH, 0)
  const SECOND := OutPoint(ZERO_HASH, 1)

  function TwoCoins(a: U64, b: U64): Coins {
    map[FIRST := Coin(TxOutput(a, ZERO_HASH), 0, false), SECOND := Coin(TxOutput(b, ZERO_HASH), 0, false)]
  }

  lemma TwoCoinsFacts(a: U64, b: U64)
    ensures FIRST.index != NULL_INDEX && SECOND.index != NULL_INDEX
    ensures FIRST in TwoCoins(a, b) && TwoCoins(a, b)[FIRST].output.value == a
    ensures SECOND in TwoCoins(a, b) && TwoCoins(a, b)[SECOND].output.value == b
  {
  }

  /** Spends the second coin into two outputs: 132 bytes. */
  function Large(): Transaction {
    Transaction(TRANSACTION_VERSION, [SECOND], [TxOutput(0, ZERO_HASH), TxOutput(0, ZERO_HASH)], 0)
  }

  lemma LargeFacts()
    ensures SaneTx(Large()) && !IsCoinbase(Large()) && |EncTx(Large())| == 132
    ensures TxFee(Large(), TwoCoins(1, 10)) == Ok(10)
  {
    var tx := Large();
    EncTxLength(tx);
    hide EncTx;
    OneOutput(tx.outputs[..1]);
    assert TotalValue(tx.outputs) == 0;
    InputOf(SECOND, TwoCoins(1, 10));
  }

  /** A pool with room for one entry of 92 bytes, holding one that pays 1. */
  function FullPool(): Pool {
    var tx := Pay(FIRST, 0);
    Pool(Limits(1, 92), map[Txid(tx) := Entry(tx, Txid(tx), 1, 92)], map[FIRST := Txid(tx)], 92)
  }

  lemma FullPoolValid()
    ensures Valid(FullPool())
  {
    var p, tx := FullPool(), Pay(FIRST, 0);
    PayFacts(FIRST, 0);
    hide SaneTx, EncTx, Txid;
    var none: Entries := map[];
    assert Sum(none, EntrySize) == 0;
    SumInsert(none, Txid(tx), p.entries[Txid(tx)], EntrySize);
    assert none[Txid(tx) := p.entries[Txid(tx)]] == p.entries;
  }

  /** The larger transaction evicts the entry, then turns out not to fit either: rejected, and the
      entry is gone. */
  lemma RejectionLosesEntry()
    requires NoCollision({EncTx(Large()), EncTx(Pay(FIRST, 0))})
    ensures Valid(FullPool())
    ensures var (r, q) := Accept(FullPool(), Large(), TwoCoins(1, 10), Policy(0));
            r == Err(ResourceLimitExceeded) && FullPool().entries != map[] && q.entries == map[]
  {
    FullPoolValid();
    FullPoolLacksLarge();
    hide EncTx, Txid, Valid, MakeRoom, Conflicts, Admission, TwoCoins, NoCollision, Accept;
    LargeAdmissible();
    TooLarge(FullPool(), Large(), TwoCoins(1, 10), Policy(0));
    RoomIsMade(Entry(Large(), Txid(Large()), 10, 132));
    assert Txid(Pay(FIRST, 0)) in FullPool().entries;
  }

  lemma FullPoolLacksLarge()
    requires NoCollision({EncTx(Large()), EncTx(Pay(FIRST, 0))})
    ensures Txid(Large()) !in FullPool().entries
  {
    LargeFacts();
    PayFacts(FIRST, 0);
    assert Large().inputs[0] != FIRST;
    hide SaneTx, EncTx, Txid, NoCollision;
    IdsDiffer(Large(), Pay(FIRST, 0), {EncTx(Large()), EncTx(Pay(FIRST, 0))});
  }

  /** What is over the byte limit is rejected after the eviction loop, not before. */
  lemma TooLarge(p: Pool, tx: Transaction, coins: Coins, policy: Policy)
    requires Valid(p) && Admission(tx, coins, policy).Ok? && Txid(tx) !in p.entries && !Conflicts(p, tx)
    requires Admission(tx, coins, policy).value.1 > p.limits.maxTotalBytes
    ensures Accept(p, tx, coins, policy) == (Err(ResourceLimitExceeded), MakeRoom(p, Incoming(tx, coins, policy)).1)
  {
    hide Valid, Admission, Conflicts, MakeRoom, Txid;
  }

  lemma LargeAdmissible()
    ensures Admission(Large(), TwoCoins(1, 10), Policy(0)) == Ok((10, 132)) && !Conflicts(FullPool(), Large())
  {
    LargeFacts();
    hide SaneTx, EncTx, TxFee, TwoCoins, Txid;
  }

  lemma RoomIsMade(e: Entry)
    requires e.fee == 10 && e.size == 132
    ensures Valid(FullPool()) && MakeRoom(FullPool(), e).0 && MakeRoom(FullPool(), e).1.entries == map[]
  {
    FullPoolValid();
    var p := FullPool();
    var w := p.entries[Txid(Pay(FIRST, 0))];
    assert p.entries == map[w.txid := w];
    hide Txid, Valid, StrictlyHigherFeerate, MakeRoom;
    RankedPoolStep(p);
    OnlyEntryIsLowest(p.entries, w);
    HigherExact(e, w);
    MakeRoomStep(p, e);
    var q := Remove(p, w.txid);
    assert q.entries == map[] && q.totalBytes == 0;
    NothingToEvict(q, e);
  }

  lemma OnlyEntryIsLowest(m: Entries, w: Entry)
    requires m == map[w.txid := w] && m != map[] && Keyed(m)
    ensures Lowest(m) == w
  {
    hide Keyed, HigherFeerate;
    LowestIsMember(m);
  }

  lemma NothingToEvict(p: Pool, e: Entry)
    requires Valid(p) && !NeedsRoom(|p.entries|, p.totalBytes, e.size, p.limits)
    ensures MakeRoom(p, e) == (true, p)
  {
    hide Valid, NeedsRoom;
  }

  // ----- a selection out of step with the validator

  function EntryFor(tx: Transaction, fee: U64): Entry {
    Entry(tx, Txid(tx), fee, 92)
  }

  /** A pool of two entries, paying 2^64 - 1 and 1. */
  function RichPool(): Pool {
    var a, b := EntryFor(Pay(FIRST, 0), MAX_U64), EntryFor(Pay(SECOND, 0), 1);
    Pool(Limits(2, 184), map[a.txid := a, b.txid := b], map[FIRST := a.txid, SECOND := b.txid], 184)
  }

  /** The two transactions do not collide. */
  ghost predicate TwoIds() {
    NoCollision({EncTx(Pay(FIRST, 0)), EncTx(Pay(SECOND, 0))})
  }

  lemma RichPoolIds()
    requires TwoIds()
    ensures Txid(Pay(FIRST, 0)) != Txid(Pay(SECOND, 0))
  {
    PayFacts(FIRST, 0);
    PayFacts(SECOND, 0);
    assert Pay(FIRST, 0).inputs[0] != Pay(SECOND, 0).inputs[0];
    hide SaneTx, EncTx, Txid, NoCollision;
    IdsDiffer(Pay(FIRST, 0), Pay(SECOND, 0), {EncTx(Pay(FIRST, 0)), EncTx(Pay(SECOND, 0))});
  }

  lemma RichPoolValid()
    requires TwoIds()
    ensures Valid(RichPool()) && Agrees(RichPool(), TwoCoins(MAX_U64, 1))
  {
    hide Valid, Agrees, RichPool, TwoCoins, TwoIds;
    RichPoolIndexed();
    RichPoolAgrees();
  }

  lemma RichPoolIndexed()
    requires TwoIds()
    ensures Valid(RichPool())
  {
    var a, b := EntryFor(Pay(FIRST, 0), MAX_U64), EntryFor(Pay(SECOND, 0), 1);
    assert a.tx == Pay(FIRST, 0) && b.tx == Pay(SECOND, 0);
    hide Valid, EntryOk, Txid, Prevouts, Pay, TwoIds, EncTx;
    RichPoolIds();
    PayEntry(FIRST, MAX_U64);
    PayEntry(SECOND, 1);
    TwoEntries(a, b);
  }

  lemma RichPoolAgrees()
    ensures Agrees(RichPool(), TwoCoins(MAX_U64, 1))
  {
    var a, b := EntryFor(Pay(FIRST, 0), MAX_U64), EntryFor(Pay(SECOND, 0), 1);
    hide Txid, TxFee, Agrees, Pay, TwoCoins, EncTx;
    TwoCoinsFacts(MAX_U64, 1);
    PayFee(FIRST, 0, TwoCoins(MAX_U64, 1));
    PayFee(SECOND, 0, TwoCoins(MAX_U64, 1));
    TwoAgree(a, b, TwoCoins(MAX_U64, 1));
  }

  lemma PayEntry(op: OutPoint, fee: U64)
    requires op.index != NULL_INDEX
    ensures EntryOk(EntryFor(Pay(op, 0), fee)) && Prevouts(Pay(op, 0)) == {op}
  {
    PayFacts(op, 0);
    hide SaneTx, EncTx, Txid;
  }

  lemma TwoAgree(a: Entry, b: Entry, coins: Coins)
    requires TxFee(a.tx, coins) == Ok(a.fee) && TxFee(b.tx, coins) == Ok(b.fee)
    ensures Agrees(
              Pool(Limits(2, 184), map[a.txid := a, b.txid := b], map[FIRST := a.txid, SECOND := b.txid], 184), coins)
  {
    hide TxFee;
  }

  lemma TwoEntries(a: Entry, b: Entry)
    requires EntryOk(a) && EntryOk(b) && a.txid != b.txid && a.size == b.size == 92
    requires Prevouts(a.tx) == {FIRST} && Prevouts(b.tx) == {SECOND}
    ensures Valid(Pool(Limits(2, 184), map[a.txid := a, b.txid := b], map[FIRST := a.txid, SECOND := b.txid], 184))
  {
    hide EntryOk, Prevouts, Sum;
    var m := map[a.txid := a, b.txid := b];
    TwoSizes(m, a, b);
    AtMostTwo(m, a.txid, b.txid);
  }

  lemma TwoSizes(m: Entries, a: Entry, b: Entry)
    requires a.txid != b.txid && m == map[a.txid := a, b.txid := b] && a.size == b.size == 92
    ensures Sum(m, EntrySize) == 184
  {
    var none: Entries := map[];
    assert Sum(none, EntrySize) == 0;
    var one := none[a.txid := a];
    hide Sum;
    SumInsert(none, a.txid, a, EntrySize);
    SumInsert(one, b.txid, b, EntrySize);
    assert one[b.txid := b] == m;
  }

  lemma AtMostTwo(m: Entries, j: Hash, k: Hash)
    requires m.Keys == {j, k}
    ensures |m| <= 2
  {
    assert |m| == |m.Keys|;
  }

  lemma RichPoolRanked()
    requires TwoIds()
    ensures Valid(RichPool())
    ensures RankedPool(RichPool()) == [EntryFor(Pay(FIRST, 0), MAX_U64), EntryFor(Pay(SECOND, 0), 1)]
  {
    RichPoolValid();
    RichPoolIds();
    var p, a, b := RichPool(), EntryFor(Pay(FIRST, 0), MAX_U64), EntryFor(Pay(SECOND, 0), 1);
    assert EntriesOk(p.entries);
    hide Txid, Valid, HigherFeerate, EntriesOk, Keyed, Ranked, Pay;
    EntriesKeyed(p.entries);
    HigherExact(a, b);
    TwoRanked(p.entries, a, b);
  }

  lemma TwoRanked(m: Entries, a: Entry, b: Entry)
    requires a.txid != b.txid && m == map[a.txid := a, b.txid := b] && Keyed(m) && HigherFeerate(a, b)
    ensures Ranked(m) == [a, b]
  {
    hide HigherFeerate, Ranked;
    forall e ensures e in [a, b] <==> Member(e, m) {
    }
    RankedUnique(m, [a, b]);
  }

  /** Over these coins the pool is valid and agrees with the chain, yet its second turn overflows: the
      transaction is skipped and its coin is spent, and the selection no longer matches the validator. */
  lemma OverflowDesyncs(params: TemplateParams)
    requires TwoIds() && params.maxTransactions >= 2 && params.maxBlockBytes >= 1000
    ensures var p, coins := RichPool(), TwoCoins(MAX_U64, 1);
            && Valid(p) && Agrees(p, coins)
            && !InSync(SelectFrom(p, coins, 1, params), coins, 1, params.consensus.coinbaseMaturity)
  {
    RichPoolValid();
    RichPoolRanked();
    var p, coins := RichPool(), TwoCoins(MAX_U64, 1);
    var entries := RankedPool(p);
    PoolEntriesOk(p);
    hide SaneTx, EncTx, Txid, InSync, Valid, Agrees, RankedPool, EntryOk, Overflows, TxFee, EntryFor;
    FirstTurn(params);
    SecondTurn(params);
    assert entries[..1] == [entries[0]];
    SelectInSyncExact(entries, coins, 1, params);
  }

  /** The coins after the first transaction. */
  function AfterFirst(): Coins {
    map[SECOND := Coin(TxOutput(1, ZERO_HASH), 0, false)] + NewCoins(Pay(FIRST, 0), 1, false)
  }

  lemma FirstTurn(params: TemplateParams)
    requires params.maxTransactions >= 2 && params.maxBlockBytes >= 1000
    ensures var a := Pay(FIRST, 0);
            && EntryOk(EntryFor(a, MAX_U64))
            && Select([EntryFor(a, MAX_U64)], TwoCoins(MAX_U64, 1), 1, params) ==
                 Selection(AfterFirst(), MAX_U64, 268, [a])
  {
    var coins, a := TwoCoins(MAX_U64, 1), Pay(FIRST, 0);
    var e := EntryFor(a, MAX_U64);
    PayFacts(FIRST, 0);
    PayFee(FIRST, 0, coins);
    assert EntryOk(e);
    hide SaneTx, EncTx, Txid, TxFee;
    assert coins - Prevouts(a) == map[SECOND := coins[SECOND]];
    assert [e][..0] == [];
    assert TxEffect(a, coins, 1, params.consensus.coinbaseMaturity) == Ok((AfterFirst(), MAX_U64));
  }

  lemma SecondTurn(params: TemplateParams)
    requires TwoIds() && params.maxTransactions >= 2 && params.maxBlockBytes >= 1000
    ensures var a, b := Pay(FIRST, 0), Pay(SECOND, 0);
            && EntryOk(EntryFor(b, 1))
            && Overflows(Selection(AfterFirst(), MAX_U64, 268, [a]), EntryFor(b, 1), 1, params)
  {
    RichPoolIds();
    PayFacts(SECOND, 0);
    var b, working := Pay(SECOND, 0), AfterFirst();
    assert SECOND in working && working[SECOND] == Coin(TxOutput(1, ZERO_HASH), 0, false) by { hide Txid; }
    PayFee(SECOND, 0, working);
    hide SaneTx, EncTx, Txid, TxFee;
  }

  // ----- a block from elsewhere strands an entry

  /** The block on top of `tip` with these transactions. */
  function Child(tip: BlockHeader, txs: seq<Transaction>): Block
    requires tip.height < MAX_U32
  {
    Block(BlockHeader(BLOCK_VERSION, HeaderHash(tip), MerkleRoot(txs), tip.timestamp, tip.height + 1), txs)
  }

  /** A first block whose coinbase pays `value`. */
  function Minted(value: U64): Block {
    var txs := [MakeCoinbase(0, value, ZERO_HASH)];
    Block(BlockHeader(BLOCK_VERSION, ZERO_HASH, MerkleRoot(txs), 0, 0), txs)
  }

  function MintedCoin(value: U64): OutPoint {
    OutPoint(Txid(MakeCoinbase(0, value, ZERO_HASH)), 0)
  }

  function MintedCoins(value: U64): Coins {
    map[MintedCoin(value) := Coin(TxOutput(value, ZERO_HASH), 0, true)]
  }

  /** Blocks of one or two small transactions are sane. */
  lemma SmallBlock(b: Block)
    requires b.header.merkleRoot == MerkleRoot(b.transactions) && |b.transactions| <= 2
    requires forall i :: 0 <= i < |b.transactions| ==> SaneTx(b.transactions[i]) && |EncTx(b.transactions[i])| == 92
    requires |b.transactions| == 2 ==>
               !IsCoinbase(b.transactions[1]) && Txid(b.transactions[0]) != Txid(b.transactions[1])
    ensures SaneBlock(b) && BlockSanity(b).Ok?
  {
    hide SaneTx, EncTx, Txid, MerkleRoot, EncBlock;
    BlockSize(b);
    SmallSize(b.transactions);
    SanityExact(b);
  }

  lemma SmallSize(txs: seq<Transaction>)
    requires |txs| <= 2 && forall i :: 0 <= i < |txs| ==> |EncTx(txs[i])| == 92
    ensures EncodedSize(txs) <= 184
  {
    hide EncTx;
    if |txs| == 1 {
      assert EncodedSize(txs[..0]) == 0;
    } else if |txs| == 2 {
      assert EncodedSize(txs[..1][..0]) == 0 && EncodedSize(txs[..1]) == 92;
    }
  }

  lemma CoinbaseFacts(height: U32, value: U64)
    requires value <= MAX_MONEY
    ensures var cb := MakeCoinbase(height, value, ZERO_HASH);
            SaneTx(cb) && |EncTx(cb)| == 92 && TotalValue(cb.outputs) == value
  {
    var cb := MakeCoinbase(height, value, ZERO_HASH);
    CoinbaseSane(height, value, ZERO_HASH);
    EncTxLength(cb);
    OneOutput(cb.outputs);
  }

  /** A block of nothing but a coinbase worth the subsidy. */
  lemma MintedEffect(b: Block, cb: Transaction, coins: Coins, params: ConsensusParams)
    requires b.transactions == [cb] && IsCoinbase(cb) && SaneBlock(b) && Fresh(cb, coins)
    requires TotalValue(cb.outputs) <= MAX_MONEY
    ensures BlockEffect(b, coins, params) ==
            if TotalValue(cb.outputs) <= params.blockSubsidy then Ok((coins + NewCoins(cb, b.header.height, true), 0))
            else Err(InvalidBlock)
  {
    hide TotalValue, NewCoins, Fresh, BlockSanity, EncBlock, MerkleRoot, Txid;
    SanityExact(b);
    assert Body(b) == [];
  }

  lemma MintedChain(value: U64, params: ConsensusParams)
    requires value <= MAX_MONEY && params.blockSubsidy >= value
    ensures Replay([Minted(value)], params) == Ok(ChainState(Minted(value).header, MintedCoins(value), params))
  {
    var b, cb := Minted(value), MakeCoinbase(0, value, ZERO_HASH);
    CoinbaseFacts(0, value);
    hide SaneTx, EncTx, Txid, MerkleRoot, EncBlock, CoinbaseTag, TotalValue, BlockSanity, BlockEffect, SaneBlock;
    SmallBlock(b);
    MintedEffect(b, cb, map[], params);
    assert map[] + NewCoins(cb, 0, true) == MintedCoins(value);
  }

  /** A body of one transaction. */
  lemma OneTxBody(tx: Transaction, coins: Coins, height: U32, maturity: U32)
    requires SaneTx(tx)
    ensures BodyEffect([tx], coins, height, maturity) == TxEffect(tx, coins, height, maturity)
  {
    hide SaneTx, TxEffect;
    var txs := [tx];
    assert txs[..0] == [] && txs[..1] == txs && BodyEffect([], coins, height, maturity) == Ok((coins, 0));
    BodyStep(txs, 0, coins, height, maturity, coins, 0);
  }

  /** Spending the only coin, which is mature. */
  lemma PayEffect(op: OutPoint, value: U64, coin: Coin, height: U32, maturity: U32)
    requires op.index != NULL_INDEX && value <= MAX_MONEY && value <= coin.output.value
    requires height >= coin.height + maturity
    ensures SaneTx(Pay(op, value))
    ensures TxEffect(Pay(op, value), map[op := coin], height, maturity) ==
            Ok((NewCoins(Pay(op, value), height, false), coin.output.value - value))
  {
    var tx, coins := Pay(op, value), map[op := coin];
    assert tx.inputs == [op] && |tx.outputs| == 1;
    hide Pay, SaneTx, EncTx, Txid, TxFee, NewCoins, Prevouts;
    PayFacts(op, value);
    PayFee(op, value, coins);
    assert coins - {op} == map[];
    assert map[] + NewCoins(tx, height, false) == NewCoins(tx, height, false);
    assert Fresh(tx, map[]);
  }

  /** A pool holding just a spend of the minted coin. */
  function SpendingPool(): Pool {
    var op := MintedCoin(2);
    var tx := Pay(op, 1);
    Pool(Limits(1, 92), map[Txid(tx) := Entry(tx, Txid(tx), 1, 92)], map[op := Txid(tx)], 92)
  }

  lemma SpendingPoolValid()
    ensures Valid(SpendingPool()) && Agrees(SpendingPool(), MintedCoins(2))
  {
    var p, op := SpendingPool(), MintedCoin(2);
    var tx := Pay(op, 1);
    PayFacts(op, 1);
    PayFee(op, 1, MintedCoins(2));
    hide SaneTx, EncTx, Txid, TxFee;
    var none: Entries := map[];
    assert Sum(none, EntrySize) == 0;
    SumInsert(none, Txid(tx), p.entries[Txid(tx)], EntrySize);
    assert none[Txid(tx) := p.entries[Txid(tx)]] == p.entries;
  }

  /** A block that spends the coin otherwise is accepted and leaves the pool's entry unspendable, so
      that the peer could not be restored from what it would save. */
  lemma EntryStranded(policy: Policy)
    requires var op := MintedCoin(2);
             NoCollision({EncTx(MakeCoinbase(0, 2, ZERO_HASH)), EncTx(Pay(op, 0)), EncTx(Pay(op, 1))})
    ensures var params, g := ConsensusParams(2, 0), Minted(2);
            var c, p := ChainState(g.header, MintedCoins(2), params), SpendingPool();
            var b := Child(g.header, [Pay(MintedCoin(2), 0)]);
            && Replay([g], params) == Ok(c) && Valid(p) && Agrees(p, c.coins) && Submit(c, b).Ok?
            && var q, coins := Prune(p, b.transactions), Submit(c, b).value.0.coins;
               q == p && !Agrees(q, coins) && !Admissible(q, coins, policy)
  {
    var params, g, op := ConsensusParams(2, 0), Minted(2), MintedCoin(2);
    var c, p := ChainState(g.header, MintedCoins(2), params), SpendingPool();
    var cb, a, tx := MakeCoinbase(0, 2, ZERO_HASH), Pay(op, 1), Pay(op, 0);
    MintedChain(2, params);
    SpendingPoolValid();
    assert SaneTx(cb) && SaneTx(a) && SaneTx(tx) by { CoinbaseFacts(0, 2); PayFacts(op, 0); PayFacts(op, 1); }
    var messages := {EncTx(cb), EncTx(tx), EncTx(a)};
    assert op.index != NULL_INDEX && cb.inputs[0].index == NULL_INDEX;
    assert tx.outputs[0].value == 0 && a.outputs[0].value == 1;
    hide SaneTx, EncTx, Txid, TxFee, Valid, Submit, MerkleRoot, HeaderHash, Replay, NoCollision, CoinbaseTag;
    IdsDiffer(cb, tx, messages);
    IdsDiffer(tx, a, messages);
    SpendAccepted(c, op, 0);
    PruneNothing(p, tx);
    StrandedBy(Submit(c, Child(g.header, [tx])).value.0.coins, policy);
  }

  lemma StrandedBy(coins: Coins, policy: Policy)
    requires MintedCoin(2) !in coins
    ensures !Agrees(SpendingPool(), coins) && !Admissible(SpendingPool(), coins, policy)
  {
    hide Txid, SaneTx, TxFee, EncTx;
    MissingInput(MintedCoin(2), 1, coins);
    assert Txid(Pay(MintedCoin(2), 1)) in SpendingPool().entries;
  }

  lemma MissingInput(op: OutPoint, value: U64, coins: Coins)
    requires op !in coins
    ensures TxFee(Pay(op, value), coins).Err?
  {
    assert Pay(op, value).inputs[0] == op;
  }

  lemma PruneNothing(p: Pool, tx: Transaction)
    requires Valid(p) && Txid(tx) !in p.entries
    ensures Prune(p, [tx]) == p
  {
    hide Txid, Valid;
    assert [tx][..0] == [];
  }

  /** A block that spends the minted coin, and nothing else, is accepted, and its coin is gone. */
  lemma SpendAccepted(c: ChainState, op: OutPoint, value: U64)
    requires c == ChainState(Minted(2).header, MintedCoins(2), ConsensusParams(2, 0))
    requires op == MintedCoin(2) && value <= 2
    ensures var b := Child(c.tip, [Pay(op, value)]);
            Submit(c, b).Ok? && (Txid(Pay(op, value)) != op.txid ==> op !in Submit(c, b).value.0.coins)
  {
    var tx := Pay(op, value);
    var b := Child(c.tip, [tx]);
    PayFacts(op, value);
    SmallBlock(b);
    SanityExact(b);
    PayEffect(op, value, c.coins[op], 1, 0);
    OneTxBody(tx, c.coins, 1, 0);
    assert Body(b) == [tx];
    hide SaneTx, EncTx, Txid, TxEffect, MerkleRoot, HeaderHash, EncBlock, SaneBlock, BodyEffect, BlockSanity;
    SubmitExact(c, b);
  }

  // ----- an id connected twice

  /** A second block that spends the coin of the first and mints the same coinbase again. */
  function Repeat(): Block {
    Child(Minted(2).header, [MakeCoinbase(0, 2, ZERO_HASH), Pay(MintedCoin(2), 2)])
  }

  /** The coinbase does not carry its own height, so its id is connected twice and the coin that was
      spent is unspent again. */
  lemma IdRecreated()
    requires NoCollision({EncTx(MakeCoinbase(0, 2, ZERO_HASH)), EncTx(Pay(MintedCoin(2), 2))})
    ensures var blocks, params := [Minted(2), Repeat()], ConsensusParams(2, 0);
            && Replay(blocks, params).Ok?
            && !DistinctIds(Events(blocks)) && !StaysSpent(Events(blocks), Replay(blocks, params).value.coins)
  {
    var blocks, params := [Minted(2), Repeat()], ConsensusParams(2, 0);
    var cb, tx := MakeCoinbase(0, 2, ZERO_HASH), Pay(MintedCoin(2), 2);
    var c := ChainState(Minted(2).header, MintedCoins(2), params);
    MintedChain(2, params);
    CoinbaseFacts(0, 2);
    PayFacts(MintedCoin(2), 2);
    IdsDiffer(cb, tx, {EncTx(cb), EncTx(tx)});
    hide SaneTx, EncTx, Txid, MerkleRoot, HeaderHash, NoCollision, CoinbaseTag, Submit, Create, Events;
    RepeatAccepted(c);
    assert blocks[..1] == [Minted(2)];
    ReplayAppend([Minted(2)], Repeat(), params);
    assert [Minted(2)] + [Repeat()] == blocks;
    var es := Events(blocks);
    RepeatEvents();
    assert es[0].tx == es[2].tx;
    assert MintedCoin(2) in Prevouts(es[1].tx) && !es[1].minted;
  }

  lemma RepeatEvents()
    ensures Events([Minted(2), Repeat()]) ==
            [Event(MakeCoinbase(0, 2, ZERO_HASH), 0, true), Event(Pay(MintedCoin(2), 2), 1, false),
             Event(MakeCoinbase(0, 2, ZERO_HASH), 1, true)]
  {
    hide Txid, MerkleRoot, HeaderHash, CoinbaseTag;
    var first, second := Minted(2), Repeat();
    var blocks := [first, second];
    assert blocks[..1] == [first] && blocks[..1][..0] == [];
    assert Body(first) == [] && Body(second) == [Pay(MintedCoin(2), 2)];
    assert Events([first]) == BlockEvents(first);
    assert BlockEvents(first) == [Event(MakeCoinbase(0, 2, ZERO_HASH), 0, true)];
    assert BlockEvents(second) ==
           [Event(Pay(MintedCoin(2), 2), 1, false), Event(MakeCoinbase(0, 2, ZERO_HASH), 1, true)];
  }

  lemma RepeatAccepted(c: ChainState)
    requires c == ChainState(Minted(2).header, MintedCoins(2), ConsensusParams(2, 0))
    requires Txid(MakeCoinbase(0, 2, ZERO_HASH)) != Txid(Pay(MintedCoin(2), 2))
    ensures Submit(c, Repeat()).Ok? && MintedCoin(2) in Submit(c, Repeat()).value.0.coins
  {
    var b, op := Repeat(), MintedCoin(2);
    var cb, tx := b.transactions[0], b.transactions[1];
    CoinbaseFacts(0, 2);
    PayFacts(op, 2);
    SmallBlock(b);
    SanityExact(b);
    PayEffect(op, 2, c.coins[op], 1, 0);
    OneTxBody(tx, c.coins, 1, 0);
    assert Body(b) == [tx];
    hide SaneTx, EncTx, Txid, TxEffect, MerkleRoot, HeaderHash, EncBlock, SaneBlock, BodyEffect, BlockSanity,
         TotalValue;
    SubmitExact(c, b);
  }

  // ----- a file that its writer cannot read

  /** Mined under a subsidy of 100, saved and restored under 50: the first mined coinbase is over the
      cap, so the ledger does not replay, whatever the pool. */
  lemma SubsidyLowered(maturity: U32)
    ensures var g := Genesis(0);
            var blocks := [g, Child(g.header, [MakeCoinbase(1, 100, ZERO_HASH)])];
            Replay(blocks, ConsensusParams(100, maturity)).Ok? && Replay(blocks, ConsensusParams(50, maturity)).Err?
  {
    var g, cb := Genesis(0), MakeCoinbase(1, 100, ZERO_HASH);
    var b := Child(g.header, [cb]);
    var high, low := ConsensusParams(100, maturity), ConsensusParams(50, maturity);
    EmptyChain(high);
    EmptyChain(low);
    CoinbaseFacts(1, 100);
    SmallBlock(b);
    MintedEffect(b, cb, map[], high);
    MintedEffect(b, cb, map[], low);
    hide SaneTx, EncTx, Txid, MerkleRoot, HeaderHash, EncBlock, SaneBlock, BlockSanity, BlockEffect, TotalValue, Create;
    SubmitExact(ChainState(g.header, map[], high), b);
    SubmitExact(ChainState(g.header, map[], low), b);
    ReplayAppend([g], b, high);
    ReplayAppend([g], b, low);
    assert [g] + [b] == [g, b];
  }

  lemma EmptyChain(params: ConsensusParams)
    ensures Replay([Genesis(0)], params) == Ok(ChainState(Genesis(0).header, map[], params))
  {
    var g := Genesis(0);
    GenesisCreates(0, params);
    CreateFacts(g, params);
    assert Body(g) == [] && !HasCoinbase(g);
    hide BlockSanity, SaneBlock;
  }

  // ----- a template its own chain refuses

  /** Built under a subsidy of 100 for a chain whose own is 50: it passes its self-check and is refused. */
  lemma TemplateRefused(params: TemplateParams, limits: Limits, maturity: U32)
    requires params.version == BLOCK_VERSION && params.consensus == ConsensusParams(100, maturity)
    ensures var c := ChainState(Genesis(0).header, map[], ConsensusParams(50, maturity));
            var p := Pool(limits, map[], map[], 0);
            && Replay([Genesis(0)], c.params) == Ok(c) && Valid(p)
            && Build(c.tip, 0, p, c.coins, params).Ok?
            && Submit(c, Build(c.tip, 0, p, c.coins, params).value.block).Err?
  {
    var c := ChainState(Genesis(0).header, map[], ConsensusParams(50, maturity));
    var p := Pool(limits, map[], map[], 0);
    EmptyChain(c.params);
    EmptySelection(limits, params);
    hide Valid, SelectFrom, Txid, CoinbaseTag, EncTx, BlockEffect, HeaderHash, MerkleRoot, Replay, Submit, Build,
         TotalValue;
    BuildExact(c.tip, 0, p, c.coins, params);
    BuiltExact(c, 0, p, params);
    CoinbaseFacts(1, 100);
  }

  lemma EmptySelection(limits: Limits, params: TemplateParams)
    ensures var p := Pool(limits, map[], map[], 0);
            && Valid(p)
            && SelectFrom(p, map[], 1, params) == Selection(map[], 0, EMPTY_TEMPLATE_BYTES, [])
  {
    var p := Pool(limits, map[], map[], 0);
    assert Valid(p);
    EmptyRanking();
    assert RankedPool(p) == [];
  }

  // ----- a sync that reports success and does not converge

  const OTHER: Hash :=
    [1, 0, 0, 0, 0, 0, 0, 0, 0, 0, 0, 0, 0, 0, 0, 0, 0, 0, 0, 0, 0, 0, 0, 0, 0, 0, 0, 0, 0, 0, 0, 0]

  /** A block on the empty genesis with nothing but a coinbase to this recipient. */
  function MinedBlock(recipient: Hash): Block {
    Child(Genesis(0).header, [MakeCoinbase(1, 100, recipient)])
  }

  /** The chain of a peer that has mined it. */
  ghost function MinedChain(recipient: Hash): ChainState {
    var coins := NewCoins(MakeCoinbase(1, 100, recipient), 1, true);
    ChainState(MinedBlock(recipient).header, coins, ConsensusParams(100, 0))
  }

  ghost function Miner(recipient: Hash): Node {
    Node([Genesis(0), MinedBlock(recipient)], MinedChain(recipient), Pool(Limits(1, 92), map[], map[], 0))
  }

  lemma MinerOk(recipient: Hash)
    ensures PeerOk(Miner(recipient)) && Miner(recipient).chain.tip.height == 1
  {
    MinedChainReplays(recipient);
    hide Replay, MinedBlock, NewCoins;
    assert Valid(Pool(Limits(1, 92), map[], map[], 0));
  }

  lemma MinedChainReplays(recipient: Hash)
    ensures Replay([Genesis(0), MinedBlock(recipient)], ConsensusParams(100, 0)) == Ok(MinedChain(recipient))
    ensures MinedChain(recipient).tip.height == 1
  {
    var g, b, params := Genesis(0), MinedBlock(recipient), ConsensusParams(100, 0);
    EmptyChain(params);
    MinedAccepted(recipient);
    hide Submit, Create, MinedBlock, Genesis, MinedChain;
    ReplayAppend([g], b, params);
    assert [g] + [b] == [g, b];
  }

  lemma MinedAccepted(recipient: Hash)
    ensures var c := ChainState(Genesis(0).header, map[], ConsensusParams(100, 0));
            Submit(c, MinedBlock(recipient)).Ok? && Submit(c, MinedBlock(recipient)).value.0 == MinedChain(recipient)
    ensures MinedChain(recipient).tip.height == 1
  {
    var b, cb := MinedBlock(recipient), MakeCoinbase(1, 100, recipient);
    var c := ChainState(Genesis(0).header, map[], ConsensusParams(100, 0));
    RecipientFacts(recipient);
    SmallBlock(b);
    MintedEffect(b, cb, map[], c.params);
    hide SaneTx, EncTx, Txid, MerkleRoot, HeaderHash, EncBlock, SaneBlock, BlockSanity, BlockEffect, TotalValue,
         NewCoins, CoinbaseTag;
    assert map[] + NewCoins(cb, 1, true) == NewCoins(cb, 1, true);
    SubmitExact(c, b);
    SubmitFacts(c, b);
  }

  lemma RecipientFacts(recipient: Hash)
    ensures var cb := MakeCoinbase(1, 100, recipient);
            SaneTx(cb) && |EncTx(cb)| == 92 && TotalValue(cb.outputs) == 100
  {
    var cb := MakeCoinbase(1, 100, recipient);
    CoinbaseSane(1, 100, recipient);
    EncTxLength(cb);
    OneOutput(cb.outputs);
  }

  /** Two peers of the same height that mined to different recipients: the client's sync succeeds
      without a request, and the unspent sets differ. */
  lemma ForkReportsSync(mine: PeerConfig, theirs: PeerConfig)
    ensures var c, s := Miner(ZERO_HASH), Miner(OTHER);
            && PeerOk(c) && PeerOk(s)
            && Sync(c, s, mine, theirs) == (DONE, c)
            && c.chain.coins != s.chain.coins
  {
    MinerOk(ZERO_HASH);
    MinerOk(OTHER);
    CoinsDiffer();
    hide PeerOk, SyncFrom, Miner;
    SyncFromDone(Miner(ZERO_HASH), Miner(OTHER), 2, SESSION_MESSAGES, mine, theirs);
  }

  lemma CoinsDiffer()
    ensures Miner(ZERO_HASH).chain.coins != Miner(OTHER).chain.coins
  {
    hide Txid, MinedBlock, CoinbaseTag;
    var a, b := MakeCoinbase(1, 100, ZERO_HASH), MakeCoinbase(1, 100, OTHER);
    var op := OutPoint(Txid(a), 0);
    assert op in NewCoins(a, 1, true) && NewCoins(a, 1, true)[op].output.recipient == ZERO_HASH;
    assert op in NewCoins(b, 1, true) ==> NewCoins(b, 1, true)[op].output.recipient == OTHER;
    assert OTHER[0] != ZERO_HASH[0];
  }

  // ----- a sane block that cannot be relayed

  /** One input and this many empty outputs. */
  function Bulk(index: U32, outputs: nat): Transaction {
    Transaction(TRANSACTION_VERSION, [OutPoint(ZERO_HASH, index)], seq(outputs, _ => TxOutput(0, ZERO_HASH)), 0)
  }

  lemma {:induction false} NoValue(outputs: seq<TxOutput>)
    requires forall i :: 0 <= i < |outputs| ==> outputs[i].value == 0
    ensures TotalValue(outputs) == 0
  {
    if outputs != [] {
      NoValue(outputs[..|outputs| - 1]);
    }
  }

  lemma BulkFacts(index: U32, outputs: nat)
    requires index != NULL_INDEX && 1 <= outputs <= 1600
    ensures SaneTx(Bulk(index, outputs)) && !IsCoinbase(Bulk(index, outputs))
    ensures |EncTx(Bulk(index, outputs))| == 52 + 40 * outputs
  {
    var tx := Bulk(index, outputs);
    EncTxLength(tx);
    NoValue(tx.outputs);
    hide EncTx, TotalValue;
  }

  /** Twenty transactions of 52052 bytes and one of 7452. */
  function Bulks(): (txs: seq<Transaction>)
    ensures |txs| == 21 && forall i :: 0 <= i < 21 ==> txs[i] == Bulk(i, if i < 20 then 1300 else 185)
  {
    seq(21, i requires 0 <= i < 21 => Bulk(i, if i < 20 then 1300 else 185))
  }

  lemma {:induction false} BulkSize(n: nat)
    requires n <= 20
    ensures EncodedSize(Bulks()[..n]) == 52052 * n
  {
    hide EncTx, Bulks, Bulk;
    if n > 0 {
      BulkSize(n - 1);
      BulkFacts(n - 1, 1300);
      assert Bulks()[..n][..n - 1] == Bulks()[..n - 1];
    }
  }

  function FullBlock(): Block {
    Block(BlockHeader(BLOCK_VERSION, ZERO_HASH, MerkleRoot(Bulks()), 0, 0), Bulks())
  }

  /** A sane block of exactly 2^20 bytes: within the consensus limit, and too large to send. */
  lemma SaneBlockTooLargeToSend()
    requires NoCollision(TxMessages(Bulks()))
    ensures SaneBlock(FullBlock()) && |EncBlock(FullBlock())| == MAX_BLOCK_BYTES && !Fits(FullBlock())
  {
    hide EncTx, Txid, Bulks, Bulk, MerkleRoot, EncBlock, NoCollision, SaneTx;
    var txs := Bulks();
    BlockSize(FullBlock());
    BulkSize(20);
    BulkFacts(20, 185);
    assert EncodedSize(txs) == EncodedSize(txs[..20]) + |EncTx(txs[20])|;
    forall i | 0 <= i < 21 ensures SaneTx(txs[i]) && !IsCoinbase(txs[i]) {
      BulkFacts(i, if i < 20 then 1300 else 185);
    }
    forall i, j | 0 <= i < j < 21 ensures Txids(txs)[i] != Txids(txs)[j] {
      BulksDiffer(i, j);
      assert EncTx(txs[i]) in TxMessages(txs) && EncTx(txs[j]) in TxMessages(txs);
      IdsDiffer(txs[i], txs[j], TxMessages(txs));
    }
  }

  lemma BulksDiffer(i: nat, j: nat)
    requires i < j < 21
    ensures Bulks()[i] != Bulks()[j]
  {
    assert Bulks()[i].inputs[0].index == i && Bulks()[j].inputs[0].index == j;
  }
}
