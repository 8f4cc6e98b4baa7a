/** Block production: a greedy pass over the fee-rate ranking that simulates the validator, a
    coinbase claiming subsidy and fees, and a final self-check. */
module Builder {
  import opened Base
  import opened Transactions
  import opened Blocks
  import opened Merkle
  import opened Utxo
  import opened TxValidation
  import opened BlockValidation
  import opened Supply
  import opened FeeRate
  import opened Ranking
  import opened Pools
  import opened Eviction

  datatype TemplateParams = TemplateParams(
    version: U32,
    maxBlockBytes: U32,
    maxTransactions: U32,
    consensus: ConsensusParams,
    recipient: Hash)

  datatype Template = Template(block: Block, totalFees: U64, selectedCount: nat)

  /** The state of the selection loop. */
  datatype Selection = Selection(working: Coins, fees: U64, size: nat, txs: seq<Transaction>)

  ghost predicate AllOk(entries: seq<Entry>) {
    forall i :: 0 <= i < |entries| ==> EntryOk(entries[i])
  }

  /** The entry is within the count and size budgets. */
  predicate InBudget(s: Selection, e: Entry, params: TemplateParams) {
    |s.txs| < params.maxTransactions && s.size + e.size <= params.maxBlockBytes
  }

  /** One turn of the loop.  When the fee total would overflow the transaction is skipped, but the
      working set has already been advanced. */
  ghost function SelectStep(s: Selection, e: Entry, height: U32, params: TemplateParams): Selection
    requires EntryOk(e)
  {
    if !InBudget(s, e, params) then s else
      match TxEffect(e.tx, s.working, height, params.consensus.coinbaseMaturity)
      case Err(_) => s
      case Ok((after, fee)) =>
        if s.fees + fee > MAX_U64 then s.(working := after)
        else Selection(after, s.fees + fee, s.size + e.size, s.txs + [e.tx])
  }

  const EMPTY_TEMPLATE_BYTES: nat := 176

  ghost function Select(entries: seq<Entry>, coins: Coins, height: U32, params: TemplateParams): Selection
    requires AllOk(entries)
  {
    if entries == [] then Selection(coins, 0, EMPTY_TEMPLATE_BYTES, []) else
      var n := |entries| - 1;
      SelectStep(Select(entries[..n], coins, height, params), entries[n], height, params)
  }

  /** The block on top of `tip` holding the selection, its coinbase first. */
  ghost function Assemble(tip: BlockHeader, timestamp: U64, s: Selection, params: TemplateParams): Block
    requires tip.height < MAX_U32 && params.consensus.blockSubsidy + s.fees <= MAX_U64
  {
    var height := tip.height + 1;
    var txs := [MakeCoinbase(height, params.consensus.blockSubsidy + s.fees, params.recipient)] + s.txs;
    Block(BlockHeader(params.version, HeaderHash(tip), MerkleRoot(txs), timestamp, height), txs)
  }

  lemma PoolEntriesOk(p: Pool)
    requires Valid(p)
    ensures AllOk(RankedPool(p))
  {
    hide EntryOk, IndexOk;
    EntriesKeyed(p.entries);
    forall i | 0 <= i < |RankedPool(p)|
      ensures EntryOk(RankedPool(p)[i])
    {
      RankedMembers(p.entries, RankedPool(p)[i]);
    }
  }

  ghost function SelectFrom(p: Pool, coins: Coins, height: U32, params: TemplateParams): Selection
    requires Valid(p)
  {
    PoolEntriesOk(p);
    Select(RankedPool(p), coins, height, params)
  }

  ghost function Build(tip: BlockHeader, timestamp: U64, p: Pool, coins: Coins, params: TemplateParams)
    : Result<Template>
    requires Valid(p)
  {
    if tip.height == MAX_U32 then Err(InvalidBlock) else
      var s := SelectFrom(p, coins, tip.height + 1, params);
      if params.consensus.blockSubsidy + s.fees > MAX_U64 then Err(InvalidBlock) else
        var block := Assemble(tip, timestamp, s, params);
        match BlockEffect(block, coins, params.consensus)
        case Err(_) => Err(InvalidBlock)
        case Ok((_, fees)) => Ok(Template(block, fees, |s.txs|))
  }

  // ----- the simulation agrees with the validator

  /** The working set and fee total are what the validator computes for the selection. */
  ghost predicate InSync(s: Selection, coins: Coins, height: U32, maturity: U32) {
    AllSane(s.txs) && BodyEffect(s.txs, coins, height, maturity) == Ok((s.working, s.fees))
  }

  /** The step takes the branch that skips on fee overflow. */
  ghost predicate Overflows(s: Selection, e: Entry, height: U32, params: TemplateParams)
    requires EntryOk(e)
  {
    InBudget(s, e, params) &&
    match TxEffect(e.tx, s.working, height, params.consensus.coinbaseMaturity)
    case Err(_) => false
    case Ok((_, fee)) => s.fees + fee > MAX_U64
  }

  lemma AppendInSync(s: Selection, tx: Transaction, coins: Coins, height: U32, maturity: U32)
    requires InSync(s, coins, height, maturity) && SaneTx(tx)
    ensures AllSane(s.txs + [tx])
    ensures BodyEffect(s.txs + [tx], coins, height, maturity) ==
            match TxEffect(tx, s.working, height, maturity)
            case Err(e) => Err(e)
            case Ok((after, fee)) => if s.fees + fee > MAX_U64 then Err(InvalidBlock) else Ok((after, s.fees + fee))
  {
    hide SaneTx, TxEffect, BodyEffect;
    var txs := s.txs + [tx];
    assert txs[..|s.txs|] == s.txs && txs[..|s.txs| + 1] == txs;
    BodyStep(txs, |s.txs|, coins, height, maturity, s.working, s.fees);
  }

  /** A step keeps the simulation in step with the validator exactly when it does not overflow. */
  lemma SelectStepExact(s: Selection, e: Entry, coins: Coins, height: U32, params: TemplateParams)
    requires EntryOk(e) && InSync(s, coins, height, params.consensus.coinbaseMaturity)
    ensures InSync(SelectStep(s, e, height, params), coins, height, params.consensus.coinbaseMaturity)
            <==> !Overflows(s, e, height, params)
  {
    hide SaneTx, TxEffect, BodyEffect, Txid, EncTx;
    var maturity := params.consensus.coinbaseMaturity;
    AppendInSync(s, e.tx, coins, height, maturity);
    if Overflows(s, e, height, params) {
      var (after, fee) := TxEffect(e.tx, s.working, height, maturity).value;
      TxConserves(e.tx, s.working, height, maturity);
      assert after != s.working;
    }
  }

  /** No turn of the loop takes the overflow branch. */
  ghost predicate NeverOverflows(entries: seq<Entry>, coins: Coins, height: U32, params: TemplateParams)
    requires AllOk(entries)
  {
    forall k :: 0 <= k < |entries| ==>
      !Overflows(Select(entries[..k], coins, height, params), entries[k], height, params)
  }

  lemma {:induction false} OverflowsBefore(entries: seq<Entry>, coins: Coins, height: U32, params: TemplateParams)
    requires AllOk(entries) && entries != []
    ensures var n := |entries| - 1;
            NeverOverflows(entries, coins, height, params) <==>
              && NeverOverflows(entries[..n], coins, height, params)
              && !Overflows(Select(entries[..n], coins, height, params), entries[n], height, params)
  {
    hide EntryOk, Overflows, Select;
    assert forall k :: 0 <= k < |entries| - 1 ==> entries[..|entries| - 1][..k] == entries[..k];
  }

  /** Value in the working set plus fees never grows, and an overflow loses some for good. */
  lemma StepLoses(s: Selection, e: Entry, height: U32, params: TemplateParams)
    requires EntryOk(e)
    ensures var t := SelectStep(s, e, height, params);
            && TotalSupply(t.working) + t.fees <= TotalSupply(s.working) + s.fees
            && (Overflows(s, e, height, params) ==> TotalSupply(t.working) + t.fees < TotalSupply(s.working) + s.fees)
  {
    hide SaneTx, TxEffect, TotalSupply, Txid, EncTx;
    var maturity := params.consensus.coinbaseMaturity;
    if TxEffect(e.tx, s.working, height, maturity).Ok? {
      TxConserves(e.tx, s.working, height, maturity);
    }
  }

  lemma {:induction false} SelectLoses(entries: seq<Entry>, coins: Coins, height: U32, params: TemplateParams)
    requires AllOk(entries)
    ensures var s := Select(entries, coins, height, params);
            && TotalSupply(s.working) + s.fees <= TotalSupply(coins)
            && (!NeverOverflows(entries, coins, height, params) ==>
                  TotalSupply(s.working) + s.fees < TotalSupply(coins))
  {
    hide EntryOk, SelectStep, TotalSupply, Overflows, NeverOverflows;
    if entries == [] {
      assert NeverOverflows(entries, coins, height, params) by { NothingOverflows(coins, height, params); }
    } else {
      var n := |entries| - 1;
      SelectLoses(entries[..n], coins, height, params);
      StepLoses(Select(entries[..n], coins, height, params), entries[n], height, params);
      OverflowsBefore(entries, coins, height, params);
    }
  }

  lemma NothingOverflows(coins: Coins, height: U32, params: TemplateParams)
    ensures NeverOverflows([], coins, height, params)
  {
  }

  /** The selection is in step with the validator, for every pool, unspent set and budget, if and
      only if no turn overflowed. */
  lemma {:induction false} SelectInSyncExact(entries: seq<Entry>, coins: Coins, height: U32, params: TemplateParams)
    requires AllOk(entries)
    ensures InSync(Select(entries, coins, height, params), coins, height, params.consensus.coinbaseMaturity)
            <==> NeverOverflows(entries, coins, height, params)
  {
    var maturity := params.consensus.coinbaseMaturity;
    var s := Select(entries, coins, height, params);
    if entries == [] {
      NothingOverflows(coins, height, params);
    } else {
      hide EntryOk, SelectStep, TotalSupply, Overflows, NeverOverflows, BodyEffect;
      if NeverOverflows(entries, coins, height, params) {
        var n := |entries| - 1;
        OverflowsBefore(entries, coins, height, params);
        SelectInSyncExact(entries[..n], coins, height, params);
        SelectStepExact(Select(entries[..n], coins, height, params), entries[n], coins, height, params);
      } else {
        SelectLoses(entries, coins, height, params);
        if InSync(s, coins, height, maturity) {
          BodyConserves(s.txs, coins, height, maturity);
          assert false;
        }
      }
    }
  }

  /** An unspent set of at most 2^64 - 1 in value cannot overflow. */
  lemma NoOverflow(entries: seq<Entry>, coins: Coins, height: U32, params: TemplateParams)
    requires AllOk(entries) && TotalSupply(coins) <= MAX_U64
    ensures NeverOverflows(entries, coins, height, params)
  {
    hide EntryOk, Select, TotalSupply, Overflows;
    forall k | 0 <= k < |entries|
      ensures !Overflows(Select(entries[..k], coins, height, params), entries[k], height, params)
    {
      SelectLoses(entries[..k], coins, height, params);
      OverflowNeedsSupply(Select(entries[..k], coins, height, params), entries[k], height, params);
    }
  }

  lemma OverflowNeedsSupply(s: Selection, e: Entry, height: U32, params: TemplateParams)
    requires EntryOk(e)
    ensures Overflows(s, e, height, params) ==> TotalSupply(s.working) + s.fees > MAX_U64
  {
    hide SaneTx, TxEffect, TotalSupply, Txid, EncTx;
    if Overflows(s, e, height, params) {
      TxConserves(e.tx, s.working, height, params.consensus.coinbaseMaturity);
    }
  }

  // ----- where every coin is in the money range

  lemma {:induction false} InputsInRange(inputs: seq<OutPoint>, coins: Coins)
    requires Spendable(inputs, coins) && InRange(coins)
    ensures InputValue(inputs, coins) <= |inputs| * MAX_MONEY
  {
    if inputs != [] {
      InputsInRange(inputs[..|inputs| - 1], coins);
    }
  }

  /** A turn that overflows comes when the fees are past the money range already. */
  lemma OverflowIsLate(s: Selection, e: Entry, height: U32, params: TemplateParams)
    requires EntryOk(e) && InRange(s.working) && Overflows(s, e, height, params)
    ensures s.fees > MAX_MONEY
  {
    hide Txid, EncTx, InputValue, TotalValue, Fresh, Mature, NewCoins;
    InputsInRange(e.tx.inputs, s.working);
  }

  lemma StepInRange(s: Selection, e: Entry, height: U32, params: TemplateParams)
    requires EntryOk(e) && InRange(s.working)
    ensures var t := SelectStep(s, e, height, params); InRange(t.working) && t.fees >= s.fees
  {
    hide Txid, EncTx, TotalValue, Fresh, Mature, TxFee;
    forall i | 0 <= i < |e.tx.outputs| ensures e.tx.outputs[i].value <= MAX_MONEY {
      SumBoundsEach(e.tx.outputs, i);
    }
  }

  /** Once a turn has overflowed, the fees stay past the money range. */
  lemma {:induction false} RichAfterOverflow(entries: seq<Entry>, coins: Coins, height: U32, params: TemplateParams)
    requires AllOk(entries) && InRange(coins)
    ensures var s := Select(entries, coins, height, params);
            InRange(s.working) && (NeverOverflows(entries, coins, height, params) || s.fees > MAX_MONEY)
  {
    hide EntryOk, SelectStep, Overflows, NeverOverflows;
    if entries == [] {
      NothingOverflows(coins, height, params);
    } else {
      var n := |entries| - 1;
      RichAfterOverflow(entries[..n], coins, height, params);
      var s := Select(entries[..n], coins, height, params);
      OverflowsBefore(entries, coins, height, params);
      StepInRange(s, entries[n], height, params);
      if Overflows(s, entries[n], height, params) {
        OverflowIsLate(s, entries[n], height, params);
      }
    }
  }

  /** A selection whose fees are in the money range is in step with the validator. */
  lemma SelectInSync(entries: seq<Entry>, coins: Coins, height: U32, params: TemplateParams)
    requires AllOk(entries) && InRange(coins) && Select(entries, coins, height, params).fees <= MAX_MONEY
    ensures InSync(Select(entries, coins, height, params), coins, height, params.consensus.coinbaseMaturity)
  {
    hide EntryOk, Select, InSync, NeverOverflows, InRange;
    RichAfterOverflow(entries, coins, height, params);
    SelectInSyncExact(entries, coins, height, params);
  }

  // ----- size and provenance of the selection

  function EncodedSize(txs: seq<Transaction>): nat {
    if txs == [] then 0 else EncodedSize(txs[..|txs| - 1]) + |EncTx(txs[|txs| - 1])|
  }

  /** `tx` is the transaction of one of these entries. */
  ghost predicate Drawn(tx: Transaction, entries: seq<Entry>) {
    exists j :: 0 <= j < |entries| && entries[j].tx == tx
  }

  ghost predicate DrawnFrom(txs: seq<Transaction>, entries: seq<Entry>) {
    forall i :: 0 <= i < |txs| ==> Drawn(txs[i], entries)
  }

  ghost predicate Accounted(s: Selection, entries: seq<Entry>, params: TemplateParams) {
    && s.size == EMPTY_TEMPLATE_BYTES + EncodedSize(s.txs)
    && (s.size == EMPTY_TEMPLATE_BYTES || s.size <= params.maxBlockBytes)
    && |s.txs| <= params.maxTransactions
    && DrawnFrom(s.txs, entries)
  }

  lemma {:induction false} SelectAccounted(entries: seq<Entry>, coins: Coins, height: U32, params: TemplateParams)
    requires AllOk(entries)
    ensures Accounted(Select(entries, coins, height, params), entries, params)
  {
    hide SaneTx, TxEffect, Txid, EncTx;
    if entries != [] {
      var n := |entries| - 1;
      SelectAccounted(entries[..n], coins, height, params);
      var s, e := Select(entries[..n], coins, height, params), entries[n];
      var t := SelectStep(s, e, height, params);
      assert e.tx == entries[n].tx;
      forall i | 0 <= i < |s.txs| ensures Drawn(s.txs[i], entries) {
        assert Drawn(s.txs[i], entries[..n]);
        var j :| 0 <= j < n && entries[..n][j].tx == s.txs[i];
        assert entries[j].tx == s.txs[i];
      }
      if t.txs != s.txs {
        assert t.txs[..|s.txs|] == s.txs;
      }
    }
  }

  /** No entry's id repeats in the ranking. */
  lemma RankedDistinct(p: Pool, i: nat, j: nat)
    requires Valid(p) && i < j < |RankedPool(p)|
    ensures RankedPool(p)[i].txid != RankedPool(p)[j].txid
  {
    hide EntryOk, IndexOk, HigherFeerate;
    EntriesKeyed(p.entries);
    var ranked := RankedPool(p);
    RankedSorted(p.entries);
    RankedMembers(p.entries, ranked[i]);
    RankedMembers(p.entries, ranked[j]);
    HigherTotal(ranked[i], ranked[i]);
  }
}
