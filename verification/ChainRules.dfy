/** The active chain as a value: how it starts, how a block extends it, and what replaying a
    block list yields. */
module ChainRules {
  import opened Base
  import opened Blocks
  import opened Utxo
  import opened BlockValidation

  datatype ChainState = ChainState(tip: BlockHeader, coins: Coins, params: ConsensusParams)

  /** The header rules that depend on the previous block. */
  function LinksTo(tip: BlockHeader, next: BlockHeader): Result<()> {
    if next.version != BLOCK_VERSION then Err(UnsupportedVersion)
    else if next.prevBlock != HeaderHash(tip) then Err(InvalidBlock)
    else if tip.height == MAX_U32 then Err(InvalidBlock)
    else if next.height != tip.height + 1 then Err(InvalidBlock)
    else if next.timestamp < tip.timestamp then Err(InvalidBlock)
    else DONE
  }

  ghost function Create(genesis: Block, params: ConsensusParams): Result<ChainState> {
    if genesis.header.version != BLOCK_VERSION then Err(UnsupportedVersion)
    else if genesis.header.height != 0 then Err(InvalidBlock)
    else if genesis.header.prevBlock != ZERO_HASH then Err(InvalidBlock)
    else
      var _ :- BlockSanity(genesis);
      var (coins, _) :- BlockEffect(genesis, map[], params);
      Ok(ChainState(genesis.header, coins, params))
  }

  /** Extending the chain by `b`: the new chain and the fees collected. */
  ghost function Submit(c: ChainState, b: Block): Result<(ChainState, U64)> {
    var _ :- LinksTo(c.tip, b.header);
    var _ :- BlockSanity(b);
    var (coins, fees) :- BlockEffect(b, c.coins, c.params);
    Ok((ChainState(b.header, coins, c.params), fees))
  }

  /** The chain reached by creating it from the first block and submitting the others in order. */
  ghost function Replay(blocks: seq<Block>, params: ConsensusParams): Result<ChainState> {
    if blocks == [] then Err(StorageCorruption)
    else if |blocks| == 1 then Create(blocks[0], params)
    else
      var n := |blocks| - 1;
      var before :- Replay(blocks[..n], params);
      var (after, _) :- Submit(before, blocks[n]);
      Ok(after)
  }

  /** Every prefix of a replayable list replays. */
  lemma {:induction false} ReplayPrefix(blocks: seq<Block>, params: ConsensusParams, k: nat)
    requires 1 <= k <= |blocks| && Replay(blocks, params).Ok?
    ensures Replay(blocks[..k], params).Ok?
    decreases |blocks|
  {
    hide Create, Submit;
    var n := |blocks| - 1;
    if k == |blocks| {
      assert blocks[..k] == blocks;
    } else {
      ReplayPrefix(blocks[..n], params, k);
      assert blocks[..n][..k] == blocks[..k];
    }
  }

  lemma {:induction false} ReplayStep(blocks: seq<Block>, params: ConsensusParams, k: nat)
    requires 1 <= k < |blocks| && Replay(blocks, params).Ok?
    ensures Replay(blocks[..k], params).Ok?
    ensures Submit(Replay(blocks[..k], params).value, blocks[k]).Ok?
    ensures Replay(blocks[..k + 1], params) == Ok(Submit(Replay(blocks[..k], params).value, blocks[k]).value.0)
  {
    hide Create, Submit;
    ReplayPrefix(blocks, params, k + 1);
    assert blocks[..k + 1][..k] == blocks[..k];
  }

  /** An error part way through a replay is the error of the whole replay. */
  lemma {:induction false} ReplayError(blocks: seq<Block>, params: ConsensusParams, k: nat)
    requires 1 <= k <= |blocks| && Replay(blocks[..k], params).Err?
    ensures Replay(blocks, params) == Replay(blocks[..k], params)
    decreases |blocks| - k
  {
    hide Create, Submit;
    if k == |blocks| {
      assert blocks[..k] == blocks;
    } else {
      assert blocks[..k + 1][..k] == blocks[..k];
      ReplayError(blocks, params, k + 1);
    }
  }

  /** Appending a block to a replayable list is submitting it. */
  lemma ReplayAppend(blocks: seq<Block>, b: Block, params: ConsensusParams)
    requires blocks != [] && Replay(blocks, params).Ok?
    ensures Replay(blocks + [b], params) ==
            match Submit(Replay(blocks, params).value, b)
            case Ok((after, _)) => Ok(after)
            case Err(e) => Err(e)
  {
    hide Create, Submit;
    assert (blocks + [b])[..|blocks|] == blocks;
  }

  lemma CreateFacts(genesis: Block, params: ConsensusParams)
    requires Create(genesis, params).Ok?
    ensures SaneBlock(genesis) && genesis.header.height == 0 && genesis.header.prevBlock == ZERO_HASH
    ensures var c := Create(genesis, params).value;
            c.tip == genesis.header && c.params == params && BlockEffect(genesis, map[], params).Ok?
            && c.coins == BlockEffect(genesis, map[], params).value.0
  {
    hide SaneBlock, BlockSanity;
    SanityExact(genesis);
  }

  /** What a block must meet to extend the chain. */
  lemma SubmitExact(c: ChainState, b: Block)
    ensures Submit(c, b).Ok? <==>
            && b.header.version == BLOCK_VERSION
            && b.header.prevBlock == HeaderHash(c.tip)
            && b.header.height == c.tip.height + 1
            && b.header.timestamp >= c.tip.timestamp
            && SaneBlock(b)
            && BlockEffect(b, c.coins, c.params).Ok?
  {
    hide SaneBlock, BlockSanity, HeaderHash, BlockEffect;
    SanityExact(b);
  }

  lemma SubmitFacts(c: ChainState, b: Block)
    requires Submit(c, b).Ok?
    ensures SaneBlock(b) && b.header.height == c.tip.height + 1
    ensures b.header.prevBlock == HeaderHash(c.tip) && b.header.timestamp >= c.tip.timestamp
    ensures var (d, fees) := Submit(c, b).value;
            d.tip == b.header && d.params == c.params && BlockEffect(b, c.coins, c.params) == Ok((d.coins, fees))
  {
    hide SaneBlock, BlockSanity;
    SanityExact(b);
  }

  /** The blocks of a replayable list are sane, numbered from zero, and linked by hash. */
  lemma {:induction false} ReplayShape(blocks: seq<Block>, params: ConsensusParams)
    requires Replay(blocks, params).Ok?
    ensures blocks != []
    ensures var c := Replay(blocks, params).value; c.tip == blocks[|blocks| - 1].header && c.params == params
    ensures forall i :: 0 <= i < |blocks| ==> SaneBlock(blocks[i]) && blocks[i].header.height == i
    ensures forall i :: 1 <= i < |blocks| ==> blocks[i].header.prevBlock == HeaderHash(blocks[i - 1].header)
    ensures blocks[0].header.prevBlock == ZERO_HASH
  {
    hide Create, Submit, SaneBlock, HeaderHash, BlockEffect;
    if |blocks| == 1 {
      CreateFacts(blocks[0], params);
    } else {
      var n := |blocks| - 1;
      ReplayShape(blocks[..n], params);
      SubmitFacts(Replay(blocks[..n], params).value, blocks[n]);
    }
  }
}
