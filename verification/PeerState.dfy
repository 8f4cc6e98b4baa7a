/** The peer as a program: an active chain, a pool, and a catalog of blocks by height. */
module PeerState {
  import opened Base
  import opened ByteIO
  import opened Cursors
  import opened Transactions
  import opened Blocks
  import opened Wire
  import opened BlockValidation
  import opened ChainRules
  import opened Chain
  import opened Pools
  import opened Mempool
  import opened Builder
  import opened BlockBuilder
  import opened LedgerFile
  import opened ChainStore
  import opened NodeRuns
  import opened Restart
  import opened Simulator
  import opened Scenarios
  import opened Peers
  import opened PeerRestart

  /** The catalog has exactly the heights up to `height`. */
  ghost predicate Dense(catalog: map<U32, Block>, height: U32) {
    forall h: U32 :: h in catalog <==> h <= height
  }

  /** The blocks of a catalog in height order. */
  ghost function Listed(catalog: map<U32, Block>, height: U32): (blocks: seq<Block>)
    requires Dense(catalog, height)
    ensures |blocks| == height + 1 && forall h: U32 :: h in catalog ==> h < |blocks| && blocks[h] == catalog[h]
  {
    seq(height + 1, (i: int) requires 0 <= i <= height => catalog[i])
  }

  lemma CatalogExtends(catalog: map<U32, Block>, height: U32, b: Block)
    requires Dense(catalog, height) && height < MAX_U32
    ensures var more := catalog[height + 1 := b];
            Dense(more, height + 1) && Listed(more, height + 1) == Listed(catalog, height) + [b]
  {
  }

  /** A dense catalog whose listing replays to a chain: every block sits at its own height, the
      headers link by hash, and the last one is the tip. */
  lemma CatalogLinks(catalog: map<U32, Block>, height: U32, chain: ChainState)
    requires Dense(catalog, height) && Replay(Listed(catalog, height), chain.params) == Ok(chain)
    ensures chain.tip.height == height && catalog[height].header == chain.tip
    ensures forall h: U32 :: h in catalog ==> catalog[h].header.height == h && SaneBlock(catalog[h])
    ensures forall h: U32 :: 1 <= h <= height ==> catalog[h].header.prevBlock == HeaderHash(catalog[h - 1].header)
    ensures catalog[0].header.prevBlock == ZERO_HASH
  {
    hide Replay, SaneBlock, HeaderHash;
    var blocks := Listed(catalog, height);
    ReplayShape(blocks, chain.params);
    forall h: U32 | h in catalog ensures catalog[h].header.height == h && SaneBlock(catalog[h]) {
      assert blocks[h] == catalog[h];
    }
    forall h: U32 | 1 <= h <= height ensures catalog[h].header.prevBlock == HeaderHash(catalog[h - 1].header) {
      assert blocks[h] == catalog[h] && blocks[h - 1] == catalog[h - 1];
    }
  }

  method GetBlob(payload: Bytes, max: U32) returns (r: Result<Bytes>)
    ensures r == Blob(payload, max)
  {
    hide DecVarBytes;
    var reader := new ByteReader(payload);
    var bytes :- reader.GetVarBytes(max);
    if bytes == [] {
      return Err(InvalidMessage);
    }
    var _ :- reader.ExpectEnd();
    r := Ok(bytes);
  }

  method GetRequestedHeight(payload: Bytes) returns (r: Result<U32>)
    ensures r == RequestedHeight(payload)
  {
    hide DecU32;
    var reader := new ByteReader(payload);
    var height :- reader.GetU32();
    var _ :- reader.ExpectEnd();
    r := Ok(height);
  }

  method GetPingNonce(payload: Bytes) returns (r: Result<U64>)
    ensures r == PingNonce(payload)
  {
    hide DecU64;
    if |payload| != 8 {
      return Err(InvalidMessage);
    }
    var reader := new ByteReader(payload);
    r := reader.GetU64();
  }

  class Peer {
    const chain: ActiveChain
    const pool: TransactionPool
    const cfg: PeerConfig
    var catalog: map<U32, Block>
    /** The ledger file in the data directory. */
    var file: Option<Bytes>

    ghost function View(): Node
      reads this, chain, chain.utxos, pool
      requires Dense(catalog, chain.tip.height)
    {
      Node(Listed(catalog, chain.tip.height), chain.State(), pool.Contents())
    }

    /** The catalog invariant. */
    ghost predicate Holds()
      reads this, chain, chain.utxos, pool
    {
      Dense(catalog, chain.tip.height) && PeerOk(View())
    }

    constructor (
        chain: ActiveChain, pool: TransactionPool, cfg: PeerConfig, catalog: map<U32, Block>, file: Option<Bytes>)
      ensures this.chain == chain && this.pool == pool && this.cfg == cfg
      ensures this.catalog == catalog && this.file == file
    {
      this.chain, this.pool, this.cfg, this.catalog, this.file := chain, pool, cfg, catalog, file;
    }

    method StoreBlock(height: U32, b: Block)
      modifies `catalog
      ensures catalog == old(catalog)[height := b]
    {
      catalog := catalog[height := b];
    }

    /** Catalogs stored blocks under the heights in their headers. */
    method StoreBlocks(blocks: seq<Block>)
      requires catalog == map[] && 1 <= |blocks| <= TWO_32
      requires forall i :: 0 <= i < |blocks| ==> blocks[i].header.height == i
      modifies `catalog
      ensures Dense(catalog, |blocks| - 1) && Listed(catalog, |blocks| - 1) == blocks
    {
      for i := 0 to |blocks|
        invariant forall h: U32 :: h in catalog <==> h < i
        invariant forall h: U32 :: h in catalog ==> catalog[h] == blocks[h]
      {
        StoreBlock(blocks[i].header.height, blocks[i]);
      }
    }

    function BlockAt(height: U32): (r: Option<Block>)
      reads `catalog
    {
      if height in catalog then Some(catalog[height]) else None
    }

    method LedgerBlocks() returns (blocks: seq<Block>)
      requires Dense(catalog, chain.tip.height)
      ensures blocks == Listed(catalog, chain.tip.height)
    {
      blocks := [];
      for h := 0 to chain.tip.height + 1
        invariant |blocks| == h && blocks == Listed(catalog, chain.tip.height)[..h]
      {
        blocks := blocks + [catalog[h]];
      }
    }

    /** Saves if configured to.  What is saved records the current node. */
    method PersistLedger(disk: Result<()>) returns (r: Result<()>)
      requires Holds()
      modifies `file
      ensures r == Persisted(View(), cfg, disk)
      ensures r.Ok? && cfg.persist ==> file.Some? && Records(file.value, View(), cfg.consensus)
      ensures r.Err? || !cfg.persist ==> file == old(file)
    {
      hide PeerOk, IsExport, EncodeLedger, DecodeLedger, Sequential, Valid;
      if !cfg.persist {
        return DONE;
      }
      PeerIsValid(View());
      var blocks := LedgerBlocks();
      var exported := pool.SortedTransactions();
      ExportStorable(pool.Contents(), exported);
      PeerSaves(View(), cfg.consensus, exported);
      var encoded := SaveLedger(blocks, cfg.consensus, exported);
      if encoded.Err? {
        return Err(encoded.code);
      }
      if disk.Err? {
        return disk;
      }
      DoneIsUnique(disk);
      file := Some(encoded.value);
      r := DONE;
    }

    method ConnectBlock(b: Block) returns (r: Result<()>)
      requires Holds()
      modifies `catalog, chain, chain.utxos, pool
      ensures Holds() && (r, View()) == Connect(old(View()), b)
    {
      hide Submit, Prune, PeerOk, Valid;
      PeerIsValid(View());
      ConnectKeeps(View(), b);
      ghost var before := View();
      ghost var height := chain.tip.height;
      var fees := chain.SubmitBlock(b, pool);
      if fees.Err? {
        return Err(fees.code);
      }
      ConnectHeight(before, b);
      CatalogExtends(catalog, height, b);
      StoreBlock(chain.tip.height, b);
      r := DONE;
    }

    method MineBlocks(count: U32, disk: Result<()>) returns (r: Result<()>)
      requires Holds()
      modifies `catalog, `file, chain, chain.utxos, pool
      ensures Holds() && (r, View()) == Mined(old(View()), count, cfg, disk)
      ensures r.Ok? && cfg.persist ==> file.Some? && Records(file.value, View(), cfg.consensus)
    {
      hide PeerOk, Valid, MineStep, Connect, Persisted, Records;
      ghost var start := View();
      PeerIsValid(start);
      for n := 0 to count
        invariant Holds()
        invariant MineMany(start, n, cfg.node) == (DONE, View())
      {
        PeerIsValid(View());
        var mined := MineBlock();
        if mined.Err? {
          MineError(start, count, cfg.node, n + 1);
          return mined;
        }
      }
      r := PersistLedger(disk);
    }

    /** One turn of the mining loop: the next template, connected. */
    method MineBlock() returns (r: Result<()>)
      requires Holds() && Valid(pool.Contents())
      modifies `catalog, chain, chain.utxos, pool
      ensures Holds()
      ensures match MineStep(old(View()), cfg.node)
              case Ok((_, next)) => r == DONE && View() == next
              case Err(e) => r == Err(e) && View() == old(View())
    {
      hide PeerOk, Valid, Build, Submit, Prune;
      ghost var before := View();
      var timestamp := BlockTimestamp(cfg.node.genesisTimestamp, (chain.tip.height + 1) % TWO_32);
      var template := BuildBlockTemplate(chain.tip, timestamp, pool, chain.utxos, cfg.node.template);
      if template.Err? {
        BuildFailure(before, timestamp, cfg.node);
        return Err(template.code);
      }
      BuildNeedsHeight(chain.tip, timestamp, before.pool, before.chain.coins, cfg.node.template);
      r := ConnectBlock(template.value.block);
    }

    method AcceptTransaction(tx: Transaction) returns (r: Result<()>)
      requires Holds()
      modifies pool
      ensures Valid(old(pool.Contents()))
      ensures Holds() && (r, View()) == AdmitStep(old(View()), tx, cfg.node)
    {
      hide PeerOk, Valid, Accept;
      PeerIsValid(View());
      AdmitKeepsPeer(View(), tx, cfg.node);
      r := pool.Accept(tx, chain.utxos, cfg.node.policy);
    }

    method TakeTransaction(payload: Bytes, disk: Result<()>) returns (r: Result<()>)
      requires Holds()
      modifies `catalog, `file, chain, chain.utxos, pool
      ensures Holds() && (r, View()) == OnTxAnnounce(old(View()), payload, cfg, disk)
    {
      hide PeerOk, Valid, AdmitStep, Mined, Blob, ParseTx, Records;
      PeerIsValid(View());
      var bytes := GetBlob(payload, MAX_TRANSACTION_BYTES);
      if bytes.Err? {
        return Err(bytes.code);
      }
      var tx := ParseTxBytes(bytes.value);
      if tx.Err? {
        return Err(tx.code);
      }
      r := AcceptTransaction(tx.value);
      if r.Err? {
        return;
      }
      if cfg.mineAfterTx > 0 {
        r := MineBlocks(cfg.mineAfterTx, disk);
      }
    }

    method TakeBlock(payload: Bytes, disk: Result<()>) returns (r: Result<()>)
      requires Holds()
      modifies `catalog, `file, chain, chain.utxos, pool
      ensures Holds() && (r, View()) == OnBlock(old(View()), payload, cfg, disk)
      ensures r.Ok? && cfg.persist ==> file.Some? && Records(file.value, View(), cfg.consensus)
    {
      hide PeerOk, Valid, Connect, Blob, ParseBlock, Records, Persisted;
      PeerIsValid(View());
      var bytes := GetBlob(payload, MAX_BLOCK_BYTES);
      if bytes.Err? {
        return Err(bytes.code);
      }
      var block := ParseBlockBytes(bytes.value);
      if block.Err? {
        return Err(block.code);
      }
      r := ConnectBlock(block.value);
      if r.Err? {
        return;
      }
      r := PersistLedger(disk);
    }

    method AnswerBlockRequest(height: U32) returns (r: Result<()>, reply: Option<Message>)
      requires Holds()
      ensures (r, reply) == OnBlockRequest(View(), height)
    {
      hide PeerOk, EncBlock, EncVarBytes;
      var block := BlockAt(height);
      if block.None? {
        return DONE, Some(REJECT);
      }
      var bytes := BlockToBytes(block.value);
      if |bytes| > MAX_BLOCK_BYTES {
        return Err(InvalidMessage), None;
      }
      var sent := Sent(Message(BlockResponse, EncVarBytes(bytes)));
      if sent.Err? {
        return Err(sent.code), None;
      }
      return DONE, Some(sent.value);
    }

    /** Requests and the messages that only get an answer. */
    method AnswerMessage(m: Message) returns (r: Result<()>, reply: Option<Message>)
      requires Holds() && !m.kind.TxAnnounce? && !m.kind.BlockAnnounce? && !m.kind.BlockResponse?
      ensures (r, reply) == Answer(View(), m)
    {
      hide PeerOk, OnBlockRequest, RequestedHeight, PingNonce;
      match m.kind {
        case BlockRequest =>
          var height := GetRequestedHeight(m.payload);
          if height.Err? {
            return Err(height.code), None;
          }
          r, reply := AnswerBlockRequest(height.value);
        case Ping =>
          var nonce := GetPingNonce(m.payload);
          if nonce.Err? {
            return Err(nonce.code), None;
          }
          return DONE, Some(Message(Pong, EncU64(nonce.value)));
        case Pong =>
          return DONE, None;
        case _ =>
          return Err(InvalidMessage), Some(REJECT);
      }
    }

    method HandleMessage(m: Message, disk: Result<()>) returns (r: Result<()>, reply: Option<Message>)
      requires Holds()
      modifies `catalog, `file, chain, chain.utxos, pool
      ensures Holds() && Handled(r, View(), reply) == Handle(old(View()), m, cfg, disk)
      ensures r.Ok? && cfg.persist && (m.kind.BlockAnnounce? || m.kind.BlockResponse?) ==>
                file.Some? && Records(file.value, View(), cfg.consensus)
    {
      hide PeerOk, Valid, OnTxAnnounce, OnBlock, Answer, Blob, Records;
      PeerIsValid(View());
      if m.kind.TxAnnounce? {
        var blob := GetBlob(m.payload, MAX_TRANSACTION_BYTES);
        if blob.Err? {
          UnreadableTx(View(), m.payload, cfg, disk);
          return Err(blob.code), None;
        }
        r := TakeTransaction(m.payload, disk);
        reply := if r.Err? then Some(REJECT) else None;
      } else if m.kind.BlockAnnounce? || m.kind.BlockResponse? {
        r := TakeBlock(m.payload, disk);
        reply := None;
      } else {
        r, reply := AnswerMessage(m);
      }
    }
  }

  lemma ConnectHeight(n: Node, b: Block)
    requires Submit(n.chain, b).Ok?
    ensures n.chain.tip.height < MAX_U32 && Submit(n.chain, b).value.0.tip.height == n.chain.tip.height + 1
  {
    hide BlockEffect, BlockSanity, HeaderHash;
  }

  lemma UnreadableTx(n: Node, payload: Bytes, cfg: PeerConfig, disk: Result<()>)
    requires Valid(n.pool) && Blob(payload, MAX_TRANSACTION_BYTES).Err?
    ensures OnTxAnnounce(n, payload, cfg, disk) == (Err(Blob(payload, MAX_TRANSACTION_BYTES).code), n)
  {
    hide Valid, Blob, AdmitStep, Mined;
  }

  // ----- starting a peer

  /** A fresh peer: the empty genesis and then some mined blocks, saved after mining and once more. */
  ghost function FreshPeer(limits: Limits, mine: U32, cfg: PeerConfig, disk: Result<()>, again: Result<()>)
    : Result<Node>
  {
    var genesis := Genesis(cfg.node.genesisTimestamp);
    var chain :- Create(genesis, cfg.consensus);
    EmptyPoolValid(limits);
    var (mined, n) := Mined(Node([genesis], chain, Pool(limits, map[], map[], 0)), mine, cfg, disk);
    if mined.Err? then Err(mined.code) else
      var _ :- Persisted(n, cfg, again);
      Ok(n)
  }

  /** A peer that starts has the genesis and exactly the blocks asked for. */
  lemma FreshPeerExact(limits: Limits, mine: U32, cfg: PeerConfig, disk: Result<()>, again: Result<()>)
    requires FreshPeer(limits, mine, cfg, disk, again).Ok?
    ensures var n := FreshPeer(limits, mine, cfg, disk, again).value;
            && PeerOk(n) && |n.ledger| == mine + 1 && n.chain.tip.height == mine
            && n.ledger[0] == Genesis(cfg.node.genesisTimestamp)
            && n.chain.params == cfg.consensus && n.pool.limits == limits
  {
    hide PeerOk, Valid, MineMany, Persisted, Create;
    var genesis := Genesis(cfg.node.genesisTimestamp);
    GenesisCreates(cfg.node.genesisTimestamp, cfg.consensus);
    EmptyPoolValid(limits);
    var start := Node([genesis], Create(genesis, cfg.consensus).value, Pool(limits, map[], map[], 0));
    StartsDense(genesis, cfg.consensus, start.pool);
    MineManyExact(start, mine, cfg.node);
    MineManyKeepsPeer(start, mine, cfg.node);
  }

  method StartFresh(limits: Limits, mine: U32, cfg: PeerConfig, disk: Result<()>, again: Result<()>)
    returns (r: Result<Peer>)
    ensures match FreshPeer(limits, mine, cfg, disk, again)
            case Ok(n) => r.Ok? && fresh(r.value) && r.value.Holds() && r.value.View() == n && r.value.cfg == cfg
            case Err(e) => r == Err(e)
  {
    hide PeerOk, Valid, Mined, Persisted, Records, Create;
    var genesis := Genesis(cfg.node.genesisTimestamp);
    var created := ActiveChain.Create(genesis, cfg.consensus);
    if created.Err? {
      return Err(created.code);
    }
    var pool := new TransactionPool(limits);
    var peer := new Peer(created.value, pool, cfg, map[], None);
    peer.StoreBlock(0, genesis);
    StartsDense(genesis, cfg.consensus, pool.Contents());
    assert peer.View() == Node([genesis], Create(genesis, cfg.consensus).value, pool.Contents());
    var mined := peer.MineBlocks(mine, disk);
    if mined.Err? {
      return Err(mined.code);
    }
    DoneIsUnique(mined);
    var saved := peer.PersistLedger(again);
    if saved.Err? {
      return Err(saved.code);
    }
    r := Ok(peer);
  }

  lemma StartsDense(genesis: Block, params: ConsensusParams, pool: Pool)
    requires Create(genesis, params).Ok? && Valid(pool)
    ensures Create(genesis, params).value.tip.height == 0
    ensures Dense(map[0 := genesis], 0) && Listed(map[0 := genesis], 0) == [genesis]
    ensures PeerOk(Node([genesis], Create(genesis, params).value, pool))
  {
    hide Valid, SaneBlock, BlockEffect;
    CreateFacts(genesis, params);
  }

  method RestorePeer(bytes: Bytes, limits: Limits, cfg: PeerConfig) returns (r: Result<Peer>)
    ensures match RestoredPeer(bytes, limits, cfg.node.policy)
            case Ok(n) => r.Ok? && fresh(r.value) && r.value.Holds() && r.value.View() == n && r.value.cfg == cfg
            case Err(e) => r == Err(e)
  {
    hide PeerOk, Valid, DecodeLedger, Restore, Replay, Sequential;
    var ledger := ReadLedger(bytes);
    if ledger.Err? {
      return Err(ledger.code);
    }
    var chain := ReplayChain(ledger.value.blocks, ledger.value.params);
    if chain.Err? {
      return Err(chain.code);
    }
    var pool := new TransactionPool(limits);
    var peer := new Peer(chain.value, pool, cfg, map[], Some(bytes));
    ReplayedHeights(ledger.value.blocks, ledger.value.params);
    peer.StoreBlocks(ledger.value.blocks);
    var restored := RestoreMempool(pool, chain.value.utxos, ledger.value.mempool, cfg.node.policy);
    if restored.Err? {
      return Err(restored.code);
    }
    RestoredPeerOk(bytes, limits, cfg.node.policy);
    r := Ok(peer);
  }

  lemma ReplayedHeights(blocks: seq<Block>, params: ConsensusParams)
    requires Replay(blocks, params).Ok?
    ensures 1 <= |blocks| <= TWO_32 && Replay(blocks, params).value.tip.height == |blocks| - 1
    ensures forall i :: 0 <= i < |blocks| ==> blocks[i].header.height == i
  {
    hide Replay, SaneBlock, HeaderHash;
    ReplayShape(blocks, params);
  }
}
