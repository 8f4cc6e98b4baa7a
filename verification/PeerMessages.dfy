/** What each kind of message does to a peer, stated from the bytes that arrive. */
module PeerMessages {
  import opened Base
  import opened ByteIO
  import opened Transactions
  import opened Blocks
  import opened Pools
  import opened NodeRuns
  import opened Simulator
  import opened Scenarios
  import opened Peers

  /** The payloads accepted are the prefixed, non-empty byte strings within the limit. */
  lemma BlobExact(payload: Bytes, max: U32, bytes: Bytes)
    ensures Blob(payload, max) == Ok(bytes) <==> 0 < |bytes| <= max && payload == EncVarBytes(bytes)
  {
    hide EncVarBytes, DecVarBytes;
    assert EncVarBytes(bytes) + [] == EncVarBytes(bytes);
    if |bytes| <= max {
      VarBytesRoundTrip(bytes, max, []);
    }
  }

  /** Persisting does nothing unless it is on; then two counts can refuse it, and after them the disk. */
  lemma PersistedExact(n: Node, cfg: PeerConfig, disk: Result<()>)
    ensures Persisted(n, cfg, disk).Ok? <==>
            !cfg.persist || (|n.ledger| <= 1_000_000 && |n.pool.entries| <= 10_000 && disk.Ok?)
    ensures Persisted(n, cfg, disk).Err? && disk.Ok? ==> Persisted(n, cfg, disk) == Err(ResourceLimitExceeded)
  {
  }

  // ----- transactions

  lemma TxBytesNonEmpty(tx: Transaction)
    ensures EncTx(tx) != []
  {
    EncTxLength(tx);
  }

  lemma OnTx(n: Node, tx: Transaction, cfg: PeerConfig, disk: Result<()>)
    requires Valid(n.pool) && WireTx(tx) && |EncTx(tx)| <= MAX_TRANSACTION_BYTES
    ensures Valid(AdmitStep(n, tx, cfg.node).1.pool)
    ensures var payload := EncVarBytes(EncTx(tx)); var (admitted, m) := AdmitStep(n, tx, cfg.node);
            && Blob(payload, MAX_TRANSACTION_BYTES).Ok?
            && OnTxAnnounce(n, payload, cfg, disk) ==
               if admitted.Err? || cfg.mineAfterTx == 0 then (admitted, m) else Mined(m, cfg.mineAfterTx, cfg, disk)
  {
    hide Valid, Blob, ParseTx, EncTx, EncVarBytes, WireTx, Accept, Mined;
    TxBytesNonEmpty(tx);
    BlobExact(EncVarBytes(EncTx(tx)), MAX_TRANSACTION_BYTES, EncTx(tx));
    ParseTxExact(EncTx(tx), tx);
    AcceptValid(n.pool, tx, n.chain.coins, cfg.node.policy);
  }

  /** An announced transaction is put to the pool.  Refused, it is answered with a reject.  Accepted, it
      is followed by exactly the configured number of blocks, and by nothing else. */
  lemma TxAnnounced(n: Node, tx: Transaction, cfg: PeerConfig, disk: Result<()>)
    requires Valid(n.pool) && WireTx(tx) && |EncTx(tx)| <= MAX_TRANSACTION_BYTES
    ensures var h := Handle(n, Message(TxAnnounce, EncVarBytes(EncTx(tx))), cfg, disk);
            var (r, pool) := Accept(n.pool, tx, n.chain.coins, cfg.node.policy);
            && (r.Err? ==> h == Handled(r, n.(pool := pool), Some(REJECT)))
            && (r.Ok? && cfg.mineAfterTx == 0 ==> h == Handled(DONE, n.(pool := pool), None))
            && (r.Ok? && cfg.mineAfterTx > 0 && h.result.Ok? ==> Grown(n, cfg.mineAfterTx, h.node) && h.reply.None?)
            && (r.Ok? && cfg.mineAfterTx > 0 && h.result.Err? ==> h.reply == Some(REJECT))
  {
    hide Valid, Accept, OnTxAnnounce, OnBlock, Answer, Blob, EncTx, EncVarBytes, WireTx, MineMany, Persisted;
    OnTx(n, tx, cfg, disk);
    var (r, m) := AdmitStep(n, tx, cfg.node);
    if r.Ok? {
      DoneIsUnique(r);
      if MineMany(m, cfg.mineAfterTx, cfg.node).0.Ok? {
        MineManyExact(m, cfg.mineAfterTx, cfg.node);
      }
    }
  }

  /** Mining after an announced transaction fails at a block, or when all are mined, in persisting. */
  lemma MinedExact(n: Node, count: U32, cfg: PeerConfig, disk: Result<()>)
    requires Valid(n.pool)
    ensures Mined(n, count, cfg, disk).1 == MineMany(n, count, cfg.node).1
    ensures Mined(n, count, cfg, disk).0.Ok? <==>
            MineMany(n, count, cfg.node).0.Ok? && Persisted(MineMany(n, count, cfg.node).1, cfg, disk).Ok?
  {
    hide Valid, MineMany, Persisted;
  }

  /** Bytes that are no transaction leave the peer as it was, with a reject if they were framed. */
  lemma TxGarbled(n: Node, payload: Bytes, cfg: PeerConfig, disk: Result<()>)
    requires Valid(n.pool)
    requires forall tx :: WireTx(tx) && |EncTx(tx)| <= MAX_TRANSACTION_BYTES ==> payload != EncVarBytes(EncTx(tx))
    ensures var h := Handle(n, Message(TxAnnounce, payload), cfg, disk);
            && h.result.Err? && h.node == n
            && (h.reply == None || (h.reply == Some(REJECT) && Blob(payload, MAX_TRANSACTION_BYTES).Ok?))
  {
    hide Valid, ParseTx, EncTx, EncVarBytes, Blob, WireTx, OnBlock, Answer, AdmitStep, Mined;
    var blob := Blob(payload, MAX_TRANSACTION_BYTES);
    if blob.Ok? {
      BlobExact(payload, MAX_TRANSACTION_BYTES, blob.value);
      if ParseTx(blob.value).Ok? {
        ParseTxExact(blob.value, ParseTx(blob.value).value);
      }
    }
  }

  // ----- blocks

  /** An announced block, or one received on request, is connected; its success is persisted. */
  lemma BlockTaken(n: Node, b: Block, kind: MessageKind, cfg: PeerConfig, disk: Result<()>)
    requires Valid(n.pool) && WireBlock(b) && |EncBlock(b)| <= MAX_BLOCK_BYTES
    requires kind == BlockAnnounce || kind == BlockResponse
    ensures var h := Handle(n, Message(kind, EncVarBytes(EncBlock(b))), cfg, disk); var (r, m) := Connect(n, b);
            h == Handled(if r.Err? then r else Persisted(m, cfg, disk), m, None)
  {
    hide Valid, Connect, OnTxAnnounce, Answer, Blob, ParseBlock, EncBlock, EncVarBytes, WireBlock, Persisted;
    BlockBytesNonEmpty(b);
    BlobExact(EncVarBytes(EncBlock(b)), MAX_BLOCK_BYTES, EncBlock(b));
    ParseBlockExact(EncBlock(b), b);
  }

  lemma BlockBytesNonEmpty(b: Block)
    ensures EncBlock(b) != []
  {
    hide EncList;
    assert |EncHeader(b.header)| > 0;
  }

  /** Bytes that are no block leave the peer as it was. */
  lemma BlockGarbled(n: Node, payload: Bytes, kind: MessageKind, cfg: PeerConfig, disk: Result<()>)
    requires Valid(n.pool) && (kind == BlockAnnounce || kind == BlockResponse)
    requires forall b :: WireBlock(b) && |EncBlock(b)| <= MAX_BLOCK_BYTES ==> payload != EncVarBytes(EncBlock(b))
    ensures var h := Handle(n, Message(kind, payload), cfg, disk); h.result.Err? && h.node == n && h.reply == None
  {
    hide Valid, ParseBlock, EncBlock, EncVarBytes, Blob, WireBlock, OnTxAnnounce, Answer, Connect;
    var blob := Blob(payload, MAX_BLOCK_BYTES);
    if blob.Ok? {
      BlobExact(payload, MAX_BLOCK_BYTES, blob.value);
      if ParseBlock(blob.value).Ok? {
        ParseBlockExact(blob.value, ParseBlock(blob.value).value);
      }
    }
  }

  // ----- messages that change nothing

  /** A ping is answered with its own eight bytes; a pong needs no answer. */
  lemma PingAnswered(n: Node, payload: Bytes, cfg: PeerConfig, disk: Result<()>)
    requires Valid(n.pool)
    ensures Handle(n, Message(Ping, payload), cfg, disk) ==
            if |payload| == 8 then Handled(DONE, n, Some(Message(Pong, payload)))
            else Handled(Err(InvalidMessage), n, None)
    ensures Handle(n, Message(Pong, payload), cfg, disk) == Handled(DONE, n, None)
  {
    hide Valid, OnTxAnnounce, OnBlock, EncU64;
    if |payload| == 8 {
      var (nonce, rest) := DecU64(payload).value;
      assert payload == EncU64(nonce);
    }
  }

  /** A request for a height the peer has no block for is rejected. */
  lemma UnknownHeight(n: Node, height: U32, cfg: PeerConfig, disk: Result<()>)
    requires Valid(n.pool) && height >= |n.ledger|
    ensures Handle(n, Message(BlockRequest, EncU32(height)), cfg, disk) == Handled(DONE, n, Some(REJECT))
  {
    hide Valid, OnTxAnnounce, OnBlock, EncU32, DecU32;
    U32RoundTrip(height, []);
    assert EncU32(height) + [] == EncU32(height);
  }

  /** A request is four bytes long. */
  lemma RequestGarbled(n: Node, payload: Bytes, cfg: PeerConfig, disk: Result<()>)
    requires Valid(n.pool) && |payload| != 4
    ensures Handle(n, Message(BlockRequest, payload), cfg, disk) == Handled(Err(ParseError), n, None)
  {
    hide Valid, OnTxAnnounce, OnBlock, EncU32;
  }

  /** Every other kind of message is an error, and is rejected. */
  lemma Unsupported(n: Node, m: Message, cfg: PeerConfig, disk: Result<()>)
    requires Valid(n.pool)
    requires m.kind !in {TxAnnounce, BlockAnnounce, BlockResponse, BlockRequest, Ping, Pong}
    ensures Handle(n, m, cfg, disk) == Handled(Err(InvalidMessage), n, Some(REJECT))
  {
    hide Valid, OnTxAnnounce, OnBlock, OnBlockRequest, PingNonce, RequestedHeight;
  }

  // ----- a session, message by message

  /** Replies, in order, without the messages that had none. */
  function Replies(handled: seq<Option<Message>>): seq<Message> {
    if handled == [] then [] else
      var last := handled[|handled| - 1];
      Replies(handled[..|handled| - 1]) + if last.Some? then [last.value] else []
  }

  /** A session that succeeds handled every message, each on the node the one before it left, and sent
      their replies in order. */
  lemma {:induction false} ExchangesTrace(n: Node, inbound: seq<Message>, cfg: PeerConfig, disks: seq<Result<()>>)
    returns (nodes: seq<Node>, replies: seq<Option<Message>>)
    requires PeerOk(n) && |disks| == |inbound| && Exchanges(n, inbound, cfg, disks).0.Ok?
    ensures |nodes| == |inbound| + 1 && |replies| == |inbound| && nodes[0] == n
    ensures forall i :: 0 <= i < |inbound| ==>
              Valid(nodes[i].pool) &&
              Handle(nodes[i], inbound[i], cfg, disks[i]) == Handled(DONE, nodes[i + 1], replies[i])
    ensures Exchanges(n, inbound, cfg, disks) == (DONE, nodes[|inbound|], Replies(replies))
  {
    hide PeerOk, Handle, Valid;
    PeerIsValid(n);
    if inbound == [] {
      nodes, replies := [n], [];
    } else {
      var k := |inbound| - 1;
      var shorter, earlier := ExchangesTrace(n, inbound[..k], cfg, disks[..k]);
      PeerIsValid(shorter[k]);
      var h := Handle(shorter[k], inbound[k], cfg, disks[k]);
      DoneIsUnique(h.result);
      nodes, replies := shorter + [h.node], earlier + [h.reply];
      assert replies[..k] == earlier;
    }
  }
}
