/** What a relaying peer does with each message, as functions on the node it holds. */
module Peers {
  import opened Base
  import opened ByteIO
  import opened Transactions
  import opened Blocks
  import opened BlockValidation
  import opened ChainRules
  import opened FeeRate
  import opened Pools
  import opened Eviction
  import opened Mempool
  import opened Builder
  import opened LedgerFile
  import opened NodeRuns
  import opened Restart
  import opened Simulator

  // ----- messages

  datatype MessageKind =
    | Handshake | Ping | Pong | PeerInfo
    | TxAnnounce | TxRequest | TxResponse
    | BlockAnnounce | BlockRequest | BlockResponse
    | Reject

  /** A message without its envelope.  The reason carried by a reject is left out. */
  datatype Message = Message(kind: MessageKind, payload: Bytes)

  const REJECT := Message(Reject, [])

  /** The largest payload an envelope may declare. */
  const MAX_PAYLOAD_BYTES: U32 := 0x10_0000

  /** A length-prefixed, non-empty byte string filling the payload. */
  function Blob(payload: Bytes, max: U32): Result<Bytes> {
    var (bytes, rest) :- DecVarBytes(payload, max);
    if bytes == [] then Err(InvalidMessage)
    else if rest != [] then Err(ParseError)
    else Ok(bytes)
  }

  function RequestedHeight(payload: Bytes): Result<U32> {
    var (height, rest) :- DecU32(payload);
    if rest != [] then Err(ParseError) else Ok(height)
  }

  function PingNonce(payload: Bytes): Result<U64> {
    if |payload| != 8 then Err(InvalidMessage) else
    var (nonce, _) :- DecU64(payload);
    Ok(nonce)
  }

  function RequestBlock(height: U32): Message {
    Message(BlockRequest, EncU32(height))
  }

  /** The response carrying a block, if its bytes are within the limit. */
  function RespondWith(b: Block): Result<Message> {
    if |EncBlock(b)| > MAX_BLOCK_BYTES then Err(InvalidMessage)
    else Ok(Message(BlockResponse, EncVarBytes(EncBlock(b))))
  }

  /** Sending a message: the framing refuses one whose payload is over the limit. */
  function Sent(m: Message): Result<Message> {
    if |m.payload| > MAX_PAYLOAD_BYTES then Err(ResourceLimitExceeded) else Ok(m)
  }

  // ----- handlers

  /** What a peer is configured with beyond the mining configuration: the parameters it saves under,
      how many blocks to mine after a transaction, and whether to keep its ledger file current. */
  datatype PeerConfig = PeerConfig(node: Config, consensus: ConsensusParams, mineAfterTx: U32, persist: bool)

  /** The result of a handler, the node after it, and the message it sends back, if any. */
  datatype Handled = Handled(result: Result<()>, node: Node, reply: Option<Message>)

  /** The chain is what the ledger replays to under the chain's own parameters. */
  ghost predicate PeerOk(n: Node) {
    Replay(n.ledger, n.chain.params) == Ok(n.chain) && Valid(n.pool)
  }

  ghost function Connect(n: Node, b: Block): (Result<()>, Node)
    requires Valid(n.pool)
  {
    match Submit(n.chain, b)
    case Ok((chain, _)) => (DONE, Node(n.ledger + [b], chain, Prune(n.pool, b.transactions)))
    case Err(e) => (Err(e), n)
  }

  /** The outcome of persisting, where `disk` is what the file system would answer. */
  function Persisted(n: Node, cfg: PeerConfig, disk: Result<()>): Result<()> {
    if !cfg.persist then DONE
    else if |n.ledger| > MAX_LEDGER_BLOCKS || |n.pool.entries| > MAX_LEDGER_TRANSACTIONS then Err(ResourceLimitExceeded)
    else disk
  }

  /** Mining a number of blocks, then persisting. */
  ghost function Mined(n: Node, count: U32, cfg: PeerConfig, disk: Result<()>): (Result<()>, Node)
    requires Valid(n.pool)
  {
    var (mined, m) := MineMany(n, count, cfg.node);
    if mined.Err? then (mined, m) else (Persisted(m, cfg, disk), m)
  }

  ghost function OnTxAnnounce(n: Node, payload: Bytes, cfg: PeerConfig, disk: Result<()>): (Result<()>, Node)
    requires Valid(n.pool)
  {
    match Blob(payload, MAX_TRANSACTION_BYTES)
    case Err(e) => (Err(e), n)
    case Ok(bytes) =>
      match ParseTx(bytes)
      case Err(e) => (Err(e), n)
      case Ok(tx) =>
        AcceptValid(n.pool, tx, n.chain.coins, cfg.node.policy);
        var (admitted, m) := AdmitStep(n, tx, cfg.node);
        if admitted.Err? || cfg.mineAfterTx == 0 then (admitted, m) else Mined(m, cfg.mineAfterTx, cfg, disk)
  }

  /** Announced and requested blocks are treated alike. */
  ghost function OnBlock(n: Node, payload: Bytes, cfg: PeerConfig, disk: Result<()>): (Result<()>, Node)
    requires Valid(n.pool)
  {
    match Blob(payload, MAX_BLOCK_BYTES)
    case Err(e) => (Err(e), n)
    case Ok(bytes) =>
      match ParseBlock(bytes)
      case Err(e) => (Err(e), n)
      case Ok(b) =>
        var (connected, m) := Connect(n, b);
        if connected.Err? then (connected, m) else (Persisted(m, cfg, disk), m)
  }

  /** A block that is known is made into a response and sent; either can fail. */
  ghost function OnBlockRequest(n: Node, height: U32): (Result<()>, Option<Message>) {
    if height >= |n.ledger| then (DONE, Some(REJECT)) else
      match RespondWith(n.ledger[height])
      case Err(e) => (Err(e), None)
      case Ok(response) =>
        match Sent(response)
        case Err(e) => (Err(e), None)
        case Ok(m) => (DONE, Some(m))
  }

  /** Messages that change nothing: what they are answered with. */
  ghost function Answer(n: Node, m: Message): (Result<()>, Option<Message>) {
    match m.kind
    case BlockRequest =>
      (match RequestedHeight(m.payload)
       case Ok(height) => OnBlockRequest(n, height)
       case Err(e) => (Err(e), None))
    case Ping =>
      (match PingNonce(m.payload)
       case Ok(nonce) => (DONE, Some(Message(Pong, EncU64(nonce))))
       case Err(e) => (Err(e), None))
    case Pong => (DONE, None)
    case _ => (Err(InvalidMessage), Some(REJECT))
  }

  /** A transaction that fails is answered with a reject, unless its payload did not parse. */
  ghost function Handle(n: Node, m: Message, cfg: PeerConfig, disk: Result<()>): Handled
    requires Valid(n.pool)
  {
    if m.kind.TxAnnounce? then
      var (r, next) := OnTxAnnounce(n, m.payload, cfg, disk);
      Handled(r, next, if r.Ok? || Blob(m.payload, MAX_TRANSACTION_BYTES).Err? then None else Some(REJECT))
    else if m.kind.BlockAnnounce? || m.kind.BlockResponse? then
      var (r, next) := OnBlock(n, m.payload, cfg, disk);
      Handled(r, next, None)
    else
      var (r, reply) := Answer(n, m);
      Handled(r, n, reply)
  }

  // ----- what every message keeps

  /** The ledger only grows, under the same parameters. */
  ghost predicate Extends(n: Node, m: Node) {
    n.ledger <= m.ledger && m.chain.params == n.chain.params && m.pool.limits == n.pool.limits
  }

  lemma ConnectKeeps(n: Node, b: Block)
    requires PeerOk(n)
    ensures var m := Connect(n, b).1; PeerOk(m) && Extends(n, m)
  {
    hide Submit, Prune, Replay, Valid;
    if Submit(n.chain, b).Ok? {
      ReplayNonEmpty(n.ledger, n.chain.params);
      ReplayAppend(n.ledger, b, n.chain.params);
      SubmitKeepsParams(n.chain, b);
      PruneKeeps(n.pool, b.transactions);
    }
  }

  lemma PruneKeeps(p: Pool, txs: seq<Transaction>)
    requires Valid(p)
    ensures Valid(Prune(p, txs)) && Prune(p, txs).limits == p.limits
  {
    hide Valid, Txid;
    PruneExact(p, txs);
  }

  lemma AdmitKeepsPeer(n: Node, tx: Transaction, cfg: Config)
    requires PeerOk(n)
    ensures var m := AdmitStep(n, tx, cfg).1; PeerOk(m) && Extends(n, m)
  {
    hide Replay, Valid, Accept;
    AcceptValid(n.pool, tx, n.chain.coins, cfg.policy);
    AcceptKeepsLimits(n.pool, tx, n.chain.coins, cfg.policy);
  }

  /** Mining a block is connecting the block of the template. */
  lemma MineIsConnect(n: Node, cfg: Config)
    requires Valid(n.pool) && MineStep(n, cfg).Ok?
    ensures var (t, m) := MineStep(n, cfg).value; Connect(n, t.block) == (DONE, m)
  {
    hide Valid, Build, Submit, Prune;
  }

  lemma {:induction false} MineManyKeepsPeer(n: Node, count: nat, cfg: Config)
    requires PeerOk(n)
    ensures var m := MineMany(n, count, cfg).1; PeerOk(m) && Extends(n, m)
  {
    hide Valid, Replay, MineStep, Connect;
    if count > 0 {
      MineManyKeepsPeer(n, count - 1, cfg);
      var m := MineMany(n, count - 1, cfg).1;
      if MineStep(m, cfg).Ok? {
        MineIsConnect(m, cfg);
        ConnectKeeps(m, MineStep(m, cfg).value.0.block);
      }
    }
  }

  lemma OnTxKeeps(n: Node, payload: Bytes, cfg: PeerConfig, disk: Result<()>)
    requires PeerOk(n)
    ensures var m := OnTxAnnounce(n, payload, cfg, disk).1; PeerOk(m) && Extends(n, m)
  {
    hide Replay, Valid, AdmitStep, MineMany, Blob, ParseTx;
    if Blob(payload, MAX_TRANSACTION_BYTES).Ok? {
      var parsed := ParseTx(Blob(payload, MAX_TRANSACTION_BYTES).value);
      if parsed.Ok? {
        AdmitKeepsPeer(n, parsed.value, cfg.node);
        MineManyKeepsPeer(AdmitStep(n, parsed.value, cfg.node).1, cfg.mineAfterTx, cfg.node);
      }
    }
  }

  lemma OnBlockKeeps(n: Node, payload: Bytes, cfg: PeerConfig, disk: Result<()>)
    requires PeerOk(n)
    ensures var m := OnBlock(n, payload, cfg, disk).1; PeerOk(m) && Extends(n, m)
  {
    hide Replay, Valid, Connect, Blob, ParseBlock;
    if Blob(payload, MAX_BLOCK_BYTES).Ok? {
      var parsed := ParseBlock(Blob(payload, MAX_BLOCK_BYTES).value);
      if parsed.Ok? {
        ConnectKeeps(n, parsed.value);
      }
    }
  }

  /** Any message, well-formed or not and whatever its outcome, keeps a peer's chain equal to the
      replay of its ledger, and the ledger only grows. */
  lemma HandleKeeps(n: Node, m: Message, cfg: PeerConfig, disk: Result<()>)
    requires PeerOk(n)
    ensures var next := Handle(n, m, cfg, disk).node; PeerOk(next) && Extends(n, next)
  {
    assert Extends(n, n);
    hide PeerOk, Extends, Valid, OnTxAnnounce, OnBlock, Blob, Answer;
    assert Valid(n.pool) by { PeerIsValid(n); }
    if m.kind.TxAnnounce? {
      OnTxKeeps(n, m.payload, cfg, disk);
    } else if m.kind.BlockAnnounce? || m.kind.BlockResponse? {
      OnBlockKeeps(n, m.payload, cfg, disk);
    }
  }

  lemma PeerIsValid(n: Node)
    requires PeerOk(n)
    ensures Valid(n.pool)
  {
  }

  // ----- sessions

  /** How many messages a relay session handles. */
  const SESSION_MESSAGES: nat := 64

  /** The server's side of a session: handle message after message until one fails, the other side
      disconnects, or the limit is reached.  Gives the result, the node, and the replies sent.
      `disks` is what the file system would answer during each message. */
  ghost function Session(n: Node, inbound: seq<Message>, cfg: PeerConfig, disks: seq<Result<()>>)
    : (r: (Result<()>, Node, seq<Message>))
    requires PeerOk(n) && |disks| == |inbound|
    ensures PeerOk(r.1) && Extends(n, r.1)
    ensures |inbound| >= SESSION_MESSAGES ==> r.0.Err?
    ensures |r.2| <= WithinSession(inbound)
  {
    var limit := WithinSession(inbound);
    var (result, node, replies) := Exchanges(n, inbound[..limit], cfg, disks[..limit]);
    (if result.Ok? && |inbound| >= SESSION_MESSAGES then Err(ResourceLimitExceeded) else result, node, replies)
  }

  /** How many of the messages the session gets to. */
  function WithinSession(inbound: seq<Message>): (k: nat)
    ensures k <= |inbound| && k <= SESSION_MESSAGES
  {
    if |inbound| < SESSION_MESSAGES then |inbound| else SESSION_MESSAGES
  }

  ghost function Exchanges(n: Node, inbound: seq<Message>, cfg: PeerConfig, disks: seq<Result<()>>)
    : (r: (Result<()>, Node, seq<Message>))
    requires PeerOk(n) && |disks| == |inbound|
    ensures PeerOk(r.1) && Extends(n, r.1) && |r.2| <= |inbound|
  {
    hide PeerOk, Handle;
    if inbound == [] then (DONE, n, []) else
      var k := |inbound| - 1;
      var (result, node, replies) := Exchanges(n, inbound[..k], cfg, disks[..k]);
      if result.Err? then (result, node, replies) else
        PeerIsValid(node);
        HandleKeeps(node, inbound[k], cfg, disks[k]);
        var h := Handle(node, inbound[k], cfg, disks[k]);
        (h.result, h.node, replies + if h.reply.Some? then [h.reply.value] else [])
  }

  // ----- the ledger file

  /** Writing the ledger file of a peer fails only on the two counts, and what is written reads
      back as the ledger, the configured parameters and the exported pool. */
  lemma PeerSaves(n: Node, params: ConsensusParams, exported: seq<Transaction>)
    requires PeerOk(n) && IsExport(exported, n.pool.entries)
    ensures Sequential(n.ledger)
    ensures EncodeLedger(n.ledger, params, exported).Ok?
            <==> |n.ledger| <= MAX_LEDGER_BLOCKS && |n.pool.entries| <= MAX_LEDGER_TRANSACTIONS
    ensures EncodeLedger(n.ledger, params, exported).Err? ==>
              EncodeLedger(n.ledger, params, exported).code == ResourceLimitExceeded
    ensures EncodeLedger(n.ledger, params, exported).Ok? ==>
              DecodeLedger(EncodeLedger(n.ledger, params, exported).value) == Ok(LedgerData(n.ledger, params, exported))
  {
    hide Replay, Valid, HeaderHash, SaneBlock, WireBlock, WireTx, IsExport, EncBlock, EncTx, WithChecksum, LedgerBody,
         DecodeLedger, Sequential;
    PeerLedgerStorable(n);
    ExportIsWire(n.pool, exported);
    ExportStorable(n.pool, exported);
    if EncodeLedger(n.ledger, params, exported).Ok? {
      LedgerRoundTrip(n.ledger, params, exported);
    }
  }

  lemma PeerLedgerStorable(n: Node)
    requires PeerOk(n)
    ensures Sequential(n.ledger) && |n.ledger| <= TWO_32
    ensures forall i :: 0 <= i < |n.ledger| ==> WireBlock(n.ledger[i]) && |EncBlock(n.ledger[i])| <= MAX_BLOCK_BYTES
  {
    hide Replay, Valid, HeaderHash, SaneBlock, WireBlock, EncBlock;
    ReplayShape(n.ledger, n.chain.params);
    assert n.ledger[|n.ledger| - 1].header.height == |n.ledger| - 1;
    forall i | 0 <= i < |n.ledger| ensures WireBlock(n.ledger[i]) && |EncBlock(n.ledger[i])| <= MAX_BLOCK_BYTES {
      SaneIsWire(n.ledger[i]);
      SaneFits(n.ledger[i]);
    }
  }

  lemma SaneFits(b: Block)
    requires SaneBlock(b)
    ensures |EncBlock(b)| <= MAX_BLOCK_BYTES
  {
  }

  lemma ExportStorable(p: Pool, txs: seq<Transaction>)
    requires Valid(p) && IsExport(txs, p.entries)
    ensures |txs| == |p.entries| && forall i :: 0 <= i < |txs| ==> |EncTx(txs[i])| <= MAX_TRANSACTION_BYTES
  {
    hide IndexOk, EncTx, Txid, LexLess;
    forall i | 0 <= i < |txs| ensures |EncTx(txs[i])| <= MAX_TRANSACTION_BYTES {
      assert EntryOk(p.entries[Txid(txs[i])]);
    }
  }
}
