/** Block sync between two peers: the client asks for the blocks it lacks, one at a time, and the
    server answers as many messages as a session allows.  The channel delivers what is sent. */
module Relay {
  import opened Base
  import opened ByteIO
  import opened Hashing
  import opened Transactions
  import opened Blocks
  import opened Merkle
  import opened BlockValidation
  import opened ChainRules
  import opened History
  import opened Parameters
  import opened Pools
  import opened Builder
  import opened Templates
  import opened NodeRuns
  import opened Peers
  import opened PeerMessages
  import opened PeerRestart
  import opened PeerState

  /** One request and its answer: the outcome, the client after it, and whether the server goes on.
      A server that sends nothing looks like a failed receive. */
  ghost function Exchange(c: Node, s: Node, h: U32, mine: PeerConfig, theirs: PeerConfig): (r: (Result<()>, Node, bool))
    requires PeerOk(c) && PeerOk(s)
    ensures PeerOk(r.1)
  {
    hide PeerOk, Handle, RequestBlock;
    PeerIsValid(s);
    var served := Handle(s, RequestBlock(h), theirs, DONE);
    if served.reply.None? then (Err(PeerMisbehavior), c, false)
    else
      PeerIsValid(c);
      HandleKeeps(c, served.reply.value, mine, DONE);
      var taken := Handle(c, served.reply.value, mine, DONE);
      (taken.result, taken.node, served.result.Ok?)
  }

  /** The client's loop from height `h`, a 32-bit counter, with `left` messages left in the server's
      session. */
  ghost function SyncFrom(c: Node, s: Node, h: U32, left: nat, mine: PeerConfig, theirs: PeerConfig)
    : (r: (Result<()>, Node))
    requires PeerOk(c) && PeerOk(s)
    ensures PeerOk(r.1)
    decreases left
  {
    hide PeerOk, Exchange;
    if h > s.chain.tip.height then (DONE, c)
    else if left == 0 then (Err(PeerMisbehavior), c)
    else
      var (r, d, serving) := Exchange(c, s, h, mine, theirs);
      if r.Err? then (r, d)
      else SyncFrom(d, s, (h + 1) % TWO_32, if serving then left - 1 else 0, mine, theirs)
  }

  /** The whole sync: the target is the height in the server's handshake, and must be reached. */
  ghost function Sync(c: Node, s: Node, mine: PeerConfig, theirs: PeerConfig): (Result<()>, Node)
    requires PeerOk(c) && PeerOk(s)
  {
    var (r, end) := SyncFrom(c, s, (c.chain.tip.height + 1) % TWO_32, SESSION_MESSAGES, mine, theirs);
    (if r.Ok? && end.chain.tip.height != s.chain.tip.height then Err(InvalidBlock) else r, end)
  }

  // ----- one exchange

  /** The block fits a response: its length prefix takes four bytes of the payload. */
  predicate Fits(b: Block) {
    |EncBlock(b)| <= MAX_PAYLOAD_BYTES - 4
  }

  lemma {:induction false} EncodedByFours(txs: seq<Transaction>) returns (words: nat)
    ensures EncodedSize(txs) == 4 * words
  {
    hide EncTx;
    words := 0;
    if txs != [] {
      var last := txs[|txs| - 1];
      words := EncodedByFours(txs[..|txs| - 1]);
      words := words + 4 + 9 * |last.inputs| + 10 * |last.outputs|;
      EncTxLength(last);
    }
  }

  /** Encodings come in multiples of four bytes, so the one size of a sane block that does not fit is the
      largest. */
  lemma FitsExact(b: Block)
    requires SaneBlock(b)
    ensures Fits(b) <==> |EncBlock(b)| != MAX_BLOCK_BYTES
  {
    hide EncBlock, EncodedSize, SaneBlock;
    SaneFits(b);
    BlockSize(b);
    var words := EncodedByFours(b.transactions);
  }

  /** A peer answers a request for a block it has with that block, or fails to send it if it does not fit. */
  lemma RequestAnswered(s: Node, h: U32, cfg: PeerConfig, disk: Result<()>)
    requires PeerOk(s) && h < |s.ledger|
    ensures Handle(s, RequestBlock(h), cfg, disk) ==
            if Fits(s.ledger[h])
            then Handled(DONE, s, Some(Message(BlockResponse, EncVarBytes(EncBlock(s.ledger[h])))))
            else Handled(Err(ResourceLimitExceeded), s, None)
  {
    hide PeerOk, EncBlock, EncVarBytes, EncU32, DecU32, OnTxAnnounce, OnBlock, Valid;
    PeerIsValid(s);
    PeerLedgerStorable(s);
    U32RoundTrip(h, []);
    assert EncU32(h) + [] == EncU32(h);
  }

  /** A response is taken as the block it carries. */
  lemma ResponseTaken(c: Node, b: Block, cfg: PeerConfig)
    requires PeerOk(c) && WireBlock(b) && |EncBlock(b)| <= MAX_BLOCK_BYTES && !cfg.persist
    ensures var h := Handle(c, Message(BlockResponse, EncVarBytes(EncBlock(b))), cfg, DONE);
            (h.result, h.node) == Connect(c, b)
  {
    hide PeerOk, EncBlock, EncVarBytes, Valid, Connect, Handle, WireBlock;
    PeerIsValid(c);
    BlockTaken(c, b, BlockResponse, cfg, DONE);
    ConnectDone(c, b);
  }

  lemma ConnectDone(c: Node, b: Block)
    requires Valid(c.pool)
    ensures Connect(c, b).0.Ok? ==> Connect(c, b).0 == DONE
  {
    hide Valid, Submit, Prune;
  }

  /** To a peer that holds a prefix of a ledger, the next block connects exactly when the longer prefix
      replays under the peer's parameters. */
  lemma NextBlockConnects(c: Node, ledger: seq<Block>)
    requires PeerOk(c) && c.ledger < ledger
    ensures var (r, d) := Connect(c, ledger[|c.ledger|]); var longer := ledger[..|c.ledger| + 1];
            && (r.Ok? <==> Replay(longer, c.chain.params).Ok?)
            && (r.Ok? ==> d.ledger == longer && PeerOk(d) && d.chain.params == c.chain.params)
            && (r.Err? ==> d == c)
  {
    hide Valid, Submit, Prune, Replay;
    var k := |c.ledger|;
    ReplayNonEmpty(c.ledger, c.chain.params);
    ReplayAppend(c.ledger, ledger[k], c.chain.params);
    ConnectKeeps(c, ledger[k]);
    assert ledger[..k + 1] == c.ledger + [ledger[k]];
  }

  /** Peers with the same ledger have the same tip and unspent set. */
  lemma SameLedgerSameChain(c: Node, s: Node)
    requires PeerOk(c) && PeerOk(s) && c.ledger == s.ledger
    ensures c.chain == s.chain.(params := c.chain.params)
  {
    hide Replay, Valid, Permitted;
    ReplayExact(s.ledger, s.chain.params, c.chain.params);
  }

  lemma LedgerHeight(n: Node)
    requires PeerOk(n)
    ensures n.chain.tip.height == |n.ledger| - 1
  {
    hide Replay, Valid, SaneBlock, HeaderHash;
    ReplayShape(n.ledger, n.chain.params);
  }

  /** At the last representable height nothing connects. */
  lemma FullChainRefuses(c: Node, b: Block)
    requires PeerOk(c) && c.chain.tip.height == MAX_U32
    ensures Connect(c, b).0.Err? && Connect(c, b).1 == c
  {
    hide Valid, Replay, Prune, BlockEffect, BlockSanity, HeaderHash;
  }

  // ----- the loop

  /** Every block the client lacks fits a response. */
  ghost predicate Relayable(s: Node, from: nat) {
    forall i :: from <= i < |s.ledger| ==> Fits(s.ledger[i])
  }

  /** One exchange with a server that has the block: the server fails to send it if it does not fit,
      which the client sees as a failed receive, and otherwise the client connects it. */
  lemma BlockExchanged(c: Node, s: Node, h: U32, mine: PeerConfig, theirs: PeerConfig)
    requires PeerOk(c) && PeerOk(s) && h < |s.ledger| && !mine.persist
    ensures Valid(c.pool)
    ensures Exchange(c, s, h, mine, theirs) ==
            if !Fits(s.ledger[h]) then (Err(PeerMisbehavior), c, false)
            else (Connect(c, s.ledger[h]).0, Connect(c, s.ledger[h]).1, true)
  {
    hide PeerOk, Handle, EncBlock, EncVarBytes, Connect, WireBlock, RequestBlock, Valid, Fits;
    PeerIsValid(c);
    PeerIsValid(s);
    RequestAnswered(s, h, theirs, DONE);
    PeerLedgerStorable(s);
    ResponseTaken(c, s.ledger[h], mine);
  }

  /** One turn of the loop, for a client that is behind. */
  lemma Turn(c: Node, s: Node, left: nat, mine: PeerConfig, theirs: PeerConfig)
    requires PeerOk(c) && PeerOk(s) && |c.ledger| < |s.ledger| && |c.ledger| <= MAX_U32 && left > 0 && !mine.persist
    ensures Valid(c.pool) && PeerOk(Connect(c, s.ledger[|c.ledger|]).1)
    ensures var b := s.ledger[|c.ledger|]; var (r, d) := Connect(c, b);
            SyncFrom(c, s, |c.ledger|, left, mine, theirs) ==
            if !Fits(b) then (Err(PeerMisbehavior), c)
            else if r.Err? then (r, c)
            else SyncFrom(d, s, (|c.ledger| + 1) % TWO_32, left - 1, mine, theirs)
  {
    hide PeerOk, Exchange, Fits, Connect, Valid;
    LedgerHeight(s);
    BlockExchanged(c, s, |c.ledger|, mine, theirs);
    ConnectKeeps(c, s.ledger[|c.ledger|]);
    ConnectFailure(c, s.ledger[|c.ledger|]);
  }

  lemma ConnectFailure(c: Node, b: Block)
    requires Valid(c.pool)
    ensures Connect(c, b).0.Err? ==> Connect(c, b).1 == c
  {
    hide Valid, Submit, Prune;
  }

  /** When the counter has wrapped, the client asks for the genesis, which cannot extend its chain. */
  lemma WrappedTurn(c: Node, s: Node, left: nat, mine: PeerConfig, theirs: PeerConfig)
    requires PeerOk(c) && PeerOk(s) && c.chain.tip.height == MAX_U32 && !mine.persist
    ensures SyncFrom(c, s, 0, left, mine, theirs).0.Err? && SyncFrom(c, s, 0, left, mine, theirs).1 == c
  {
    hide PeerOk, Exchange, Fits, Connect, Valid;
    LedgerHeight(s);
    BlockExchanged(c, s, 0, mine, theirs);
    FullChainRefuses(c, s.ledger[0]);
  }

  /** The server's blocks can bring a client that holds a prefix of them all the way: the last height is
      not reached, the gap fits the messages left, and the blocks fit a response and replay under the
      client's parameters. */
  ghost predicate Reaches(c: Node, s: Node, left: nat) {
    && c.ledger <= s.ledger
    && |s.ledger| <= MAX_U32
    && |s.ledger| - |c.ledger| <= left
    && Relayable(s, |c.ledger|)
    && Replay(s.ledger, c.chain.params).Ok?
  }

  lemma {:induction false} PrefixSyncs(c: Node, s: Node, left: nat, mine: PeerConfig, theirs: PeerConfig)
    requires PeerOk(c) && PeerOk(s) && c.ledger <= s.ledger && |c.ledger| <= MAX_U32 && !mine.persist
    ensures var (r, end) := SyncFrom(c, s, |c.ledger|, left, mine, theirs);
            && (r.Ok? <==> |c.ledger| == |s.ledger| || Reaches(c, s, left))
            && (r.Ok? ==> end.ledger == s.ledger)
            && c.ledger <= end.ledger <= s.ledger && end.chain.params == c.chain.params
    decreases left
  {
    hide PeerOk, Fits, Connect, SyncFrom, Valid, Replay;
    var k := |c.ledger|;
    LedgerHeight(s);
    if k == |s.ledger| {
      assert c.ledger == s.ledger;
      SyncFromDone(c, s, k, left, mine, theirs);
    } else if left == 0 {
      SyncFromStopped(c, s, k, mine, theirs);
    } else {
      Turn(c, s, left, mine, theirs);
      NextBlockConnects(c, s.ledger);
      var (r, d) := Connect(c, s.ledger[k]);
      if r.Err? {
        ReplayError(s.ledger, c.chain.params, k + 1);
      } else if Fits(s.ledger[k]) {
        if k == MAX_U32 {
          LedgerHeight(d);
          WrappedTurn(d, s, left - 1, mine, theirs);
        } else {
          PrefixSyncs(d, s, left - 1, mine, theirs);
          if k + 1 == |s.ledger| {
            assert s.ledger[..k + 1] == s.ledger;
          }
        }
      }
    }
  }

  lemma SyncFromDone(c: Node, s: Node, h: U32, left: nat, mine: PeerConfig, theirs: PeerConfig)
    requires PeerOk(c) && PeerOk(s) && h > s.chain.tip.height
    ensures SyncFrom(c, s, h, left, mine, theirs) == (DONE, c)
  {
    hide PeerOk, Exchange;
  }

  lemma SyncFromStopped(c: Node, s: Node, h: U32, mine: PeerConfig, theirs: PeerConfig)
    requires PeerOk(c) && PeerOk(s) && h <= s.chain.tip.height
    ensures SyncFrom(c, s, h, 0, mine, theirs) == (Err(PeerMisbehavior), c)
  {
    hide PeerOk, Exchange;
  }

  // ----- any two peers

  lemma {:induction false} HistoryPrefix(blocks: seq<Block>, k: nat)
    requires k <= |blocks|
    ensures HistoryMessages(blocks[..k]) <= HistoryMessages(blocks)
    decreases |blocks|
  {
    hide EncHeader, RootMessages;
    if k == |blocks| {
      assert blocks[..k] == blocks;
    } else {
      var n := |blocks| - 1;
      HistoryPrefix(blocks[..n], k);
      assert blocks[..n][..k] == blocks[..k];
    }
  }

  /** The messages both histories hash, without a collision or a preimage of zero. */
  ghost predicate Binding(messages: set<Bytes>, c: Node, s: Node) {
    && NoCollision(messages) && NoneHashesToZero(messages)
    && HistoryMessages(c.ledger) <= messages && HistoryMessages(s.ledger) <= messages
  }

  /** A client whose ledger is no prefix of the server's refuses the first block it is sent. */
  lemma ForkRefused(c: Node, s: Node, messages: set<Bytes>)
    requires PeerOk(c) && PeerOk(s) && |c.ledger| < |s.ledger| && !(c.ledger <= s.ledger) && Binding(messages, c, s)
    ensures Valid(c.pool) && Connect(c, s.ledger[|c.ledger|]).0.Err?
  {
    hide Valid, Replay, Submit, Prune, SaneBlock, HeaderHash, NoCollision, NoneHashesToZero, HistoryMessages,
         BlockEffect;
    var k := |c.ledger|;
    ReplayNonEmpty(c.ledger, c.chain.params);
    if Submit(c.chain, s.ledger[k]).Ok? {
      SubmitFacts(c.chain, s.ledger[k]);
      ReplayShape(s.ledger, s.chain.params);
      ReplayPrefix(s.ledger, s.chain.params, k);
      ReplayShape(s.ledger[..k], s.chain.params);
      HistoryPrefix(s.ledger, k);
      TipDeterminesHistory(c.ledger, s.ledger[..k], c.chain.params, s.chain.params, messages);
      assert false;
    }
  }

  /** The loop between any two peers: it asks for nothing if the client is not behind, and otherwise
      succeeds exactly when the server's blocks reach from the client's to the end. */
  lemma SyncFromExact(c: Node, s: Node, left: nat, mine: PeerConfig, theirs: PeerConfig, messages: set<Bytes>)
    requires PeerOk(c) && PeerOk(s) && !mine.persist && Binding(messages, c, s)
    ensures var (r, end) := SyncFrom(c, s, |c.ledger| % TWO_32, left, mine, theirs);
            && (r.Ok? <==> |c.ledger| <= MAX_U32 && (|c.ledger| >= |s.ledger| || Reaches(c, s, left)))
            && (r.Ok? && |c.ledger| < |s.ledger| ==> end.ledger == s.ledger)
            && (!(c.ledger <= s.ledger) ==> end == c)
            && c.ledger <= end.ledger && (c.ledger <= s.ledger ==> end.ledger <= s.ledger)
            && end.chain.params == c.chain.params
  {
    hide PeerOk, Fits, Connect, SyncFrom, Valid, Replay, Binding, Relayable;
    var k := |c.ledger|;
    LedgerHeight(c);
    LedgerHeight(s);
    if k == TWO_32 {
      WrappedTurn(c, s, left, mine, theirs);
    } else if c.ledger <= s.ledger {
      PrefixSyncs(c, s, left, mine, theirs);
    } else if k >= |s.ledger| {
      SyncFromDone(c, s, k, left, mine, theirs);
    } else if left == 0 {
      SyncFromStopped(c, s, k, mine, theirs);
    } else {
      Turn(c, s, left, mine, theirs);
      ForkRefused(c, s, messages);
    }
  }

  /** Sync between any two peers succeeds exactly when the server is below the last height and either
      the heights are equal already or the server's blocks reach from the client's to the end.  A
      success means the client has the server's tip and unspent set exactly when it was behind or had
      the server's ledger: at equal height nothing is compared.  A client that is not on the server's
      chain is left as it was. */
  lemma SyncExact(c: Node, s: Node, mine: PeerConfig, theirs: PeerConfig, messages: set<Bytes>)
    requires PeerOk(c) && PeerOk(s) && !mine.persist && Binding(messages, c, s)
    ensures var (r, end) := Sync(c, s, mine, theirs);
            && (r.Ok? <==> && s.chain.tip.height < MAX_U32
                           && (c.chain.tip.height == s.chain.tip.height || Reaches(c, s, SESSION_MESSAGES)))
            && (r.Ok? ==>
                  (end.chain == s.chain.(params := c.chain.params) <==>
                     c.chain.tip.height < s.chain.tip.height || c.ledger == s.ledger))
            && (r.Ok? && c.chain.tip.height < s.chain.tip.height ==> end.ledger == s.ledger)
            && (!(c.ledger <= s.ledger) ==> end == c)
            && PeerOk(end) && c.ledger <= end.ledger
  {
    hide PeerOk, SyncFrom, Relayable, Replay, Binding;
    LedgerHeight(c);
    LedgerHeight(s);
    SyncFromExact(c, s, SESSION_MESSAGES, mine, theirs, messages);
    var end := Sync(c, s, mine, theirs).1;
    LedgerHeight(end);
    if end.ledger == s.ledger {
      SameLedgerSameChain(end, s);
    } else if end.chain.tip == s.chain.tip {
      SameTipSameLedger(c, s, messages);
    }
  }

  lemma SameTipSameLedger(c: Node, s: Node, messages: set<Bytes>)
    requires PeerOk(c) && PeerOk(s) && c.chain.tip == s.chain.tip && Binding(messages, c, s)
    ensures c.ledger == s.ledger
  {
    hide Valid, Replay, HeaderHash, NoCollision, NoneHashesToZero, HistoryMessages;
    TipDeterminesHistory(c.ledger, s.ledger, c.chain.params, s.chain.params, messages);
  }

  // ----- the server's view of the same session

  /** Requests for `count` consecutive blocks. */
  function Requests(from: nat, count: nat): (r: seq<Message>)
    requires from + count <= TWO_32
    ensures |r| == count
  {
    seq(count, i requires 0 <= i < count => RequestBlock(from + i))
  }

  /** The responses to them. */
  function Responses(ledger: seq<Block>, from: nat, count: nat): (r: seq<Message>)
    requires from + count <= |ledger|
    ensures |r| == count
  {
    seq(count, i requires 0 <= i < count => Message(BlockResponse, EncVarBytes(EncBlock(ledger[from + i]))))
  }

  /** How many of the requested blocks come before the first that does not fit. */
  function Fitting(ledger: seq<Block>, from: nat, count: nat): (m: nat)
    requires from + count <= |ledger|
    ensures m <= count
    ensures forall i :: from <= i < from + m ==> Fits(ledger[i])
    ensures m < count ==> !Fits(ledger[from + m])
  {
    hide EncBlock;
    if count == 0 then 0 else
      var m := Fitting(ledger, from, count - 1);
      if m == count - 1 && Fits(ledger[from + m]) then count else m
  }

  /** A server answers consecutive requests with those blocks, in order, up to the first that does
      not fit, where it fails; it does not change. */
  lemma {:induction false} RequestsServed(s: Node, from: nat, count: nat, cfg: PeerConfig, disks: seq<Result<()>>)
    requires PeerOk(s) && from + count <= |s.ledger| <= TWO_32 && |disks| == count
    ensures var m := Fitting(s.ledger, from, count);
            Exchanges(s, Requests(from, count), cfg, disks) ==
            (if m == count then DONE else Err(ResourceLimitExceeded), s, Responses(s.ledger, from, m))
  {
    hide PeerOk, Handle, EncBlock, EncVarBytes, RequestBlock, Exchanges, Fits;
    if count == 0 {
      assert Requests(from, 0) == [] && Responses(s.ledger, from, 0) == [];
      NoExchanges(s, cfg);
    } else {
      var requests, k := Requests(from, count), count - 1;
      assert requests[..k] == Requests(from, k) && requests[..k + 1] == requests && disks[..k + 1] == disks;
      RequestsServed(s, from, k, cfg, disks[..k]);
      if Fitting(s.ledger, from, k) == k {
        ExchangesStep(s, requests, cfg, disks, k);
        RequestAnswered(s, from + k, cfg, disks[k]);
        if Fits(s.ledger[from + k]) {
          ResponsesAppend(s.ledger, from, k);
        } else {
          assert Responses(s.ledger, from, k) + [] == Responses(s.ledger, from, k);
        }
      } else {
        ExchangesError(s, requests, cfg, disks, k);
      }
    }
  }

  lemma ResponsesAppend(ledger: seq<Block>, from: nat, k: nat)
    requires from + k < |ledger|
    ensures Responses(ledger, from, k + 1) ==
            Responses(ledger, from, k) + [Message(BlockResponse, EncVarBytes(EncBlock(ledger[from + k])))]
  {
    hide EncVarBytes, EncBlock;
  }

  /** A server asked for `count` blocks and then disconnected from reports success if and only if the
      requests were fewer than the session limit and every block fits.  It has sent the blocks up to
      the first that does not fit or the limit.  So a sync of exactly the session limit succeeds for
      the client and is an error for the server. */
  lemma ServerOutcome(s: Node, from: nat, count: nat, cfg: PeerConfig, disks: seq<Result<()>>)
    requires PeerOk(s) && from + count <= |s.ledger| <= TWO_32 && |disks| == count
    ensures var (r, end, replies) := Session(s, Requests(from, count), cfg, disks);
            && end == s
            && (r.Ok? <==> count < SESSION_MESSAGES && forall i :: from <= i < from + count ==> Fits(s.ledger[i]))
            && (r.Err? ==> r.code == ResourceLimitExceeded)
            && replies == Responses(s.ledger, from, Fitting(s.ledger, from, WithinSession(Requests(from, count))))
  {
    hide PeerOk, Exchanges, RequestBlock, Fits;
    var handled := WithinSession(Requests(from, count));
    assert Requests(from, count)[..handled] == Requests(from, handled);
    RequestsServed(s, from, handled, cfg, disks[..handled]);
  }

  // ----- the program

  /** The server's message loop. */
  method RelayMessageLoop(peer: Peer, inbound: seq<Message>, disks: seq<Result<()>>)
    returns (r: Result<()>, replies: seq<Message>)
    requires peer.Holds() && |disks| == |inbound|
    modifies peer`catalog, peer`file, peer.chain, peer.chain.utxos, peer.pool
    ensures peer.Holds() && (r, peer.View(), replies) == Session(old(peer.View()), inbound, peer.cfg, disks)
  {
    hide PeerOk, Handle, Exchanges, Session, Records, Valid;
    ghost var start := peer.View();
    NoExchanges(start, peer.cfg);
    replies := [];
    var limit := WithinSession(inbound);
    for i := 0 to limit
      invariant peer.Holds() && Exchanges(start, inbound[..i], peer.cfg, disks[..i]) == (DONE, peer.View(), replies)
    {
      ExchangesStep(start, inbound, peer.cfg, disks, i);
      var handled, reply := peer.HandleMessage(inbound[i], disks[i]);
      replies := replies + if reply.Some? then [reply.value] else [];
      if handled.Err? {
        SessionFails(start, inbound, peer.cfg, disks, i + 1);
        return handled, replies;
      }
      DoneIsUnique(handled);
    }
    SessionEnds(start, inbound, peer.cfg, disks);
    r := if |inbound| < SESSION_MESSAGES then DONE else Err(ResourceLimitExceeded);
  }

  /** A message that fails ends the session. */
  lemma SessionFails(n: Node, inbound: seq<Message>, cfg: PeerConfig, disks: seq<Result<()>>, k: nat)
    requires PeerOk(n) && |disks| == |inbound| && k <= WithinSession(inbound)
    requires Exchanges(n, inbound[..k], cfg, disks[..k]).0.Err?
    ensures Session(n, inbound, cfg, disks) == Exchanges(n, inbound[..k], cfg, disks[..k])
  {
    hide PeerOk, Exchanges;
    var limit := WithinSession(inbound);
    assert inbound[..limit][..k] == inbound[..k] && disks[..limit][..k] == disks[..k];
    ExchangesError(n, inbound[..limit], cfg, disks[..limit], k);
  }

  lemma SessionEnds(n: Node, inbound: seq<Message>, cfg: PeerConfig, disks: seq<Result<()>>)
    requires PeerOk(n) && |disks| == |inbound|
    ensures var limit := WithinSession(inbound);
            var (result, node, replies) := Exchanges(n, inbound[..limit], cfg, disks[..limit]);
            result == DONE ==>
              Session(n, inbound, cfg, disks) ==
                (if |inbound| < SESSION_MESSAGES then DONE else Err(ResourceLimitExceeded), node, replies)
  {
    hide PeerOk, Exchanges;
  }

  lemma NoExchanges(n: Node, cfg: PeerConfig)
    requires PeerOk(n)
    ensures Exchanges(n, [], cfg, []) == (DONE, n, [])
  {
    hide PeerOk, Handle;
  }

  lemma ExchangesStep(n: Node, inbound: seq<Message>, cfg: PeerConfig, disks: seq<Result<()>>, k: nat)
    requires PeerOk(n) && |disks| == |inbound| && k < |inbound|
    requires Exchanges(n, inbound[..k], cfg, disks[..k]).0.Ok?
    ensures var (_, node, replies) := Exchanges(n, inbound[..k], cfg, disks[..k]);
            && Valid(node.pool)
            && var h := Handle(node, inbound[k], cfg, disks[k]);
               Exchanges(n, inbound[..k + 1], cfg, disks[..k + 1]) ==
                 (h.result, h.node, replies + if h.reply.Some? then [h.reply.value] else [])
  {
    hide PeerOk, Handle, Valid;
    assert inbound[..k + 1][..k] == inbound[..k] && disks[..k + 1][..k] == disks[..k];
    PeerIsValid(Exchanges(n, inbound[..k], cfg, disks[..k]).1);
  }

  lemma {:induction false} ExchangesError(
      n: Node, inbound: seq<Message>, cfg: PeerConfig, disks: seq<Result<()>>, k: nat)
    requires PeerOk(n) && |disks| == |inbound| && k <= |inbound|
    requires Exchanges(n, inbound[..k], cfg, disks[..k]).0.Err?
    ensures Exchanges(n, inbound, cfg, disks) == Exchanges(n, inbound[..k], cfg, disks[..k])
    decreases |inbound| - k
  {
    hide PeerOk, Handle;
    if k == |inbound| {
      assert inbound[..k] == inbound && disks[..k] == disks;
    } else {
      assert inbound[..k + 1][..k] == inbound[..k] && disks[..k + 1][..k] == disks[..k];
      ExchangesError(n, inbound, cfg, disks, k + 1);
    }
  }

  /** The client's sync loop against a live server. */
  method SyncBlocks(client: Peer, server: Peer) returns (r: Result<()>)
    requires client.Holds() && server.Holds() && !client.cfg.persist
    requires client != server && client.pool != server.pool
    requires client.chain != server.chain && client.chain.utxos != server.chain.utxos
    modifies client`catalog, client`file, client.chain, client.chain.utxos, client.pool
    modifies server`catalog, server`file, server.chain, server.chain.utxos, server.pool
    ensures client.Holds() && server.Holds() && server.View() == old(server.View())
    ensures (r, client.View()) == Sync(old(client.View()), old(server.View()), client.cfg, server.cfg)
  {
    hide PeerOk, Handle;
    ghost var c, s := client.View(), server.View();
    var target := server.chain.tip.height;
    var h: U32 := (client.chain.tip.height + 1) % TWO_32;
    var left: nat := SESSION_MESSAGES;
    ghost var first := h;
    while h <= target
      invariant client.Holds() && server.Holds() && server.View() == s
      invariant SyncFrom(client.View(), s, h, left, client.cfg, server.cfg) ==
                SyncFrom(c, s, first, SESSION_MESSAGES, client.cfg, server.cfg)
      decreases left
    {
      if left == 0 {
        return Err(PeerMisbehavior);
      }
      RequestChangesNothing(s, h, server.cfg);
      var served, reply := server.HandleMessage(RequestBlock(h), DONE);
      if reply.None? {
        return Err(PeerMisbehavior);
      }
      var taken, _ := client.HandleMessage(reply.value, DONE);
      if taken.Err? {
        return taken;
      }
      h := (h + 1) % TWO_32;
      left := if served.Ok? then left - 1 else 0;
    }
    if client.chain.tip.height != target {
      return Err(InvalidBlock);
    }
    r := DONE;
  }

  lemma RequestChangesNothing(s: Node, h: U32, cfg: PeerConfig)
    requires PeerOk(s)
    ensures Handle(s, RequestBlock(h), cfg, DONE).node == s
  {
    hide PeerOk, Answer, OnTxAnnounce, OnBlock, Valid, EncU32, Blob;
    PeerIsValid(s);
  }
}
