/** The header hash chain commits to the whole history: equal tip hashes, equal block lists. */
module History {
  import opened Base
  import opened Hashing
  import opened Transactions
  import opened Blocks
  import opened Merkle
  import opened TxValidation
  import opened BlockValidation
  import opened ChainRules

  /** A sane block holds a committable list: distinct ids, and encodings of at least
      16 + 36 + 40 bytes, which no 64-byte inner node can equal. */
  lemma SaneIsCommittable(b: Block)
    requires SaneBlock(b)
    ensures Committable(b.transactions)
  {
    forall i | 0 <= i < |b.transactions|
      ensures WireTx(b.transactions[i]) && |EncTx(b.transactions[i])| > 64
    {
      assert SaneTx(b.transactions[i]);
      EncTxLength(b.transactions[i]);
    }
  }

  /** Every message hashed for the headers and Merkle roots of a block list. */
  ghost function HistoryMessages(blocks: seq<Block>): set<Bytes> {
    if blocks == [] then {} else
      var last := blocks[|blocks| - 1];
      HistoryMessages(blocks[..|blocks| - 1]) + {EncHeader(last.header)} + RootMessages(last.transactions)
  }

  /** Blocks with the same header hash are the same block. */
  lemma HeaderHashDeterminesBlock(a: Block, b: Block, messages: set<Bytes>)
    requires SaneBlock(a) && SaneBlock(b) && HeaderHash(a.header) == HeaderHash(b.header)
    requires NoCollision(messages) && NoneHashesToZero(messages)
    requires EncHeader(a.header) in messages && RootMessages(a.transactions) <= messages
    requires EncHeader(b.header) in messages && RootMessages(b.transactions) <= messages
    ensures a == b
  {
    assert EncHeader(a.header) == EncHeader(b.header);
    hide EncHeader, NoCollision, NoneHashesToZero, RootMessages, MerkleRoot, Committable;
    EncHeaderInjective(a.header, b.header);
    SaneIsCommittable(a);
    SaneIsCommittable(b);
    MerkleBinding(a.transactions, b.transactions, messages);
  }

  /** Two replayable lists whose tips have the same hash are the same list, so the same chain. */
  lemma {:induction false} TipDeterminesHistory(
      a: seq<Block>, b: seq<Block>, p: ConsensusParams, q: ConsensusParams, messages: set<Bytes>)
    requires Replay(a, p).Ok? && Replay(b, q).Ok?
    requires HeaderHash(Replay(a, p).value.tip) == HeaderHash(Replay(b, q).value.tip)
    requires HistoryMessages(a) <= messages && HistoryMessages(b) <= messages
    requires NoCollision(messages) && NoneHashesToZero(messages)
    ensures a == b
    ensures p == q ==> Replay(a, p) == Replay(b, q)
    decreases |a|
  {
    hide Create, Submit, SaneBlock, HeaderHash, EncHeader, NoCollision, NoneHashesToZero, RootMessages;
    ReplayShape(a, p);
    ReplayShape(b, q);
    var m, n := |a| - 1, |b| - 1;
    HeaderHashDeterminesBlock(a[m], b[n], messages);
    assert m == a[m].header.height == b[n].header.height == n;
    if m > 0 {
      ReplayPrefix(a, p, m);
      ReplayPrefix(b, q, n);
      ReplayShape(a[..m], p);
      ReplayShape(b[..n], q);
      TipDeterminesHistory(a[..m], b[..n], p, q, messages);
    }
    assert a == a[..m] + [a[m]] && b == b[..n] + [b[n]];
  }
}
