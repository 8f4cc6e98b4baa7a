/** The Merkle root over transaction ids: a level-by-level fold that repeats the last node of an
    odd level.  The repetition makes the root ambiguous in general; on lists of distinct ids,
    with no colliding messages, it commits to the list. */
module Merkle {
  import opened Base
  import opened Hashing
  import opened Transactions

  /** An odd level with its last node repeated. */
  function Even(level: seq<Hash>): (r: seq<Hash>)
    requires level != []
    ensures |r| % 2 == 0 && level <= r
    ensures |r| == |level| || (|r| == |level| + 1 && r[|level|] == level[|level| - 1])
  {
    if |level| % 2 == 0 then level else level + [level[|level| - 1]]
  }

  /** The 64-byte message of an inner node. */
  function Node(left: Bytes, right: Bytes): Bytes {
    left + right
  }

  lemma NodeInjective(a: Hash, b: Hash, c: Hash, d: Hash)
    requires Node(a, b) == Node(c, d)
    ensures a == c && b == d
  {
    assert a == Node(a, b)[..32] && c == Node(c, d)[..32];
    assert b == Node(a, b)[32..] && d == Node(c, d)[32..];
  }

  /** The message hashed for parent `i`. */
  function Pair(level: seq<Hash>, i: nat): (m: Bytes)
    requires level != [] && 2 * i < |level|
    ensures |m| == 64
  {
    Node(Even(level)[2 * i], Even(level)[2 * i + 1])
  }

  /** The level above. */
  function Up(level: seq<Hash>): (r: seq<Hash>)
    requires level != []
    ensures |r| == (|level| + 1) / 2
    ensures forall i :: 0 <= i < |r| ==> r[i] == Sha256d(Pair(level, i))
  {
    seq((|level| + 1) / 2, i requires 0 <= i < (|level| + 1) / 2 => Sha256d(Pair(level, i)))
  }

  function Root(level: seq<Hash>): Hash
    requires level != []
    decreases |level|
  {
    if |level| == 1 then level[0] else Root(Up(level))
  }

  function MerkleRoot(txs: seq<Transaction>): Hash {
    if txs == [] then ZERO_HASH else Root(Txids(txs))
  }

  method NextLevel(level: seq<Hash>) returns (next: seq<Hash>)
    requires level != []
    ensures next == Up(level)
  {
    var padded := level;
    if |level| % 2 != 0 {
      padded := level + [level[|level| - 1]];
    }
    next := [];
    var i := 0;
    while i < |padded|
      invariant 0 <= i <= |padded| && i % 2 == 0
      invariant padded == Even(level) && next == Up(level)[..i / 2]
    {
      assert Node(padded[i], padded[i + 1]) == Pair(level, i / 2);
      next := next + [Sha256d(Node(padded[i], padded[i + 1]))];
      i := i + 2;
    }
  }

  method ComputeMerkleRoot(txs: seq<Transaction>) returns (root: Hash)
    ensures root == MerkleRoot(txs)
  {
    if txs == [] {
      return ZERO_HASH;
    }
    var level: seq<Hash> := [];
    for i := 0 to |txs|
      invariant level == Txids(txs)[..i]
    {
      level := level + [Txid(txs[i])];
    }
    assert level == Txids(txs);
    while |level| > 1
      invariant level != [] && Root(level) == MerkleRoot(txs)
      decreases |level|
    {
      level := NextLevel(level);
    }
    root := level[0];
  }

  // ----- ambiguity

  /** Without distinctness the root does not determine the list, whatever the hash function: repeating
      the last transaction of any odd list of more than one changes nothing. */
  lemma LastNodeAmbiguity(txs: seq<Transaction>)
    requires |txs| > 1 && |txs| % 2 == 1
    ensures MerkleRoot(txs + [txs[|txs| - 1]]) == MerkleRoot(txs)
  {
    hide Txid;
    var level, longer := Txids(txs), Txids(txs + [txs[|txs| - 1]]);
    assert Even(level) == longer == Even(longer);
    assert Up(level) == Up(longer);
  }

  // ----- binding

  /** The messages hashed to obtain the next level. */
  ghost function PairMessages(level: seq<Hash>): set<Bytes>
    requires level != []
  {
    set i | 0 <= i < (|level| + 1) / 2 :: Pair(level, i)
  }

  /** The messages hashed in all the levels above this one. */
  ghost function InnerMessages(level: seq<Hash>): set<Bytes>
    requires level != []
    decreases |level|
  {
    if |level| == 1 then {} else PairMessages(level) + InnerMessages(Up(level))
  }

  /** `upper` is some level strictly above `level` in the same tree. */
  ghost predicate Above(upper: seq<Hash>, level: seq<Hash>)
    requires level != []
    decreases |level|
  {
    |level| > 1 && (upper == Up(level) || Above(upper, Up(level)))
  }

  /** Two equal digests of pairs come from equal pairs. */
  lemma PairsEqual(a: seq<Hash>, i: nat, b: seq<Hash>, j: nat, messages: set<Bytes>)
    requires 2 * i < |a| && 2 * j < |b|
    requires NoCollision(messages) && PairMessages(a) <= messages && PairMessages(b) <= messages
    requires Up(a)[i] == Up(b)[j]
    ensures Even(a)[2 * i] == Even(b)[2 * j] && Even(a)[2 * i + 1] == Even(b)[2 * j + 1]
  {
    assert Pair(a, i) in PairMessages(a) && Pair(b, j) in PairMessages(b);
    NodeInjective(Even(a)[2 * i], Even(a)[2 * i + 1], Even(b)[2 * j], Even(b)[2 * j + 1]);
  }

  lemma UpDistinct(level: seq<Hash>, messages: set<Bytes>)
    requires level != [] && Distinct(level)
    requires NoCollision(messages) && PairMessages(level) <= messages
    ensures Distinct(Up(level))
  {
    forall i, j | 0 <= i < j < |Up(level)|
      ensures Up(level)[i] != Up(level)[j]
    {
      if Up(level)[i] == Up(level)[j] {
        PairsEqual(level, i, level, j, messages);
      }
    }
  }

  lemma EvenEqual(a: seq<Hash>, b: seq<Hash>, messages: set<Bytes>)
    requires a != [] && b != [] && Up(a) == Up(b)
    requires NoCollision(messages) && PairMessages(a) <= messages && PairMessages(b) <= messages
    ensures Even(a) == Even(b)
  {
    forall i | 0 <= i < |Up(a)|
      ensures Even(a)[2 * i] == Even(b)[2 * i] && Even(a)[2 * i + 1] == Even(b)[2 * i + 1]
    {
      PairsEqual(a, i, b, i, messages);
    }
    PairwiseEqual(Even(a), Even(b), |Up(a)|);
  }

  lemma PairwiseEqual(s: seq<Hash>, t: seq<Hash>, n: nat)
    requires |s| == 2 * n == |t|
    requires forall i :: 0 <= i < n ==> s[2 * i] == t[2 * i] && s[2 * i + 1] == t[2 * i + 1]
    ensures s == t
  {
    forall k | 0 <= k < |s|
      ensures s[k] == t[k]
    {
      var i := k / 2;
      assert s[2 * i] == t[2 * i];
    }
  }

  /** Equal upper levels come from equal levels: a repeated last node would be a repeated id. */
  lemma UpInjective(a: seq<Hash>, b: seq<Hash>, messages: set<Bytes>)
    requires |a| > 1 && |b| > 1 && Distinct(a) && Distinct(b)
    requires NoCollision(messages) && InnerMessages(a) <= messages && InnerMessages(b) <= messages
    requires Up(a) == Up(b)
    ensures a == b
  {
    EvenEqual(a, b, messages);
    assert |a| == |b|;
  }

  lemma {:induction false} RootIsAbove(level: seq<Hash>)
    requires |level| > 1
    ensures Above([Root(level)], level)
    decreases |level|
  {
    var up := Up(level);
    if |up| == 1 {
      assert up == [Root(level)];
    } else {
      RootIsAbove(up);
    }
  }

  /** A level one step below an upper level of `b`'s tree is itself such a level, or `b`. */
  lemma {:induction false} AboveBelow(a: seq<Hash>, b: seq<Hash>, messages: set<Bytes>)
    requires |a| > 1 && |b| > 1 && Distinct(a) && Distinct(b)
    requires NoCollision(messages) && InnerMessages(a) <= messages && InnerMessages(b) <= messages
    requires Above(Up(a), b)
    ensures a == b || Above(a, b)
    decreases |b|
  {
    if Up(a) == Up(b) {
      UpInjective(a, b, messages);
    } else {
      UpDistinct(b, messages);
      assert |Up(b)| > 1;
      AboveBelow(a, Up(b), messages);
    }
  }

  /** Trees with the same root are the same, or one list of leaves is an inner level of the other. */
  lemma {:induction false} SameRoot(a: seq<Hash>, b: seq<Hash>, messages: set<Bytes>)
    requires a != [] && b != [] && Distinct(a) && Distinct(b)
    requires NoCollision(messages) && InnerMessages(a) <= messages && InnerMessages(b) <= messages
    requires Root(a) == Root(b)
    ensures a == b || Above(a, b) || Above(b, a)
    decreases |a| + |b|
  {
    if |a| == 1 && |b| == 1 {
      assert a == [Root(a)] == b;
    } else if |a| == 1 {
      RootIsAbove(b);
      assert a == [Root(a)];
    } else if |b| == 1 {
      RootIsAbove(a);
      assert b == [Root(b)];
    } else {
      UpDistinct(a, messages);
      UpDistinct(b, messages);
      SameRoot(Up(a), Up(b), messages);
      if Up(a) == Up(b) {
        UpInjective(a, b, messages);
      } else if Above(Up(a), Up(b)) {
        AboveBelow(a, b, messages);
      } else {
        AboveBelow(b, a, messages);
      }
    }
  }

  /** A node above the leaves is the digest of a 64-byte message. */
  lemma {:induction false} AboveIsInner(upper: seq<Hash>, level: seq<Hash>) returns (m: Bytes)
    requires level != [] && Above(upper, level)
    ensures upper != [] && m in InnerMessages(level) && |m| == 64 && Sha256d(m) == upper[0]
    decreases |level|
  {
    if upper == Up(level) {
      m := Pair(level, 0);
    } else {
      m := AboveIsInner(upper, Up(level));
    }
  }

  /** Every message hashed to compute the root of a transaction list. */
  ghost function RootMessages(txs: seq<Transaction>): set<Bytes> {
    TxMessages(txs) + if txs == [] then {} else InnerMessages(Txids(txs))
  }

  /** A list whose ids are distinct and whose encodings are longer than an inner node: what a
      block that passes sanity holds. */
  ghost predicate Committable(txs: seq<Transaction>) {
    && Distinct(Txids(txs))
    && forall i :: 0 <= i < |txs| ==> WireTx(txs[i]) && |EncTx(txs[i])| > 64
  }

  /** The leaves of one tree are not an inner level of another. */
  lemma LeavesNotAbove(a: seq<Transaction>, b: seq<Transaction>, messages: set<Bytes>)
    requires a != [] && b != [] && Committable(a)
    requires NoCollision(messages) && RootMessages(a) <= messages && RootMessages(b) <= messages
    ensures !Above(Txids(a), Txids(b))
  {
    assert EncTx(a[0]) in TxMessages(a);
    if Above(Txids(a), Txids(b)) {
      var m := AboveIsInner(Txids(a), Txids(b));
      assert false;
    }
  }

  /** The root is the digest of one of the messages. */
  lemma RootIsDigest(txs: seq<Transaction>) returns (m: Bytes)
    requires txs != []
    ensures m in RootMessages(txs) && Sha256d(m) == MerkleRoot(txs)
  {
    if |txs| == 1 {
      m := EncTx(txs[0]);
      assert m in TxMessages(txs);
    } else {
      RootIsAbove(Txids(txs));
      m := AboveIsInner([MerkleRoot(txs)], Txids(txs));
    }
  }

  /** Binding: committable lists with the same root are the same list. */
  lemma MerkleBinding(a: seq<Transaction>, b: seq<Transaction>, messages: set<Bytes>)
    requires Committable(a) && Committable(b)
    requires NoCollision(messages) && NoneHashesToZero(messages)
    requires RootMessages(a) <= messages && RootMessages(b) <= messages
    requires MerkleRoot(a) == MerkleRoot(b)
    ensures a == b
  {
    if a == [] || b == [] {
      if a != [] {
        var m := RootIsDigest(a);
      }
      if b != [] {
        var m := RootIsDigest(b);
      }
    } else {
      SameRoot(Txids(a), Txids(b), messages);
      LeavesNotAbove(a, b, messages);
      LeavesNotAbove(b, a, messages);
      assert Txids(a) == Txids(b);
      forall i | 0 <= i < |a|
        ensures a[i] == b[i]
      {
        assert Txids(a)[i] == Txids(b)[i];
        assert EncTx(a[i]) in TxMessages(a) && EncTx(b[i]) in TxMessages(b);
        TxidInjective(a[i], b[i], messages);
      }
    }
  }
}
