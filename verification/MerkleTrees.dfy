/** Exactly which transaction lists share a Merkle root.  The hash-free tree a list builds level by
    level, repeating the last node of an odd level, is determined by the root; and the tree by its
    leaves from left to right, which is the list padded by the same repetition. */
module MerkleTrees {
  import opened Base
  import opened Hashing
  import opened Transactions
  import opened Merkle

  datatype Tree = Leaf(id: Hash) | Inner(left: Tree, right: Tree)

  /** The level above: neighbours paired, the last of an odd level with itself. */
  function Paired(level: seq<Tree>): (r: seq<Tree>)
    requires level != []
    ensures |r| == (|level| + 1) / 2
    ensures forall i :: 0 <= i < |r| ==>
              r[i] == Inner(level[2 * i], if 2 * i + 1 < |level| then level[2 * i + 1] else level[2 * i])
  {
    seq((|level| + 1) / 2, i requires 0 <= i < (|level| + 1) / 2 =>
      Inner(level[2 * i], if 2 * i + 1 < |level| then level[2 * i + 1] else level[2 * i]))
  }

  function Top(level: seq<Tree>): Tree
    requires level != []
    decreases |level|
  {
    if |level| == 1 then level[0] else Top(Paired(level))
  }

  function LeavesOf(ids: seq<Hash>): (level: seq<Tree>)
    ensures |level| == |ids| && forall i :: 0 <= i < |ids| ==> level[i] == Leaf(ids[i])
  {
    seq(|ids|, i requires 0 <= i < |ids| => Leaf(ids[i]))
  }

  /** The tree over a list of ids. */
  function TreeOf(ids: seq<Hash>): Tree
    requires ids != []
  {
    Top(LeavesOf(ids))
  }

  // ----- the root is the digest of the tree

  function Digest(t: Tree): Hash {
    match t
    case Leaf(id) => id
    case Inner(l, r) => Sha256d(Node(Digest(l), Digest(r)))
  }

  function Digests(level: seq<Tree>): (r: seq<Hash>)
    ensures |r| == |level| && forall i :: 0 <= i < |level| ==> r[i] == Digest(level[i])
  {
    seq(|level|, i requires 0 <= i < |level| => Digest(level[i]))
  }

  lemma DigestsPaired(level: seq<Tree>)
    requires level != []
    ensures Digests(Paired(level)) == Up(Digests(level))
  {
    var ds := Digests(level);
    forall i | 0 <= i < |Up(ds)|
      ensures Digest(Paired(level)[i]) == Up(ds)[i]
    {
      assert Even(ds)[2 * i] == ds[2 * i];
      assert Even(ds)[2 * i + 1] == if 2 * i + 1 < |ds| then ds[2 * i + 1] else ds[2 * i];
    }
  }

  lemma {:induction false} DigestTop(level: seq<Tree>)
    requires level != []
    ensures Digest(Top(level)) == Root(Digests(level))
    decreases |level|
  {
    hide Digest;
    if |level| > 1 {
      DigestsPaired(level);
      DigestTop(Paired(level));
    }
  }

  lemma RootIsTreeDigest(ids: seq<Hash>)
    requires ids != []
    ensures Digest(TreeOf(ids)) == Root(ids)
  {
    DigestTop(LeavesOf(ids));
    assert Digests(LeavesOf(ids)) == ids;
  }

  // ----- digests are injective on trees over hashed leaves

  /** A leaf is the digest of one of the messages, and not of a 64-byte one. */
  ghost predicate HashedLeaf(id: Hash, messages: set<Bytes>) {
    exists m :: m in messages && |m| != 64 && Sha256d(m) == id
  }

  /** Everything hashed in the tree is among the messages. */
  ghost predicate Grounded(t: Tree, messages: set<Bytes>) {
    match t
    case Leaf(id) => HashedLeaf(id, messages)
    case Inner(l, r) => Grounded(l, messages) && Grounded(r, messages) && Node(Digest(l), Digest(r)) in messages
  }

  lemma LeafIsNotInner(id: Hash, l: Tree, r: Tree, messages: set<Bytes>)
    requires HashedLeaf(id, messages) && Grounded(Inner(l, r), messages) && NoCollision(messages)
    ensures id != Digest(Inner(l, r))
  {
    var m :| m in messages && |m| != 64 && Sha256d(m) == id;
    assert |Node(Digest(l), Digest(r))| == 64;
  }

  lemma {:induction false} DigestInjective(t: Tree, u: Tree, messages: set<Bytes>)
    requires NoCollision(messages) && Grounded(t, messages) && Grounded(u, messages) && Digest(t) == Digest(u)
    ensures t == u
  {
    match (t, u)
    case (Leaf(a), Leaf(b)) =>
    case (Leaf(a), Inner(l, r)) => LeafIsNotInner(a, l, r, messages);
    case (Inner(l, r), Leaf(a)) => LeafIsNotInner(a, l, r, messages);
    case (Inner(l, r), Inner(l', r')) =>
      NodeInjective(Digest(l), Digest(r), Digest(l'), Digest(r'));
      DigestInjective(l, l', messages);
      DigestInjective(r, r', messages);
  }

  ghost predicate AllGrounded(level: seq<Tree>, messages: set<Bytes>) {
    forall i :: 0 <= i < |level| ==> Grounded(level[i], messages)
  }

  lemma PairedGrounded(level: seq<Tree>, messages: set<Bytes>)
    requires level != [] && AllGrounded(level, messages) && PairMessages(Digests(level)) <= messages
    ensures AllGrounded(Paired(level), messages)
  {
    var ds, up := Digests(level), Paired(level);
    forall i | 0 <= i < |up|
      ensures Grounded(up[i], messages)
    {
      assert Pair(ds, i) in PairMessages(ds);
      assert Pair(ds, i) == Node(Digest(up[i].left), Digest(up[i].right)) by {
        assert Even(ds)[2 * i] == ds[2 * i];
        assert Even(ds)[2 * i + 1] == if 2 * i + 1 < |ds| then ds[2 * i + 1] else ds[2 * i];
      }
    }
  }

  lemma {:induction false} TopGrounded(level: seq<Tree>, messages: set<Bytes>)
    requires level != [] && AllGrounded(level, messages) && InnerMessages(Digests(level)) <= messages
    ensures Grounded(Top(level), messages)
    decreases |level|
  {
    if |level| > 1 {
      hide Grounded, Digest;
      PairedGrounded(level, messages);
      DigestsPaired(level);
      TopGrounded(Paired(level), messages);
    }
  }

  /** No transaction, sane or not, has an encoding the length of an inner node. */
  lemma NeverInnerLength(tx: Transaction)
    ensures |EncTx(tx)| != 64
  {
    EncTxLength(tx);
  }

  lemma TreeGrounded(txs: seq<Transaction>, messages: set<Bytes>)
    requires txs != [] && RootMessages(txs) <= messages
    ensures Grounded(TreeOf(Txids(txs)), messages)
  {
    hide EncTx;
    var level := LeavesOf(Txids(txs));
    forall i | 0 <= i < |level|
      ensures Grounded(level[i], messages)
    {
      NeverInnerLength(txs[i]);
      assert EncTx(txs[i]) in TxMessages(txs);
    }
    assert Digests(level) == Txids(txs);
    TopGrounded(level, messages);
  }

  // ----- trees and padded lists

  /** The leaves from left to right. */
  function Frontier(t: Tree): (r: seq<Hash>)
    ensures r != []
  {
    match t
    case Leaf(id) => [id]
    case Inner(l, r) => Frontier(l) + Frontier(r)
  }

  /** Both sides of every inner node have as many leaves. */
  ghost predicate Balanced(t: Tree) {
    match t
    case Leaf(_) => true
    case Inner(l, r) => Balanced(l) && Balanced(r) && |Frontier(l)| == |Frontier(r)|
  }

  /** A balanced tree is determined by its leaves. */
  lemma {:induction false} FrontierInjective(t: Tree, u: Tree)
    requires Balanced(t) && Balanced(u) && Frontier(t) == Frontier(u)
    ensures t == u
  {
    match (t, u)
    case (Leaf(_), Leaf(_)) =>
    case (Leaf(_), Inner(l, r)) =>
    case (Inner(l, r), Leaf(_)) =>
    case (Inner(l, r), Inner(l', r')) =>
      var n := |Frontier(l)|;
      assert Frontier(l) == Frontier(t)[..n] && Frontier(l') == Frontier(u)[..n];
      assert Frontier(r) == Frontier(t)[n..] && Frontier(r') == Frontier(u)[n..];
      FrontierInjective(l, l');
      FrontierInjective(r, r');
  }

  /** All the trees are balanced, with `width` leaves each. */
  ghost predicate Uniform(level: seq<Tree>, width: nat) {
    forall i :: 0 <= i < |level| ==> Balanced(level[i]) && |Frontier(level[i])| == width
  }

  lemma {:induction false} TopBalanced(level: seq<Tree>, width: nat)
    requires level != [] && Uniform(level, width)
    ensures Balanced(Top(level))
    decreases |level|
  {
    if |level| > 1 {
      TopBalanced(Paired(level), 2 * width);
    }
  }

  /** Neighbouring blocks joined, the last of an odd number with itself. */
  function Joined(blocks: seq<seq<Hash>>): (r: seq<seq<Hash>>)
    requires blocks != []
    ensures |r| == (|blocks| + 1) / 2
    ensures forall i :: 0 <= i < |r| ==>
              r[i] == blocks[2 * i] + if 2 * i + 1 < |blocks| then blocks[2 * i + 1] else blocks[2 * i]
  {
    seq((|blocks| + 1) / 2, i requires 0 <= i < (|blocks| + 1) / 2 =>
      blocks[2 * i] + if 2 * i + 1 < |blocks| then blocks[2 * i + 1] else blocks[2 * i])
  }

  function JoinAll(blocks: seq<seq<Hash>>): seq<Hash>
    requires blocks != []
    decreases |blocks|
  {
    if |blocks| == 1 then blocks[0] else JoinAll(Joined(blocks))
  }

  /** The list with its tail repeated until its length is a power of two: what the root commits to. */
  function Padded(ids: seq<Hash>): seq<Hash> {
    if ids == [] then [] else JoinAll(seq(|ids|, i requires 0 <= i < |ids| => [ids[i]]))
  }

  function Frontiers(level: seq<Tree>): (r: seq<seq<Hash>>)
    ensures |r| == |level| && forall i :: 0 <= i < |level| ==> r[i] == Frontier(level[i])
  {
    seq(|level|, i requires 0 <= i < |level| => Frontier(level[i]))
  }

  lemma {:induction false} FrontierTop(level: seq<Tree>)
    requires level != []
    ensures Frontier(Top(level)) == JoinAll(Frontiers(level))
    decreases |level|
  {
    if |level| > 1 {
      assert Frontiers(Paired(level)) == Joined(Frontiers(level));
      FrontierTop(Paired(level));
    }
  }

  /** Two lists build the same tree exactly when they pad to the same list. */
  lemma TreesExact(a: seq<Hash>, b: seq<Hash>)
    requires a != [] && b != []
    ensures TreeOf(a) == TreeOf(b) <==> Padded(a) == Padded(b)
  {
    TreePads(a);
    TreePads(b);
    if Padded(a) == Padded(b) {
      FrontierInjective(TreeOf(a), TreeOf(b));
    }
  }

  lemma TreePads(ids: seq<Hash>)
    requires ids != []
    ensures Frontier(TreeOf(ids)) == Padded(ids) && Balanced(TreeOf(ids))
  {
    var level := LeavesOf(ids);
    FrontierTop(level);
    assert Frontiers(level) == seq(|ids|, i requires 0 <= i < |ids| => [ids[i]]);
    TopBalanced(level, 1);
  }

  /** Padding only adds at the end. */
  lemma {:induction false} JoinKeepsFirst(blocks: seq<seq<Hash>>)
    requires blocks != []
    ensures Concat(blocks) <= JoinAll(blocks)
    decreases |blocks|
  {
    if |blocks| > 1 {
      JoinKeepsFirst(Joined(blocks));
      ConcatJoined(blocks);
    }
  }

  function Concat(blocks: seq<seq<Hash>>): seq<Hash> {
    if blocks == [] then [] else Concat(blocks[..|blocks| - 1]) + blocks[|blocks| - 1]
  }

  lemma ConcatAppend(blocks: seq<seq<Hash>>, b: seq<Hash>)
    ensures Concat(blocks + [b]) == Concat(blocks) + b
  {
    assert (blocks + [b])[..|blocks|] == blocks;
  }

  lemma ConcatTwo(blocks: seq<seq<Hash>>, b: seq<Hash>, c: seq<Hash>)
    ensures Concat(blocks + [b] + [c]) == Concat(blocks) + (b + c)
  {
    hide Concat;
    ConcatAppend(blocks, b);
    ConcatAppend(blocks + [b], c);
  }

  /** Joining whole pairs changes nothing but the boundaries. */
  lemma {:induction false} ConcatPairs(blocks: seq<seq<Hash>>, k: nat)
    requires blocks != [] && 2 * k <= |blocks|
    ensures Concat(Joined(blocks)[..k]) == Concat(blocks[..2 * k])
  {
    hide Concat;
    if k == 0 {
      assert Joined(blocks)[..0] == blocks[..0];
    } else {
      var i, js := k - 1, Joined(blocks);
      ConcatPairs(blocks, i);
      ConcatAppend(js[..i], js[i]);
      ConcatTwo(blocks[..2 * i], blocks[2 * i], blocks[2 * i + 1]);
      assert js[..k] == js[..i] + [js[i]];
      assert blocks[..2 * k] == blocks[..2 * i] + [blocks[2 * i]] + [blocks[2 * i + 1]];
    }
  }

  lemma ConcatJoined(blocks: seq<seq<Hash>>)
    requires blocks != []
    ensures Concat(blocks) <= Concat(Joined(blocks))
  {
    hide Concat;
    var k, js := |blocks| / 2, Joined(blocks);
    ConcatPairs(blocks, k);
    if |blocks| % 2 == 0 {
      assert js[..k] == js && blocks[..2 * k] == blocks;
    } else {
      ConcatAppend(js[..k], js[k]);
      ConcatAppend(blocks[..2 * k], blocks[2 * k]);
      assert js == js[..k] + [js[k]] && blocks == blocks[..2 * k] + [blocks[2 * k]];
    }
  }

  lemma PaddedExtends(ids: seq<Hash>)
    ensures ids <= Padded(ids)
  {
    if ids != [] {
      var blocks := seq(|ids|, i requires 0 <= i < |ids| => [ids[i]]);
      JoinKeepsFirst(blocks);
      ConcatSingles(ids, blocks);
    }
  }

  lemma {:induction false} ConcatSingles(ids: seq<Hash>, blocks: seq<seq<Hash>>)
    requires |blocks| == |ids| && forall i :: 0 <= i < |ids| ==> blocks[i] == [ids[i]]
    ensures Concat(blocks) == ids
  {
    if ids != [] {
      var n := |ids| - 1;
      ConcatSingles(ids[..n], blocks[..n]);
      assert ids == ids[..n] + [ids[n]];
    }
  }

  // ----- what the root computes, half by half

  /** `n` is a power of two. */
  predicate PowerOfTwo(n: nat) {
    n == 1 || (n > 0 && n % 2 == 0 && PowerOfTwo(n / 2))
  }

  lemma Doubled(n: nat)
    requires PowerOfTwo(n)
    ensures PowerOfTwo(2 * n)
  {
    assert n > 0 && 2 * n / 2 == n;
  }

  lemma {:induction false} BalancedWidth(t: Tree)
    requires Balanced(t)
    ensures PowerOfTwo(|Frontier(t)|)
  {
    hide PowerOfTwo;
    match t
    case Leaf(_) => One();
    case Inner(l, r) =>
      BalancedWidth(l);
      Doubled(|Frontier(l)|);
      assert |Frontier(t)| == 2 * |Frontier(l)|;
  }

  lemma One()
    ensures PowerOfTwo(1)
  {
  }

  /** A power of two of blocks is joined without repetition. */
  lemma {:induction false} JoinExact(blocks: seq<seq<Hash>>)
    requires PowerOfTwo(|blocks|)
    ensures JoinAll(blocks) == Concat(blocks)
    decreases |blocks|
  {
    hide Concat;
    if |blocks| == 1 {
      ConcatAppend([], blocks[0]);
      NothingConcat();
      assert blocks == [] + [blocks[0]];
    } else {
      var js, k := Joined(blocks), |blocks| / 2;
      JoinExact(js);
      ConcatPairs(blocks, k);
      assert js[..k] == js && blocks[..2 * k] == blocks;
    }
  }

  lemma NothingConcat()
    ensures Concat([]) == []
  {
  }

  /** A list whose length is a power of two needs no padding. */
  lemma PaddedExact(ids: seq<Hash>)
    requires PowerOfTwo(|ids|)
    ensures Padded(ids) == ids
  {
    var blocks := seq(|ids|, i requires 0 <= i < |ids| => [ids[i]]);
    JoinExact(blocks);
    ConcatSingles(ids, blocks);
  }

  /** The digest of a balanced tree is the root of its leaves. */
  lemma BalancedDigest(t: Tree)
    requires Balanced(t)
    ensures Digest(t) == Root(Frontier(t))
  {
    hide Digest, TreeOf, Root, Padded;
    BalancedWidth(t);
    PaddedExact(Frontier(t));
    TreePads(Frontier(t));
    FrontierInjective(t, TreeOf(Frontier(t)));
    RootIsTreeDigest(Frontier(t));
  }

  lemma PairedUniform(level: seq<Tree>, width: nat)
    requires level != [] && Uniform(level, width)
    ensures Uniform(Paired(level), 2 * width) && |Frontier(Paired(level)[0])| == 2 * width
  {
  }

  /** Padding adds fewer leaves than there are, so the left half of the tree is free of it. */
  lemma {:induction false} FewLeaves(level: seq<Tree>, width: nat) returns (q: nat)
    requires |level| > 1 && Uniform(level, width)
    ensures Top(level).Inner? && |Frontier(Top(level))| == width * q && q <= 2 * (|level| - 1)
    decreases |level|
  {
    hide Frontier, Balanced, Uniform;
    var up := Paired(level);
    PairedUniform(level, width);
    if |level| == 2 {
      q := 2;
      assert Top(level) == up[0];
    } else {
      var half := FewLeaves(up, 2 * width);
      q := 2 * half;
      assert width * q == 2 * width * half;
    }
  }

  /** The root of more than one id, split at the largest power of two below their number: the double
      hash of the root of the ids before it, then the root of the rest of the padded list. */
  lemma RootSplits(ids: seq<Hash>) returns (n: nat)
    requires |ids| > 1
    ensures PowerOfTwo(n) && n < |ids| <= 2 * n == |Padded(ids)| && ids <= Padded(ids)
    ensures var left: Bytes, right: Bytes := Root(ids[..n]), Root(Padded(ids)[n..]);
            Root(ids) == Sha256(Sha256(left + right))
  {
    hide Root, Padded, Top;
    var t := TreeOf(ids);
    var q := FewLeaves(LeavesOf(ids), 1);
    TreePads(ids);
    n := |Frontier(t.left)|;
    PaddedExtends(ids);
    BalancedWidth(t.left);
    BalancedDigest(t.left);
    BalancedDigest(t.right);
    assert Frontier(t.left) == Padded(ids)[..n] == ids[..n];
    assert Frontier(t.right) == Padded(ids)[n..];
    RootIsTreeDigest(ids);
  }

  /** A power of two of ids splits in the middle. */
  lemma RootHalves(ids: seq<Hash>, n: nat)
    requires |ids| == 2 * n && PowerOfTwo(n)
    ensures var left: Bytes, right: Bytes := Root(ids[..n]), Root(ids[n..]);
            Root(ids) == Sha256(Sha256(left + right))
  {
    hide Root, Padded;
    Doubled(n);
    PaddedExact(ids);
    var k := RootSplits(ids);
  }

  /** One id is its own root, two are hashed in order, and of three the last is repeated. */
  lemma SmallRoots(a: Hash, b: Hash, c: Hash)
    ensures Root([a]) == a
    ensures var left: Bytes, right: Bytes := a, b; Root([a, b]) == Sha256(Sha256(left + right))
    ensures var left: Bytes, right: Bytes := Root([a, b]), Root([c, c]);
            Root([a, b, c]) == Sha256(Sha256(left + right))
  {
    assert [a, b][..1] == [a] && [a, b][1..] == [b];
    RootHalves([a, b], 1);
    assert Up([a, b, c]) == Up([a, b, c, c]) by {
      assert Even([a, b, c]) == [a, b, c, c] == Even([a, b, c, c]);
    }
    assert [a, b, c, c][..2] == [a, b] && [a, b, c, c][2..] == [c, c];
    assert PowerOfTwo(2);
    RootHalves([a, b, c, c], 2);
  }

  // ----- the exact condition

  /** For any two transaction lists, given no collision and no preimage of zero among the messages
      hashed: the roots are equal if and only if the id lists pad to the same list. */
  lemma SameRootExact(a: seq<Transaction>, b: seq<Transaction>, messages: set<Bytes>)
    requires NoCollision(messages) && NoneHashesToZero(messages)
    requires RootMessages(a) <= messages && RootMessages(b) <= messages
    ensures MerkleRoot(a) == MerkleRoot(b) <==> Padded(Txids(a)) == Padded(Txids(b))
  {
    hide NoCollision, EncTx, Txid, RootMessages, Padded, TreeOf, Digest;
    PaddedExtends(Txids(a));
    PaddedExtends(Txids(b));
    if a == [] || b == [] {
      EmptyRoot(a, messages);
      EmptyRoot(b, messages);
      NothingPadded();
    } else {
      RootIsTreeDigest(Txids(a));
      RootIsTreeDigest(Txids(b));
      TreesExact(Txids(a), Txids(b));
      if MerkleRoot(a) == MerkleRoot(b) {
        TreeGrounded(a, messages);
        TreeGrounded(b, messages);
        DigestInjective(TreeOf(Txids(a)), TreeOf(Txids(b)), messages);
      }
    }
  }

  lemma NothingPadded()
    ensures Padded([]) == []
  {
  }

  /** Only the empty list has the zero root. */
  lemma EmptyRoot(txs: seq<Transaction>, messages: set<Bytes>)
    requires NoneHashesToZero(messages) && RootMessages(txs) <= messages
    ensures MerkleRoot(txs) == ZERO_HASH <==> txs == []
  {
    hide EncTx, RootMessages;
    if txs != [] {
      var m := RootIsDigest(txs);
    }
  }
}
