/** The digest used for ids and commitments.  Nothing below the ledger layer depends on which
    function it is: `Sha256` is an arbitrary function from byte strings to 32-byte digests, and
    where a result needs more, it assumes it of the finitely many messages it names. */
module Hashing {
  import opened Base

  const Sha256: Bytes -> Hash

  function Sha256d(message: Bytes): Hash {
    Sha256(Sha256(message))
  }

  /** No two of these messages share a digest. */
  ghost predicate NoCollision(messages: set<Bytes>) {
    forall m, n :: m in messages && n in messages && Sha256d(m) == Sha256d(n) ==> m == n
  }

  /** None of these messages hashes to the all-zero digest. */
  ghost predicate NoneHashesToZero(messages: set<Bytes>) {
    forall m :: m in messages ==> Sha256d(m) != ZERO_HASH
  }
}
