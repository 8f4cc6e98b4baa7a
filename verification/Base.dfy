/** Fixed-width integers, byte strings, digests and the error type shared by every layer. */
module Base {

  const TWO_32: int := 0x1_0000_0000
  const TWO_64: int := 0x1_0000_0000_0000_0000
  const MAX_U32: U32 := 0xFFFF_FFFF
  const MAX_U64: U64 := 0xFFFF_FFFF_FFFF_FFFF

  type Byte = x: int | 0 <= x < 256
  type U32 = x: int | 0 <= x < 0x1_0000_0000
  type U64 = x: int | 0 <= x < 0x1_0000_0000_0000_0000

  type Bytes = seq<Byte>
  type Hash = h: Bytes | |h| == 32 witness seq(32, i => 0)

  const ZERO_HASH: Hash := [0, 0, 0, 0, 0, 0, 0, 0, 0, 0, 0, 0, 0, 0, 0, 0,
                            0, 0, 0, 0, 0, 0, 0, 0, 0, 0, 0, 0, 0, 0, 0, 0]

  /** The error categories; messages are not modelled. */
  datatype ErrorCode =
    | ParseError
    | InvalidMessage
    | InvalidTransaction
    | InvalidBlock
    | InvalidStateTransition
    | StorageCorruption
    | UnsupportedVersion
    | ResourceLimitExceeded
    | PolicyRejected
    | PeerMisbehavior
    | InvalidConfig

  datatype Result<+T> = Ok(value: T) | Err(code: ErrorCode) {
    predicate IsFailure() { Err? }
    function PropagateFailure<U>(): Result<U>
      requires Err?
    {
      Err(code)
    }
    function Extract(): T
      requires Ok?
    {
      value
    }
  }

  datatype Option<+T> = None | Some(value: T)

  /** The unit success value of an operation that returns nothing. */
  const DONE: Result<()> := Ok(())

  lemma DoneIsUnique(r: Result<()>)
    requires r.Ok?
    ensures r == DONE
  {
    assert r.value == ();
  }

  /** Elements of a sequence are pairwise different. */
  ghost predicate Distinct<T>(s: seq<T>) {
    forall i, j :: 0 <= i < j < |s| ==> s[i] != s[j]
  }
}
