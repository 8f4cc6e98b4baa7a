/** Eviction is exact: admission keeps a prefix of the ranking, drops only entries of strictly
    lower rate, and drops no more than it must. */
module Eviction {
  import opened Base
  import opened MapSums
  import opened Transactions
  import opened Utxo
  import opened TxValidation
  import opened FeeRate
  import opened Ranking
  import opened Pools

  ghost function RankedPool(p: Pool): seq<Entry>
    requires Valid(p)
  {
    EntriesKeyed(p.entries);
    Ranked(p.entries)
  }

  /** Keeping the `k` highest entries would still leave no room for `e`. */
  ghost predicate CrampedAt(p: Pool, e: Entry, k: nat)
    requires Valid(p) && k <= |p.entries|
  {
    NeedsRoom(k, SizeOf(RankedPool(p)[..k]), e.size, p.limits)
  }

  lemma RankedPoolBytes(p: Pool)
    requires Valid(p)
    ensures |RankedPool(p)| == |p.entries| && SizeOf(RankedPool(p)) == p.totalBytes
  {
    hide EntriesOk, IndexOk;
    EntriesKeyed(p.entries);
    SizeOfRanked(p.entries);
  }

  /** Removing the lowest entry removes the last of the ranking. */
  lemma RankedPoolStep(p: Pool)
    requires Valid(p) && p.entries != map[]
    ensures EntriesOk(p.entries) && Keyed(p.entries)
    ensures var w := Lowest(p.entries); var n := |p.entries| - 1;
            && Valid(Remove(p, w.txid))
            && |Remove(p, w.txid).entries| == n
            && Remove(p, w.txid).limits == p.limits
            && RankedPool(p)[n] == w
            && RankedPool(Remove(p, w.txid)) == RankedPool(p)[..n]
  {
    hide EntryOk, IndexOk, IsLowest, Sum;
    EntriesKeyed(p.entries);
    LowestIsMember(p.entries);
    RemoveValid(p, Lowest(p.entries).txid);
  }

  /** `q` is what is left of `p` when exactly the top `k` of its ranking are kept and every
      dropped entry has a strictly lower rate than `e`. */
  ghost predicate KeepsTop(p: Pool, q: Pool, e: Entry, k: nat)
    requires Valid(p) && Valid(q)
  {
    && k <= |RankedPool(p)|
    && RankedPool(q) == RankedPool(p)[..k]
    && forall i :: k <= i < |RankedPool(p)| ==> StrictlyHigherFeerate(e, RankedPool(p)[i])
  }

  /** Eviction went on down to `k` because every longer prefix was too big, and stopped there
      because `k` fits or the next victim does not rank strictly lower. */
  ghost predicate StopsAt(p: Pool, e: Entry, room: bool, k: nat)
    requires Valid(p) && k <= |p.entries|
  {
    RankedPoolBytes(p);
    && (forall j :: k < j <= |p.entries| ==> CrampedAt(p, e, j))
    && (if room then !CrampedAt(p, e, k) else
          CrampedAt(p, e, k) && (k == 0 || !StrictlyHigherFeerate(e, RankedPool(p)[k - 1])))
  }

  lemma CrampedWhole(p: Pool, e: Entry)
    requires Valid(p)
    ensures CrampedAt(p, e, |p.entries|) <==> NeedsRoom(|p.entries|, p.totalBytes, e.size, p.limits)
    ensures |RankedPool(p)| == |p.entries| && RankedPool(p)[..|p.entries|] == RankedPool(p)
  {
    hide Valid, NeedsRoom, RankedPool;
    RankedPoolBytes(p);
    assert RankedPool(p)[..|p.entries|] == RankedPool(p);
  }

  /** `q` is `p` without its lowest entry. */
  ghost predicate WithoutLowest(p: Pool, q: Pool)
    requires Valid(p) && Valid(q)
  {
    && q.limits == p.limits
    && |q.entries| + 1 == |p.entries| == |RankedPool(p)|
    && RankedPool(q) == RankedPool(p)[..|q.entries|]
  }

  lemma KeepsTopStep(p: Pool, q: Pool, r: Pool, e: Entry, k: nat)
    requires Valid(p) && Valid(q) && Valid(r) && WithoutLowest(p, q) && KeepsTop(q, r, e, k)
    requires StrictlyHigherFeerate(e, RankedPool(p)[|q.entries|])
    ensures KeepsTop(p, r, e, k)
  {
    hide Valid, RankedPool, StrictlyHigherFeerate;
    assert RankedPool(p)[..|q.entries|][..k] == RankedPool(p)[..k];
  }

  lemma StopsStep(p: Pool, q: Pool, e: Entry, room: bool, k: nat)
    requires Valid(p) && Valid(q) && WithoutLowest(p, q) && k <= |q.entries| && StopsAt(q, e, room, k)
    requires CrampedAt(p, e, |p.entries|)
    ensures StopsAt(p, e, room, k)
  {
    hide Valid, RankedPool, StrictlyHigherFeerate, NeedsRoom;
    forall j | 0 <= j <= |q.entries|
      ensures CrampedAt(p, e, j) == CrampedAt(q, e, j)
    {
      assert RankedPool(p)[..|q.entries|][..j] == RankedPool(p)[..j];
    }
  }

  lemma MakeRoomStep(p: Pool, e: Entry)
    requires Valid(p) && NeedsRoom(|p.entries|, p.totalBytes, e.size, p.limits) && p.entries != map[]
    ensures Keyed(p.entries)
    ensures StrictlyHigherFeerate(e, Lowest(p.entries)) ==>
              && Valid(Remove(p, Lowest(p.entries).txid))
              && MakeRoom(p, e) == MakeRoom(Remove(p, Lowest(p.entries).txid), e)
  {
    hide Valid, NeedsRoom, StrictlyHigherFeerate, Remove, IsLowest;
    RankedPoolStep(p);
  }

  /** The lowest entry must go, and may. */
  ghost predicate Evicts(p: Pool, e: Entry)
    requires Valid(p)
  {
    RankedPoolBytes(p);
    NeedsRoom(|p.entries|, p.totalBytes, e.size, p.limits) && p.entries != map[]
    && StrictlyHigherFeerate(e, RankedPool(p)[|p.entries| - 1])
  }

  lemma MakeRoomStops(p: Pool, e: Entry)
    requires Valid(p) && !Evicts(p, e)
    ensures MakeRoom(p, e).1 == p
    ensures KeepsTop(p, p, e, |p.entries|) && StopsAt(p, e, MakeRoom(p, e).0, |p.entries|)
  {
    hide Valid, NeedsRoom, StrictlyHigherFeerate, RankedPool, Remove, CrampedAt, IsLowest;
    CrampedWhole(p, e);
    if p.entries != map[] {
      RankedPoolStep(p);
    }
  }

  /** Making room keeps a prefix of the ranking, no shorter than it must be. */
  lemma {:induction false} MakeRoomExact(p: Pool, e: Entry) returns (k: nat)
    requires Valid(p)
    ensures k <= |p.entries|
    ensures var (room, q) := MakeRoom(p, e); KeepsTop(p, q, e, k) && StopsAt(p, e, room, k)
    decreases |p.entries|
  {
    hide Valid, NeedsRoom, StrictlyHigherFeerate, RankedPool, Remove, CrampedAt, IsLowest, MakeRoom, KeepsTop, StopsAt;
    if Evicts(p, e) {
      CrampedWhole(p, e);
      RankedPoolStep(p);
      MakeRoomStep(p, e);
      var q := Remove(p, Lowest(p.entries).txid);
      k := MakeRoomExact(q, e);
      KeepsTopStep(p, q, MakeRoom(p, e).1, e, k);
      StopsStep(p, q, e, MakeRoom(p, e).0, k);
    } else {
      k := |p.entries|;
      MakeRoomStops(p, e);
    }
  }

  /** `e` fits both limits beside the top `k` entries. */
  ghost predicate FitsAt(p: Pool, e: Entry, k: nat)
    requires Valid(p) && k <= |p.entries|
  {
    RankedPoolBytes(p);
    k + 1 <= p.limits.maxTransactions && SizeOf(RankedPool(p)[..k]) + e.size <= p.limits.maxTotalBytes
  }

  lemma CrampedMeansNoFit(p: Pool, e: Entry, k: nat)
    requires Valid(p) && k <= |p.entries| && e.size <= p.limits.maxTotalBytes
    ensures CrampedAt(p, e, k) <==> !FitsAt(p, e, k)
  {
    hide Valid, RankedPool;
    RankedPoolBytes(p);
  }

  /** The entry admission would create for `tx`. */
  ghost function Incoming(tx: Transaction, coins: Coins, policy: Policy): Entry
    requires Admission(tx, coins, policy).Ok?
  {
    var (fee, size) := Admission(tx, coins, policy).value;
    Entry(tx, Txid(tx), fee, size)
  }

  /** Validation, duplicate and conflict rejections change nothing. */
  lemma RejectionChangesNothing(p: Pool, tx: Transaction, coins: Coins, policy: Policy)
    requires Valid(p)
    ensures var (r, q) := Accept(p, tx, coins, policy);
            && (r.Err? && r.code != ResourceLimitExceeded ==> q == p)
            && (r == Err(ResourceLimitExceeded) ==>
                  Admission(tx, coins, policy).Ok? && Txid(tx) !in p.entries && !Conflicts(p, tx))
  {
    hide Valid, SaneTx, MakeRoom, Insert, EncTx;
  }

  /** A resource-limit rejection leaves a prefix of the ranking, with only entries of strictly lower
      rate lost, and happens only when the transaction alone exceeds the byte limit or even that
      prefix is too big and its last entry does not rank strictly lower. */
  lemma ResourceRejectionExact(p: Pool, tx: Transaction, coins: Coins, policy: Policy) returns (k: nat)
    requires Valid(p) && Accept(p, tx, coins, policy).0 == Err(ResourceLimitExceeded)
    ensures Admission(tx, coins, policy).Ok? && k <= |p.entries|
    ensures Valid(Accept(p, tx, coins, policy).1)
    ensures var e := Incoming(tx, coins, policy); var q := Accept(p, tx, coins, policy).1;
            && KeepsTop(p, q, e, k)
            && (StopsAt(p, e, false, k) || (e.size > p.limits.maxTotalBytes && StopsAt(p, e, true, k)))
  {
    hide Valid, SaneTx, TxFee, MakeRoom, Insert, EncTx, KeepsTop, StopsAt, Conflicts;
    RejectionChangesNothing(p, tx, coins, policy);
    AcceptValid(p, tx, coins, policy);
    k := MakeRoomExact(p, Incoming(tx, coins, policy));
  }

  /** A resource-limit rejection leaves the pool as it was if and only if the first entry to go
      could not be evicted. */
  lemma RejectionUnchangedExact(p: Pool, tx: Transaction, coins: Coins, policy: Policy)
    requires Valid(p) && Accept(p, tx, coins, policy).0 == Err(ResourceLimitExceeded)
    ensures Admission(tx, coins, policy).Ok?
    ensures Accept(p, tx, coins, policy).1 == p <==> !Evicts(p, Incoming(tx, coins, policy))
  {
    hide Valid, SaneTx, TxFee, MakeRoom, Insert, EncTx, Conflicts, NeedsRoom, StrictlyHigherFeerate, RankedPool,
         KeepsTop, StopsAt;
    RejectionChangesNothing(p, tx, coins, policy);
    var e := Incoming(tx, coins, policy);
    if Evicts(p, e) {
      EvictionLoses(p, e);
    } else {
      MakeRoomStops(p, e);
    }
  }

  lemma EvictionLoses(p: Pool, e: Entry)
    requires Valid(p) && Evicts(p, e)
    ensures MakeRoom(p, e).1 != p
  {
    hide Valid, NeedsRoom, StrictlyHigherFeerate, RankedPool, IsLowest, MakeRoom, Remove;
    RankedPoolStep(p);
    MakeRoomStep(p, e);
    var q := Remove(p, Lowest(p.entries).txid);
    MakeRoomShrinks(q, e);
    MakeRoomSubmap(q, e);
    FewerEntries(MakeRoom(q, e).1, q);
  }

  lemma FewerEntries(part: Pool, whole: Pool)
    requires part.entries.Keys <= whole.entries.Keys
    ensures |part.entries| <= |whole.entries|
  {
    assert whole.entries.Keys == part.entries.Keys + (whole.entries.Keys - part.entries.Keys);
    assert |part.entries| == |part.entries.Keys| && |whole.entries| == |whole.entries.Keys|;
  }

  /** A successful admission leaves the incoming entry and the longest prefix of the ranking that
      fits beside it. */
  lemma AcceptExact(p: Pool, tx: Transaction, coins: Coins, policy: Policy) returns (k: nat, kept: Pool)
    requires Valid(p) && Accept(p, tx, coins, policy).0.Ok?
    ensures Admission(tx, coins, policy).Ok? && k <= |p.entries| && Valid(kept)
    ensures var e := Incoming(tx, coins, policy); var q := Accept(p, tx, coins, policy).1;
            && KeepsTop(p, kept, e, k)
            && e.txid !in p.entries && q.entries == kept.entries[e.txid := e]
            && FitsAt(p, e, k) && forall j :: k < j <= |p.entries| ==> !FitsAt(p, e, j)
  {
    hide Valid, SaneTx, TxFee, MakeRoom, EncTx, KeepsTop, Conflicts, CrampedAt, FitsAt, CanInsert;
    var e := Incoming(tx, coins, policy);
    k := MakeRoomExact(p, e);
    kept := MakeRoom(p, e).1;
    forall j | 0 <= j <= |p.entries|
      ensures CrampedAt(p, e, j) <==> !FitsAt(p, e, j)
    {
      CrampedMeansNoFit(p, e, j);
    }
  }

  /** `e` fits beside the top `k` entries, and all the others are worth evicting for it. */
  ghost predicate RoomAt(p: Pool, e: Entry, k: nat)
    requires Valid(p) && k <= |p.entries|
  {
    RankedPoolBytes(p);
    FitsAt(p, e, k) && forall i :: k <= i < |p.entries| ==> StrictlyHigherFeerate(e, RankedPool(p)[i])
  }

  /** There is room, or eviction can make it. */
  ghost predicate CanMakeRoom(p: Pool, e: Entry)
    requires Valid(p)
  {
    e.size <= p.limits.maxTotalBytes && exists k :: 0 <= k <= |p.entries| && RoomAt(p, e, k)
  }

  /** What admission comes to, before the call: it succeeds exactly when the transaction is admissible,
      is no duplicate, conflicts with nothing, and room can be made; and it loses entries for nothing
      exactly when only the last fails and the lowest entry can be evicted. */
  lemma AdmissionExact(p: Pool, tx: Transaction, coins: Coins, policy: Policy)
    requires Valid(p)
    ensures Accept(p, tx, coins, policy).0.Ok? <==>
            && Admission(tx, coins, policy).Ok? && Txid(tx) !in p.entries && !Conflicts(p, tx)
            && CanMakeRoom(p, Incoming(tx, coins, policy))
    ensures Accept(p, tx, coins, policy).0.Err? && Accept(p, tx, coins, policy).1 != p <==>
            && Admission(tx, coins, policy).Ok? && Txid(tx) !in p.entries && !Conflicts(p, tx)
            && !CanMakeRoom(p, Incoming(tx, coins, policy)) && Evicts(p, Incoming(tx, coins, policy))
  {
    hide Valid, SaneTx, TxFee, Accept, EncTx, Conflicts, Admission, Txid, CanMakeRoom, Evicts;
    RejectionChangesNothing(p, tx, coins, policy);
    if Admission(tx, coins, policy).Ok? && Txid(tx) !in p.entries && !Conflicts(p, tx) {
      RoomExact(p, Incoming(tx, coins, policy));
      AcceptNeedsRoom(p, tx, coins, policy);
      if Accept(p, tx, coins, policy).0.Err? {
        RejectionUnchangedExact(p, tx, coins, policy);
      }
    } else {
      RefusedOutright(p, tx, coins, policy);
    }
  }

  lemma AcceptNeedsRoom(p: Pool, tx: Transaction, coins: Coins, policy: Policy)
    requires Valid(p) && Admission(tx, coins, policy).Ok? && Txid(tx) !in p.entries && !Conflicts(p, tx)
    ensures var e := Incoming(tx, coins, policy); var r := Accept(p, tx, coins, policy).0;
            && (r.Ok? <==> MakeRoom(p, e).0 && e.size <= p.limits.maxTotalBytes)
            && (r.Err? ==> r == Err(ResourceLimitExceeded))
  {
    hide Valid, Admission, Conflicts, MakeRoom, Txid;
  }

  lemma RefusedOutright(p: Pool, tx: Transaction, coins: Coins, policy: Policy)
    requires Valid(p) && (Admission(tx, coins, policy).Err? || Txid(tx) in p.entries || Conflicts(p, tx))
    ensures Accept(p, tx, coins, policy).0.Err? && Accept(p, tx, coins, policy).1 == p
  {
    hide Valid, Admission, Conflicts, MakeRoom, Txid;
  }

  lemma RoomExact(p: Pool, e: Entry)
    requires Valid(p)
    ensures MakeRoom(p, e).0 && e.size <= p.limits.maxTotalBytes <==> CanMakeRoom(p, e)
  {
    hide Valid, MakeRoom, RankedPool, StrictlyHigherFeerate, CrampedAt, FitsAt;
    RankedPoolBytes(p);
    var k := MakeRoomExact(p, e);
    if e.size <= p.limits.maxTotalBytes {
      forall j | 0 <= j <= |p.entries| ensures CrampedAt(p, e, j) <==> !FitsAt(p, e, j) {
        CrampedMeansNoFit(p, e, j);
      }
      if MakeRoom(p, e).0 {
        assert RoomAt(p, e, k);
      }
      if j :| 0 <= j <= |p.entries| && RoomAt(p, e, j) {
        assert j <= k;
      }
    }
  }

  /** Every entry pays at least `rate` per byte. */
  ghost predicate PaysRate(m: Entries, rate: nat) {
    forall k :: k in m ==> m[k].fee >= rate * m[k].size
  }

  /** Admission under a minimum rate keeps that rate across the pool. */
  lemma AcceptKeepsRate(p: Pool, tx: Transaction, coins: Coins, policy: Policy)
    requires Valid(p) && PaysRate(p.entries, policy.minRelayFeerate)
    ensures PaysRate(Accept(p, tx, coins, policy).1.entries, policy.minRelayFeerate)
  {
    hide Valid, SaneTx, TxFee, MakeRoom, EncTx, Conflicts;
    if Admission(tx, coins, policy).Ok? {
      MakeRoomSubmap(p, Incoming(tx, coins, policy));
    }
  }

  lemma {:induction false} MakeRoomSubmap(p: Pool, e: Entry)
    requires Valid(p)
    ensures var q := MakeRoom(p, e).1; forall k :: k in q.entries ==> k in p.entries && q.entries[k] == p.entries[k]
    decreases |p.entries|
  {
    hide EntriesOk, IndexOk, Sum, NeedsRoom, StrictlyHigherFeerate;
    EntriesKeyed(p.entries);
    if NeedsRoom(|p.entries|, p.totalBytes, e.size, p.limits) && p.entries != map[] &&
       StrictlyHigherFeerate(e, Lowest(p.entries)) {
      var w := Lowest(p.entries);
      RemoveValid(p, w.txid);
      MakeRoomSubmap(Remove(p, w.txid), e);
    }
  }

  /** Whatever making room loses has a strictly lower rate. */
  lemma {:induction false} MakeRoomLoses(p: Pool, e: Entry)
    requires Valid(p)
    ensures var q := MakeRoom(p, e).1;
            forall k :: k in p.entries && k !in q.entries ==> StrictlyHigherFeerate(e, p.entries[k])
    decreases |p.entries|
  {
    hide EntriesOk, IndexOk, Sum, NeedsRoom, StrictlyHigherFeerate;
    EntriesKeyed(p.entries);
    if NeedsRoom(|p.entries|, p.totalBytes, e.size, p.limits) && p.entries != map[] &&
       StrictlyHigherFeerate(e, Lowest(p.entries)) {
      var w := Lowest(p.entries);
      LowestIsMember(p.entries);
      RemoveValid(p, w.txid);
      MakeRoomLoses(Remove(p, w.txid), e);
    }
  }

  /** Entry by entry: an admission adds the incoming entry and nothing else, changes no entry, and
      loses only entries of strictly lower rate. */
  lemma AcceptEntries(p: Pool, tx: Transaction, coins: Coins, policy: Policy)
    requires Valid(p) && Accept(p, tx, coins, policy).0.Ok?
    ensures Admission(tx, coins, policy).Ok?
    ensures var e := Incoming(tx, coins, policy); var q := Accept(p, tx, coins, policy).1;
            && e.txid !in p.entries && e.txid in q.entries && q.entries[e.txid] == e
            && (forall k :: k in q.entries && k != e.txid ==> k in p.entries && q.entries[k] == p.entries[k])
            && (forall k :: k in p.entries ==> k in q.entries || StrictlyHigherFeerate(e, p.entries[k]))
  {
    hide Valid, SaneTx, TxFee, MakeRoom, EncTx, Conflicts, CanInsert, StrictlyHigherFeerate;
    MakeRoomSubmap(p, Incoming(tx, coins, policy));
    MakeRoomLoses(p, Incoming(tx, coins, policy));
  }

  // ----- any sequence of operations

  datatype PoolOp = PoolAccept(tx: Transaction, coins: Coins) | PoolRemove(txid: Hash)

  /** The pool after any accepts and removes, against whatever unspent sets, keeps its indexes, byte
      total and limits in agreement, and every entry met the minimum rate. */
  ghost function AfterOps(p: Pool, ops: seq<PoolOp>, policy: Policy): (q: Pool)
    requires Valid(p) && PaysRate(p.entries, policy.minRelayFeerate)
    ensures Valid(q) && PaysRate(q.entries, policy.minRelayFeerate) && q.limits == p.limits
  {
    hide Valid, Accept;
    if ops == [] then p else
      var before := AfterOps(p, ops[..|ops| - 1], policy);
      match ops[|ops| - 1]
      case PoolAccept(tx, coins) =>
        AcceptValid(before, tx, coins, policy);
        AcceptKeepsRate(before, tx, coins, policy);
        AcceptKeepsLimits(before, tx, coins, policy);
        Accept(before, tx, coins, policy).1
      case PoolRemove(txid) =>
        RemoveValid(before, txid);
        Remove(before, txid)
  }

  /** The pool goes through every operation, in order. */
  lemma {:induction false} OpsTrace(p: Pool, ops: seq<PoolOp>, policy: Policy) returns (pools: seq<Pool>)
    requires Valid(p) && PaysRate(p.entries, policy.minRelayFeerate)
    ensures |pools| == |ops| + 1 && pools[0] == p && pools[|ops|] == AfterOps(p, ops, policy)
    ensures forall i :: 0 <= i < |ops| ==>
              Valid(pools[i]) &&
              pools[i + 1] == if ops[i].PoolAccept? then Accept(pools[i], ops[i].tx, ops[i].coins, policy).1
                              else Remove(pools[i], ops[i].txid)
  {
    hide Valid, Accept, Remove, PaysRate;
    if ops == [] {
      pools := [p];
    } else {
      var k := |ops| - 1;
      pools := OpsTrace(p, ops[..k], policy);
      pools := pools + [AfterOps(p, ops, policy)];
    }
  }

  lemma AcceptKeepsLimits(p: Pool, tx: Transaction, coins: Coins, policy: Policy)
    requires Valid(p)
    ensures Accept(p, tx, coins, policy).1.limits == p.limits
  {
    hide Valid, SaneTx, TxFee, MakeRoom, Admission, Conflicts;
    var admission := Admission(tx, coins, policy);
    if admission.Ok? {
      MakeRoomShrinks(p, Entry(tx, Txid(tx), admission.value.0, admission.value.1));
    }
  }
}
