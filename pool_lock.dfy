/** isPoolLocked: the guard the admin routes consult before changing a pool. */
module PoolLock {
  import opened Wrappers
  import opened Store

  /** The status value that freezes a pool. */
  const LOCKED := "locked"

  /**
   * A pool is locked when the first row with its id has status "locked";
   * a pool that does not exist is reported as not locked.
   */
  function IsPoolLocked(pools: seq<PoolRow>, poolId: Id): (r: bool)
    ensures r <==> exists i :: 0 <= i < |pools| && pools[i].id == poolId && pools[i].status == LOCKED
                               && forall j :: 0 <= j < i ==> pools[j].id != poolId
    ensures !PoolIdTaken(pools, poolId) ==> !r
  {
    match FindPool(pools, poolId)
    case None => false
    case Some(pool) =>
      FirstPoolIsFound(pools, poolId);
      pool.status == LOCKED
  }

  /** The row FindPool returns is the first one with that id. */
  lemma {:induction false} FirstPoolIsFound(pools: seq<PoolRow>, poolId: Id)
    requires FindPool(pools, poolId).Some?
    ensures exists i :: 0 <= i < |pools| && pools[i] == FindPool(pools, poolId).value
                        && forall j :: 0 <= j < i ==> pools[j].id != poolId
  {
    if pools[0].id != poolId {
      FirstPoolIsFound(pools[1..], poolId);
      var i :| 0 <= i < |pools[1..]| && pools[1..][i] == FindPool(pools[1..], poolId).value
               && forall j :: 0 <= j < i ==> pools[1..][j].id != poolId;
      assert pools[i + 1] == FindPool(pools, poolId).value;
      assert forall j :: 0 <= j < i + 1 ==> pools[j].id != poolId by {
        forall j | 0 <= j < i + 1 ensures pools[j].id != poolId {
          if j > 0 { assert pools[j] == pools[1..][j - 1]; }
        }
      }
    } else {
      assert pools[0] == FindPool(pools, poolId).value;
    }
  }

  /** Appending a row only matters for an id no earlier row has. */
  lemma {:induction false} FindPoolAppend(pools: seq<PoolRow>, x: PoolRow, id: Id)
    ensures FindPool(pools + [x], id) == if FindPool(pools, id).Some? then FindPool(pools, id)
                                         else if x.id == id then Some(x) else None
  {
    if pools != [] {
      assert (pools + [x])[1..] == pools[1..] + [x];
      FindPoolAppend(pools[1..], x, id);
    }
  }

  /** A pool created with the default status is not locked, and creating it does not lock any other pool. */
  lemma NewPoolIsUnlocked(pools: seq<PoolRow>, poolId: Id, name: string, now: Time, other: Id)
    requires !PoolIdTaken(pools, poolId)
    ensures !IsPoolLocked(pools + [PoolRow(poolId, name, DEFAULT_POOL_STATUS, now)], poolId)
    ensures other != poolId ==>
      IsPoolLocked(pools + [PoolRow(poolId, name, DEFAULT_POOL_STATUS, now)], other) == IsPoolLocked(pools, other)
  {
    FindPoolAppend(pools, PoolRow(poolId, name, DEFAULT_POOL_STATUS, now), poolId);
    FindPoolAppend(pools, PoolRow(poolId, name, DEFAULT_POOL_STATUS, now), other);
  }
}
