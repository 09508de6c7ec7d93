/** The unauthenticated view of the default pool: its grid and, once visible, its digits. */
module PublicPool {
  import opened Wrappers
  import opened Store
  import Pools
  import Digits

  /** A digit map as the public sees it: the lists are withheld until reveal or lock. */
  datatype PublicDigitMap = PublicDigitMap(
    winningDigits: Option<seq<int>>, losingDigits: Option<seq<int>>,
    revealedAt: Option<Time>, lockedAt: Option<Time>)

  datatype PublicPoolData = PublicPoolData(
    pool: PoolRow, squares: seq<Pools.SquareWithName>, digitMap: Option<PublicDigitMap>)

  /**
   * buildPublicDigitMap: no map gives null; otherwise both timestamps are passed on and
   * both lists are shown exactly when the map is visible, and are null otherwise.
   */
  function BuildPublicDigitMap(m: Option<DigitMapRow>): (r: Option<PublicDigitMap>)
    ensures r.None? <==> m.None?
    ensures r.Some? ==> r.value.revealedAt == m.value.revealedAt && r.value.lockedAt == m.value.lockedAt
    ensures r.Some? ==> (r.value.winningDigits.Some? <==> Digits.IsDigitsVisible(m))
    ensures r.Some? ==> (r.value.losingDigits.Some? <==> Digits.IsDigitsVisible(m))
    ensures r.Some? && Digits.IsDigitsVisible(m) ==>
      r.value.winningDigits == Some(m.value.winningDigits) && r.value.losingDigits == Some(m.value.losingDigits)
  {
    if m.None? then None
    else
      var visible := Digits.IsDigitsVisible(m);
      Some(PublicDigitMap(
        if visible then Some(m.value.winningDigits) else None,
        if visible then Some(m.value.losingDigits) else None,
        m.value.revealedAt, m.value.lockedAt))
  }

  /**
   * The digits are hidden from the public while a map is merely stored, and revealing
   * or locking it shows the stored lists; re-storing the lists of a revealed map shows
   * the new lists.
   */
  lemma DigitsShownOnlyAfterReveal(m: Option<DigitMapRow>, poolId: Id, winning: seq<int>, losing: seq<int>, now: Time)
    ensures BuildPublicDigitMap(Some(Digits.Upserted(None, poolId, winning, losing, now))).value.winningDigits.None?
    ensures m.Some? ==>
      var shown := BuildPublicDigitMap(Some(Digits.Revealed(m.value, now))).value;
      shown.winningDigits == Some(m.value.winningDigits) && shown.losingDigits == Some(m.value.losingDigits)
    ensures m.Some? ==>
      BuildPublicDigitMap(Some(Digits.Locked(m.value, now))).value.winningDigits == Some(m.value.winningDigits)
    ensures Digits.IsDigitsVisible(m) ==>
      BuildPublicDigitMap(Some(Digits.Upserted(m, poolId, winning, losing, now))).value.winningDigits == Some(winning)
  {
    Digits.VisibilityFollowsRevealAndLock(m, poolId, winning, losing, now);
  }

  /**
   * getPublicPoolData: make sure a default pool exists, then return its grid with the
   * owners' names and the public form of its digit map.
   */
  method GetPublicPoolData(db: Db, poolId: Id, squareIds: seq<Id>, now: Time) returns (r: Result<PublicPoolData>)
    requires |squareIds| == Pools.CELLS
    modifies db`pools, db`squares
    ensures |old(db.pools)| > 0 ==>
      && r.Ok? && r.value.pool.id == Pools.EarliestPool(old(db.pools)).id
      && db.pools == old(db.pools) && db.squares == old(db.squares)
    ensures |old(db.pools)| == 0 && r.Ok? ==>
      && r.value.pool.id == poolId
      && db.pools == [PoolRow(poolId, Pools.DEFAULT_POOL_NAME, DEFAULT_POOL_STATUS, now)]
      && db.squares == old(db.squares) + Pools.GridRows(poolId, squareIds, now)
    ensures r.Ok? ==>
      var pw := Pools.GetPoolWithSquares(db.pools, db.squares, db.participants, r.value.pool.id);
      pw.Ok? && r.value == PublicPoolData(pw.value.pool, pw.value.squares,
                                          BuildPublicDigitMap(Digits.GetDigitMap(db.digitMaps, r.value.pool.id)))
    ensures r.Err? ==> r.code == UNIQUE_VIOLATION && db.pools == old(db.pools) && db.squares == old(db.squares)
  {
    var ensured := Pools.EnsureDefaultPool(db, poolId, squareIds, now);
    if ensured.Err? {
      return Err(ensured.code);
    }
    var id := ensured.value;
    if |old(db.pools)| > 0 {
      var earliest := Pools.EarliestPool(old(db.pools));
      var i :| 0 <= i < |db.pools| && db.pools[i] == earliest;
    } else {
      assert db.pools[0].id == id;
    }
    var pw := Pools.GetPoolWithSquares(db.pools, db.squares, db.participants, id);
    var digitMap := Digits.GetDigitMap(db.digitMaps, id);
    r := Ok(PublicPoolData(pw.value.pool, pw.value.squares, BuildPublicDigitMap(digitMap)));
  }
}
