/** Pool creation with its fixed 10x10 grid, the default pool, and the pool-with-squares read. */
module Pools {
  import opened Wrappers
  import opened Store
  import opened Sql
  import Collections

  const GRID_SIZE := 10
  const CELLS := GRID_SIZE * GRID_SIZE
  const DEFAULT_POOL_NAME := "Main Pool"

  /** The squares a new pool gets: cell k is (k / 10, k % 10), carries the k-th id and has no owner. */
  function GridRows(poolId: Id, squareIds: seq<Id>, now: Time): (r: seq<SquareRow>)
    requires |squareIds| == CELLS
    ensures |r| == CELLS
  {
    seq(CELLS, k requires 0 <= k < CELLS => SquareRow(squareIds[k], poolId, k / GRID_SIZE, k % GRID_SIZE, None, now))
  }

  /** Where cell (row, col) sits in row-major order. */
  function CellIndex(row: int, col: int): int {
    row * GRID_SIZE + col
  }

  /**
   * The grid holds every (row, col) with 0 <= row, col < 10 exactly once, in row-major
   * order, all in the new pool and all unowned.
   */
  lemma GridCoversEachCellOnce(poolId: Id, squareIds: seq<Id>, now: Time)
    requires |squareIds| == CELLS
    ensures var g := GridRows(poolId, squareIds, now);
      && (forall row, col :: 0 <= row < GRID_SIZE && 0 <= col < GRID_SIZE ==>
            0 <= CellIndex(row, col) < CELLS && g[CellIndex(row, col)].rowIndex == row && g[CellIndex(row, col)].colIndex == col)
      && (forall j, k :: 0 <= j < CELLS && 0 <= k < CELLS && g[j].rowIndex == g[k].rowIndex && g[j].colIndex == g[k].colIndex ==> j == k)
      && (forall j, k :: 0 <= j < k < CELLS ==>
            g[j].rowIndex < g[k].rowIndex || (g[j].rowIndex == g[k].rowIndex && g[j].colIndex < g[k].colIndex))
      && (forall k :: 0 <= k < CELLS ==>
            0 <= g[k].rowIndex < GRID_SIZE && 0 <= g[k].colIndex < GRID_SIZE
            && g[k].poolId == poolId && g[k].participantId.None? && g[k].id == squareIds[k])
  {
    var g := GridRows(poolId, squareIds, now);
    forall row, col | 0 <= row < GRID_SIZE && 0 <= col < GRID_SIZE
      ensures 0 <= CellIndex(row, col) < CELLS && g[CellIndex(row, col)].rowIndex == row && g[CellIndex(row, col)].colIndex == col
    {
      var k := CellIndex(row, col);
      assert k / GRID_SIZE == row && k % GRID_SIZE == col;
      assert g[k].rowIndex == row && g[k].colIndex == col;
    }
    forall j, k | 0 <= j < CELLS && 0 <= k < CELLS && g[j].rowIndex == g[k].rowIndex && g[j].colIndex == g[k].colIndex
      ensures j == k
    {
      assert j == GRID_SIZE * (j / GRID_SIZE) + j % GRID_SIZE;
      assert k == GRID_SIZE * (k / GRID_SIZE) + k % GRID_SIZE;
    }
  }

  /**
   * The nested loop of insertPoolAndSquares: square k of the grid (row-major) pushes
   * the group `($4k+1, ..., $4k+4)` and the parameters id, pool id, row, col.
   */
  method BuildSquareValues(poolId: Id, squareIds: seq<Id>) returns (values: seq<Tuple>, params: seq<Param>)
    requires |squareIds| == CELLS
    ensures |values| == CELLS && |params| == 4 * CELLS
    ensures forall k :: 0 <= k < CELLS ==>
      && values[k] == FourSlots(k)
      && params[4 * k .. 4 * k + 4] == [PText(squareIds[k]), PText(poolId), PInt(k / GRID_SIZE), PInt(k % GRID_SIZE)]
  {
    values, params := [], [];
    var paramIndex := 1;
    for row := 0 to GRID_SIZE
      invariant |values| == row * GRID_SIZE && |params| == 4 * |values| && paramIndex == |params| + 1
      invariant forall k :: 0 <= k < |values| ==>
        && values[k] == FourSlots(k)
        && params[4 * k .. 4 * k + 4] == [PText(squareIds[k]), PText(poolId), PInt(k / GRID_SIZE), PInt(k % GRID_SIZE)]
    {
      for col := 0 to GRID_SIZE
        invariant |values| == row * GRID_SIZE + col && |params| == 4 * |values| && paramIndex == |params| + 1
        invariant forall k :: 0 <= k < |values| ==>
          && values[k] == FourSlots(k)
          && params[4 * k .. 4 * k + 4] == [PText(squareIds[k]), PText(poolId), PInt(k / GRID_SIZE), PInt(k % GRID_SIZE)]
      {
        var k := |values|;
        assert k / GRID_SIZE == row && k % GRID_SIZE == col;
        ghost var before := params;
        ghost var pushed := [PText(squareIds[row * GRID_SIZE + col]), PText(poolId), PInt(row), PInt(col)];
        values := values + [Tuple([paramIndex, paramIndex + 1, paramIndex + 2, paramIndex + 3])];
        params := params + [PText(squareIds[row * GRID_SIZE + col]), PText(poolId), PInt(row), PInt(col)];
        paramIndex := paramIndex + 4;
        assert params == before + pushed;
        assert params[4 * k .. 4 * k + 4] == pushed;
        forall j | 0 <= j < k
          ensures params[4 * j .. 4 * j + 4] == before[4 * j .. 4 * j + 4]
        {
          Sql.SliceOfPrefix(before, pushed, 4 * j, 4 * j + 4);
        }
      }
    }
  }

  /** How the store reads one `(id, pool_id, row_index, col_index)` group against its parameters. */
  function DecodeSquare(t: Tuple, params: seq<Param>, now: Time): Option<SquareRow> {
    if |t.slots| != 4 then None
    else
      match (Bind(params, t.slots[0]), Bind(params, t.slots[1]), Bind(params, t.slots[2]), Bind(params, t.slots[3]))
      case (Some(PText(id)), Some(PText(pool)), Some(PInt(row)), Some(PInt(col))) =>
        Some(SquareRow(id, pool, row, col, None, now))
      case _ => None
  }

  /** The rows a multi-row `insert into squares ... values` adds, or None if a group does not bind. */
  function DecodeSquares(values: seq<Tuple>, params: seq<Param>, now: Time): Option<seq<SquareRow>> {
    if forall k :: 0 <= k < |values| ==> DecodeSquare(values[k], params, now).Some? then
      Some(seq(|values|, k requires 0 <= k < |values| => DecodeSquare(values[k], params, now).value))
    else None
  }

  /** The statement the loop builds inserts exactly the grid: each placeholder names its own square's value. */
  lemma {:induction false} BuiltValuesDecodeToGrid(poolId: Id, squareIds: seq<Id>, now: Time, values: seq<Tuple>, params: seq<Param>)
    requires |squareIds| == CELLS
    requires |values| == CELLS && |params| == 4 * CELLS
    requires forall k :: 0 <= k < CELLS ==>
      && values[k] == FourSlots(k)
      && params[4 * k .. 4 * k + 4] == [PText(squareIds[k]), PText(poolId), PInt(k / GRID_SIZE), PInt(k % GRID_SIZE)]
    ensures DecodeSquares(values, params, now) == Some(GridRows(poolId, squareIds, now))
  {
    var g := GridRows(poolId, squareIds, now);
    forall k | 0 <= k < CELLS ensures DecodeSquare(values[k], params, now) == Some(g[k]) {
      var p := params[4 * k .. 4 * k + 4];
      assert params[4 * k] == p[0] && params[4 * k + 1] == p[1] && params[4 * k + 2] == p[2] && params[4 * k + 3] == p[3];
    }
    assert DecodeSquares(values, params, now).Some?;
    assert DecodeSquares(values, params, now).value == g;
  }

  /**
   * insertPoolAndSquares: the pool row, then one multi-row insert of its squares. A
   * failing statement adds nothing, but a failing squares insert leaves the pool row in.
   */
  method InsertPoolAndSquares(db: Db, poolId: Id, name: string, squareIds: seq<Id>, now: Time) returns (r: Result<()>)
    requires |squareIds| == CELLS
    modifies db`pools, db`squares
    ensures PoolIdTaken(old(db.pools), poolId) ==> r == Err(UNIQUE_VIOLATION) && db.pools == old(db.pools) && db.squares == old(db.squares)
    ensures !PoolIdTaken(old(db.pools), poolId) ==> db.pools == old(db.pools) + [PoolRow(poolId, name, DEFAULT_POOL_STATUS, now)]
    ensures !PoolIdTaken(old(db.pools), poolId) ==>
      if SquareBatchFits(old(db.squares), GridRows(poolId, squareIds, now))
      then r == Ok(()) && db.squares == old(db.squares) + GridRows(poolId, squareIds, now)
      else r == Err(UNIQUE_VIOLATION) && db.squares == old(db.squares)
  {
    if PoolIdTaken(db.pools, poolId) {
      return Err(UNIQUE_VIOLATION);
    }
    db.pools := db.pools + [PoolRow(poolId, name, DEFAULT_POOL_STATUS, now)];

    var values, params := BuildSquareValues(poolId, squareIds);
    BuiltValuesDecodeToGrid(poolId, squareIds, now, values, params);
    var batch := DecodeSquares(values, params, now).value;
    if !SquareBatchFits(db.squares, batch) {
      return Err(UNIQUE_VIOLATION);
    }
    db.squares := db.squares + batch;
    r := Ok(());
  }

  /**
   * createPoolWithSquares: the two inserts in one transaction, so on any error
   * neither the pool nor any square remains.
   */
  method CreatePoolWithSquares(db: Db, name: string, poolId: Id, squareIds: seq<Id>, now: Time) returns (r: Result<Id>)
    requires |squareIds| == CELLS
    modifies db`pools, db`squares
    ensures r.Ok? <==> !PoolIdTaken(old(db.pools), poolId) && SquareBatchFits(old(db.squares), GridRows(poolId, squareIds, now))
    ensures r.Ok? ==>
      && r.value == poolId
      && db.pools == old(db.pools) + [PoolRow(poolId, name, DEFAULT_POOL_STATUS, now)]
      && db.squares == old(db.squares) + GridRows(poolId, squareIds, now)
    ensures r.Err? ==> r.code == UNIQUE_VIOLATION && db.pools == old(db.pools) && db.squares == old(db.squares)
  {
    var savedPools, savedSquares := db.pools, db.squares;
    var inserted := InsertPoolAndSquares(db, poolId, name, squareIds, now);
    if inserted.Err? {
      db.pools, db.squares := savedPools, savedSquares;
      return Err(inserted.code);
    }
    r := Ok(poolId);
  }

  /** `select id from pools order by created_at asc limit 1` */
  function EarliestPool(pools: seq<PoolRow>): (r: PoolRow)
    requires |pools| > 0
    ensures r in pools
    ensures forall i :: 0 <= i < |pools| ==> r.createdAt <= pools[i].createdAt
  {
    var le := (a: PoolRow, b: PoolRow) => a.createdAt <= b.createdAt;
    var sorted := Collections.Sort(pools, le);
    assert Collections.TotalPreorder(le);
    assert sorted[0] in multiset(pools);
    forall i | 0 <= i < |pools| ensures sorted[0].createdAt <= pools[i].createdAt {
      assert pools[i] in multiset(sorted);
      var j :| 0 <= j < |sorted| && sorted[j] == pools[i];
      assert j == 0 || le(sorted[0], sorted[j]);
    }
    sorted[0]
  }

  /** ensureDefaultPool: the earliest pool if there is one; otherwise a new "Main Pool". */
  method EnsureDefaultPool(db: Db, poolId: Id, squareIds: seq<Id>, now: Time) returns (r: Result<Id>)
    requires |squareIds| == CELLS
    modifies db`pools, db`squares
    ensures |old(db.pools)| > 0 ==> r == Ok(EarliestPool(old(db.pools)).id) && db.pools == old(db.pools) && db.squares == old(db.squares)
    ensures |old(db.pools)| == 0 ==>
      if r.Ok?
      then r.value == poolId && db.pools == [PoolRow(poolId, DEFAULT_POOL_NAME, DEFAULT_POOL_STATUS, now)]
        && db.squares == old(db.squares) + GridRows(poolId, squareIds, now)
      else db.pools == old(db.pools) && db.squares == old(db.squares)
    ensures r.Err? ==> r.code == UNIQUE_VIOLATION
  {
    if |db.pools| > 0 {
      return Ok(EarliestPool(db.pools).id);
    }
    r := CreatePoolWithSquares(db, DEFAULT_POOL_NAME, poolId, squareIds, now);
  }

  /** A square as getPoolWithSquares returns it, with its owner's display name joined in. */
  datatype SquareWithName = SquareWithName(square: SquareRow, participantName: Option<string>)

  datatype PoolWithSquares = PoolWithSquares(pool: PoolRow, squares: seq<SquareWithName>)

  /** `order by s.row_index asc, s.col_index asc` */
  predicate CellBefore(a: SquareWithName, b: SquareWithName) {
    a.square.rowIndex < b.square.rowIndex
    || (a.square.rowIndex == b.square.rowIndex && a.square.colIndex <= b.square.colIndex)
  }

  /** `where s.pool_id = $1` */
  function OwnSquares(squares: seq<SquareRow>, poolId: Id): (r: seq<SquareRow>)
    ensures forall s :: s in r <==> s in squares && s.poolId == poolId
    ensures forall s :: multiset(r)[s] == if s.poolId == poolId then multiset(squares)[s] else 0
  {
    var r := Collections.Filter(squares, (s: SquareRow) => s.poolId == poolId);
    assert forall s :: s in squares && s.poolId == poolId ==> s in r by {
      forall s | s in squares && s.poolId == poolId ensures s in r {
        var k :| 0 <= k < |squares| && squares[k] == s;
      }
    }
    r
  }

  /** `left join participants p on p.id = s.participant_id`: each square with its owner's name. */
  function Named(own: seq<SquareRow>, participants: seq<ParticipantRow>): (r: seq<SquareWithName>)
    ensures forall v :: v in r <==> v.square in own && v.participantName == OwnerName(participants, v.square.participantId)
    ensures |r| == |own| && forall i :: 0 <= i < |r| ==> r[i].square == own[i]
  {
    var r := seq(|own|, i requires 0 <= i < |own| => SquareWithName(own[i], OwnerName(participants, own[i].participantId)));
    assert forall s :: s in own ==> SquareWithName(s, OwnerName(participants, s.participantId)) in r by {
      forall s | s in own ensures SquareWithName(s, OwnerName(participants, s.participantId)) in r {
        var i :| 0 <= i < |own| && own[i] == s;
        assert r[i] == SquareWithName(s, OwnerName(participants, s.participantId));
      }
    }
    r
  }

  /** `order by s.row_index, s.col_index`: the same squares, ordered by cell. */
  function ByCell(named: seq<SquareWithName>): (r: seq<SquareWithName>)
    ensures multiset(r) == multiset(named) && |r| == |named|
    ensures forall x :: x in r <==> x in named
    ensures forall i, j :: 0 <= i < j < |r| ==> CellBefore(r[i], r[j])
  {
    var sorted := Collections.Sort(named, CellBefore);
    assert Collections.TotalPreorder(CellBefore);
    assert forall x :: x in sorted <==> x in named by {
      assert forall x :: x in sorted <==> x in multiset(sorted);
      assert forall x :: x in named <==> x in multiset(named);
    }
    sorted
  }

  /**
   * getPoolWithSquares: fails for a missing pool; otherwise every square of the pool,
   * each with its owner's name, ordered by row then column.
   */
  function GetPoolWithSquares(pools: seq<PoolRow>, squares: seq<SquareRow>, participants: seq<ParticipantRow>, poolId: Id)
    : (r: Result<PoolWithSquares>)
    ensures r.Err? <==> FindPool(pools, poolId).None?
    ensures r.Err? ==> r.code == "Pool " + poolId + " not found"
    ensures r.Ok? ==> r.value.pool == FindPool(pools, poolId).value
    ensures r.Ok? ==> forall i, j :: 0 <= i < j < |r.value.squares| ==> CellBefore(r.value.squares[i], r.value.squares[j])
    ensures r.Ok? ==> forall i :: 0 <= i < |r.value.squares| ==>
      var v := r.value.squares[i];
      v.square in squares && v.square.poolId == poolId && v.participantName == OwnerName(participants, v.square.participantId)
    ensures r.Ok? ==> forall s :: s in squares && s.poolId == poolId ==>
      SquareWithName(s, OwnerName(participants, s.participantId)) in r.value.squares
    ensures r.Ok? ==> |r.value.squares| == |OwnSquares(squares, poolId)|
    ensures r.Ok? ==> multiset(r.value.squares) == multiset(Named(OwnSquares(squares, poolId), participants))
  {
    match FindPool(pools, poolId)
    case None => Err("Pool " + poolId + " not found")
    case Some(pool) =>
      var sorted := ByCell(Named(OwnSquares(squares, poolId), participants));
      Ok(PoolWithSquares(pool, sorted))
  }
}
