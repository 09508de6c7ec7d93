/**
 * The read-only statistics over settled results: pool totals, per-square hit counts
 * and the participant leaderboard. Each query is a pure function of the tables.
 */
module Analytics {
  import opened Wrappers
  import opened Store
  import Collections

  datatype Totals = Totals(totalGamesFinalized: nat, totalPayoutCents: int)

  datatype SquareStat = SquareStat(
    rowIndex: int, colIndex: int, hitCount: nat, totalPayoutCents: int, ownerDisplayName: Option<string>)

  datatype SquareStats = SquareStats(totals: Totals, squares: seq<SquareStat>)

  datatype LeaderRow = LeaderRow(participantId: Id, displayName: string, winsCount: nat, totalPayoutCents: int)

  datatype Leaderboard = Leaderboard(totals: Totals, totalParticipants: nat, leaderboard: seq<LeaderRow>)

  /** Which results a `where` / `join ... on` clause over game_results keeps. */
  datatype Selector =
    | InPool(poolId: Id)
    | OnSquare(poolId: Id, squareId: Id)
    | WonBy(poolId: Id, participantId: Id)

  predicate Selects(sel: Selector, g: GameResultRow) {
    match sel
    case InPool(poolId) => g.poolId == poolId
    case OnSquare(poolId, squareId) => g.poolId == poolId && g.winningSquareId == squareId
    case WonBy(poolId, participantId) => g.poolId == poolId && g.winningParticipantId == Some(participantId)
  }

  /** `count(*)` over the selected results. */
  function Count(rs: seq<GameResultRow>, sel: Selector): (n: nat)
    ensures n <= |rs|
    ensures n == 0 <==> forall i :: 0 <= i < |rs| ==> !Selects(sel, rs[i])
  {
    if rs == [] then 0
    else (if Selects(sel, rs[0]) then 1 else 0) + Count(rs[1..], sel)
  }

  /** `coalesce(sum(payout_amount_cents), 0)` over the selected results. */
  function Sum(rs: seq<GameResultRow>, sel: Selector): (total: int)
    ensures (forall i :: 0 <= i < |rs| ==> !Selects(sel, rs[i])) ==> total == 0
    ensures (forall i :: 0 <= i < |rs| && Selects(sel, rs[i]) ==> rs[i].payoutAmountCents >= 0) ==> total >= 0
  {
    if rs == [] then 0
    else (if Selects(sel, rs[0]) then rs[0].payoutAmountCents else 0) + Sum(rs[1..], sel)
  }

  /** Recording one more result adds it to every count and sum that selects it, and to no other. */
  lemma {:induction false} TallyAppend(rs: seq<GameResultRow>, g: GameResultRow, sel: Selector)
    ensures Count(rs + [g], sel) == Count(rs, sel) + if Selects(sel, g) then 1 else 0
    ensures Sum(rs + [g], sel) == Sum(rs, sel) + if Selects(sel, g) then g.payoutAmountCents else 0
  {
    if rs != [] {
      assert (rs + [g])[1..] == rs[1..] + [g];
      TallyAppend(rs[1..], g, sel);
    }
  }

  /** requirePool */
  function RequirePool(pools: seq<PoolRow>, poolId: Id): (r: Result<()>)
    ensures r.Ok? <==> PoolIdTaken(pools, poolId)
    ensures r.Err? ==> r.code == "pool_not_found"
  {
    if FindPool(pools, poolId).Some? then Ok(()) else Err("pool_not_found")
  }

  /**
   * getTotals: the number of the pool's results and the sum of their payouts;
   * both are 0 for a pool with no results.
   */
  function GetTotals(results: seq<GameResultRow>, poolId: Id): (t: Totals)
    ensures t.totalGamesFinalized == Count(results, InPool(poolId))
    ensures t.totalPayoutCents == Sum(results, InPool(poolId))
    ensures (forall i :: 0 <= i < |results| ==> results[i].poolId != poolId) ==>
      t.totalGamesFinalized == 0 && t.totalPayoutCents == 0
  {
    Totals(Count(results, InPool(poolId)), Sum(results, InPool(poolId)))
  }

  /** The pool's squares, in table order. */
  function PoolSquares(squares: seq<SquareRow>, poolId: Id): (r: seq<SquareRow>)
    ensures forall s :: multiset(r)[s] == if s.poolId == poolId then multiset(squares)[s] else 0
  {
    Collections.Filter(squares, (s: SquareRow) => s.poolId == poolId)
  }

  /** The pool's participants, in table order. */
  function PoolParticipants(participants: seq<ParticipantRow>, poolId: Id): (r: seq<ParticipantRow>)
    ensures forall p :: multiset(r)[p] == if p.poolId == poolId then multiset(participants)[p] else 0
  {
    Collections.Filter(participants, (p: ParticipantRow) => p.poolId == poolId)
  }

  /** `order by s.row_index asc, s.col_index asc` */
  predicate RowColBefore(a: SquareRow, b: SquareRow) {
    a.rowIndex < b.rowIndex || (a.rowIndex == b.rowIndex && a.colIndex <= b.colIndex)
  }

  /** The pool's squares, each exactly as often as in the table, ordered by row then column. */
  function OrderedSquares(squares: seq<SquareRow>, poolId: Id): (o: seq<SquareRow>)
    ensures forall s :: multiset(o)[s] == if s.poolId == poolId then multiset(squares)[s] else 0
    ensures forall i, j :: 0 <= i < j < |o| ==> RowColBefore(o[i], o[j])
  {
    assert Collections.TotalPreorder(RowColBefore);
    Collections.Sort(PoolSquares(squares, poolId), RowColBefore)
  }

  /** One row of the square statistics: the square's hits among the pool's results and its owner's name. */
  function StatOf(participants: seq<ParticipantRow>, results: seq<GameResultRow>, poolId: Id, s: SquareRow): (st: SquareStat)
    ensures st.rowIndex == s.rowIndex && st.colIndex == s.colIndex
    ensures st.hitCount == Count(results, OnSquare(poolId, s.id))
    ensures st.totalPayoutCents == Sum(results, OnSquare(poolId, s.id))
    ensures st.ownerDisplayName == NonEmpty(OwnerName(participants, s.participantId))
  {
    SquareStat(s.rowIndex, s.colIndex, Count(results, OnSquare(poolId, s.id)), Sum(results, OnSquare(poolId, s.id)),
               NonEmpty(OwnerName(participants, s.participantId)))
  }

  /**
   * getSquareStats: fails for a missing pool; otherwise the pool totals and one row per
   * square of the pool, in row-then-column order.
   */
  function GetSquareStats(pools: seq<PoolRow>, squares: seq<SquareRow>, participants: seq<ParticipantRow>,
                          results: seq<GameResultRow>, poolId: Id): (r: Result<SquareStats>)
    ensures r.Err? <==> !PoolIdTaken(pools, poolId)
    ensures r.Err? ==> r.code == "pool_not_found"
    ensures r.Ok? ==> r.value.totals == GetTotals(results, poolId)
    ensures r.Ok? ==>
      var o := OrderedSquares(squares, poolId);
      |r.value.squares| == |o| && forall i :: 0 <= i < |o| ==> r.value.squares[i] == StatOf(participants, results, poolId, o[i])
  {
    var req := RequirePool(pools, poolId);
    if req.Err? then Err(req.code)
    else
      var o := OrderedSquares(squares, poolId);
      Ok(SquareStats(GetTotals(results, poolId),
                     seq(|o|, i requires 0 <= i < |o| => StatOf(participants, results, poolId, o[i]))))
  }

  /**
   * Settling a game on square `s` adds one hit and that payout to `s`'s row and to the
   * pool totals, and leaves every other square of the pool as it was.
   */
  lemma RecordedHitCountsOnce(participants: seq<ParticipantRow>, results: seq<GameResultRow>, poolId: Id,
                              g: GameResultRow, s: SquareRow, other: SquareRow)
    requires g.poolId == poolId && g.winningSquareId == s.id && other.id != s.id
    ensures StatOf(participants, results + [g], poolId, s).hitCount == StatOf(participants, results, poolId, s).hitCount + 1
    ensures StatOf(participants, results + [g], poolId, s).totalPayoutCents
         == StatOf(participants, results, poolId, s).totalPayoutCents + g.payoutAmountCents
    ensures StatOf(participants, results + [g], poolId, other) == StatOf(participants, results, poolId, other)
    ensures GetTotals(results + [g], poolId).totalGamesFinalized == GetTotals(results, poolId).totalGamesFinalized + 1
    ensures GetTotals(results + [g], poolId).totalPayoutCents == GetTotals(results, poolId).totalPayoutCents + g.payoutAmountCents
  {
    TallyAppend(results, g, OnSquare(poolId, s.id));
    TallyAppend(results, g, OnSquare(poolId, other.id));
    TallyAppend(results, g, InPool(poolId));
  }

  /** One leaderboard row: the participant's wins and winnings among the pool's results. */
  function LeaderRowOf(results: seq<GameResultRow>, poolId: Id, p: ParticipantRow): (row: LeaderRow)
    ensures row.participantId == p.id && row.displayName == p.displayName
    ensures row.winsCount == Count(results, WonBy(poolId, p.id))
    ensures row.totalPayoutCents == Sum(results, WonBy(poolId, p.id))
  {
    LeaderRow(p.id, p.displayName, Count(results, WonBy(poolId, p.id)), Sum(results, WonBy(poolId, p.id)))
  }

  /** `order by total_payout_cents desc, wins_count desc, p.display_name asc` */
  predicate LeaderBefore(a: LeaderRow, b: LeaderRow) {
    a.totalPayoutCents > b.totalPayoutCents
    || (a.totalPayoutCents == b.totalPayoutCents
        && (a.winsCount > b.winsCount
            || (a.winsCount == b.winsCount && Collections.Compare(a.displayName, b.displayName) <= 0)))
  }

  /** The leaderboard order compares every pair of rows and is transitive. */
  lemma LeaderOrderIsTotal()
    ensures Collections.TotalPreorder(LeaderBefore)
  {
    forall a: LeaderRow, b: LeaderRow ensures LeaderBefore(a, b) || LeaderBefore(b, a) {
      Collections.CompareFlip(a.displayName, b.displayName);
    }
    forall a: LeaderRow, b: LeaderRow, c: LeaderRow | LeaderBefore(a, b) && LeaderBefore(b, c)
      ensures LeaderBefore(a, c)
    {
      if a.totalPayoutCents == b.totalPayoutCents == c.totalPayoutCents && a.winsCount == b.winsCount == c.winsCount {
        Collections.CompareTransitive(a.displayName, b.displayName, c.displayName);
      }
    }
  }

  /** The leaderboard rows of the pool's participants before ordering. */
  function LeaderRows(results: seq<GameResultRow>, poolId: Id, ps: seq<ParticipantRow>): (rows: seq<LeaderRow>)
    ensures |rows| == |ps| && forall i :: 0 <= i < |ps| ==> rows[i] == LeaderRowOf(results, poolId, ps[i])
  {
    seq(|ps|, i requires 0 <= i < |ps| => LeaderRowOf(results, poolId, ps[i]))
  }

  /**
   * getParticipantLeaderboard: fails for a missing pool; otherwise the pool totals, the
   * number of its participants and one row per participant (winners or not), ordered
   * by payout, then wins, then name.
   */
  function GetParticipantLeaderboard(pools: seq<PoolRow>, participants: seq<ParticipantRow>,
                                     results: seq<GameResultRow>, poolId: Id): (r: Result<Leaderboard>)
    ensures r.Err? <==> !PoolIdTaken(pools, poolId)
    ensures r.Err? ==> r.code == "pool_not_found"
    ensures r.Ok? ==> r.value.totals == GetTotals(results, poolId)
    ensures r.Ok? ==> r.value.totalParticipants == |PoolParticipants(participants, poolId)|
    ensures r.Ok? ==> multiset(r.value.leaderboard) == multiset(LeaderRows(results, poolId, PoolParticipants(participants, poolId)))
    ensures r.Ok? ==> forall i, j :: 0 <= i < j < |r.value.leaderboard| ==> LeaderBefore(r.value.leaderboard[i], r.value.leaderboard[j])
  {
    var req := RequirePool(pools, poolId);
    if req.Err? then Err(req.code)
    else
      var ps := PoolParticipants(participants, poolId);
      LeaderOrderIsTotal();
      Ok(Leaderboard(GetTotals(results, poolId), |ps|, Collections.Sort(LeaderRows(results, poolId, ps), LeaderBefore)))
  }

  /** Every participant of the pool appears on the leaderboard, with zero wins when it won nothing. */
  lemma EveryParticipantRanked(pools: seq<PoolRow>, participants: seq<ParticipantRow>,
                               results: seq<GameResultRow>, poolId: Id, p: ParticipantRow)
    requires PoolIdTaken(pools, poolId) && p in participants && p.poolId == poolId
    ensures LeaderRowOf(results, poolId, p) in GetParticipantLeaderboard(pools, participants, results, poolId).value.leaderboard
    ensures (forall i :: 0 <= i < |results| ==> results[i].winningParticipantId != Some(p.id)) ==>
      LeaderRowOf(results, poolId, p).winsCount == 0 && LeaderRowOf(results, poolId, p).totalPayoutCents == 0
  {
    var ps := PoolParticipants(participants, poolId);
    var i := PoolParticipantIndex(participants, poolId, p);
    var board := GetParticipantLeaderboard(pools, participants, results, poolId);
    RowIsListed(board.value.leaderboard, LeaderRows(results, poolId, ps), i);
    if forall k :: 0 <= k < |results| ==> results[k].winningParticipantId != Some(p.id) {
      assert forall k :: 0 <= k < |results| ==> !Selects(WonBy(poolId, p.id), results[k]);
    }
  }

  /** A participant of the pool has a place among the pool's participants. */
  lemma PoolParticipantIndex(participants: seq<ParticipantRow>, poolId: Id, p: ParticipantRow) returns (i: nat)
    requires p in participants && p.poolId == poolId
    ensures i < |PoolParticipants(participants, poolId)| && PoolParticipants(participants, poolId)[i] == p
  {
    var ps := PoolParticipants(participants, poolId);
    assert multiset(ps)[p] > 0;
    assert p in ps;
    i :| 0 <= i < |ps| && ps[i] == p;
  }

  /** A listing with the same rows as `rows` lists each of them. */
  lemma RowIsListed(listing: seq<LeaderRow>, rows: seq<LeaderRow>, i: nat)
    requires multiset(listing) == multiset(rows) && i < |rows|
    ensures rows[i] in listing
  {
    assert rows[i] in multiset(rows);
  }

  /** A win on an unowned square is credited to nobody: every leaderboard row stays as it was. */
  lemma UnownedWinCreditsNoOne(results: seq<GameResultRow>, poolId: Id, g: GameResultRow, p: ParticipantRow)
    requires g.winningParticipantId.None?
    ensures LeaderRowOf(results + [g], poolId, p) == LeaderRowOf(results, poolId, p)
  {
    TallyAppend(results, g, WonBy(poolId, p.id));
  }
}
