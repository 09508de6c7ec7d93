/**
 * Settlement of a game: finalizeGame checks the pool, the game, its scores and the
 * digit map in a fixed order, resolves the winning square from the last digits of
 * the two scores, prices the win with the latest payout version of the game's round
 * and records one game_results row per (pool, game).
 */
module Results {
  import opened Wrappers
  import opened Store
  import Js
  import Digits
  import Payouts
  import Games
  import PoolLock

  /** The game status that allows settlement. */
  const FINAL := "final"

  /** The tables finalizeGame reads, as they stand when it starts. */
  datatype Tables = Tables(
    pools: seq<PoolRow>, games: seq<GameRow>, digitMaps: map<Id, DigitMapRow>,
    squares: seq<SquareRow>, payoutConfigs: seq<PayoutRow>, results: seq<GameResultRow>)

  function TablesOf(db: Db): Tables
    reads db
  {
    Tables(db.pools, db.games, db.digitMaps, db.squares, db.payoutConfigs, db.results)
  }

  predicate IsResultOf(g: GameResultRow, poolId: Id, gameId: Id) {
    g.poolId == poolId && g.gameId == gameId
  }

  /** getExistingResult: the first game_results row of (pool, game), or none. */
  function GetExistingResult(results: seq<GameResultRow>, poolId: Id, gameId: Id): (r: Option<GameResultRow>)
    ensures r.None? <==> forall i :: 0 <= i < |results| ==> !IsResultOf(results[i], poolId, gameId)
    ensures r.Some? ==> r.value in results && IsResultOf(r.value, poolId, gameId)
  {
    if results == [] then None
    else if IsResultOf(results[0], poolId, gameId) then Some(results[0])
    else GetExistingResult(results[1..], poolId, gameId)
  }

  /** Adding a row behind the existing ones does not change which row is found first, if one was. */
  lemma {:induction false} ExistingResultSurvivesAppend(results: seq<GameResultRow>, row: GameResultRow, poolId: Id, gameId: Id)
    ensures GetExistingResult(results + [row], poolId, gameId) ==
      if GetExistingResult(results, poolId, gameId).Some? then GetExistingResult(results, poolId, gameId)
      else if IsResultOf(row, poolId, gameId) then Some(row)
      else None
  {
    if results != [] {
      assert (results + [row])[1..] == results[1..] + [row];
      ExistingResultSurvivesAppend(results[1..], row, poolId, gameId);
    }
  }

  // ---------------------------------------------------------------------------
  // From the scores to a cell of the grid
  // ---------------------------------------------------------------------------

  /** `n % 10` in JavaScript: the remainder truncates toward zero, so it takes the sign of `n`. */
  function JsRemainder10(n: int): (r: int)
    ensures -10 < r < 10
    ensures (n - r) % 10 == 0
    ensures n >= 0 ==> r >= 0
    ensures n <= 0 ==> r <= 0
  {
    if n >= 0 then n % 10 else -((-n) % 10)
  }

  /** The winning and losing digits and the cell they select. */
  datatype Cell = Cell(winDigit: int, loseDigit: int, rowIndex: int, colIndex: int)

  /** The score of the team that won, and of the team that lost. */
  function WinnerScore(scoreA: int, scoreB: int): int {
    if scoreA > scoreB then scoreA else scoreB
  }

  function LoserScore(scoreA: int, scoreB: int): int {
    if scoreA > scoreB then scoreB else scoreA
  }

  /**
   * The digit arithmetic of finalizeGame: the row is where the winner's last digit
   * first occurs in winning_digits and the column where the loser's last digit first
   * occurs in losing_digits; `invalid_digit_map` when either digit is absent.
   */
  function ResolveCell(scoreA: int, scoreB: int, winningDigits: seq<int>, losingDigits: seq<int>): (r: Result<Cell>)
    ensures var w := JsRemainder10(WinnerScore(scoreA, scoreB));
      var l := JsRemainder10(LoserScore(scoreA, scoreB));
      && (r.Err? <==> w !in winningDigits || l !in losingDigits)
      && (r.Err? ==> r.code == "invalid_digit_map")
      && (r.Ok? ==> r.value.winDigit == w && r.value.loseDigit == l)
      && (r.Ok? ==> 0 <= r.value.rowIndex < |winningDigits| && winningDigits[r.value.rowIndex] == w
                    && w !in winningDigits[..r.value.rowIndex])
      && (r.Ok? ==> 0 <= r.value.colIndex < |losingDigits| && losingDigits[r.value.colIndex] == l
                    && l !in losingDigits[..r.value.colIndex])
  {
    var winDigit := JsRemainder10(WinnerScore(scoreA, scoreB));
    var loseDigit := JsRemainder10(LoserScore(scoreA, scoreB));
    var rowIndex := Js.IndexOf(winningDigits, winDigit);
    var colIndex := Js.IndexOf(losingDigits, loseDigit);
    if rowIndex < 0 || colIndex < 0 then Err("invalid_digit_map")
    else Ok(Cell(winDigit, loseDigit, rowIndex, colIndex))
  }

  /**
   * With two permutations of the digits and scores that are not negative (parseScore
   * admits no other), every score pair selects a cell of the 10x10 grid, whose row and
   * column hold the last digits of the winner's and the loser's scores.
   */
  lemma PermutationsResolveEveryScore(scoreA: int, scoreB: int, winningDigits: seq<int>, losingDigits: seq<int>)
    requires scoreA >= 0 && scoreB >= 0
    requires Digits.IsDigitPermutation(winningDigits) && Digits.IsDigitPermutation(losingDigits)
    ensures var r := ResolveCell(scoreA, scoreB, winningDigits, losingDigits);
      && r.Ok?
      && 0 <= r.value.rowIndex < 10 && 0 <= r.value.colIndex < 10
      && winningDigits[r.value.rowIndex] == WinnerScore(scoreA, scoreB) % 10
      && losingDigits[r.value.colIndex] == LoserScore(scoreA, scoreB) % 10
  {
    var w := JsRemainder10(WinnerScore(scoreA, scoreB));
    var l := JsRemainder10(LoserScore(scoreA, scoreB));
    assert 0 <= w < 10 && w in winningDigits;
    assert 0 <= l < 10 && l in losingDigits;
  }

  /** 17-12 with winning digits 7,0,1,... and losing digits 0,2,1,...: digits 7 and 2, cell (0, 1). */
  lemma SeventeenTwelveSettlesAtRowZeroColumnOne()
    ensures ResolveCell(17, 12, [7, 0, 1, 2, 3, 4, 5, 6, 8, 9], [0, 2, 1, 3, 4, 5, 6, 7, 8, 9]) == Ok(Cell(7, 2, 0, 1))
  {
    var winning := [7, 0, 1, 2, 3, 4, 5, 6, 8, 9];
    var losing := [0, 2, 1, 3, 4, 5, 6, 7, 8, 9];
    assert Js.IndexOf(winning, 7) == 0;
    assert losing[1] == 2 && 2 !in losing[..1];
  }

  /**
   * A negative score whose last digit is not 0 has a negative remainder, which a
   * digit list of non-negative entries does not hold: the map is invalid.
   */
  lemma NegativeScoreIsAnInvalidDigitMap(scoreA: int, scoreB: int, winningDigits: seq<int>, losingDigits: seq<int>)
    requires (scoreA < 0 && scoreA % 10 != 0) || (scoreB < 0 && scoreB % 10 != 0)
    requires forall k :: 0 <= k < |winningDigits| ==> winningDigits[k] >= 0
    requires forall k :: 0 <= k < |losingDigits| ==> losingDigits[k] >= 0
    ensures ResolveCell(scoreA, scoreB, winningDigits, losingDigits) == Err("invalid_digit_map")
  {
    var n := if scoreA < 0 && scoreA % 10 != 0 then scoreA else scoreB;
    assert JsRemainder10(n) < 0;
    var w := JsRemainder10(WinnerScore(scoreA, scoreB));
    var l := JsRemainder10(LoserScore(scoreA, scoreB));
    if n == LoserScore(scoreA, scoreB) {
      assert l !in losingDigits;
    } else {
      assert n == WinnerScore(scoreA, scoreB);
      assert w !in winningDigits;
    }
  }

  /**
   * A negative multiple of 10 leaves remainder -0, which `indexOf` finds as 0: against a
   * non-negative score it settles exactly as a score of 0 would, whichever team it is.
   */
  lemma NegativeMultipleOfTenReadsAsZero(other: int, n: int, winningDigits: seq<int>, losingDigits: seq<int>)
    requires other >= 0 && n < 0 && n % 10 == 0
    ensures ResolveCell(other, n, winningDigits, losingDigits) == ResolveCell(other, 0, winningDigits, losingDigits)
    ensures ResolveCell(n, other, winningDigits, losingDigits) == ResolveCell(0, other, winningDigits, losingDigits)
  {
    assert JsRemainder10(n) == 0;
  }

  // ---------------------------------------------------------------------------
  // The settlement chain
  // ---------------------------------------------------------------------------

  /** A payout_configs row of that pool and round. */
  predicate IsVersionOf(row: PayoutRow, poolId: Id, roundKey: string) {
    row.poolId == poolId && row.roundKey == roundKey
  }

  /**
   * `select amount_cents from payout_configs where pool_id = $1 and round_key = $2
   * order by effective_at desc limit 1`: the amount of the pool's newest version of
   * the round (the first such row on a tie), or none when the round has no row.
   */
  function LatestPayoutAmount(payoutConfigs: seq<PayoutRow>, poolId: Id, roundKey: string): (r: Option<int>)
    ensures r.None? <==> forall i :: 0 <= i < |payoutConfigs| ==> !IsVersionOf(payoutConfigs[i], poolId, roundKey)
    ensures r.Some? ==>
      exists i :: 0 <= i < |payoutConfigs| && IsVersionOf(payoutConfigs[i], poolId, roundKey)
        && payoutConfigs[i].amountCents == r.value
        && (forall j :: 0 <= j < |payoutConfigs| && IsVersionOf(payoutConfigs[j], poolId, roundKey)
             ==> !Payouts.SqlNewer(payoutConfigs[j], payoutConfigs[i]))
  {
    var rows := Payouts.PoolPayouts(payoutConfigs, poolId);
    var k := Payouts.LatestIndex(rows, roundKey, Payouts.SqlNewer);
    Payouts.NewerOrdersAreStrictWeak();
    Payouts.LatestIndexIsNewest(rows, roundKey, Payouts.SqlNewer);
    if k == -1 then
      assert forall i :: 0 <= i < |payoutConfigs| && payoutConfigs[i].poolId == poolId ==> payoutConfigs[i] in rows;
      None
    else
      assert rows[k] in payoutConfigs;
      assert forall i :: 0 <= i < |payoutConfigs| && payoutConfigs[i].poolId == poolId ==> payoutConfigs[i] in rows;
      Some(rows[k].amountCents)
  }

  /** What the check chain settles, before the insert assigns an id and finalized_at. */
  datatype Settlement = Settlement(cell: Cell, winningSquareId: Id, winningParticipantId: Option<Id>, payoutAmountCents: int)

  /**
   * The checks of finalizeGameWithClient after the existing-result lookup, each with
   * its error code, in the order of the code: the pool and its lock come before the
   * game is read.
   */
  function Settle(t: Tables, poolId: Id, gameId: Id): (r: Result<Settlement>)
  {
    var pool := FindPool(t.pools, poolId);
    if pool.None? then Err("pool_not_found")
    else if pool.value.status != PoolLock.LOCKED then Err("pool_not_locked")
    else
      var gi := Games.FindGame(t.games, poolId, gameId);
      if gi == -1 then Err("game_not_found")
      else
        var game := t.games[gi];
        if game.status != FINAL then Err("game_not_final")
        else if game.scoreA.None? || game.scoreB.None? then Err("scores_missing")
        else if game.scoreA.value == game.scoreB.value then Err("tie_score")
        else
          var digitMap := Digits.GetDigitMap(t.digitMaps, poolId);
          if digitMap.None? then Err("digit_map_missing")
          else if !Digits.IsDigitsVisible(digitMap) then Err("digits_not_visible")
          else
            var cell := ResolveCell(game.scoreA.value, game.scoreB.value, digitMap.value.winningDigits, digitMap.value.losingDigits);
            if cell.Err? then Err(cell.code)
            else
              var si := FindSquareAt(t.squares, poolId, cell.value.rowIndex, cell.value.colIndex);
              if si == -1 then Err("square_not_found")
              else
                var payout := LatestPayoutAmount(t.payoutConfigs, poolId, game.roundKey);
                if payout.None? then Err("payouts_missing")
                else Ok(Settlement(cell.value, t.squares[si].id, NonEmpty(t.squares[si].participantId), payout.value))
  }

  /** The row the insert writes; finalized_at defaults to the time of the insert. */
  function ResultRow(id: Id, poolId: Id, gameId: Id, s: Settlement, now: Time): GameResultRow {
    GameResultRow(id, poolId, gameId, s.cell.winDigit, s.cell.loseDigit, s.winningSquareId,
                  s.winningParticipantId, s.payoutAmountCents, now)
  }

  /**
   * `insert ... on conflict (pool_id, game_id) do nothing returning ...`: no row back
   * when (pool, game) already has a result; a repeated id violates the primary key.
   */
  function InsertOrIgnore(results: seq<GameResultRow>, row: GameResultRow): (r: Result<Option<GameResultRow>>)
    ensures r == Ok(None) <==> GetExistingResult(results, row.poolId, row.gameId).Some?
    ensures r.Err? <==> GetExistingResult(results, row.poolId, row.gameId).None? && ResultIdTaken(results, row.id)
    ensures r.Err? ==> r.code == UNIQUE_VIOLATION
    ensures r.Ok? && r.value.Some? ==> r.value.value == row
  {
    if GetExistingResult(results, row.poolId, row.gameId).Some? then Ok(None)
    else if ResultIdTaken(results, row.id) then Err(UNIQUE_VIOLATION)
    else Ok(Some(row))
  }

  /** What a finalisation returns and the game_results table it leaves. */
  datatype Outcome = Outcome(result: Result<GameResultRow>, results: seq<GameResultRow>)

  /**
   * finalizeGameWithClient as a function of the tables it reads: an existing result is
   * returned as it is, a failed check or insert writes nothing, and otherwise the new
   * row is appended. It never reports `finalize_failed`: run alone, the insert cannot
   * meet a (pool, game) conflict that the first lookup did not see.
   */
  function Finalize(t: Tables, poolId: Id, gameId: Id, id: Id, now: Time): (f: Outcome)
    ensures f.result.Err? ==> f.results == t.results
    ensures f.result.Err? ==> f.result.code != "finalize_failed"
    ensures GetExistingResult(t.results, poolId, gameId).Some? ==>
      f == Outcome(Ok(GetExistingResult(t.results, poolId, gameId).value), t.results)
    ensures f.result.Ok? ==> IsResultOf(f.result.value, poolId, gameId) && f.result.value in f.results
    ensures f.results == t.results || f.results == t.results + [f.result.value]
    ensures f.results != t.results ==>
      && f.result.value.id == id && f.result.value.finalizedAt == now
      && GetExistingResult(t.results, poolId, gameId).None? && !ResultIdTaken(t.results, id)
  {
    var existing := GetExistingResult(t.results, poolId, gameId);
    if existing.Some? then Outcome(Ok(existing.value), t.results)
    else
      var s := Settle(t, poolId, gameId);
      if s.Err? then Outcome(Err(s.code), t.results)
      else
        var row := ResultRow(id, poolId, gameId, s.value, now);
        var inserted := InsertOrIgnore(t.results, row);
        if inserted.Err? then Outcome(Err(inserted.code), t.results)
        else if inserted.value.Some? then Outcome(Ok(row), t.results + [row])
        else
          match GetExistingResult(t.results, poolId, gameId)
          case None => Outcome(Err("finalize_failed"), t.results)
          case Some(afterConflict) => Outcome(Ok(afterConflict), t.results)
  }

  /**
   * finalizeGameWithClient: the early-exit checks, then the insert-or-ignore and, when
   * the insert returns nothing, a second lookup.
   */
  method FinalizeGameWithClient(db: Db, poolId: Id, gameId: Id, id: Id, now: Time) returns (r: Result<GameResultRow>)
    modifies db`results
    ensures r == Finalize(old(TablesOf(db)), poolId, gameId, id, now).result
    ensures db.results == Finalize(old(TablesOf(db)), poolId, gameId, id, now).results
  {
    var results := db.results;
    var existing := GetExistingResult(results, poolId, gameId);
    if existing.Some? {
      return Ok(existing.value);
    }
    var pool := FindPool(db.pools, poolId);
    if pool.None? {
      return Err("pool_not_found");
    }
    if pool.value.status != PoolLock.LOCKED {
      return Err("pool_not_locked");
    }
    var gi := Games.FindGame(db.games, poolId, gameId);
    if gi == -1 {
      return Err("game_not_found");
    }
    var game := db.games[gi];
    if game.status != FINAL {
      return Err("game_not_final");
    }
    if game.scoreA.None? || game.scoreB.None? {
      return Err("scores_missing");
    }
    if game.scoreA.value == game.scoreB.value {
      return Err("tie_score");
    }
    var digitMap := Digits.GetDigitMap(db.digitMaps, poolId);
    if digitMap.None? {
      return Err("digit_map_missing");
    }
    if !Digits.IsDigitsVisible(digitMap) {
      return Err("digits_not_visible");
    }
    var cell := ResolveCell(game.scoreA.value, game.scoreB.value, digitMap.value.winningDigits, digitMap.value.losingDigits);
    if cell.Err? {
      return Err(cell.code);
    }
    var si := FindSquareAt(db.squares, poolId, cell.value.rowIndex, cell.value.colIndex);
    if si == -1 {
      return Err("square_not_found");
    }
    var winningSquareId := db.squares[si].id;
    var winningParticipantId := NonEmpty(db.squares[si].participantId);
    var payout := LatestPayoutAmount(db.payoutConfigs, poolId, game.roundKey);
    if payout.None? {
      return Err("payouts_missing");
    }
    var row := ResultRow(id, poolId, gameId, Settlement(cell.value, winningSquareId, winningParticipantId, payout.value), now);
    var inserted := InsertOrIgnore(results, row);
    if inserted.Err? {
      return Err(inserted.code);
    }
    if inserted.value.Some? {
      db.results := results + [inserted.value.value];
      return Ok(inserted.value.value);
    }
    match GetExistingResult(results, poolId, gameId) {
      case None => return Err("finalize_failed");
      case Some(afterConflict) => return Ok(afterConflict);
    }
  }

  /**
   * finalizeGame: the settlement inside `begin` ... `commit`; on an error the
   * transaction rolls back, so game_results is as it was.
   */
  method FinalizeGame(db: Db, poolId: Id, gameId: Id, id: Id, now: Time) returns (r: Result<GameResultRow>)
    modifies db`results
    ensures r == Finalize(old(TablesOf(db)), poolId, gameId, id, now).result
    ensures db.results == Finalize(old(TablesOf(db)), poolId, gameId, id, now).results
    ensures r.Err? ==> db.results == old(db.results)
  {
    var snapshot := db.results;
    r := FinalizeGameWithClient(db, poolId, gameId, id, now);
    if r.Err? {
      db.results := snapshot;
    }
  }

  // ---------------------------------------------------------------------------
  // Properties of a settlement
  // ---------------------------------------------------------------------------

  /**
   * The error codes in the order the checks run. Each line assumes the checks before
   * it passed; the lock is decided before the game is looked up at all.
   */
  lemma FailuresInOrder(t: Tables, poolId: Id, gameId: Id, id: Id, now: Time)
    requires GetExistingResult(t.results, poolId, gameId).None?
    ensures var r := Finalize(t, poolId, gameId, id, now).result;
      var pool := FindPool(t.pools, poolId);
      var gi := Games.FindGame(t.games, poolId, gameId);
      var m := Digits.GetDigitMap(t.digitMaps, poolId);
      && (pool.None? ==> r == Err("pool_not_found"))
      && (pool.Some? && pool.value.status != PoolLock.LOCKED ==> r == Err("pool_not_locked"))
      && (pool.Some? && pool.value.status == PoolLock.LOCKED ==>
          && (gi == -1 ==> r == Err("game_not_found"))
          && (gi >= 0 && t.games[gi].status != FINAL ==> r == Err("game_not_final"))
          && (gi >= 0 && t.games[gi].status == FINAL ==>
              && (t.games[gi].scoreA.None? || t.games[gi].scoreB.None? ==> r == Err("scores_missing"))
              && (t.games[gi].scoreA.Some? && t.games[gi].scoreB.Some? ==>
                  && (t.games[gi].scoreA.value == t.games[gi].scoreB.value ==> r == Err("tie_score"))
                  && (t.games[gi].scoreA.value != t.games[gi].scoreB.value ==>
                      && (m.None? ==> r == Err("digit_map_missing"))
                      && (m.Some? && m.value.revealedAt.None? && m.value.lockedAt.None? ==> r == Err("digits_not_visible"))
                      && (m.Some? && (m.value.revealedAt.Some? || m.value.lockedAt.Some?) ==>
                          var game := t.games[gi];
                          var cell := ResolveCell(game.scoreA.value, game.scoreB.value, m.value.winningDigits, m.value.losingDigits);
                          && (cell.Err? ==> r == Err("invalid_digit_map"))
                          && (cell.Ok? ==>
                              var si := FindSquareAt(t.squares, poolId, cell.value.rowIndex, cell.value.colIndex);
                              && (si == -1 ==> r == Err("square_not_found"))
                              && (si >= 0 && LatestPayoutAmount(t.payoutConfigs, poolId, game.roundKey).None? ==>
                                  r == Err("payouts_missing"))))))))
  {
  }

  /**
   * A new result records exactly what the rules say: the winner's and loser's last
   * digits, the square of the pool at the cell where those digits first occur, that
   * square's current owner (none when unowned), and the amount of the newest payout
   * version of the game's round.
   */
  lemma SettledRowIsAsDescribed(t: Tables, poolId: Id, gameId: Id, id: Id, now: Time)
    requires GetExistingResult(t.results, poolId, gameId).None?
    requires Finalize(t, poolId, gameId, id, now).result.Ok?
    ensures var g := Finalize(t, poolId, gameId, id, now).result.value;
      var game := t.games[Games.FindGame(t.games, poolId, gameId)];
      var m := t.digitMaps[poolId];
      && FindPool(t.pools, poolId).Some? && FindPool(t.pools, poolId).value.status == PoolLock.LOCKED
      && Games.FindGame(t.games, poolId, gameId) >= 0
      && game.status == FINAL && game.scoreA.Some? && game.scoreB.Some? && game.scoreA.value != game.scoreB.value
      && poolId in t.digitMaps && (m.revealedAt.Some? || m.lockedAt.Some?)
      && g == ResultRow(id, poolId, gameId, Settle(t, poolId, gameId).value, now)
      && g.winDigit == JsRemainder10(WinnerScore(game.scoreA.value, game.scoreB.value))
      && g.loseDigit == JsRemainder10(LoserScore(game.scoreA.value, game.scoreB.value))
      && (exists k :: 0 <= k < |t.squares| && t.squares[k].id == g.winningSquareId
           && t.squares[k].poolId == poolId
           && 0 <= t.squares[k].rowIndex < |m.winningDigits| && m.winningDigits[t.squares[k].rowIndex] == g.winDigit
           && 0 <= t.squares[k].colIndex < |m.losingDigits| && m.losingDigits[t.squares[k].colIndex] == g.loseDigit
           && g.winningParticipantId == NonEmpty(t.squares[k].participantId))
      && LatestPayoutAmount(t.payoutConfigs, poolId, game.roundKey) == Some(g.payoutAmountCents)
  {
    var s := Settle(t, poolId, gameId);
    assert s.Ok?;
    var game := t.games[Games.FindGame(t.games, poolId, gameId)];
    var m := t.digitMaps[poolId];
    var cell := ResolveCell(game.scoreA.value, game.scoreB.value, m.winningDigits, m.losingDigits);
    var k := FindSquareAt(t.squares, poolId, cell.value.rowIndex, cell.value.colIndex);
    assert t.squares[k].id == s.value.winningSquareId;
  }

  /**
   * When the digit map holds two permutations and the game's scores are not negative,
   * settlement never fails with `invalid_digit_map`.
   */
  lemma ValidMapsNeverInvalid(t: Tables, poolId: Id, gameId: Id, id: Id, now: Time)
    requires poolId in t.digitMaps
    requires Digits.IsDigitPermutation(t.digitMaps[poolId].winningDigits)
    requires Digits.IsDigitPermutation(t.digitMaps[poolId].losingDigits)
    requires forall i :: 0 <= i < |t.games| ==> t.games[i].scoreA.GetOr(0) >= 0 && t.games[i].scoreB.GetOr(0) >= 0
    ensures Finalize(t, poolId, gameId, id, now).result != Err("invalid_digit_map")
  {
    var gi := Games.FindGame(t.games, poolId, gameId);
    if gi >= 0 && t.games[gi].scoreA.Some? && t.games[gi].scoreB.Some? {
      var m := t.digitMaps[poolId];
      PermutationsResolveEveryScore(t.games[gi].scoreA.value, t.games[gi].scoreB.value, m.winningDigits, m.losingDigits);
    }
  }

  /**
   * Finalizing again returns the same row and writes nothing, whatever id and time the
   * second call would have used.
   */
  lemma FinalizeIsIdempotent(t: Tables, poolId: Id, gameId: Id, id: Id, now: Time, id2: Id, now2: Time)
    requires Finalize(t, poolId, gameId, id, now).result.Ok?
    ensures var f := Finalize(t, poolId, gameId, id, now);
      Finalize(t.(results := f.results), poolId, gameId, id2, now2) == f
  {
    var f := Finalize(t, poolId, gameId, id, now);
    if f.results != t.results {
      ExistingResultSurvivesAppend(t.results, f.result.value, poolId, gameId);
    }
  }

  /** game_results holds at most one row for each (pool, game). */
  predicate OneResultPerGame(results: seq<GameResultRow>) {
    forall i, j :: 0 <= i < j < |results| ==> !IsResultOf(results[j], results[i].poolId, results[i].gameId)
  }

  /**
   * Settlement keeps one result per (pool, game), and after a success the returned
   * row is the only result of that game.
   */
  lemma ExactlyOneResultPerGame(t: Tables, poolId: Id, gameId: Id, id: Id, now: Time)
    requires OneResultPerGame(t.results)
    ensures var f := Finalize(t, poolId, gameId, id, now);
      && OneResultPerGame(f.results)
      && (f.result.Ok? ==> forall i :: 0 <= i < |f.results| && IsResultOf(f.results[i], poolId, gameId) ==> f.results[i] == f.result.value)
  {
    var f := Finalize(t, poolId, gameId, id, now);
    if f.result.Ok? {
      if f.results == t.results {
        var e := f.result.value;
        forall i | 0 <= i < |f.results| && IsResultOf(f.results[i], poolId, gameId) ensures f.results[i] == e {
          var k :| 0 <= k < |t.results| && t.results[k] == e;
          assert !(k < i) && !(i < k);
        }
      }
    }
  }
}
