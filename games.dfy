/** Games of a pool: key and status checks, score parsing, and create/update/delete. */
module Games {
  import opened Wrappers
  import opened Store
  import opened Sql
  import Js
  import Collections
  import Payouts

  /** `GAME_ROUND_KEYS` */
  const GAME_ROUND_KEYS: seq<string> := ["round_of_64", "round_of_32", "sweet_16", "elite_8", "final_4", "championship"]

  /** `GAME_STATUSES` */
  const GAME_STATUSES: seq<string> := ["scheduled", "in_progress", "final"]

  /** isValidRoundKey */
  predicate IsValidRoundKey(roundKey: string) {
    roundKey in GAME_ROUND_KEYS
  }

  /** isValidStatus */
  predicate IsValidStatus(status: string) {
    status in GAME_STATUSES
  }

  /**
   * Exactly the six bracket rounds are game round keys, and they are the payout
   * round keys, so every valid game round has a payout version to look up.
   */
  lemma RoundKeysAreTheSix(roundKey: string)
    ensures IsValidRoundKey(roundKey) <==>
      roundKey == "round_of_64" || roundKey == "round_of_32" || roundKey == "sweet_16"
      || roundKey == "elite_8" || roundKey == "final_4" || roundKey == "championship"
    ensures IsValidRoundKey(roundKey) <==> roundKey in Payouts.ROUND_KEYS
  {
  }

  /** Exactly scheduled, in_progress and final are statuses. */
  lemma StatusesAreTheThree(status: string)
    ensures IsValidStatus(status) <==> status == "scheduled" || status == "in_progress" || status == "final"
  {
  }

  /** `value === null || value === undefined || value === ''` */
  predicate IsBlankScore(value: Js.Value) {
    value.Null? || value.Undefined? || value == Js.Str("")
  }

  /**
   * parseScore: null, undefined and '' give null; otherwise `Number(value)` must be a
   * non-negative integer (`invalid_score` if not), which is returned.
   */
  function ParseScore(value: Js.Value, parse: string -> Js.Number): (r: Result<Option<int>>)
    ensures r == Ok(None) <==> IsBlankScore(value)
    ensures r.Err? <==> !IsBlankScore(value) && (!Js.IsInteger(Js.ToNumber(value, parse)) || Js.ToNumber(value, parse).r < 0.0)
    ensures r.Err? ==> r.code == "invalid_score"
    ensures r.Ok? && r.value.Some? ==> r.value.value >= 0 && Js.ToNumber(value, parse) == Js.Finite(r.value.value as real)
  {
    if IsBlankScore(value) then Ok(None)
    else
      var parsed := Js.ToNumber(value, parse);
      if !Js.IsInteger(parsed) || parsed.r < 0.0 then Err("invalid_score")
      else Ok(Some(Js.IntOf(parsed)))
  }

  /** A score sent as a non-negative integer parses back to itself; a negative one is refused. */
  lemma ParseScoreOfInteger(k: int, parse: string -> Js.Number)
    ensures k >= 0 ==> ParseScore(Js.Num(Js.Finite(k as real)), parse) == Ok(Some(k))
    ensures k < 0 ==> ParseScore(Js.Num(Js.Finite(k as real)), parse) == Err("invalid_score")
  {
  }

  // ---------------------------------------------------------------------------
  // createGame / deleteGame
  // ---------------------------------------------------------------------------

  /** The `data` argument of createGame; a missing external id is `None`. */
  datatype NewGame = NewGame(
    roundKey: string, teamA: string, teamB: string, status: string,
    scoreA: Option<int>, scoreB: Option<int>, startTime: Option<Time>, externalId: Option<string>)

  /** createGame: one new row with a fresh id; updated_at takes its column default, the insert time. */
  method CreateGame(db: Db, poolId: Id, data: NewGame, id: Id, now: Time) returns (r: Result<GameRow>)
    modifies db`games
    ensures GameIdTaken(old(db.games), id) ==> r == Err(UNIQUE_VIOLATION) && db.games == old(db.games)
    ensures !GameIdTaken(old(db.games), id) ==>
      && r == Ok(GameRow(id, poolId, data.roundKey, data.teamA, data.teamB, data.scoreA, data.scoreB,
                         data.status, data.startTime, data.externalId, now))
      && db.games == old(db.games) + [r.value]
  {
    if GameIdTaken(db.games, id) {
      return Err(UNIQUE_VIOLATION);
    }
    var row := GameRow(id, poolId, data.roundKey, data.teamA, data.teamB, data.scoreA, data.scoreB,
                       data.status, data.startTime, data.externalId, now);
    db.games := db.games + [row];
    r := Ok(row);
  }

  predicate IsGame(g: GameRow, poolId: Id, gameId: Id) {
    g.id == gameId && g.poolId == poolId
  }

  /** deleteGame: `delete from games where id = $1 and pool_id = $2`. */
  method DeleteGame(db: Db, poolId: Id, gameId: Id)
    modifies db`games
    ensures db.games == Collections.Filter(old(db.games), (g: GameRow) => !IsGame(g, poolId, gameId))
  {
    db.games := Collections.Filter(db.games, (g: GameRow) => !IsGame(g, poolId, gameId));
  }

  /** Deleting removes that game of that pool and keeps every other game. */
  lemma DeleteRemovesOnlyThatGame(games: seq<GameRow>, poolId: Id, gameId: Id)
    ensures var kept := Collections.Filter(games, (g: GameRow) => !IsGame(g, poolId, gameId));
      && (forall i :: 0 <= i < |kept| ==> !IsGame(kept[i], poolId, gameId))
      && (forall g :: g in games && !IsGame(g, poolId, gameId) ==> g in kept)
      && (forall g :: g in kept ==> g in games)
  {
  }

  // ---------------------------------------------------------------------------
  // updateGame
  // ---------------------------------------------------------------------------

  /**
   * The `updates` argument: the outer `None` is an absent (undefined) field; for the
   * nullable columns the inner `None` is an explicit null.
   */
  datatype GameUpdates = GameUpdates(
    roundKey: Option<string>, teamA: Option<string>, teamB: Option<string>,
    scoreA: Option<Option<int>>, scoreB: Option<Option<int>>, status: Option<string>,
    startTime: Option<Option<Time>>, externalId: Option<Option<string>>)

  /** `if (updates.round_key)` / `if (updates.status)`: present and not the empty string. */
  predicate TruthyText(v: Option<string>) {
    v.Some? && v.value != ""
  }

  /** The columns updateGame can set, in the order it considers them. */
  datatype Column = RoundKey | TeamA | TeamB | ScoreA | ScoreB | Status | StartTime | ExternalId | UpdatedAt

  /** The column's name in the set list. */
  function ColumnName(c: Column): string {
    match c
    case RoundKey => "round_key"
    case TeamA => "team_a"
    case TeamB => "team_b"
    case ScoreA => "score_a"
    case ScoreB => "score_b"
    case Status => "status"
    case StartTime => "start_time"
    case ExternalId => "external_id"
    case UpdatedAt => "updated_at"
  }

  /** One `column = $slot` item of the set list. */
  datatype Assignment = Assignment(column: Column, slot: nat)

  /** Placeholders numbered consecutively from $1, one parameter each. */
  predicate Numbered(fields: seq<Assignment>, params: seq<Param>) {
    |fields| == |params| && forall k :: 0 <= k < |fields| ==> fields[k].slot == k + 1
  }

  /** The parameter the first `column = $slot` item of the set list binds, if any. */
  function ValueOf(fields: seq<Assignment>, params: seq<Param>, column: Column): Option<Param> {
    if |fields| == 0 then None
    else if fields[0].column == column then Bind(params, fields[0].slot)
    else ValueOf(fields[1..], params, column)
  }

  /** Extra parameters after the numbered ones do not change what the set list binds. */
  lemma {:induction false} ValueOfIgnoresLaterParams(fields: seq<Assignment>, params: seq<Param>, extra: seq<Param>, column: Column)
    requires forall k :: 0 <= k < |fields| ==> 1 <= fields[k].slot <= |params|
    ensures ValueOf(fields, params + extra, column) == ValueOf(fields, params, column)
  {
    if |fields| > 0 {
      ValueOfIgnoresLaterParams(fields[1..], params, extra, column);
    }
  }

  /** Appending an item for a column binds that column when it was not bound before. */
  lemma {:induction false} ValueOfAppend(fields: seq<Assignment>, params: seq<Param>, a: Assignment, v: Param, column: Column)
    requires forall k :: 0 <= k < |fields| ==> 1 <= fields[k].slot <= |params|
    requires a.slot == |params| + 1
    ensures ValueOf(fields + [a], params + [v], column) ==
      if ValueOf(fields, params, column).Some? then ValueOf(fields, params, column)
      else if a.column == column then Some(v) else None
  {
    if |fields| == 0 {
    } else {
      assert (fields + [a])[1..] == fields[1..] + [a];
      ValueOfAppend(fields[1..], params, a, v, column);
      if fields[0].column == column {
        assert Bind(params + [v], fields[0].slot) == Bind(params, fields[0].slot);
      }
    }
  }

  /** Where a column comes in the builder's order. */
  function Rank(c: Column): nat {
    match c
    case RoundKey => 0
    case TeamA => 1
    case TeamB => 2
    case ScoreA => 3
    case ScoreB => 4
    case Status => 5
    case StartTime => 6
    case ExternalId => 7
    case UpdatedAt => 8
  }

  /** The column the builder considers at step m (the order of the `if` lines, updated_at last). */
  function ColumnAt(m: nat): (c: Column)
    requires m < 9
    ensures Rank(c) == m
  {
    [RoundKey, TeamA, TeamB, ScoreA, ScoreB, Status, StartTime, ExternalId, UpdatedAt][m]
  }

  /** The set list names its columns in the builder's order, so no column twice. */
  predicate InColumnOrder(fields: seq<Assignment>) {
    forall j, k :: 0 <= j < k < |fields| ==> Rank(fields[j].column) < Rank(fields[k].column)
  }

  /** Every column of the set list comes before step m of the builder. */
  predicate RanksBelow(fields: seq<Assignment>, m: nat) {
    forall j :: 0 <= j < |fields| ==> Rank(fields[j].column) < m
  }

  /** After the builder has considered the first m columns: those bind as proposed, the rest not at all. */
  ghost predicate BindsUpTo(fields: seq<Assignment>, params: seq<Param>, u: GameUpdates, now: Time, m: nat) {
    forall c {:trigger ValueOf(fields, params, c)} :: ValueOf(fields, params, c) == if Rank(c) < m then Proposed(u, now, c) else None
  }

  /** Pushing the m-th column with its proposed value moves the builder past it. */
  lemma PushAdvances(fields: seq<Assignment>, params: seq<Param>, u: GameUpdates, now: Time, column: Column, v: Param)
    requires Numbered(fields, params)
    requires BindsUpTo(fields, params, u, now, Rank(column)) && Proposed(u, now, column) == Some(v)
    ensures BindsUpTo(fields + [Assignment(column, |params| + 1)], params + [v], u, now, Rank(column) + 1)
  {
    forall c ensures ValueOf(fields + [Assignment(column, |params| + 1)], params + [v], c)
      == if Rank(c) < Rank(column) + 1 then Proposed(u, now, c) else None
    {
      ValueOfAppend(fields, params, Assignment(column, |params| + 1), v, c);
    }
  }

  /** Skipping the m-th column, when nothing is proposed for it, moves the builder past it. */
  lemma SkipAdvances(fields: seq<Assignment>, params: seq<Param>, u: GameUpdates, now: Time, column: Column)
    requires BindsUpTo(fields, params, u, now, Rank(column)) && Proposed(u, now, column) == None
    ensures BindsUpTo(fields, params, u, now, Rank(column) + 1)
  {
  }

  function TextParam(v: string): Param { PText(v) }

  function NullableInt(v: Option<int>): Param {
    if v.Some? then PInt(v.value) else PNull
  }

  function NullableTime(v: Option<Time>): Param {
    if v.Some? then PTime(v.value) else PNull
  }

  function NullableText(v: Option<string>): Param {
    if v.Some? then PText(v.value) else PNull
  }

  /**
   * What each column is set to: round_key and status only when truthy, the other fields
   * whenever present (so an explicit null clears a score), updated_at always.
   */
  function Proposed(u: GameUpdates, now: Time, column: Column): Option<Param> {
    match column
    case RoundKey => if TruthyText(u.roundKey) then Some(PText(u.roundKey.value)) else None
    case TeamA => if u.teamA.Some? then Some(PText(u.teamA.value)) else None
    case TeamB => if u.teamB.Some? then Some(PText(u.teamB.value)) else None
    case ScoreA => if u.scoreA.Some? then Some(NullableInt(u.scoreA.value)) else None
    case ScoreB => if u.scoreB.Some? then Some(NullableInt(u.scoreB.value)) else None
    case Status => if TruthyText(u.status) then Some(PText(u.status.value)) else None
    case StartTime => if u.startTime.Some? then Some(NullableTime(u.startTime.value)) else None
    case ExternalId => if u.externalId.Some? then Some(NullableText(u.externalId.value)) else None
    case UpdatedAt => Some(PTime(now))
  }

  /**
   * The `pushField` closure: `column = $paramIndex`, its value, then `paramIndex += 1`.
   * The ghost arguments record how far through the column order the builder is.
   */
  method PushField(fields: seq<Assignment>, params: seq<Param>, paramIndex: nat, column: Column, value: Param,
                   ghost u: GameUpdates, ghost now: Time)
    returns (fields': seq<Assignment>, params': seq<Param>, paramIndex': nat)
    requires Numbered(fields, params) && paramIndex == |params| + 1
    requires BindsUpTo(fields, params, u, now, Rank(column)) && Proposed(u, now, column) == Some(value)
    requires InColumnOrder(fields) && RanksBelow(fields, Rank(column))
    ensures Numbered(fields', params') && paramIndex' == |params'| + 1
    ensures |fields'| == |fields| + 1 && fields'[|fields|] == Assignment(column, paramIndex) && params'[|params|] == value
    ensures BindsUpTo(fields', params', u, now, Rank(column) + 1)
    ensures InColumnOrder(fields') && RanksBelow(fields', Rank(column) + 1)
  {
    PushAdvances(fields, params, u, now, column, value);
    fields' := fields + [Assignment(column, paramIndex)];
    params' := params + [value];
    paramIndex' := paramIndex + 1;
  }

  /** One `if (...) pushField(column, value)` line of the builder: push only when a value is proposed. */
  method PushWhen(fields: seq<Assignment>, params: seq<Param>, paramIndex: nat, column: Column, proposal: Option<Param>,
                  ghost u: GameUpdates, ghost now: Time)
    returns (fields': seq<Assignment>, params': seq<Param>, paramIndex': nat)
    requires Numbered(fields, params) && paramIndex == |params| + 1
    requires BindsUpTo(fields, params, u, now, Rank(column)) && Proposed(u, now, column) == proposal
    requires InColumnOrder(fields) && RanksBelow(fields, Rank(column))
    ensures Numbered(fields', params') && paramIndex' == |params'| + 1
    ensures BindsUpTo(fields', params', u, now, Rank(column) + 1)
    ensures InColumnOrder(fields') && RanksBelow(fields', Rank(column) + 1)
  {
    if proposal.Some? {
      fields', params', paramIndex' := PushField(fields, params, paramIndex, column, proposal.value, u, now);
    } else {
      SkipAdvances(fields, params, u, now, column);
      fields', params', paramIndex' := fields, params, paramIndex;
    }
  }

  /**
   * The set-list builder of updateGame. Placeholders run $1, $2, ... with one parameter
   * each, updated_at is the last item, the next free number (for `id`, then `pool_id`)
   * is returned, and every column binds exactly the value Proposed gives it.
   */
  method BuildGameUpdate(updates: GameUpdates, now: Time) returns (fields: seq<Assignment>, params: seq<Param>, paramIndex: nat)
    ensures Numbered(fields, params) && paramIndex == |params| + 1
    ensures |fields| >= 1 && fields[|fields| - 1] == Assignment(UpdatedAt, |fields|) && params[|params| - 1] == PTime(now)
    ensures forall c :: ValueOf(fields, params, c) == Proposed(updates, now, c)
    ensures forall j, k :: 0 <= j < k < |fields| ==> Rank(fields[j].column) < Rank(fields[k].column)
  {
    fields, params, paramIndex := [], [], 1;
    // the eight optional `if (...) pushField(...)` lines, in their order
    for m := 0 to 8
      invariant Numbered(fields, params) && paramIndex == |params| + 1
      invariant BindsUpTo(fields, params, updates, now, m)
      invariant InColumnOrder(fields) && RanksBelow(fields, m)
    {
      var column := ColumnAt(m);
      fields, params, paramIndex := PushWhen(fields, params, paramIndex, column, Proposed(updates, now, column), updates, now);
    }
    fields, params, paramIndex := PushField(fields, params, paramIndex, UpdatedAt, PTime(now), updates, now);
    forall c ensures ValueOf(fields, params, c) == Proposed(updates, now, c) {
      assert Rank(c) < 9;
    }
  }

  function TextOr(p: Option<Param>, old_value: string): string {
    if p.Some? && p.value.PText? then p.value.s else old_value
  }

  function NullableIntOr(p: Option<Param>, old_value: Option<int>): Option<int> {
    if p.Some? && p.value.PInt? then Some(p.value.i) else if p.Some? && p.value.PNull? then None else old_value
  }

  function NullableTimeOr(p: Option<Param>, old_value: Option<Time>): Option<Time> {
    if p.Some? && p.value.PTime? then Some(p.value.t) else if p.Some? && p.value.PNull? then None else old_value
  }

  function NullableTextOr(p: Option<Param>, old_value: Option<string>): Option<string> {
    if p.Some? && p.value.PText? then Some(p.value.s) else if p.Some? && p.value.PNull? then None else old_value
  }

  function TimeOr(p: Option<Param>, old_value: Time): Time {
    if p.Some? && p.value.PTime? then p.value.t else old_value
  }

  /** How `update games set <fields>` changes one row: each column named in the set list takes its parameter. */
  function SetColumns(g: GameRow, fields: seq<Assignment>, params: seq<Param>): GameRow {
    g.(roundKey := TextOr(ValueOf(fields, params, RoundKey), g.roundKey),
       teamA := TextOr(ValueOf(fields, params, TeamA), g.teamA),
       teamB := TextOr(ValueOf(fields, params, TeamB), g.teamB),
       scoreA := NullableIntOr(ValueOf(fields, params, ScoreA), g.scoreA),
       scoreB := NullableIntOr(ValueOf(fields, params, ScoreB), g.scoreB),
       status := TextOr(ValueOf(fields, params, Status), g.status),
       startTime := NullableTimeOr(ValueOf(fields, params, StartTime), g.startTime),
       externalId := NullableTextOr(ValueOf(fields, params, ExternalId), g.externalId),
       updatedAt := TimeOr(ValueOf(fields, params, UpdatedAt), g.updatedAt))
  }

  /** The intended effect of an update, field by field. */
  function UpdatedGame(g: GameRow, u: GameUpdates, now: Time): (r: GameRow)
    ensures r.id == g.id && r.poolId == g.poolId && r.updatedAt == now
    ensures r.roundKey == (if TruthyText(u.roundKey) then u.roundKey.value else g.roundKey)
    ensures r.status == (if TruthyText(u.status) then u.status.value else g.status)
    ensures r.teamA == u.teamA.GetOr(g.teamA) && r.teamB == u.teamB.GetOr(g.teamB)
    ensures r.scoreA == u.scoreA.GetOr(g.scoreA) && r.scoreB == u.scoreB.GetOr(g.scoreB)
    ensures r.startTime == u.startTime.GetOr(g.startTime) && r.externalId == u.externalId.GetOr(g.externalId)
  {
    g.(roundKey := if TruthyText(u.roundKey) then u.roundKey.value else g.roundKey,
       teamA := u.teamA.GetOr(g.teamA),
       teamB := u.teamB.GetOr(g.teamB),
       scoreA := u.scoreA.GetOr(g.scoreA),
       scoreB := u.scoreB.GetOr(g.scoreB),
       status := if TruthyText(u.status) then u.status.value else g.status,
       startTime := u.startTime.GetOr(g.startTime),
       externalId := u.externalId.GetOr(g.externalId),
       updatedAt := now)
  }

  /** The statement the builder makes updates a row exactly as intended. */
  lemma BuiltUpdateIsIntended(g: GameRow, u: GameUpdates, now: Time, fields: seq<Assignment>, params: seq<Param>)
    requires forall c :: ValueOf(fields, params, c) == Proposed(u, now, c)
    ensures SetColumns(g, fields, params) == UpdatedGame(g, u, now)
  {
    assert ValueOf(fields, params, RoundKey) == Proposed(u, now, RoundKey);
    assert ValueOf(fields, params, TeamA) == Proposed(u, now, TeamA);
    assert ValueOf(fields, params, TeamB) == Proposed(u, now, TeamB);
    assert ValueOf(fields, params, ScoreA) == Proposed(u, now, ScoreA);
    assert ValueOf(fields, params, ScoreB) == Proposed(u, now, ScoreB);
    assert ValueOf(fields, params, Status) == Proposed(u, now, Status);
    assert ValueOf(fields, params, StartTime) == Proposed(u, now, StartTime);
    assert ValueOf(fields, params, ExternalId) == Proposed(u, now, ExternalId);
    assert ValueOf(fields, params, UpdatedAt) == Proposed(u, now, UpdatedAt);
  }

  /** The games table after the update: the rows with that id in that pool get the new columns. */
  function UpdatedGames(games: seq<GameRow>, poolId: Id, gameId: Id, u: GameUpdates, now: Time): (r: seq<GameRow>)
    ensures |r| == |games|
  {
    seq(|games|, i requires 0 <= i < |games| =>
      if IsGame(games[i], poolId, gameId) then UpdatedGame(games[i], u, now) else games[i])
  }

  /** The first row with that id in that pool, or -1. */
  function FindGame(games: seq<GameRow>, poolId: Id, gameId: Id): (r: int)
    ensures -1 <= r < |games|
    ensures r == -1 <==> forall i :: 0 <= i < |games| ==> !IsGame(games[i], poolId, gameId)
    ensures r >= 0 ==> IsGame(games[r], poolId, gameId)
  {
    if |games| == 0 then -1
    else if IsGame(games[0], poolId, gameId) then 0
    else
      var k := FindGame(games[1..], poolId, gameId);
      if k == -1 then -1 else k + 1
  }

  /**
   * updateGame: `game_not_found` (nothing changes) when the pool has no game with that
   * id; otherwise that game gets the intended columns and every other game is untouched.
   */
  method UpdateGame(db: Db, poolId: Id, gameId: Id, updates: GameUpdates, now: Time) returns (r: Result<GameRow>)
    modifies db`games
    ensures FindGame(old(db.games), poolId, gameId) == -1 ==> r == Err("game_not_found") && db.games == old(db.games)
    ensures FindGame(old(db.games), poolId, gameId) >= 0 ==>
      && db.games == UpdatedGames(old(db.games), poolId, gameId, updates, now)
      && r == Ok(UpdatedGame(old(db.games)[FindGame(old(db.games), poolId, gameId)], updates, now))
  {
    var fields, params, paramIndex := BuildGameUpdate(updates, now);
    var all := params + [PText(gameId), PText(poolId)];
    var whereId, wherePool := Bind(all, paramIndex), Bind(all, paramIndex + 1);
    assert whereId == Some(PText(gameId)) && wherePool == Some(PText(poolId));

    var idValue, poolValue := whereId.value.s, wherePool.value.s;
    assert idValue == gameId && poolValue == poolId;
    var i := FindGame(db.games, poolValue, idValue);
    if i == -1 {
      return Err("game_not_found");
    }
    forall c ensures ValueOf(fields, all, c) == Proposed(updates, now, c) {
      ValueOfIgnoresLaterParams(fields, params, [PText(gameId), PText(poolId)], c);
    }
    var games := db.games;
    forall k | 0 <= k < |games| ensures SetColumns(games[k], fields, all) == UpdatedGame(games[k], updates, now) {
      BuiltUpdateIsIntended(games[k], updates, now, fields, all);
    }
    db.games := seq(|games|, k requires 0 <= k < |games| =>
      if IsGame(games[k], poolId, gameId) then SetColumns(games[k], fields, all) else games[k]);
    r := Ok(db.games[i]);
  }

  /** An update leaves the game's identity alone and changes no other game. */
  lemma UpdateTouchesOnlyThatGame(games: seq<GameRow>, poolId: Id, gameId: Id, u: GameUpdates, now: Time)
    ensures var r := UpdatedGames(games, poolId, gameId, u, now);
      forall i :: 0 <= i < |games| ==>
        && r[i].id == games[i].id && r[i].poolId == games[i].poolId
        && (!IsGame(games[i], poolId, gameId) ==> r[i] == games[i])
  {
  }
}
