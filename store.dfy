/**
 * The relational store the lib code talks to, one field per table. Rows are kept
 * in insertion order, which is the order an unordered `select` returns them in
 * this model; `rows[0]` of a filtered select is the first matching row.
 */
module Store {
  import opened Wrappers
  import Js

  /** Row identifiers (uuids in the schema). */
  type Id = string

  /** A timestamp in milliseconds since the epoch; a null timestamp is `None`. */
  type Time = int

  datatype PoolRow = PoolRow(id: Id, name: string, status: string, createdAt: Time)

  datatype SquareRow = SquareRow(
    id: Id, poolId: Id, rowIndex: int, colIndex: int, participantId: Option<Id>, createdAt: Time)

  datatype ParticipantRow = ParticipantRow(
    id: Id, poolId: Id, displayName: string, contactInfo: Option<string>, createdAt: Time)

  datatype DigitMapRow = DigitMapRow(
    poolId: Id, winningDigits: seq<int>, losingDigits: seq<int>,
    revealedAt: Option<Time>, lockedAt: Option<Time>, createdAt: Option<Time>)

  datatype PayoutRow = PayoutRow(
    id: Id, poolId: Id, roundKey: string, amountCents: int, effectiveAt: Option<Time>)

  datatype GameRow = GameRow(
    id: Id, poolId: Id, roundKey: string, teamA: string, teamB: string,
    scoreA: Option<int>, scoreB: Option<int>, status: string,
    startTime: Option<Time>, externalId: Option<string>, updatedAt: Time)

  datatype GameResultRow = GameResultRow(
    id: Id, poolId: Id, gameId: Id, winDigit: int, loseDigit: int,
    winningSquareId: Id, winningParticipantId: Option<Id>, payoutAmountCents: int, finalizedAt: Time)

  datatype AuditEventRow = AuditEventRow(
    id: Id, poolId: Option<Id>, actor: string, action: string,
    entityType: Option<string>, entityId: Option<string>, metadata: Js.Value, createdAt: Time)

  /** What the store reports when an insert repeats a primary key or a unique column set. */
  const UNIQUE_VIOLATION := "unique_violation"

  /** The status column's default for a freshly inserted pool. */
  const DEFAULT_POOL_STATUS := "open"

  class Db {
    var pools: seq<PoolRow>
    var squares: seq<SquareRow>
    var participants: seq<ParticipantRow>
    /** `digit_maps` is unique on pool_id, so it is keyed by the pool. */
    var digitMaps: map<Id, DigitMapRow>
    var payoutConfigs: seq<PayoutRow>
    var games: seq<GameRow>
    var results: seq<GameResultRow>
    var auditEvents: seq<AuditEventRow>

    constructor ()
      ensures pools == [] && squares == [] && participants == [] && digitMaps == map[]
      ensures payoutConfigs == [] && games == [] && results == [] && auditEvents == []
    {
      pools, squares, participants, digitMaps := [], [], [], map[];
      payoutConfigs, games, results, auditEvents := [], [], [], [];
    }
  }

  /** `select ... from pools where id = $1`, first row. */
  function FindPool(pools: seq<PoolRow>, id: Id): (r: Option<PoolRow>)
    ensures r.None? <==> forall i :: 0 <= i < |pools| ==> pools[i].id != id
    ensures r.Some? ==> r.value in pools && r.value.id == id
  {
    if pools == [] then None
    else if pools[0].id == id then Some(pools[0])
    else FindPool(pools[1..], id)
  }

  /** `select ... from participants where id = $1`: the first row with that id. */
  function FindParticipant(participants: seq<ParticipantRow>, id: Id): (r: Option<ParticipantRow>)
    ensures r.None? <==> forall i :: 0 <= i < |participants| ==> participants[i].id != id
    ensures r.Some? ==> r.value in participants && r.value.id == id
    ensures r.Some? ==> exists i :: 0 <= i < |participants| && participants[i] == r.value
                                    && forall j :: 0 <= j < i ==> participants[j].id != id
  {
    if participants == [] then None
    else if participants[0].id == id then Some(participants[0])
    else
      var r := FindParticipant(participants[1..], id);
      assert r.Some? ==> exists i :: 0 <= i < |participants| && participants[i] == r.value
                                     && forall j :: 0 <= j < i ==> participants[j].id != id by {
        if r.Some? {
          var k :| 0 <= k < |participants[1..]| && participants[1..][k] == r.value
                   && forall j :: 0 <= j < k ==> participants[1..][j].id != id;
          assert forall j :: 0 < j < k + 1 ==> participants[j] == participants[1..][j - 1];
        }
      }
      r
  }

  /**
   * The display name the `left join participants p on p.id = ...` finds for an owner
   * column: none for no owner or an owner without a row, otherwise the name on the
   * owner's first row.
   */
  function OwnerName(participants: seq<ParticipantRow>, owner: Option<Id>): (r: Option<string>)
    ensures r.Some? <==> owner.Some? && exists i :: 0 <= i < |participants| && participants[i].id == owner.value
    ensures r.Some? ==> exists i :: 0 <= i < |participants| && participants[i].id == owner.value
                                    && participants[i].displayName == r.value
                                    && forall j :: 0 <= j < i ==> participants[j].id != owner.value
  {
    if owner.None? then None
    else match FindParticipant(participants, owner.value)
      case Some(p) => Some(p.displayName)
      case None => None
  }

  /** `value ? String(value) : null`: an empty text column reads as null. */
  function NonEmpty(s: Option<string>): (r: Option<string>)
    ensures r.Some? <==> s.Some? && s.value != ""
    ensures r.Some? ==> r == s
  {
    if s.Some? && s.value != "" then s else None
  }

  predicate PoolIdTaken(pools: seq<PoolRow>, id: Id) {
    exists i :: 0 <= i < |pools| && pools[i].id == id
  }

  predicate ParticipantIdTaken(participants: seq<ParticipantRow>, id: Id) {
    exists i :: 0 <= i < |participants| && participants[i].id == id
  }

  predicate GameIdTaken(games: seq<GameRow>, id: Id) {
    exists i :: 0 <= i < |games| && games[i].id == id
  }

  predicate PayoutIdTaken(rows: seq<PayoutRow>, id: Id) {
    exists i :: 0 <= i < |rows| && rows[i].id == id
  }

  predicate ResultIdTaken(results: seq<GameResultRow>, id: Id) {
    exists i :: 0 <= i < |results| && results[i].id == id
  }

  predicate AuditIdTaken(events: seq<AuditEventRow>, id: Id) {
    exists i :: 0 <= i < |events| && events[i].id == id
  }

  /** Two squares that the primary key or the (pool_id, row_index, col_index) key forbid together. */
  predicate SquaresClash(a: SquareRow, b: SquareRow) {
    a.id == b.id || (a.poolId == b.poolId && a.rowIndex == b.rowIndex && a.colIndex == b.colIndex)
  }

  /** A batch insert into squares succeeds iff no new row clashes with an old one or with another new one. */
  predicate SquareBatchFits(existing: seq<SquareRow>, batch: seq<SquareRow>) {
    && (forall i, j :: 0 <= i < |batch| && 0 <= j < |existing| ==> !SquaresClash(batch[i], existing[j]))
    && (forall i, j :: 0 <= i < j < |batch| ==> !SquaresClash(batch[i], batch[j]))
  }

  /** A batch insert into payout_configs succeeds iff its ids are new and distinct. */
  predicate PayoutBatchFits(existing: seq<PayoutRow>, batch: seq<PayoutRow>) {
    && (forall i :: 0 <= i < |batch| ==> !PayoutIdTaken(existing, batch[i].id))
    && (forall i, j :: 0 <= i < j < |batch| ==> batch[i].id != batch[j].id)
  }

  /** `select count(*) from squares where participant_id = $1`, over every pool. */
  function CountOwned(squares: seq<SquareRow>, participantId: Id): (n: nat)
    ensures n <= |squares|
  {
    if |squares| == 0 then 0
    else CountOwned(squares[..|squares| - 1], participantId) + OwnedBy(squares[|squares| - 1], participantId)
  }

  /** 1 when the square belongs to the participant. */
  function OwnedBy(s: SquareRow, participantId: Id): nat {
    if s.participantId == Some(participantId) then 1 else 0
  }

  /** Two tables of equal length whose owners differ at most at position i: the counts differ by that square. */
  lemma {:induction false} CountOwnedDiffersAt(s: seq<SquareRow>, t: seq<SquareRow>, i: int, participantId: Id)
    requires |s| == |t| && 0 <= i < |s|
    requires forall j :: 0 <= j < |s| && j != i ==> s[j].participantId == t[j].participantId
    ensures CountOwned(t, participantId) + OwnedBy(s[i], participantId) == CountOwned(s, participantId) + OwnedBy(t[i], participantId)
  {
    var n := |s| - 1;
    if i == n {
      CountOwnedSameOwners(s[..n], t[..n], participantId);
    } else {
      CountOwnedDiffersAt(s[..n], t[..n], i, participantId);
    }
  }

  /** Tables with the same owner at every position have the same counts. */
  lemma {:induction false} CountOwnedSameOwners(s: seq<SquareRow>, t: seq<SquareRow>, participantId: Id)
    requires |s| == |t|
    requires forall j :: 0 <= j < |s| ==> s[j].participantId == t[j].participantId
    ensures CountOwned(t, participantId) == CountOwned(s, participantId)
  {
    if |s| > 0 {
      CountOwnedSameOwners(s[..|s| - 1], t[..|t| - 1], participantId);
    }
  }

  /** The (pool_id, row_index, col_index) key: no two squares share a cell. */
  predicate CellsUnique(squares: seq<SquareRow>) {
    forall i, j :: 0 <= i < j < |squares| ==>
      !(squares[i].poolId == squares[j].poolId && squares[i].rowIndex == squares[j].rowIndex && squares[i].colIndex == squares[j].colIndex)
  }

  predicate AtCell(s: SquareRow, poolId: Id, rowIndex: int, colIndex: int) {
    s.poolId == poolId && s.rowIndex == rowIndex && s.colIndex == colIndex
  }

  /** The position of the first square at (pool, row, col), or -1. */
  function FindSquareAt(squares: seq<SquareRow>, poolId: Id, rowIndex: int, colIndex: int): (r: int)
    ensures -1 <= r < |squares|
    ensures r == -1 <==> forall i :: 0 <= i < |squares| ==> !AtCell(squares[i], poolId, rowIndex, colIndex)
    ensures r >= 0 ==> AtCell(squares[r], poolId, rowIndex, colIndex)
    ensures r >= 0 ==> forall i :: 0 <= i < r ==> !AtCell(squares[i], poolId, rowIndex, colIndex)
  {
    if |squares| == 0 then -1
    else if AtCell(squares[0], poolId, rowIndex, colIndex) then 0
    else
      var k := FindSquareAt(squares[1..], poolId, rowIndex, colIndex);
      if k == -1 then -1 else k + 1
  }
}
