/** Assigning a square of the grid to a participant of its pool, or clearing it. */
module Squares {
  import opened Wrappers
  import opened Store
  import Pools

  /** `select 1 from participants where id = $1 and pool_id = $2` finds a row. */
  predicate ParticipantInPool(participants: seq<ParticipantRow>, participantId: Id, poolId: Id) {
    exists i :: 0 <= i < |participants| && participants[i].id == participantId && participants[i].poolId == poolId
  }

  /** `if (participantId)`: null and the empty string skip the membership check. */
  predicate Truthy(participantId: Option<Id>) {
    participantId.Some? && participantId.value != ""
  }

  /** `update squares set participant_id = $4 where pool_id = $1 and row_index = $2 and col_index = $3` */
  function Assigned(squares: seq<SquareRow>, poolId: Id, rowIndex: int, colIndex: int, owner: Option<Id>): (r: seq<SquareRow>)
    ensures |r| == |squares|
    ensures forall i :: 0 <= i < |squares| ==>
      r[i] == if AtCell(squares[i], poolId, rowIndex, colIndex) then squares[i].(participantId := owner) else squares[i]
  {
    seq(|squares|, i requires 0 <= i < |squares| =>
      if AtCell(squares[i], poolId, rowIndex, colIndex) then squares[i].(participantId := owner) else squares[i])
  }

  /**
   * assignSquare: a truthy participant id must belong to the pool ("Participant not
   * found in pool"); the cell must exist ("Square not found"); on either error nothing
   * changes. Otherwise only the square at the cell changes owner, and it is returned
   * with its new owner's display name (null when unassigned).
   */
  method AssignSquare(db: Db, poolId: Id, rowIndex: int, colIndex: int, participantId: Option<Id>)
    returns (r: Result<Pools.SquareWithName>)
    modifies db`squares
    ensures Truthy(participantId) && !ParticipantInPool(db.participants, participantId.value, poolId) ==>
      r == Err("Participant not found in pool") && db.squares == old(db.squares)
    ensures !(Truthy(participantId) && !ParticipantInPool(db.participants, participantId.value, poolId)) ==>
      var i := FindSquareAt(old(db.squares), poolId, rowIndex, colIndex);
      if i == -1 then r == Err("Square not found") && db.squares == old(db.squares)
      else
        && db.squares == Assigned(old(db.squares), poolId, rowIndex, colIndex, participantId)
        && r.Ok? && r.value.square == old(db.squares)[i].(participantId := participantId)
        && r.value.participantName == SquareOwnerName(db.participants, participantId)
  {
    if Truthy(participantId) && !ParticipantInPool(db.participants, participantId.value, poolId) {
      return Err("Participant not found in pool");
    }
    var i := FindSquareAt(db.squares, poolId, rowIndex, colIndex);
    if i == -1 {
      return Err("Square not found");
    }
    db.squares := Assigned(db.squares, poolId, rowIndex, colIndex, participantId);
    var square := db.squares[i];
    var name: Option<string> := None;
    if Truthy(square.participantId) {
      name := OwnerName(db.participants, square.participantId);
    }
    r := Ok(Pools.SquareWithName(square, name));
  }

  /** `participant.rows[0]?.display_name ?? null` when the new owner is truthy, else null. */
  function SquareOwnerName(participants: seq<ParticipantRow>, owner: Option<Id>): (r: Option<string>)
    ensures !Truthy(owner) ==> r.None?
    ensures Truthy(owner) && r.Some? ==> exists i :: 0 <= i < |participants| && participants[i].id == owner.value && participants[i].displayName == r.value
    ensures Truthy(owner) && (exists i :: 0 <= i < |participants| && participants[i].id == owner.value) ==> r.Some?
  {
    if Truthy(owner) then OwnerName(participants, owner) else None
  }

  /**
   * With one square per cell, assigning the cell moves exactly that square between
   * owners: every participant's count changes only by that square's old and new owner.
   */
  lemma AssignMovesOneSquare(squares: seq<SquareRow>, poolId: Id, rowIndex: int, colIndex: int, owner: Option<Id>, pid: Id)
    requires CellsUnique(squares)
    requires FindSquareAt(squares, poolId, rowIndex, colIndex) >= 0
    ensures var i := FindSquareAt(squares, poolId, rowIndex, colIndex);
      var t := Assigned(squares, poolId, rowIndex, colIndex, owner);
      CountOwned(t, pid) + OwnedBy(squares[i], pid) == CountOwned(squares, pid) + (if owner == Some(pid) then 1 else 0)
  {
    var i := FindSquareAt(squares, poolId, rowIndex, colIndex);
    var t := Assigned(squares, poolId, rowIndex, colIndex, owner);
    forall j | 0 <= j < |squares| && j != i ensures squares[j].participantId == t[j].participantId {
      assert !AtCell(squares[j], poolId, rowIndex, colIndex) by {
        if j < i {
        } else {
          assert !(squares[i].poolId == squares[j].poolId && squares[i].rowIndex == squares[j].rowIndex && squares[i].colIndex == squares[j].colIndex);
        }
      }
    }
    CountOwnedDiffersAt(squares, t, i, pid);
  }

  /** Reassigning a square from one participant to another takes it off the previous owner's count. */
  lemma ReassignDropsPreviousOwner(squares: seq<SquareRow>, poolId: Id, rowIndex: int, colIndex: int, previous: Id, next: Option<Id>)
    requires CellsUnique(squares)
    requires FindSquareAt(squares, poolId, rowIndex, colIndex) >= 0
    requires squares[FindSquareAt(squares, poolId, rowIndex, colIndex)].participantId == Some(previous)
    requires next != Some(previous)
    ensures CountOwned(Assigned(squares, poolId, rowIndex, colIndex, next), previous) + 1 == CountOwned(squares, previous)
  {
    AssignMovesOneSquare(squares, poolId, rowIndex, colIndex, next, previous);
  }

  /** Assignment keeps the one-square-per-cell key: no cell column changes. */
  lemma AssignKeepsCellsUnique(squares: seq<SquareRow>, poolId: Id, rowIndex: int, colIndex: int, owner: Option<Id>)
    requires CellsUnique(squares)
    ensures CellsUnique(Assigned(squares, poolId, rowIndex, colIndex, owner))
  {
  }
}
