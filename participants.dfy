/** The participants of a pool: listing with square counts, create, update and delete. */
module Participants {
  import opened Wrappers
  import opened Store
  import Collections

  /** A participant row as listParticipants returns it, with its `square_count`. */
  datatype ParticipantWithCount = ParticipantWithCount(participant: ParticipantRow, squareCount: nat)

  predicate CreatedNoLater(a: ParticipantWithCount, b: ParticipantWithCount) {
    a.participant.createdAt <= b.participant.createdAt
  }

  lemma CreatedOrderIsTotal()
    ensures Collections.TotalPreorder(CreatedNoLater)
  {
  }

  /** `where pool_id = $1` */
  function InPool(participants: seq<ParticipantRow>, poolId: Id): (r: seq<ParticipantRow>)
    ensures forall i :: 0 <= i < |r| ==> r[i] in participants && r[i].poolId == poolId
    ensures forall p :: p in participants && p.poolId == poolId ==> p in r
  {
    Collections.Filter(participants, (p: ParticipantRow) => p.poolId == poolId)
  }

  /**
   * listParticipants: every participant of the pool, oldest first, each with the number
   * of squares whose owner is that participant (0 when none).
   */
  function ListParticipants(participants: seq<ParticipantRow>, squares: seq<SquareRow>, poolId: Id): (r: seq<ParticipantWithCount>)
    ensures forall i, j :: 0 <= i < j < |r| ==> r[i].participant.createdAt <= r[j].participant.createdAt
    ensures forall x :: x in r <==>
      x.participant in participants && x.participant.poolId == poolId
      && x.squareCount == CountOwned(squares, x.participant.id)
    ensures |r| == |InPool(participants, poolId)|
    ensures multiset(r) == multiset(WithCounts(InPool(participants, poolId), squares))
  {
    var own := InPool(participants, poolId);
    var counted := WithCounts(own, squares);
    var sorted := Collections.Sort(counted, CreatedNoLater);
    CreatedOrderIsTotal();
    assert Collections.SortedBy(sorted, CreatedNoLater);
    assert forall x :: x in sorted <==> x in counted by {
      assert forall x :: x in sorted <==> x in multiset(sorted);
      assert forall x :: x in counted <==> x in multiset(counted);
    }
    sorted
  }

  /** `count(s.id) as square_count` joined onto each participant, in the given order. */
  function WithCounts(own: seq<ParticipantRow>, squares: seq<SquareRow>): (r: seq<ParticipantWithCount>)
    ensures forall x :: x in r <==> x.participant in own && x.squareCount == CountOwned(squares, x.participant.id)
    ensures |r| == |own|
  {
    var r := seq(|own|, i requires 0 <= i < |own| => ParticipantWithCount(own[i], CountOwned(squares, own[i].id)));
    assert forall p :: p in own ==> ParticipantWithCount(p, CountOwned(squares, p.id)) in r by {
      forall p | p in own ensures ParticipantWithCount(p, CountOwned(squares, p.id)) in r {
        var i :| 0 <= i < |own| && own[i] == p;
        assert r[i] == ParticipantWithCount(p, CountOwned(squares, p.id));
      }
    }
    r
  }

  /** createParticipant: a new row with the given id; a missing contact is stored as null. */
  method CreateParticipant(db: Db, poolId: Id, displayName: string, contactInfo: Option<string>, id: Id, now: Time)
    returns (r: Result<ParticipantRow>)
    modifies db`participants
    ensures ParticipantIdTaken(old(db.participants), id) ==> r == Err(UNIQUE_VIOLATION) && db.participants == old(db.participants)
    ensures !ParticipantIdTaken(old(db.participants), id) ==>
      && r == Ok(ParticipantRow(id, poolId, displayName, contactInfo, now))
      && db.participants == old(db.participants) + [r.value]
  {
    if ParticipantIdTaken(db.participants, id) {
      return Err(UNIQUE_VIOLATION);
    }
    var row := ParticipantRow(id, poolId, displayName, contactInfo, now);
    db.participants := db.participants + [row];
    r := Ok(row);
  }

  /** `update participants set display_name = $1, contact_info = $2 where id = $3` */
  function Renamed(participants: seq<ParticipantRow>, participantId: Id, displayName: string, contactInfo: Option<string>)
    : (r: seq<ParticipantRow>)
    ensures |r| == |participants|
    ensures forall i :: 0 <= i < |participants| ==>
      r[i] == if participants[i].id == participantId
              then participants[i].(displayName := displayName, contactInfo := contactInfo)
              else participants[i]
  {
    seq(|participants|, i requires 0 <= i < |participants| =>
      if participants[i].id == participantId
      then participants[i].(displayName := displayName, contactInfo := contactInfo)
      else participants[i])
  }

  /**
   * updateParticipant: only display_name and contact_info change (a missing contact
   * becomes null); "Participant not found" for an unknown id, and then nothing changes.
   */
  method UpdateParticipant(db: Db, participantId: Id, displayName: string, contactInfo: Option<string>)
    returns (r: Result<ParticipantRow>)
    modifies db`participants
    ensures FindParticipant(old(db.participants), participantId).None? ==>
      r == Err("Participant not found") && db.participants == old(db.participants)
    ensures FindParticipant(old(db.participants), participantId).Some? ==>
      && db.participants == Renamed(old(db.participants), participantId, displayName, contactInfo)
      && r == Ok(FindParticipant(old(db.participants), participantId).value.(displayName := displayName, contactInfo := contactInfo))
  {
    var found := FindParticipant(db.participants, participantId);
    if found.None? {
      return Err("Participant not found");
    }
    db.participants := Renamed(db.participants, participantId, displayName, contactInfo);
    r := Ok(found.value.(displayName := displayName, contactInfo := contactInfo));
  }

  /** Renaming keeps every other column and every other participant. */
  lemma RenameTouchesOnlyNameAndContact(participants: seq<ParticipantRow>, participantId: Id, displayName: string, contactInfo: Option<string>)
    ensures var r := Renamed(participants, participantId, displayName, contactInfo);
      forall i :: 0 <= i < |participants| ==>
        && r[i].id == participants[i].id && r[i].poolId == participants[i].poolId && r[i].createdAt == participants[i].createdAt
        && (participants[i].id != participantId ==> r[i] == participants[i])
        && (participants[i].id == participantId ==> r[i].displayName == displayName && r[i].contactInfo == contactInfo)
  {
  }

  /** `update squares set participant_id = null where participant_id = $1` */
  function Unassigned(squares: seq<SquareRow>, participantId: Id): (r: seq<SquareRow>)
    ensures |r| == |squares|
  {
    seq(|squares|, i requires 0 <= i < |squares| =>
      if squares[i].participantId == Some(participantId) then squares[i].(participantId := None) else squares[i])
  }

  /**
   * After the unassigning update the participant owns nothing, and no square changes
   * anything but its owner; squares of other owners do not change at all.
   */
  lemma {:induction false} UnassignedFreesParticipant(squares: seq<SquareRow>, participantId: Id)
    ensures CountOwned(Unassigned(squares, participantId), participantId) == 0
    ensures forall i :: 0 <= i < |squares| ==>
      var t := Unassigned(squares, participantId)[i];
      t.id == squares[i].id && t.poolId == squares[i].poolId && t.rowIndex == squares[i].rowIndex && t.colIndex == squares[i].colIndex
      && (squares[i].participantId != Some(participantId) ==> t == squares[i])
  {
    if |squares| > 0 {
      var n := |squares| - 1;
      assert Unassigned(squares, participantId)[..n] == Unassigned(squares[..n], participantId);
      UnassignedFreesParticipant(squares[..n], participantId);
    }
  }

  /** Every other participant keeps exactly the squares they had. */
  lemma {:induction false} UnassignedKeepsOtherOwners(squares: seq<SquareRow>, participantId: Id, other: Id)
    requires other != participantId
    ensures CountOwned(Unassigned(squares, participantId), other) == CountOwned(squares, other)
  {
    if |squares| > 0 {
      var n := |squares| - 1;
      assert Unassigned(squares, participantId)[..n] == Unassigned(squares[..n], participantId);
      UnassignedKeepsOtherOwners(squares[..n], participantId, other);
    }
  }

  datatype DeleteOutcome = DeleteOutcome(deleted: bool, ownedSquares: nat)

  /**
   * deleteParticipant: refused (deleted = false, nothing changes) while the participant
   * owns squares and force is off; otherwise their squares are unassigned and their row
   * removed. ownedSquares is the count before the call either way.
   */
  method DeleteParticipant(db: Db, participantId: Id, force: bool) returns (r: DeleteOutcome)
    modifies db`squares, db`participants
    ensures r.ownedSquares == CountOwned(old(db.squares), participantId)
    ensures r.deleted <==> r.ownedSquares == 0 || force
    ensures !r.deleted ==> db.squares == old(db.squares) && db.participants == old(db.participants)
    ensures r.deleted ==>
      && db.squares == Unassigned(old(db.squares), participantId)
      && db.participants == Collections.Filter(old(db.participants), (p: ParticipantRow) => p.id != participantId)
  {
    var ownedSquares := CountOwned(db.squares, participantId);
    if ownedSquares > 0 && !force {
      return DeleteOutcome(false, ownedSquares);
    }
    db.squares := Unassigned(db.squares, participantId);
    db.participants := Collections.Filter(db.participants, (p: ParticipantRow) => p.id != participantId);
    r := DeleteOutcome(true, ownedSquares);
  }

  /** After a delete that went through, the participant is gone and owns no square. */
  lemma DeletedParticipantIsGone(participants: seq<ParticipantRow>, squares: seq<SquareRow>, participantId: Id)
    ensures FindParticipant(Collections.Filter(participants, (p: ParticipantRow) => p.id != participantId), participantId).None?
    ensures CountOwned(Unassigned(squares, participantId), participantId) == 0
  {
    UnassignedFreesParticipant(squares, participantId);
  }
}
