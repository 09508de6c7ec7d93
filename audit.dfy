/** The admin audit trail: best-effort logging and newest-first keyset paging. */
module Audit {
  import opened Wrappers
  import opened Store
  import opened Sql
  import Js
  import Collections

  /** What a caller records; the optional parts default to null and `{}`. */
  datatype AuditEventInput = AuditEventInput(
    poolId: Option<Id>, actor: string, action: string,
    entityType: Option<string>, entityId: Option<string>, metadata: Option<map<string, Js.Value>>)

  /** `input.metadata ?? {}` */
  function MetadataOf(input: AuditEventInput): map<string, Js.Value> {
    if input.metadata.Some? then input.metadata.value else map[]
  }

  /**
   * The row the insert writes; created_at takes the column default, the insert time.
   * The metadata goes through `JSON.stringify` and the `::jsonb` cast: it is stored as
   * an object holding exactly the properties that are not `undefined`, each as JSON
   * reads it back, and metadata JSON can already hold is stored as given.
   */
  function EventRow(input: AuditEventInput, id: Id, now: Time): (e: AuditEventRow)
    ensures e.id == id && e.poolId == input.poolId && e.actor == input.actor && e.action == input.action
    ensures e.entityType == input.entityType && e.entityId == input.entityId && e.createdAt == now
    ensures e.metadata.Obj? && Js.IsJson(e.metadata)
    ensures forall k :: k in e.metadata.props <==> k in MetadataOf(input) && !MetadataOf(input)[k].Undefined?
    ensures input.metadata.None? ==> e.metadata == Js.Obj(map[])
    ensures Js.IsJson(Js.Obj(MetadataOf(input))) ==> e.metadata == Js.Obj(MetadataOf(input))
  {
    Js.JsonRoundTripKeepsJson(Js.Obj(MetadataOf(input)));
    AuditEventRow(id, input.poolId, input.actor, input.action, input.entityType, input.entityId,
                  Js.JsonRoundTrip(Js.Obj(MetadataOf(input))), now)
  }

  /** `insert into audit_events ...`: refused when the id is already taken. */
  method InsertAuditEvent(db: Db, row: AuditEventRow) returns (r: Result<()>)
    modifies db`auditEvents
    ensures r.Ok? <==> !AuditIdTaken(old(db.auditEvents), row.id)
    ensures r.Ok? ==> db.auditEvents == old(db.auditEvents) + [row]
    ensures r.Err? ==> r.code == UNIQUE_VIOLATION && db.auditEvents == old(db.auditEvents)
  {
    if AuditIdTaken(db.auditEvents, row.id) {
      return Err(UNIQUE_VIOLATION);
    }
    db.auditEvents := db.auditEvents + [row];
    r := Ok(());
  }

  /**
   * logAuditEvent: has no failure outcome. The event is appended when the insert
   * succeeds; an insert error is swallowed and leaves the log as it was.
   */
  method LogAuditEvent(db: Db, input: AuditEventInput, id: Id, now: Time)
    modifies db`auditEvents
    ensures db.auditEvents == if AuditIdTaken(old(db.auditEvents), id) then old(db.auditEvents)
                              else old(db.auditEvents) + [EventRow(input, id, now)]
  {
    var inserted := InsertAuditEvent(db, EventRow(input, id, now));
    if inserted.Err? {
      // best effort: the error is reported to the console and dropped
    }
  }

  /** The default page size. */
  const DEFAULT_LIMIT := 50

  /** clampLimit: a non-integer gives 50; otherwise the value clamped into [1, 200]. */
  function ClampLimit(value: Js.Number): (r: int)
    ensures 1 <= r <= 200
    ensures !Js.IsInteger(value) ==> r == DEFAULT_LIMIT
    ensures Js.IsInteger(value) && value.r < 1.0 ==> r == 1
    ensures Js.IsInteger(value) && value.r > 200.0 ==> r == 200
    ensures Js.IsInteger(value) && 1.0 <= value.r <= 200.0 ==> r as real == value.r
  {
    if !Js.IsFinite(value) || !Js.IsInteger(value) then DEFAULT_LIMIT
    else if value.r < 1.0 then 1
    else if value.r > 200.0 then 200
    else Js.IntOf(value)
  }

  /** `options.limit ?? 50`, clamped. */
  function EffectiveLimit(limit: Option<Js.Number>): (r: int)
    ensures 1 <= r <= 200
    ensures limit.None? ==> r == DEFAULT_LIMIT
  {
    ClampLimit(if limit.Some? then limit.value else Js.Finite(DEFAULT_LIMIT as real))
  }

  datatype ListOptions = ListOptions(limit: Option<Js.Number>, before: Option<Time>, beforeId: Option<string>)

  /** `(a.created_at, a.id) < (b.created_at, b.id)`, the key the log is paged by. */
  predicate KeyBefore(a: AuditEventRow, b: AuditEventRow) {
    a.createdAt < b.createdAt || (a.createdAt == b.createdAt && Collections.Compare(a.id, b.id) < 0)
  }

  /** The keys are ordered strictly: irreflexive, asymmetric and transitive. */
  lemma KeyOrderIsStrict(a: AuditEventRow, b: AuditEventRow, c: AuditEventRow)
    ensures !KeyBefore(a, a)
    ensures KeyBefore(a, b) ==> !KeyBefore(b, a)
    ensures KeyBefore(a, b) && KeyBefore(b, c) ==> KeyBefore(a, c)
    ensures !KeyBefore(a, b) && !KeyBefore(b, a) ==> a.createdAt == b.createdAt && a.id == b.id
  {
    Collections.CompareFlip(a.id, b.id);
    if a.createdAt == b.createdAt == c.createdAt && KeyBefore(a, b) && KeyBefore(b, c) {
      Collections.CompareTransitive(a.id, b.id, c.id);
    }
  }

  /** `order by created_at desc, id desc` */
  predicate NewestFirst(a: AuditEventRow, b: AuditEventRow) {
    !KeyBefore(a, b)
  }

  lemma NewestFirstIsTotal()
    ensures Collections.TotalPreorder(NewestFirst)
  {
    forall a: AuditEventRow, b: AuditEventRow ensures NewestFirst(a, b) || NewestFirst(b, a) {
      KeyOrderIsStrict(a, b, a);
    }
    forall a: AuditEventRow, b: AuditEventRow, c: AuditEventRow | NewestFirst(a, b) && NewestFirst(b, c)
      ensures NewestFirst(a, c)
    {
      KeyOrderIsStrict(a, c, b);
      KeyOrderIsStrict(c, b, a);
    }
  }

  /** Which events a page may start after. */
  datatype Cursor = NoCursor | BeforeTime(t: Time) | BeforeKey(t: Time, id: string)

  /** `before && before_id` picks the keyset cursor, `before` alone the time filter. */
  function CursorOf(options: ListOptions): Cursor {
    if options.before.Some? && options.beforeId.Some? && options.beforeId.value != "" then
      BeforeKey(options.before.value, options.beforeId.value)
    else if options.before.Some? then BeforeTime(options.before.value)
    else NoCursor
  }

  /** The cursor condition of the `where` clause. */
  predicate Older(c: Cursor, e: AuditEventRow) {
    match c
    case NoCursor => true
    case BeforeTime(t) => e.createdAt < t
    case BeforeKey(t, id) => e.createdAt < t || (e.createdAt == t && Collections.Compare(e.id, id) < 0)
  }

  /** Anything older than an event that passes a cursor passes it too. */
  lemma OlderIsDownwardClosed(c: Cursor, e: AuditEventRow, x: AuditEventRow)
    requires Older(c, e) && KeyBefore(x, e)
    ensures Older(c, x)
  {
    if c.BeforeKey? {
      var probe := AuditEventRow(c.id, None, "", "", None, None, Js.Null, c.t);
      assert KeyBefore(e, probe);
      KeyOrderIsStrict(x, e, probe);
    }
  }

  /** The pool's events that pass the cursor, in table order. */
  function Selected(events: seq<AuditEventRow>, poolId: Id, c: Cursor): (s: seq<AuditEventRow>)
    ensures forall x :: multiset(s)[x] == if x.poolId == Some(poolId) && Older(c, x) then multiset(events)[x] else 0
  {
    Collections.Filter(events, (e: AuditEventRow) => e.poolId == Some(poolId) && Older(c, e))
  }

  /** One page: the newest `limit` events of the pool that pass the cursor, newest first. */
  function Page(events: seq<AuditEventRow>, poolId: Id, c: Cursor, limit: nat): (p: seq<AuditEventRow>)
    ensures |p| <= limit
    ensures forall x :: x in p ==> x in events && x.poolId == Some(poolId) && Older(c, x)
    ensures forall i, j :: 0 <= i < j < |p| ==> NewestFirst(p[i], p[j])
    ensures p <= Collections.Sort(Selected(events, poolId, c), NewestFirst)
    ensures |p| == if limit < |Selected(events, poolId, c)| then limit else |Selected(events, poolId, c)|
  {
    var s := Selected(events, poolId, c);
    NewestFirstIsTotal();
    var sorted := Collections.Sort(s, NewestFirst);
    forall x | x in sorted ensures x in events && x.poolId == Some(poolId) && Older(c, x) {
      assert multiset(sorted)[x] > 0;
    }
    Collections.Take(sorted, limit)
  }

  /** The `where` clause as built: the pool placeholder and the cursor's placeholders. */
  datatype WhereClause =
    | PoolOnly(poolSlot: nat)
    | PoolBeforeTime(poolSlot: nat, timeSlot: nat)
    | PoolBeforeKey(poolSlot: nat, timeSlot: nat, idSlot: nat)

  /** The cursor a `where` clause states once its placeholders are bound, if they bind. */
  function ClauseCursor(w: WhereClause, params: seq<Param>): Option<(Id, Cursor)> {
    match w
    case PoolOnly(p) =>
      if Bind(params, p).Some? && Bind(params, p).value.PText? then Some((Bind(params, p).value.s, NoCursor)) else None
    case PoolBeforeTime(p, t) =>
      if Bind(params, p).Some? && Bind(params, p).value.PText? && Bind(params, t).Some? && Bind(params, t).value.PTime?
      then Some((Bind(params, p).value.s, BeforeTime(Bind(params, t).value.t))) else None
    case PoolBeforeKey(p, t, i) =>
      if Bind(params, p).Some? && Bind(params, p).value.PText? && Bind(params, t).Some? && Bind(params, t).value.PTime?
         && Bind(params, i).Some? && Bind(params, i).value.PText?
      then Some((Bind(params, p).value.s, BeforeKey(Bind(params, t).value.t, Bind(params, i).value.s))) else None
  }

  /** `mapAuditEventRow`: empty optional text columns read as null, missing metadata as `{}`. */
  function MapAuditEventRow(e: AuditEventRow): (m: AuditEventRow)
    ensures m.id == e.id && m.actor == e.actor && m.action == e.action && m.createdAt == e.createdAt
    ensures m.metadata == if e.metadata.Null? || e.metadata.Undefined? then Js.Obj(map[]) else e.metadata
    ensures m.poolId == NonEmpty(e.poolId) && m.entityType == NonEmpty(e.entityType) && m.entityId == NonEmpty(e.entityId)
  {
    e.(poolId := NonEmpty(e.poolId), entityType := NonEmpty(e.entityType), entityId := NonEmpty(e.entityId),
       metadata := if e.metadata.Null? || e.metadata.Undefined? then Js.Obj(map[]) else e.metadata)
  }

  /** A logged event reads back with the metadata object it was stored with. */
  lemma LoggedMetadataReadsBack(input: AuditEventInput, id: Id, now: Time)
    ensures MapAuditEventRow(EventRow(input, id, now)).metadata == EventRow(input, id, now).metadata
    ensures MapAuditEventRow(EventRow(input, id, now)).metadata.Obj?
  {
  }

  /**
   * The statement listAuditEvents builds: `where pool_id = $1`, the cursor condition
   * when `before` is given (with `$3` for the id only when `before_id` is too), and the
   * clamped limit pushed last. Once bound, the clause selects the pool and the cursor
   * the options describe, and the last placeholder holds the limit.
   */
  method BuildAuditQuery(poolId: Id, options: ListOptions) returns (where: WhereClause, params: seq<Param>, limitParam: nat)
    ensures ClauseCursor(where, params) == Some((poolId, CursorOf(options)))
    ensures limitParam == |params| && Bind(params, limitParam) == Some(PInt(EffectiveLimit(options.limit)))
  {
    var limit := EffectiveLimit(options.limit);
    params := [PText(poolId)];
    where := PoolOnly(1);
    if options.before.Some? && options.beforeId.Some? && options.beforeId.value != "" {
      params := params + [PTime(options.before.value), PText(options.beforeId.value)];
      where := PoolBeforeKey(1, 2, 3);
    } else if options.before.Some? {
      params := params + [PTime(options.before.value)];
      where := PoolBeforeTime(1, 2);
    }
    params := params + [PInt(limit)];
    limitParam := |params|;
  }

  /**
   * listAuditEvents: runs the built statement and maps the rows. The page holds the
   * newest events of the pool that pass the cursor, at most the clamped limit (50 by
   * default) of them.
   */
  method ListAuditEvents(db: Db, poolId: Id, options: ListOptions) returns (rows: seq<AuditEventRow>)
    ensures |rows| == |Page(db.auditEvents, poolId, CursorOf(options), EffectiveLimit(options.limit))|
    ensures forall i :: 0 <= i < |rows| ==>
      rows[i] == MapAuditEventRow(Page(db.auditEvents, poolId, CursorOf(options), EffectiveLimit(options.limit))[i])
  {
    var where, params, limitParam := BuildAuditQuery(poolId, options);
    rows := RunQuery(db.auditEvents, where, params, limitParam);
  }

  /** Runs the select with its bound clause; a clause whose placeholders do not bind selects nothing. */
  function RunQuery(events: seq<AuditEventRow>, where: WhereClause, params: seq<Param>, limitSlot: nat): (rows: seq<AuditEventRow>)
    ensures ClauseCursor(where, params).Some? && Bind(params, limitSlot).Some? && Bind(params, limitSlot).value.PInt?
            && Bind(params, limitSlot).value.i >= 0 ==>
      var bound := ClauseCursor(where, params).value;
      var page := Page(events, bound.0, bound.1, Bind(params, limitSlot).value.i);
      |rows| == |page| && forall i :: 0 <= i < |rows| ==> rows[i] == MapAuditEventRow(page[i])
  {
    match ClauseCursor(where, params)
    case None => []
    case Some(bound) =>
      if Bind(params, limitSlot).Some? && Bind(params, limitSlot).value.PInt? && Bind(params, limitSlot).value.i >= 0 then
        var page := Page(events, bound.0, bound.1, Bind(params, limitSlot).value.i);
        seq(|page|, i requires 0 <= i < |page| => MapAuditEventRow(page[i]))
      else []
  }

  /** Audit event ids are unique, as the primary key and InsertAuditEvent keep them. */
  ghost predicate UniqueIds(events: seq<AuditEventRow>) {
    forall i, j :: 0 <= i < |events| && 0 <= j < |events| && events[i].id == events[j].id ==> i == j
  }

  /**
   * Paging: taking the last event of a page as the next cursor gives exactly the events
   * of the first page's selection that the page did not show, all of them older than
   * everything on that page, so the pages are disjoint and continue the same order.
   */
  lemma NextPageContinues(events: seq<AuditEventRow>, poolId: Id, c: Cursor, limit: nat, x: AuditEventRow)
    requires UniqueIds(events)
    requires |Page(events, poolId, c, limit)| > 0
    ensures
      var p := Page(events, poolId, c, limit);
      var last := p[|p| - 1];
      var next := BeforeKey(last.createdAt, last.id);
      && (x in events && x.poolId == Some(poolId) && Older(next, x) <==>
            x in events && x.poolId == Some(poolId) && Older(c, x) && x !in p)
      && (x in events && Older(next, x) ==> forall y :: y in p ==> KeyBefore(x, y))
  {
    var p := Page(events, poolId, c, limit);
    var last := p[|p| - 1];
    var next := BeforeKey(last.createdAt, last.id);
    assert Older(next, x) <==> KeyBefore(x, last);
    PageNoOlderThanLast(events, poolId, c, limit);
    if x in events && Older(next, x) {
      forall y | y in p ensures KeyBefore(x, y) {
        KeyOrderIsStrict(x, last, y);
        KeyOrderIsStrict(last, y, x);
      }
      if x in p {
        KeyOrderIsStrict(x, x, x);
      }
      if x.poolId == Some(poolId) {
        OlderIsDownwardClosed(c, last, x);
      }
    }
    if x in events && x.poolId == Some(poolId) && Older(c, x) && x !in p {
      UnshownIsOlderThanLast(events, poolId, c, limit, x);
    }
  }

  /** No event of a page is older than the page's last one. */
  lemma PageNoOlderThanLast(events: seq<AuditEventRow>, poolId: Id, c: Cursor, limit: nat)
    requires |Page(events, poolId, c, limit)| > 0
    ensures var p := Page(events, poolId, c, limit);
      forall y :: y in p ==> !KeyBefore(y, p[|p| - 1])
  {
    var p := Page(events, poolId, c, limit);
    var n := |p| - 1;
    assert forall k :: 0 <= k < n ==> NewestFirst(p[k], p[n]);
    KeyOrderIsStrict(p[n], p[n], p[n]);
    forall y | y in p ensures !KeyBefore(y, p[n]) {
      var k :| 0 <= k < |p| && p[k] == y;
      assert k == n || NewestFirst(p[k], p[n]);
    }
  }

  /** A selected event that a page leaves out is older than the page's last one. */
  lemma UnshownIsOlderThanLast(events: seq<AuditEventRow>, poolId: Id, c: Cursor, limit: nat, x: AuditEventRow)
    requires UniqueIds(events)
    requires |Page(events, poolId, c, limit)| > 0
    requires x in events && x.poolId == Some(poolId) && Older(c, x) && x !in Page(events, poolId, c, limit)
    ensures var p := Page(events, poolId, c, limit); KeyBefore(x, p[|p| - 1])
  {
    var p := Page(events, poolId, c, limit);
    var last := p[|p| - 1];
    var s := Selected(events, poolId, c);
    NewestFirstIsTotal();
    var sorted := Collections.Sort(s, NewestFirst);
    assert p <= sorted;
    assert multiset(s)[x] > 0;
    assert x in sorted;
    var k :| 0 <= k < |sorted| && sorted[k] == x;
    assert k >= |p|;
    assert NewestFirst(sorted[|p| - 1], sorted[k]);
    assert last in events && x != last;
    var i :| 0 <= i < |events| && events[i] == x;
    var j :| 0 <= j < |events| && events[j] == last;
    KeyOrderIsStrict(x, last, x);
  }
}
