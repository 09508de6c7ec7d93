/**
 * Payout configuration: an append-only list of (round, amount, effective time)
 * versions per pool, the default seed, the latest-version read and the validation
 * of an admin's new payout table.
 */
module Payouts {
  import opened Wrappers
  import opened Store
  import opened Sql
  import Js
  import Collections

  /** `ROUND_KEYS`, in bracket order. */
  const ROUND_KEYS: seq<string> := ["round_of_64", "round_of_32", "sweet_16", "elite_8", "final_4", "championship"]

  /** `DEFAULT_PAYOUTS_CENTS` */
  function DefaultCents(key: string): int
    requires key in ROUND_KEYS
  {
    if key == "round_of_64" then 2500
    else if key == "round_of_32" then 4000
    else if key == "sweet_16" then 5000
    else if key == "elite_8" then 6000
    else if key == "final_4" then 8000
    else 26000
  }

  /** The round keys as a set: the keys of every `Record<RoundKey, number>`. */
  function RoundKeySet(): set<string> {
    set k | 0 <= k < |ROUND_KEYS| :: ROUND_KEYS[k]
  }

  lemma RoundKeysDistinct()
    ensures forall i, j :: 0 <= i < j < |ROUND_KEYS| ==> ROUND_KEYS[i] != ROUND_KEYS[j]
  {
  }

  // ---------------------------------------------------------------------------
  // seedDefaultPayouts
  // ---------------------------------------------------------------------------

  /** The loop of seedDefaultPayouts: round k pushes `($4k+1, ..., $4k+4)` and id, pool, key, default amount. */
  method BuildPayoutValues(poolId: Id, ids: seq<Id>) returns (values: seq<Tuple>, params: seq<Param>)
    requires |ids| == |ROUND_KEYS|
    ensures |values| == |ROUND_KEYS| && |params| == 4 * |ROUND_KEYS|
    ensures forall k :: 0 <= k < |ROUND_KEYS| ==>
      && values[k] == FourSlots(k)
      && params[4 * k .. 4 * k + 4] == [PText(ids[k]), PText(poolId), PText(ROUND_KEYS[k]), PInt(DefaultCents(ROUND_KEYS[k]))]
  {
    values, params := [], [];
    var paramIndex := 1;
    for k := 0 to |ROUND_KEYS|
      invariant |values| == k && |params| == 4 * k && paramIndex == 4 * k + 1
      invariant forall m :: 0 <= m < k ==>
        && values[m] == FourSlots(m)
        && params[4 * m .. 4 * m + 4] == [PText(ids[m]), PText(poolId), PText(ROUND_KEYS[m]), PInt(DefaultCents(ROUND_KEYS[m]))]
    {
      var roundKey := ROUND_KEYS[k];
      ghost var before := params;
      ghost var pushed := [PText(ids[k]), PText(poolId), PText(roundKey), PInt(DefaultCents(roundKey))];
      values := values + [Tuple([paramIndex, paramIndex + 1, paramIndex + 2, paramIndex + 3])];
      params := params + [PText(ids[k]), PText(poolId), PText(roundKey), PInt(DefaultCents(roundKey))];
      paramIndex := paramIndex + 4;
      assert params == before + pushed;
      assert params[4 * k .. 4 * k + 4] == pushed;
      forall m | 0 <= m < k
        ensures params[4 * m .. 4 * m + 4] == before[4 * m .. 4 * m + 4]
      {
        Sql.SliceOfPrefix(before, pushed, 4 * m, 4 * m + 4);
      }
    }
  }

  /** The default rows a pool is seeded with; effective_at takes the column default, the insert time. */
  function DefaultPayoutRows(poolId: Id, ids: seq<Id>, now: Time): (r: seq<PayoutRow>)
    requires |ids| == |ROUND_KEYS|
    ensures |r| == |ROUND_KEYS|
  {
    seq(|ROUND_KEYS|, k requires 0 <= k < |ROUND_KEYS| =>
      PayoutRow(ids[k], poolId, ROUND_KEYS[k], DefaultCents(ROUND_KEYS[k]), Some(now)))
  }

  /** How the store reads one `(id, pool_id, round_key, amount_cents)` group. */
  function DecodePayout(t: Tuple, params: seq<Param>, now: Time): Option<PayoutRow> {
    if |t.slots| != 4 then None
    else
      match (Bind(params, t.slots[0]), Bind(params, t.slots[1]), Bind(params, t.slots[2]), Bind(params, t.slots[3]))
      case (Some(PText(id)), Some(PText(pool)), Some(PText(key)), Some(PInt(amount))) =>
        Some(PayoutRow(id, pool, key, amount, Some(now)))
      case _ => None
  }

  function DecodePayouts(values: seq<Tuple>, params: seq<Param>, now: Time): Option<seq<PayoutRow>> {
    if forall k :: 0 <= k < |values| ==> DecodePayout(values[k], params, now).Some? then
      Some(seq(|values|, k requires 0 <= k < |values| => DecodePayout(values[k], params, now).value))
    else None
  }

  /** The built statement inserts exactly the default rows. */
  lemma {:induction false} BuiltPayoutsDecodeToDefaults(poolId: Id, ids: seq<Id>, now: Time, values: seq<Tuple>, params: seq<Param>)
    requires |ids| == |ROUND_KEYS|
    requires |values| == |ROUND_KEYS| && |params| == 4 * |ROUND_KEYS|
    requires forall k :: 0 <= k < |ROUND_KEYS| ==>
      && values[k] == FourSlots(k)
      && params[4 * k .. 4 * k + 4] == [PText(ids[k]), PText(poolId), PText(ROUND_KEYS[k]), PInt(DefaultCents(ROUND_KEYS[k]))]
    ensures DecodePayouts(values, params, now) == Some(DefaultPayoutRows(poolId, ids, now))
  {
    var d := DefaultPayoutRows(poolId, ids, now);
    forall k | 0 <= k < |ROUND_KEYS| ensures DecodePayout(values[k], params, now) == Some(d[k]) {
      var p := params[4 * k .. 4 * k + 4];
      assert params[4 * k] == p[0] && params[4 * k + 1] == p[1] && params[4 * k + 2] == p[2] && params[4 * k + 3] == p[3];
    }
    assert DecodePayouts(values, params, now).value == d;
  }

  /** seedDefaultPayouts: one row per round key, with that key's default amount. */
  method SeedDefaultPayouts(db: Db, poolId: Id, ids: seq<Id>, now: Time) returns (r: Result<()>)
    requires |ids| == |ROUND_KEYS|
    modifies db`payoutConfigs
    ensures r.Ok? <==> PayoutBatchFits(old(db.payoutConfigs), DefaultPayoutRows(poolId, ids, now))
    ensures r.Ok? ==> db.payoutConfigs == old(db.payoutConfigs) + DefaultPayoutRows(poolId, ids, now)
    ensures r.Err? ==> r.code == UNIQUE_VIOLATION && db.payoutConfigs == old(db.payoutConfigs)
  {
    var values, params := BuildPayoutValues(poolId, ids);
    BuiltPayoutsDecodeToDefaults(poolId, ids, now, values, params);
    var batch := DecodePayouts(values, params, now).value;
    if !PayoutBatchFits(db.payoutConfigs, batch) {
      return Err(UNIQUE_VIOLATION);
    }
    db.payoutConfigs := db.payoutConfigs + batch;
    r := Ok(());
  }

  /** The seed holds exactly one row per round key, carrying the default amount, all in the pool. */
  lemma DefaultRowsOnePerRound(poolId: Id, ids: seq<Id>, now: Time, k: int)
    requires |ids| == |ROUND_KEYS| && 0 <= k < |ROUND_KEYS|
    ensures var d := DefaultPayoutRows(poolId, ids, now);
      && d[k].roundKey == ROUND_KEYS[k] && d[k].amountCents == DefaultCents(ROUND_KEYS[k]) && d[k].poolId == poolId
      && forall j :: 0 <= j < |d| && d[j].roundKey == ROUND_KEYS[k] ==> j == k
  {
    RoundKeysDistinct();
  }

  // ---------------------------------------------------------------------------
  // Latest version per round
  // ---------------------------------------------------------------------------

  /** `row.effective_at ? new Date(row.effective_at) : new Date(0)` */
  function EffectiveTime(row: PayoutRow): Time {
    row.effectiveAt.GetOr(0)
  }

  /** getLatestPayouts' replacement test: strictly later, with a missing time counting as epoch 0. */
  predicate JsNewer(a: PayoutRow, b: PayoutRow) {
    EffectiveTime(a) > EffectiveTime(b)
  }

  /** `order by effective_at desc`: PostgreSQL puts nulls first in a descending sort. */
  predicate SqlNewer(a: PayoutRow, b: PayoutRow) {
    || (a.effectiveAt.None? && b.effectiveAt.Some?)
    || (a.effectiveAt.Some? && b.effectiveAt.Some? && a.effectiveAt.value > b.effectiveAt.value)
  }

  /** "Strictly newer" ranks rows: irreflexive, transitive, and incomparability is transitive. */
  ghost predicate StrictWeakOrder(newer: (PayoutRow, PayoutRow) -> bool) {
    && (forall a :: !newer(a, a))
    && (forall a, b, c :: newer(a, b) && newer(b, c) ==> newer(a, c))
    && (forall a, b, c :: newer(a, c) ==> newer(a, b) || newer(b, c))
  }

  lemma NewerOrdersAreStrictWeak()
    ensures StrictWeakOrder(JsNewer)
    ensures StrictWeakOrder(SqlNewer)
  {
  }

  /**
   * The position of the version of `key` a scan in row order keeps: a row replaces
   * the kept one only when it is strictly newer, so a tie keeps the first row; -1 if
   * no row has that key.
   */
  function LatestIndex(rows: seq<PayoutRow>, key: string, newer: (PayoutRow, PayoutRow) -> bool): (r: int)
    ensures -1 <= r < |rows|
    ensures r >= 0 ==> rows[r].roundKey == key
  {
    if |rows| == 0 then -1
    else
      var prev := LatestIndex(rows[..|rows| - 1], key, newer);
      var x := rows[|rows| - 1];
      if x.roundKey != key then prev
      else if prev == -1 || newer(x, rows[prev]) then |rows| - 1
      else prev
  }

  /**
   * The kept row is a newest row of its round (no row of the round is newer), it is
   * strictly newer than every earlier row of the round, and there is none exactly when
   * no row has the round.
   */
  lemma {:induction false} LatestIndexIsNewest(rows: seq<PayoutRow>, key: string, newer: (PayoutRow, PayoutRow) -> bool)
    requires StrictWeakOrder(newer)
    ensures var i := LatestIndex(rows, key, newer);
      && (i == -1 <==> forall j :: 0 <= j < |rows| ==> rows[j].roundKey != key)
      && (i >= 0 ==> forall j :: 0 <= j < |rows| && rows[j].roundKey == key ==> !newer(rows[j], rows[i]))
      && (i >= 0 ==> forall j :: 0 <= j < i && rows[j].roundKey == key ==> newer(rows[i], rows[j]))
  {
    if |rows| > 0 {
      var init := rows[..|rows| - 1];
      LatestIndexIsNewest(init, key, newer);
      var prev := LatestIndex(init, key, newer);
      var n := |rows| - 1;
      var x := rows[n];
      assert forall j :: 0 <= j < n ==> rows[j] == init[j];
      if x.roundKey == key && (prev == -1 || newer(x, rows[prev])) {
        forall j | 0 <= j < n && rows[j].roundKey == key ensures newer(x, rows[j]) {
          assert init[j].roundKey == key;
          if j != prev {
            assert !newer(rows[j], rows[prev]);
          }
        }
      }
    }
  }

  /** Appending a version strictly newer than every row of its round makes it the one kept. */
  lemma AppendedNewerVersionWins(rows: seq<PayoutRow>, row: PayoutRow, newer: (PayoutRow, PayoutRow) -> bool)
    requires forall j :: 0 <= j < |rows| && rows[j].roundKey == row.roundKey ==> newer(row, rows[j])
    ensures LatestIndex(rows + [row], row.roundKey, newer) == |rows|
  {
    assert (rows + [row])[..|rows|] == rows;
  }

  /** Appending a row of another round, or of a key outside ROUND_KEYS, changes no round's choice. */
  lemma AppendedOtherRoundIgnored(rows: seq<PayoutRow>, row: PayoutRow, key: string, newer: (PayoutRow, PayoutRow) -> bool)
    requires row.roundKey != key
    ensures LatestIndex(rows + [row], key, newer) == LatestIndex(rows, key, newer)
  {
    assert (rows + [row])[..|rows|] == rows;
  }

  /** Where no version of the round lacks an effective time, the scan and the SQL order pick the same row. */
  lemma {:induction false} ScanAgreesWithSqlWithoutNulls(rows: seq<PayoutRow>, key: string)
    requires forall j :: 0 <= j < |rows| && rows[j].roundKey == key ==> rows[j].effectiveAt.Some?
    ensures LatestIndex(rows, key, JsNewer) == LatestIndex(rows, key, SqlNewer)
  {
    if |rows| > 0 {
      var init := rows[..|rows| - 1];
      assert forall j :: 0 <= j < |init| ==> init[j] == rows[j];
      ScanAgreesWithSqlWithoutNulls(init, key);
    }
  }

  /** With a version lacking its time, the two disagree: the scan reads it as oldest, SQL as newest. */
  lemma NullEffectiveTimeSplitsTheOrders()
    ensures var rows := [PayoutRow("a", "p", "sweet_16", 100, Some(5)), PayoutRow("b", "p", "sweet_16", 200, None)];
      LatestIndex(rows, "sweet_16", JsNewer) == 0 && LatestIndex(rows, "sweet_16", SqlNewer) == 1
  {
    var rows := [PayoutRow("a", "p", "sweet_16", 100, Some(5)), PayoutRow("b", "p", "sweet_16", 200, None)];
    assert rows[..1] == [rows[0]];
    assert rows[..1][..0] == [];
  }

  /** `select ... from payout_configs where pool_id = $1` */
  function PoolPayouts(payoutConfigs: seq<PayoutRow>, poolId: Id): seq<PayoutRow> {
    Collections.Filter(payoutConfigs, (p: PayoutRow) => p.poolId == poolId)
  }

  /** What getLatestPayouts keeps per round during its scan. */
  datatype Entry = Entry(amount: int, effectiveAt: Time)

  datatype LatestPayouts = LatestPayouts(payouts: map<string, int>, lastUpdated: Option<Time>)

  /** The version of `key` the scan keeps, as an entry. */
  function Chosen(rows: seq<PayoutRow>, key: string): Entry
    requires LatestIndex(rows, key, JsNewer) >= 0
  {
    var m := LatestIndex(rows, key, JsNewer);
    Entry(rows[m].amountCents, EffectiveTime(rows[m]))
  }

  predicate EveryRoundPriced(rows: seq<PayoutRow>) {
    forall k :: 0 <= k < |ROUND_KEYS| ==> LatestIndex(rows, ROUND_KEYS[k], JsNewer) >= 0
  }

  /** What the scan has kept after reading `prefix`: the chosen entry of every known round present. */
  ghost predicate ScanHolds(prefix: seq<PayoutRow>, latestByRound: map<string, Entry>) {
    && (forall key :: key in latestByRound <==> key in ROUND_KEYS && LatestIndex(prefix, key, JsNewer) >= 0)
    && (forall key :: key in latestByRound ==> latestByRound[key] == Chosen(prefix, key))
  }

  /** One step of the scan keeps ScanHolds: `next` is the map after reading `row`. */
  lemma ScanStep(prefix: seq<PayoutRow>, row: PayoutRow, latestByRound: map<string, Entry>, next: map<string, Entry>)
    requires ScanHolds(prefix, latestByRound)
    requires row.roundKey !in ROUND_KEYS ==> next == latestByRound
    requires row.roundKey in ROUND_KEYS ==>
      next == if row.roundKey !in latestByRound || EffectiveTime(row) > latestByRound[row.roundKey].effectiveAt
              then latestByRound[row.roundKey := Entry(row.amountCents, EffectiveTime(row))]
              else latestByRound
    ensures ScanHolds(prefix + [row], next)
  {
    var rows := prefix + [row];
    assert rows[..|prefix|] == prefix;
    forall key | key != row.roundKey
      ensures LatestIndex(rows, key, JsNewer) == LatestIndex(prefix, key, JsNewer)
    {
      AppendedOtherRoundIgnored(prefix, row, key, JsNewer);
    }
  }

  /** The first loop of getLatestPayouts: the kept entry of every known round that has a row. */
  method ScanLatest(rows: seq<PayoutRow>) returns (latestByRound: map<string, Entry>)
    ensures forall key :: key in latestByRound <==> key in ROUND_KEYS && LatestIndex(rows, key, JsNewer) >= 0
    ensures forall key :: key in latestByRound ==> latestByRound[key] == Chosen(rows, key)
  {
    latestByRound := map[];
    for i := 0 to |rows|
      invariant ScanHolds(rows[..i], latestByRound)
    {
      var row := rows[i];
      assert rows[..i + 1] == rows[..i] + [row];
      ghost var before := latestByRound;
      var roundKey := row.roundKey;
      if roundKey !in ROUND_KEYS {
        ScanStep(rows[..i], row, before, latestByRound);
        continue;
      }
      var effectiveAt := EffectiveTime(row);
      if roundKey !in latestByRound || effectiveAt > latestByRound[roundKey].effectiveAt {
        latestByRound := latestByRound[roundKey := Entry(row.amountCents, effectiveAt)];
      }
      ScanStep(rows[..i], row, before, latestByRound);
    }
    assert rows[..|rows|] == rows;
  }

  /**
   * The second loop of getLatestPayouts over `keys`: `payouts_missing` at the first key
   * without an entry; otherwise each key's amount and the latest of their times
   * (null only when there are no keys).
   */
  method CollectRounds(keys: seq<string>, latestByRound: map<string, Entry>) returns (r: Result<LatestPayouts>)
    ensures r.Err? <==> exists m :: 0 <= m < |keys| && keys[m] !in latestByRound
    ensures r.Err? ==> r.code == "payouts_missing"
    ensures r.Ok? ==> r.value.payouts.Keys == set m | 0 <= m < |keys| :: keys[m]
    ensures r.Ok? ==> forall m :: 0 <= m < |keys| ==> r.value.payouts[keys[m]] == latestByRound[keys[m]].amount
    ensures r.Ok? ==> (r.value.lastUpdated.None? <==> |keys| == 0)
    ensures r.Ok? && r.value.lastUpdated.Some? ==>
      && (forall m :: 0 <= m < |keys| ==> latestByRound[keys[m]].effectiveAt <= r.value.lastUpdated.value)
      && (exists m :: 0 <= m < |keys| && latestByRound[keys[m]].effectiveAt == r.value.lastUpdated.value)
  {
    var payouts: map<string, int> := map[];
    var lastUpdated: Option<Time> := None;
    for k := 0 to |keys|
      invariant payouts.Keys == set m | 0 <= m < k :: keys[m]
      invariant forall m :: 0 <= m < k ==> keys[m] in latestByRound
      invariant forall m :: 0 <= m < k ==> payouts[keys[m]] == latestByRound[keys[m]].amount
      invariant lastUpdated.None? <==> k == 0
      invariant lastUpdated.Some? ==> forall m :: 0 <= m < k ==> latestByRound[keys[m]].effectiveAt <= lastUpdated.value
      invariant lastUpdated.Some? ==> exists m :: 0 <= m < k && latestByRound[keys[m]].effectiveAt == lastUpdated.value
    {
      var roundKey := keys[k];
      if roundKey !in latestByRound {
        return Err("payouts_missing");
      }
      var current := latestByRound[roundKey];
      payouts := payouts[roundKey := current.amount];
      if lastUpdated.None? || current.effectiveAt > lastUpdated.value {
        lastUpdated := Some(current.effectiveAt);
      }
    }
    r := Ok(LatestPayouts(payouts, lastUpdated));
  }

  /**
   * getLatestPayouts: per round, the amount of the newest version (ties to the first
   * row); `payouts_missing` when some round has none; last_updated is the latest
   * effective time among the chosen versions.
   */
  method GetLatestPayouts(db: Db, poolId: Id) returns (r: Result<LatestPayouts>)
    ensures var rows := PoolPayouts(db.payoutConfigs, poolId);
      && (r.Err? <==> !EveryRoundPriced(rows))
      && (r.Err? ==> r.code == "payouts_missing")
      && (r.Ok? ==> r.value.payouts.Keys == RoundKeySet())
      && (r.Ok? ==> forall k :: 0 <= k < |ROUND_KEYS| ==> r.value.payouts[ROUND_KEYS[k]] == Chosen(rows, ROUND_KEYS[k]).amount)
      && (r.Ok? ==> r.value.lastUpdated.Some?)
      && (r.Ok? ==> forall k :: 0 <= k < |ROUND_KEYS| ==> Chosen(rows, ROUND_KEYS[k]).effectiveAt <= r.value.lastUpdated.value)
      && (r.Ok? ==> exists k :: 0 <= k < |ROUND_KEYS| && Chosen(rows, ROUND_KEYS[k]).effectiveAt == r.value.lastUpdated.value)
  {
    var rows := PoolPayouts(db.payoutConfigs, poolId);
    var latestByRound := ScanLatest(rows);
    r := CollectRounds(ROUND_KEYS, latestByRound);
  }

  /**
   * Right after seeding an empty pool, each round's latest version is its default row,
   * so the read returns the default table.
   */
  lemma SeededPoolReadsDefaults(poolId: Id, ids: seq<Id>, now: Time, k: int)
    requires |ids| == |ROUND_KEYS| && 0 <= k < |ROUND_KEYS|
    ensures var d := DefaultPayoutRows(poolId, ids, now);
      var i := LatestIndex(d, ROUND_KEYS[k], JsNewer);
      i == k && d[i].amountCents == DefaultCents(ROUND_KEYS[k])
  {
    var d := DefaultPayoutRows(poolId, ids, now);
    DefaultRowsOnePerRound(poolId, ids, now, k);
    NewerOrdersAreStrictWeak();
    LatestIndexIsNewest(d, ROUND_KEYS[k], JsNewer);
    assert d[k].roundKey == ROUND_KEYS[k];
  }

  /** Appending rows of a pool to a table that has none leaves the pool with just those rows. */
  lemma FreshPoolReadsOnlyAppended(table: seq<PayoutRow>, added: seq<PayoutRow>, poolId: Id)
    requires forall i :: 0 <= i < |table| ==> table[i].poolId != poolId
    requires forall i :: 0 <= i < |added| ==> added[i].poolId == poolId
    ensures PoolPayouts(table + added, poolId) == added
  {
    var ofPool := (p: PayoutRow) => p.poolId == poolId;
    assert PoolPayouts(table + added, poolId) == Collections.Filter(table + added, ofPool);
    Collections.FilterAppend(table, added, ofPool);
    Collections.FilterKeepsAll(added, ofPool);
  }

  /**
   * Seeding a pool that has no payout rows yet: the rows getLatestPayouts reads are
   * exactly the seed, every round is priced, and each round reads its default amount.
   */
  lemma SeededEmptyPoolReadsDefaults(table: seq<PayoutRow>, poolId: Id, ids: seq<Id>, now: Time)
    requires |ids| == |ROUND_KEYS|
    requires forall i :: 0 <= i < |table| ==> table[i].poolId != poolId
    ensures PoolPayouts(table + DefaultPayoutRows(poolId, ids, now), poolId) == DefaultPayoutRows(poolId, ids, now)
    ensures EveryRoundPriced(DefaultPayoutRows(poolId, ids, now))
    ensures forall k :: 0 <= k < |ROUND_KEYS| ==>
      Chosen(DefaultPayoutRows(poolId, ids, now), ROUND_KEYS[k]).amount == DefaultCents(ROUND_KEYS[k])
  {
    var d := DefaultPayoutRows(poolId, ids, now);
    FreshPoolReadsOnlyAppended(table, d, poolId);
    forall k | 0 <= k < |ROUND_KEYS|
      ensures LatestIndex(d, ROUND_KEYS[k], JsNewer) >= 0 && Chosen(d, ROUND_KEYS[k]).amount == DefaultCents(ROUND_KEYS[k])
    {
      SeededPoolReadsDefaults(poolId, ids, now, k);
    }
  }

  // ---------------------------------------------------------------------------
  // validatePayoutPayload
  // ---------------------------------------------------------------------------

  /** The payload is an object whose `payouts` member is a plain (non-array) object. */
  predicate HasPayoutTable(payload: Js.Value) {
    Js.Truthy(payload) && Js.IsObject(payload) && Js.Get(payload, "payouts").Obj?
  }

  predicate HasUnknownKey(table: map<string, Js.Value>, keys: seq<string>) {
    exists key :: key in table && key !in keys
  }

  predicate MissesRoundKey(table: map<string, Js.Value>, keys: seq<string>) {
    exists k :: 0 <= k < |keys| && keys[k] !in table
  }

  /** `!Number.isFinite(value) || !Number.isInteger(value) || value < 0` */
  predicate IsBadAmount(n: Js.Number) {
    !Js.IsFinite(n) || !Js.IsInteger(n) || n.r < 0.0
  }

  predicate HasBadAmount(table: map<string, Js.Value>, keys: seq<string>, parse: string -> Js.Number)
    requires !MissesRoundKey(table, keys)
  {
    exists k :: 0 <= k < |keys| && IsBadAmount(Js.ToNumber(table[keys[k]], parse))
  }

  /**
   * The checks of validatePayoutPayload on the `payouts` object, for the round keys
   * `keys`: unknown keys, then missing keys, then amounts, in that order.
   */
  method ValidateTable(table: map<string, Js.Value>, keys: seq<string>, parse: string -> Js.Number) returns (r: Result<map<string, int>>)
    ensures
      if HasUnknownKey(table, keys) then r == Err("unknown_round_key")
      else if MissesRoundKey(table, keys) then r == Err("missing_round_key")
      else if HasBadAmount(table, keys, parse) then r == Err("invalid_amount")
      else
        && r.Ok?
        && r.value.Keys == (set k | 0 <= k < |keys| :: keys[k])
        && forall k :: 0 <= k < |keys| ==>
             r.value[keys[k]] >= 0 && Js.ToNumber(table[keys[k]], parse) == Js.Finite(r.value[keys[k]] as real)
  {
    var unknownKeys := set key | key in table && key !in keys;
    if |unknownKeys| > 0 {
      return Err("unknown_round_key");
    }
    assert forall key :: key in table ==> key in keys || key in unknownKeys;
    assert unknownKeys == {};

    for k := 0 to |keys|
      invariant forall m :: 0 <= m < k ==> keys[m] in table
    {
      if keys[k] !in table {
        return Err("missing_round_key");
      }
    }

    var payouts: map<string, int> := map[];
    for k := 0 to |keys|
      invariant payouts.Keys == set m | 0 <= m < k :: keys[m]
      invariant forall m :: 0 <= m < k ==> !IsBadAmount(Js.ToNumber(table[keys[m]], parse))
      invariant forall m :: 0 <= m < k ==>
        payouts[keys[m]] >= 0 && Js.ToNumber(table[keys[m]], parse) == Js.Finite(payouts[keys[m]] as real)
    {
      var value := Js.ToNumber(table[keys[k]], parse);
      if !Js.IsFinite(value) || !Js.IsInteger(value) || value.r < 0.0 {
        return Err("invalid_amount");
      }
      payouts := payouts[keys[k] := Js.IntOf(value)];
    }
    r := Ok(payouts);
  }

  /**
   * validatePayoutPayload: `invalid_payload`, then `unknown_round_key`, then
   * `missing_round_key`, then `invalid_amount`; on success exactly the six rounds,
   * each the non-negative integer its input converts to.
   */
  method ValidatePayoutPayload(payload: Js.Value, parse: string -> Js.Number) returns (r: Result<map<string, int>>)
    ensures !HasPayoutTable(payload) ==> r == Err("invalid_payload")
    ensures HasPayoutTable(payload) ==>
      var table := Js.Get(payload, "payouts").props;
      if HasUnknownKey(table, ROUND_KEYS) then r == Err("unknown_round_key")
      else if MissesRoundKey(table, ROUND_KEYS) then r == Err("missing_round_key")
      else if HasBadAmount(table, ROUND_KEYS, parse) then r == Err("invalid_amount")
      else
        && r.Ok?
        && r.value.Keys == RoundKeySet()
        && forall k :: 0 <= k < |ROUND_KEYS| ==>
             r.value[ROUND_KEYS[k]] >= 0 && Js.ToNumber(table[ROUND_KEYS[k]], parse) == Js.Finite(r.value[ROUND_KEYS[k]] as real)
  {
    if !Js.Truthy(payload) || !Js.IsObject(payload) {
      return Err("invalid_payload");
    }
    var data := Js.Get(payload, "payouts");
    if !Js.Truthy(data) || !Js.IsObject(data) || data.Arr? {
      return Err("invalid_payload");
    }
    r := ValidateTable(data.props, ROUND_KEYS, parse);
  }
}
