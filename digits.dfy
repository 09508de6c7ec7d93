/**
 * The digit map of a pool: two permutations of 0..9 (one per axis of the grid)
 * and the two set-once timestamps that make it visible.
 */
module Digits {
  import opened Wrappers
  import opened Store
  import Js

  /** `DIGITS`: 0, 1, ..., 9. */
  const DIGITS: seq<int> := [0, 1, 2, 3, 4, 5, 6, 7, 8, 9]

  /** A list of ten integers in which every digit 0..9 occurs exactly once. */
  predicate IsDigitPermutation(ds: seq<int>) {
    && |ds| == 10
    && (forall i, j :: 0 <= i < j < |ds| ==> ds[i] != ds[j])
    && (forall d :: 0 <= d < 10 ==> d in ds)
  }

  /**
   * generatePermutation, with the random draws as input: `choices[k]` is the index j
   * drawn when i = 9 - k, so it lies in [0, i]. Whatever the draws, the result is a
   * permutation of the digits.
   */
  method GeneratePermutation(choices: seq<nat>) returns (result: seq<int>)
    requires |choices| == 9
    requires forall k :: 0 <= k < 9 ==> choices[k] <= 9 - k
    ensures multiset(result) == multiset(DIGITS)
    ensures IsDigitPermutation(result)
  {
    var a := new int[10](k => k);
    ghost var start := a[..];
    var i := 9;
    while i > 0
      invariant 0 <= i <= 9
      invariant multiset(a[..]) == multiset(start)
    {
      var j := choices[9 - i];
      ghost var before := a[..];
      a[i], a[j] := a[j], a[i];
      SwapKeepsMultiset(before, i, j);
      assert a[..] == before[i := before[j]][j := before[i]];
      i := i - 1;
    }
    result := a[..];
    assert start == DIGITS;
    ShuffledDigitsArePermutation(result);
  }

  /** Exchanging two entries keeps the multiset. */
  lemma SwapKeepsMultiset(s: seq<int>, i: int, j: int)
    requires 0 <= i < |s| && 0 <= j < |s|
    ensures multiset(s[i := s[j]][j := s[i]]) == multiset(s)
  {
  }

  /** A list with the digits' multiset holds each digit once. */
  lemma ShuffledDigitsArePermutation(s: seq<int>)
    requires multiset(s) == multiset(DIGITS)
    ensures IsDigitPermutation(s)
  {
    assert |s| == |multiset(s)| == |DIGITS| == 10;
    DigitsListed();
    forall d | 0 <= d < 10 ensures d in s {
      assert DIGITS[d] in multiset(DIGITS);
    }
    forall i, j | 0 <= i < j < |s| ensures s[i] != s[j] {
      if s[i] == s[j] {
        RepeatCountsTwice(s, i, j);
        DistinctCountAtMostOne(DIGITS, s[i]);
      }
    }
  }

  lemma DigitsListed()
    ensures Distinct(DIGITS)
    ensures forall d :: 0 <= d < 10 ==> DIGITS[d] == d
  {
  }

  /** A value at two positions occurs at least twice. */
  lemma RepeatCountsTwice<T>(s: seq<T>, i: int, j: int)
    requires 0 <= i < j < |s| && s[i] == s[j]
    ensures multiset(s)[s[i]] >= 2
  {
    assert s == s[..j] + s[j..];
    assert s[i] in s[..j];
    assert s[j] in s[j..];
  }

  /** In a list without duplicates each value occurs at most once. */
  lemma {:induction false} DistinctCountAtMostOne<T>(s: seq<T>, v: T)
    requires Distinct(s)
    ensures multiset(s)[v] <= 1
  {
    if |s| > 0 {
      assert s == [s[0]] + s[1..];
      assert Distinct(s[1..]) by {
        forall i, j | 0 <= i < j < |s[1..]| ensures s[1..][i] != s[1..][j] { assert s[i + 1] != s[j + 1]; }
      }
      DistinctCountAtMostOne(s[1..], v);
      if s[0] == v {
        assert v !in s[1..];
      }
    }
  }

  /** `new Set(values)` */
  function ToSet<T>(s: seq<T>): set<T> {
    set k | 0 <= k < |s| :: s[k]
  }

  predicate Distinct<T(==)>(s: seq<T>) {
    forall i, j :: 0 <= i < j < |s| ==> s[i] != s[j]
  }

  /** A list has as many distinct values as elements exactly when it has no duplicates. */
  lemma {:induction false} SetSizeDetectsDuplicates<T>(s: seq<T>)
    ensures |ToSet(s)| <= |s|
    ensures |ToSet(s)| == |s| <==> Distinct(s)
  {
    if |s| == 0 {
      assert ToSet(s) == {};
    } else {
      var init := s[..|s| - 1];
      var x := s[|s| - 1];
      SetSizeDetectsDuplicates(init);
      assert ToSet(s) == ToSet(init) + {x} by {
        forall y | y in ToSet(s) ensures y in ToSet(init) + {x} {
          var k :| 0 <= k < |s| && s[k] == y;
          if k < |s| - 1 { assert init[k] == y; }
        }
        forall y | y in ToSet(init) ensures y in ToSet(s) {
          var k :| 0 <= k < |init| && init[k] == y;
          assert s[k] == y;
        }
      }
      if x in ToSet(init) {
        var k :| 0 <= k < |init| && init[k] == x;
        assert s[k] == s[|s| - 1];
        assert !Distinct(s);
      } else {
        assert |ToSet(s)| == |ToSet(init)| + 1;
        if Distinct(s) {
          assert Distinct(init) by {
            forall i, j | 0 <= i < j < |init| ensures init[i] != init[j] { assert s[i] != s[j]; }
          }
        } else {
          var i, j :| 0 <= i < j < |s| && s[i] == s[j];
          if j == |s| - 1 {
            assert false;
          } else {
            assert init[i] == init[j];
          }
        }
      }
    }
  }

  /** The digit d as a JS number. */
  function Digit(d: int): Js.Number {
    Js.Finite(d as real)
  }

  /** What isValidPermutation accepts: ten values, no duplicates, and every digit among them. */
  predicate IsValidPermutationSpec(values: seq<Js.Number>) {
    && |values| == 10
    && Distinct(values)
    && (forall d :: 0 <= d < 10 ==> Digit(d) in values)
  }

  /** isValidPermutation: length check, set size check, then a membership check per digit. */
  method IsValidPermutation(values: seq<Js.Number>) returns (ok: bool)
    ensures ok <==> IsValidPermutationSpec(values)
  {
    if |values| != 10 {
      return false;
    }
    var unique: set<Js.Number> := {};
    for i := 0 to |values|
      invariant unique == ToSet(values[..i])
    {
      assert ToSet(values[..i + 1]) == ToSet(values[..i]) + {values[i]} by {
        assert values[..i + 1] == values[..i] + [values[i]];
      }
      unique := unique + {values[i]};
    }
    assert values[..|values|] == values;
    SetSizeDetectsDuplicates(values);
    if |unique| != 10 {
      return false;
    }
    for d := 0 to 10
      invariant forall e :: 0 <= e < d ==> Digit(e) in unique
    {
      if Digit(d) !in unique {
        assert Digit(d) !in values;
        return false;
      }
    }
    forall e | 0 <= e < 10 ensures Digit(e) in values {
      assert Digit(e) in unique;
    }
    ok := true;
  }

  /** The digits as JS numbers. */
  function AsNumbers(ds: seq<int>): (r: seq<Js.Number>)
    ensures |r| == |ds| && forall k :: 0 <= k < |ds| ==> r[k] == Js.Finite(ds[k] as real)
  {
    seq(|ds|, k requires 0 <= k < |ds| => Js.Finite(ds[k] as real))
  }

  /** Every permutation generatePermutation can produce passes isValidPermutation. */
  lemma GeneratedPermutationIsValid(ds: seq<int>)
    requires IsDigitPermutation(ds)
    ensures IsValidPermutationSpec(AsNumbers(ds))
  {
    var ns := AsNumbers(ds);
    forall d | 0 <= d < 10 ensures Digit(d) in ns {
      assert d in ds;
      var k :| 0 <= k < |ds| && ds[k] == d;
      assert ns[k] == Js.Finite(d as real);
    }
  }

  /**
   * normalizeDigits on an array: `Number(value)` of each element. How a string element
   * reads as a number is passed in as `parse`.
   */
  function NormalizeDigits(items: seq<Js.Value>, parse: string -> Js.Number): (r: seq<Js.Number>)
    ensures |r| == |items|
    ensures forall k :: 0 <= k < |items| ==> r[k] == Js.ToNumber(items[k], parse)
  {
    seq(|items|, k requires 0 <= k < |items| => Js.ToNumber(items[k], parse))
  }

  /** Reading back a stored list of numbers gives that list, whatever the string parser. */
  lemma NormalizeStoredDigits(ds: seq<int>, parse: string -> Js.Number)
    ensures NormalizeDigits(seq(|ds|, k requires 0 <= k < |ds| => Js.Num(Js.Finite(ds[k] as real))), parse) == AsNumbers(ds)
  {
  }

  /** `select ... from digit_maps where pool_id = $1` */
  function GetDigitMap(digitMaps: map<Id, DigitMapRow>, poolId: Id): (r: Option<DigitMapRow>)
    ensures r.Some? <==> poolId in digitMaps
    ensures r.Some? ==> r.value == digitMaps[poolId]
  {
    if poolId in digitMaps then Some(digitMaps[poolId]) else None
  }

  /**
   * The row `insert ... on conflict (pool_id) do update` leaves: both lists replaced;
   * an existing row keeps its timestamps, a new one starts unrevealed and unlocked.
   */
  function Upserted(existing: Option<DigitMapRow>, poolId: Id, winning: seq<int>, losing: seq<int>, now: Time): (r: DigitMapRow)
    ensures r.poolId == poolId && r.winningDigits == winning && r.losingDigits == losing
    ensures existing.Some? ==>
      r.revealedAt == existing.value.revealedAt && r.lockedAt == existing.value.lockedAt && r.createdAt == existing.value.createdAt
    ensures existing.None? ==> r.revealedAt.None? && r.lockedAt.None? && r.createdAt == Some(now)
  {
    match existing
    case Some(row) => row.(poolId := poolId, winningDigits := winning, losingDigits := losing)
    case None => DigitMapRow(poolId, winning, losing, None, None, Some(now))
  }

  /** `set revealed_at = coalesce(revealed_at, now())` */
  function Revealed(row: DigitMapRow, now: Time): DigitMapRow {
    row.(revealedAt := Some(row.revealedAt.GetOr(now)))
  }

  /** `set locked_at = coalesce(locked_at, now())` */
  function Locked(row: DigitMapRow, now: Time): DigitMapRow {
    row.(lockedAt := Some(row.lockedAt.GetOr(now)))
  }

  /**
   * Revealing sets revealed_at only when it is unset, so a second reveal is a no-op,
   * and it touches neither digit list nor locked_at.
   */
  lemma RevealIsSetOnce(row: DigitMapRow, t1: Time, t2: Time)
    ensures Revealed(row, t1).revealedAt == if row.revealedAt.Some? then row.revealedAt else Some(t1)
    ensures Revealed(Revealed(row, t1), t2) == Revealed(row, t1)
    ensures var r := Revealed(row, t1);
      r.poolId == row.poolId && r.winningDigits == row.winningDigits && r.losingDigits == row.losingDigits
      && r.lockedAt == row.lockedAt && r.createdAt == row.createdAt
  {
  }

  /** The same for locking and locked_at: repeated locks keep the first lock time. */
  lemma LockIsSetOnce(row: DigitMapRow, t1: Time, t2: Time)
    ensures Locked(row, t1).lockedAt == if row.lockedAt.Some? then row.lockedAt else Some(t1)
    ensures Locked(Locked(row, t1), t2) == Locked(row, t1)
    ensures var r := Locked(row, t1);
      r.poolId == row.poolId && r.winningDigits == row.winningDigits && r.losingDigits == row.losingDigits
      && r.revealedAt == row.revealedAt && r.createdAt == row.createdAt
  {
  }

  /** upsertDigitMap */
  method UpsertDigitMap(db: Db, poolId: Id, winning: seq<int>, losing: seq<int>, now: Time) returns (r: DigitMapRow)
    modifies db`digitMaps
    ensures r == Upserted(GetDigitMap(old(db.digitMaps), poolId), poolId, winning, losing, now)
    ensures db.digitMaps == old(db.digitMaps)[poolId := r]
  {
    r := Upserted(GetDigitMap(db.digitMaps, poolId), poolId, winning, losing, now);
    db.digitMaps := db.digitMaps[poolId := r];
  }

  /** revealDigitMap: `digit_map_missing` when the pool has no map, and then nothing changes. */
  method RevealDigitMap(db: Db, poolId: Id, now: Time) returns (r: Result<DigitMapRow>)
    modifies db`digitMaps
    ensures poolId !in old(db.digitMaps) ==> r == Err("digit_map_missing") && db.digitMaps == old(db.digitMaps)
    ensures poolId in old(db.digitMaps) ==>
      && r == Ok(Revealed(old(db.digitMaps)[poolId], now))
      && db.digitMaps == old(db.digitMaps)[poolId := r.value]
  {
    if poolId !in db.digitMaps {
      return Err("digit_map_missing");
    }
    var row := Revealed(db.digitMaps[poolId], now);
    db.digitMaps := db.digitMaps[poolId := row];
    r := Ok(row);
  }

  /** lockDigitMap: `digit_map_missing` when the pool has no map, and then nothing changes. */
  method LockDigitMap(db: Db, poolId: Id, now: Time) returns (r: Result<DigitMapRow>)
    modifies db`digitMaps
    ensures poolId !in old(db.digitMaps) ==> r == Err("digit_map_missing") && db.digitMaps == old(db.digitMaps)
    ensures poolId in old(db.digitMaps) ==>
      && r == Ok(Locked(old(db.digitMaps)[poolId], now))
      && db.digitMaps == old(db.digitMaps)[poolId := r.value]
  {
    if poolId !in db.digitMaps {
      return Err("digit_map_missing");
    }
    var row := Locked(db.digitMaps[poolId], now);
    db.digitMaps := db.digitMaps[poolId := row];
    r := Ok(row);
  }

  /** isDigitsVisible */
  predicate IsDigitsVisible(m: Option<DigitMapRow>) {
    m.Some? && (m.value.revealedAt.Some? || m.value.lockedAt.Some?)
  }

  /**
   * A map is visible exactly when it exists and was revealed or locked; once revealed
   * or locked it stays visible, and a freshly inserted map is hidden.
   */
  lemma VisibilityFollowsRevealAndLock(m: Option<DigitMapRow>, poolId: Id, winning: seq<int>, losing: seq<int>, now: Time)
    ensures IsDigitsVisible(m) <==> m.Some? && (m.value.revealedAt.Some? || m.value.lockedAt.Some?)
    ensures m.Some? ==> IsDigitsVisible(Some(Revealed(m.value, now))) && IsDigitsVisible(Some(Locked(m.value, now)))
    ensures !IsDigitsVisible(Some(Upserted(None, poolId, winning, losing, now)))
    ensures IsDigitsVisible(m) ==> IsDigitsVisible(Some(Upserted(m, poolId, winning, losing, now)))
  {
  }
}
