# Squares pool: settlement and setup engine in Dafny

This project models the server-side library of a "squares" office pool for a
knockout basketball tournament.

- **Pools and grids.** A pool owns a 10×10 grid of squares. Participants claim squares.
- **Digits.** Each pool has a digit map: two permutations of the digits 0-9.
  - Winning digits label the rows; losing digits label the columns.
  - The map becomes visible once it is revealed or locked.
- **Games and payouts.** Tournament games are tracked per pool, along with the payout
  schedule for each of the six rounds. Payout configurations are versioned by effective time.
- **Settlement.** A final game is settled against the digit map:
  1. The last digit of the winner's score picks the row.
  2. The last digit of the loser's score picks the column.
  3. The square at that cell wins the round's current payout.
  4. One result row is written per (pool, game).
  5. Finalizing a second time returns the stored row.
- **Reporting and sessions.** Around settlement sit:
  - pool creation with its grid;
  - square assignment;
  - participant listing, creation, renaming and deletion;
  - game creation, update and deletion;
  - the public view of a pool;
  - totals, per-square statistics and the leaderboard;
  - an audit log with keyset pagination;
  - reading the administrator's session cookie.

## How the model is built

- **The database.** `Store.Db` is a class with one field per table.
  - Tables with a key column are `seq`s of row datatypes, in insertion order.
  - `digit_maps` is keyed by pool id, so it is a `map`.
  - A library function that runs queries becomes a method on `Db`. It modifies only the tables it writes.
  - Each such method is specified against pure functions over table values (`Pools.GridRows`, `Results.Finalize`, ...), and the lemmas are stated about those functions.
  - A transaction is modelled as a snapshot of the touched tables, restored on failure.
  - SQL that the engine, not the library, evaluates is given a meaning by a function. For example, `Audit.RunQuery` is the meaning assumed for the audit-events select: the page of the pool's events before the bound cursor, newest first, cut at the bound limit.
- **Failures.**
  - Thrown errors are `Err(code)` values of `Wrappers.Result`, with each code the code's message.
  - The only database failure modelled is a key collision on insert (`unique_violation`). It is the failure that makes the rollbacks observable.
- **JavaScript values.** Module `Js` models these values: `undefined`, `null`, numbers including the non-finite ones, strings, arrays and objects.
  - Algorithms with loops keep their loops: the permutation shuffle, the permutation check, the payout scan, the payout validation, the grid and payout value builders, the update-statement builder and the cookie scan. Each loop is proved against a function.
- **Inputs from outside.** Fresh uuids, the current time and the random draws come in as parameters.
  - Three more parameters stand for engine services:
    - `parse` is how the engine reads a string as a number;
    - `decodeUri` stands for `decodeURIComponent`;
    - `unseal` stands for decryption plus `JSON.parse` of the session cookie.
- **Integers.** They are unbounded.
  - JavaScript's truncating `%` is written out as `Results.JsRemainder10`, so a negative score behaves as it does in the code. A negative score whose last digit is not 0 leaves a negative remainder, `indexOf` finds nothing, and the result is `invalid_digit_map`. A negative multiple of 10 leaves `-0`, which `indexOf` finds as 0, so against a non-negative score it settles exactly as a score of 0 would.

Where the written description of the system and the code disagree, the model follows
the code:

- `finalizeGameWithClient` checks `pool_not_locked` before it looks the game up. A missing game in an unlocked pool therefore reports `pool_not_locked`, not `game_not_found` (src/lib/results.ts:60-78).
- Re-randomizing the digits updates only the two digit arrays. The upsert keeps `revealed_at` and `locked_at` (src/lib/digits.ts:39-47), so a map that was already revealed shows the new digits at once. The last ensures of PublicPool.DigitsShownOnlyAfterReveal states this.
- The default pool status is `open`. The schema default is not part of this model; the value comes from the tests.

## Model

| member | source | states |
|---|---|---|
| Store.CountOwned | src/lib/participants.ts:60-64 | the number of squares owned by a participant never exceeds the number of squares |
| Store.FindSquareAt | src/lib/results.ts:117-125 | finds the first square at (pool, row, col), and -1 exactly when no square is there |
| Store.NonEmpty | src/lib/results.ts:127 | an owner id is kept only when present and not the empty string (JavaScript truthiness) |
| Store.OwnerName | src/lib/pools.ts:58-61 | the left-joined name is present exactly when there is an owner and some participant row has its id; then it is the display name of the first such row |
| Js.TrimProperties | src/lib/admin-session.ts:105 | trimmed text has no whitespace at either end, keeps every non-whitespace character, and is the contiguous slice left after cutting a whitespace-only prefix and suffix |
| Js.TrimEmpty | src/lib/participant-management-view.ts:29 | a string trims to empty exactly when it is all whitespace |
| Js.SplitJoin | src/lib/admin-session.ts:100 | splitting the cookie header on `;` loses nothing: joining the pieces gives the header back |
| Js.SplitPiecesLackSeparator | src/lib/admin-session.ts:100 | no piece of the split contains the separator |
| Js.JsonRoundTrip | src/lib/audit.ts:55 | `JSON.parse(JSON.stringify(v))` gives JSON: `undefined` properties dropped, `undefined` elements and non-finite numbers as null, the shape of arrays and objects kept |
| Js.JsonRoundTripKeepsJson | src/lib/audit.ts:55 | a value JSON can hold comes back unchanged |
| Js.IndexOf | src/lib/results.ts:113-114 | -1 exactly when the element is absent; otherwise the position of its first occurrence |
| Collections.Sort | src/lib/participant-management-view.ts:39-51 | a sort yields a permutation of the input, ordered whenever the comparator is a total preorder |
| Pools.GridRows | src/lib/pools.ts:82-88 | a new pool gets exactly 100 squares |
| Pools.GridCoversEachCellOnce | src/lib/pools.ts:82-88 | every (row, col) in 0..9 × 0..9 has exactly one square, in row-major order, unowned and of this pool |
| Pools.BuildSquareValues | src/lib/pools.ts:78-88 | the loop writes one `($n, $n+1, $n+2, $n+3)` tuple per cell, binding id, pool, row and col |
| Pools.BuiltValuesDecodeToGrid | src/lib/pools.ts:84-93 | the insert statement the builder produces inserts exactly the grid |
| Pools.InsertPoolAndSquares | src/lib/pools.ts:75-94 | a taken pool id fails with nothing inserted; otherwise the pool row is added and the grid is added unless a square key collides |
| Pools.CreatePoolWithSquares | src/lib/pools.ts:7-38 | succeeds exactly when neither the pool nor any square collides, and then adds both; on failure both tables are as before (rollback) |
| Pools.EarliestPool | src/lib/pools.ts:41-43 | the pool picked is one of the pools and none was created earlier |
| Pools.EnsureDefaultPool | src/lib/pools.ts:40-46 | an existing earliest pool is returned with nothing changed; with no pools, the default pool and its grid are created or nothing changes |
| Pools.GetPoolWithSquares | src/lib/pools.ts:48-71 | "Pool … not found" exactly when absent; otherwise the pool's squares in (row, col) order, each with its owner's name: a permutation of the pool's named squares, so none missing, none foreign and none repeated |
| Digits.GeneratePermutation | src/lib/digits.ts:5-12 | the Fisher-Yates shuffle of 0..9 yields a permutation of the ten digits whatever the random draws |
| Digits.ShuffledDigitsArePermutation | src/lib/digits.ts:5-12 | a digit sequence with the multiset of 0..9 has ten distinct entries, each in 0..9 |
| Digits.SetSizeDetectsDuplicates | src/lib/digits.ts:16-17 | the set of a sequence has its length exactly when the elements are distinct |
| Digits.IsValidPermutation | src/lib/digits.ts:14-22 | accepts exactly ten pairwise distinct values among which every digit 0..9 occurs |
| Digits.GeneratedPermutationIsValid | src/lib/digits.ts:5-22 | every generated permutation passes the validity check |
| Digits.NormalizeDigits | src/lib/digits.ts:85-88 | an array column converts element by element with `Number` |
| Digits.NormalizeStoredDigits | src/lib/digits.ts:85-88 | stored integer digits normalize to themselves |
| Digits.GetDigitMap | src/lib/digits.ts:24-31 | the map row of the pool, or none exactly when the pool has none |
| Digits.Upserted | src/lib/digits.ts:39-47 | an upsert replaces both digit lists and keeps the reveal and lock times and the creation time of an existing row; a new row is neither revealed nor locked |
| Digits.UpsertDigitMap | src/lib/digits.ts:33-51 | the pool's row becomes the upserted row and no other pool's row changes |
| Digits.RevealIsSetOnce | src/lib/digits.ts:53-58 | the reveal time is set only if unset (`coalesce`), so revealing twice changes nothing; no other column changes |
| Digits.RevealDigitMap | src/lib/digits.ts:53-65 | `digit_map_missing` with nothing changed when there is no row; otherwise the revealed row is stored and returned |
| Digits.LockIsSetOnce | src/lib/digits.ts:67-72 | the lock time is set only if unset, so locking twice changes nothing; no other column changes |
| Digits.LockDigitMap | src/lib/digits.ts:67-79 | `digit_map_missing` with nothing changed when there is no row; otherwise the locked row is stored and returned |
| Digits.VisibilityFollowsRevealAndLock | src/lib/digits.ts:81-83 | digits are visible exactly when a row is revealed or locked; reveal and lock make them visible, a fresh upsert does not, and a re-upsert keeps visibility |
| Payouts.RoundKeysDistinct | src/lib/payouts.ts:5-12 | the six round keys are pairwise distinct |
| Payouts.BuildPayoutValues | src/lib/payouts.ts:40-48 | the seeding loop writes one tuple per round, binding id, pool, round key and its default amount |
| Payouts.BuiltPayoutsDecodeToDefaults | src/lib/payouts.ts:44-54 | the seeding statement inserts exactly the default rows |
| Payouts.SeedDefaultPayouts | src/lib/payouts.ts:39-55 | succeeds exactly when no id collides, and then appends the six default rows; otherwise nothing changes |
| Payouts.DefaultRowsOnePerRound | src/lib/payouts.ts:44-48 | row k of the seed is the only row for round k and carries that round's default amount |
| Payouts.NewerOrdersAreStrictWeak | src/lib/payouts.ts:72-76 | both the scan's `effective_at ?? 0` comparison and SQL's `desc nulls first` ordering are strict weak orders |
| Payouts.LatestIndex | src/lib/payouts.ts:67-77 | the chosen row, if any, belongs to the requested round |
| Payouts.LatestIndexIsNewest | src/lib/payouts.ts:72-76 | no row is chosen exactly when the round has no row; no row of the round is newer than the chosen one; the chosen one is strictly newer than every earlier row of the round (first wins ties) |
| Payouts.AppendedNewerVersionWins | src/lib/payouts.ts:72-76 | a newer version of a round, once appended, is the one chosen |
| Payouts.AppendedOtherRoundIgnored | src/lib/payouts.ts:67-71 | appending a row of another round does not change a round's choice |
| Payouts.ScanAgreesWithSqlWithoutNulls | src/lib/payouts.ts:72 | when every effective time is set, the scan picks the same row as the SQL ordering |
| Payouts.NullEffectiveTimeSplitsTheOrders | src/lib/payouts.ts:72 | a row with null effective time is chosen by SQL (`nulls first`) but not by the scan (null counts as 0) |
| Payouts.ScanLatest | src/lib/payouts.ts:63-77 | the scan holds an entry exactly for the round keys that have a row, and each entry is the newest row's amount and time |
| Payouts.CollectRounds | src/lib/payouts.ts:79-90 | `payouts_missing` exactly when some round has no entry; otherwise every round's amount, and lastUpdated is the greatest effective time among the entries |
| Payouts.GetLatestPayouts | src/lib/payouts.ts:57-91 | for one pool: `payouts_missing` exactly when some round has no row; otherwise each of the six rounds gets its newest amount, and lastUpdated is the latest chosen effective time |
| Payouts.SeededPoolReadsDefaults | src/lib/payouts.ts:57-77 | among the seed rows alone, each round's latest version is its own default row, with its default amount |
| Payouts.SeededEmptyPoolReadsDefaults | src/lib/payouts.ts:57-77 | after seeding a pool that had no payout rows, the rows getLatestPayouts reads are exactly the seed, every round is priced, and each round reads its default amount |
| Payouts.ValidateTable | src/lib/payouts.ts:103-124 | errors come in code order (unknown key, then missing key, then a bad amount); otherwise every round gets a non-negative integer equal to `Number(value)` |
| Payouts.ValidatePayoutPayload | src/lib/payouts.ts:93-125 | `invalid_payload` exactly when `payouts` is not a non-array object; otherwise the same as the table validation over the six round keys |
| Squares.Assigned | src/lib/squares.ts:20-28 | the update changes the owner of the squares at that cell and nothing else |
| Squares.AssignSquare | src/lib/squares.ts:3-45 | a truthy owner who is not in the pool is refused; a missing cell gives "Square not found"; both leave the squares unchanged; otherwise the cell's owner is set and the square is returned with its owner's name |
| Squares.SquareOwnerName | src/lib/squares.ts:34-42 | an empty owner has no name; a truthy owner with a participant row has a name, and that name belongs to such a row |
| Squares.AssignMovesOneSquare | src/lib/squares.ts:20-28 | assigning a cell moves exactly one square: the old owner loses one, the new owner gains one, and everyone else's count stays the same |
| Squares.ReassignDropsPreviousOwner | src/lib/squares.ts:20-28 | reassigning a square lowers its previous owner's count by one |
| Squares.AssignKeepsCellsUnique | src/lib/squares.ts:20-28 | assignment keeps (pool, row, col) unique |
| Participants.ListParticipants | src/lib/participants.ts:5-17 | exactly the pool's participants, each listed once (a permutation of the counted rows), oldest first, each with the number of squares they own |
| Participants.WithCounts | src/lib/participants.ts:8-12 | the count join gives one row per participant, pairing each with their owned-square count |
| Participants.CreateParticipant | src/lib/participants.ts:19-33 | a new row with the given name and contact, creation time now; a taken id fails and nothing changes |
| Participants.Renamed | src/lib/participants.ts:41-48 | the update rewrites name and contact of the matching row only |
| Participants.UpdateParticipant | src/lib/participants.ts:35-53 | "Participant not found" with nothing changed for an unknown id; otherwise the row is renamed and returned |
| Participants.RenameTouchesOnlyNameAndContact | src/lib/participants.ts:41-48 | renaming keeps ids, pools and creation times, and leaves other participants untouched |
| Participants.UnassignedFreesParticipant | src/lib/participants.ts:70 | after unassigning, the participant owns no square, and only owners of that participant's squares change |
| Participants.UnassignedKeepsOtherOwners | src/lib/participants.ts:70 | every other participant keeps exactly as many squares |
| Participants.DeleteParticipant | src/lib/participants.ts:55-74 | reports the owned count; deletion happens exactly when that count is 0 or force is set, and a refusal changes nothing |
| Participants.DeletedParticipantIsGone | src/lib/participants.ts:70-71 | after deletion the participant cannot be found and owns no square |
| Games.RoundKeysAreTheSix | src/lib/games.ts:28-30 | a round key is valid exactly when it is one of the six rounds, the same keys the payout schedule uses |
| Games.StatusesAreTheThree | src/lib/games.ts:32-34 | a status is valid exactly when it is scheduled, in_progress or final |
| Games.ParseScore | src/lib/games.ts:36-45 | blank input (undefined, null, empty string) is "no score"; `invalid_score` exactly when `Number(value)` is not a non-negative integer; otherwise that integer |
| Games.ParseScoreOfInteger | src/lib/games.ts:40-44 | a non-negative integer parses to itself, a negative one is `invalid_score` |
| Games.CreateGame | src/lib/games.ts:57-90 | a new game row with the given fields; a taken id fails and nothing changes |
| Games.DeleteGame | src/lib/games.ts:150-152 | the game table keeps exactly the rows that are not the (pool, game) deleted |
| Games.DeleteRemovesOnlyThatGame | src/lib/games.ts:150-152 | the deleted game is gone and every other game, and only those, remains |
| Games.PushField | src/lib/games.ts:121-125 | pushing a field appends `column = $n` with n the next placeholder and binds its value there |
| Games.PushWhen | src/lib/games.ts:127-134 | conditional pushes keep placeholders numbered consecutively and bind exactly the columns proposed so far |
| Games.BuildGameUpdate | src/lib/games.ts:117-136 | the builder's assignments bind each column to exactly the value the update proposes, with `updated_at` last and always bound, and the columns in the builder's order, so none is assigned twice |
| Games.UpdatedGame | src/lib/games.ts:127-136 | truthy round and status replace the old ones; present teams, scores, start time and external id replace theirs (null clears); id and pool never change; updated_at is now |
| Games.BuiltUpdateIsIntended | src/lib/games.ts:127-139 | running the built `update ... set` statement on a row gives exactly the intended updated game |
| Games.FindGame | src/lib/games.ts:138-141 | -1 exactly when no game of that pool has that id; otherwise a matching row |
| Games.UpdateGame | src/lib/games.ts:102-148 | `game_not_found` with nothing changed for an unknown game; otherwise the matching row is updated and returned |
| Games.UpdateTouchesOnlyThatGame | src/lib/games.ts:138-147 | other games are untouched and no game's id or pool changes |
| PoolLock.IsPoolLocked | src/lib/pool-lock.ts:3-7 | true exactly when the first pool row with that id has status `locked`; false for an unknown pool |
| PoolLock.NewPoolIsUnlocked | src/lib/pool-lock.ts:5-6 | a newly created pool is not locked, and creating it changes no other pool's lock state |
| PublicPool.BuildPublicDigitMap | src/lib/public-pool.ts:24-33 | the public map exists exactly when the row does; the digits are shown exactly when visible, and then they are the stored ones; reveal and lock times pass through |
| PublicPool.DigitsShownOnlyAfterReveal | src/lib/public-pool.ts:26-29 | fresh digits are hidden; after a reveal or a lock they are shown; a re-upsert of visible digits shows the new digits |
| PublicPool.GetPublicPoolData | src/lib/public-pool.ts:12-22 | serves the earliest pool and leaves the tables alone when a pool exists; otherwise creates the default pool and its grid and serves it, or on failure changes nothing; the result is the pool's named squares in cell order and its public digit map |
| Analytics.Count | src/lib/analytics.ts:43 | the count of selected results is 0 exactly when none is selected |
| Analytics.Sum | src/lib/analytics.ts:44 | the payout sum is 0 when nothing is selected and non-negative when the selected amounts are |
| Analytics.TallyAppend | src/lib/analytics.ts:40-54 | one more result adds one to the count and its amount to the sum exactly when it is selected |
| Analytics.RequirePool | src/lib/analytics.ts:33-38 | `pool_not_found` exactly when the pool does not exist |
| Analytics.GetTotals | src/lib/analytics.ts:40-54 | finalized games and total payout are the count and sum over the pool's results, both 0 for a pool without results |
| Analytics.OrderedSquares | src/lib/analytics.ts:68-79 | exactly the pool's squares, in (row, col) order |
| Analytics.StatOf | src/lib/analytics.ts:61-91 | a square's hit count and payout are the count and sum of results won on it; its owner name is the non-empty joined name |
| Analytics.GetSquareStats | src/lib/analytics.ts:56-93 | `pool_not_found` exactly when the pool is absent; otherwise the totals and one statistic per square of the pool, in cell order |
| Analytics.RecordedHitCountsOnce | src/lib/analytics.ts:61-77 | a new result adds one hit and its payout to its winning square, changes no other square, and adds to the totals |
| Analytics.LeaderRowOf | src/lib/analytics.ts:107-118 | a participant's wins and payout are the count and sum of the pool's results they won |
| Analytics.LeaderOrderIsTotal | src/lib/analytics.ts:119 | the leaderboard order (payout desc, wins desc, name asc) is a total preorder |
| Analytics.LeaderRows | src/lib/analytics.ts:107-118 | one leaderboard row per participant of the pool |
| Analytics.GetParticipantLeaderboard | src/lib/analytics.ts:95-132 | `pool_not_found` exactly when the pool is absent; otherwise the totals, the participant count and a permutation of the participants' rows in leaderboard order |
| Analytics.EveryParticipantRanked | src/lib/analytics.ts:113-118 | every participant of the pool appears, with zero wins and payout when they won nothing (left join) |
| Analytics.UnownedWinCreditsNoOne | src/lib/analytics.ts:114-116 | a result on an unowned square credits no participant |
| ParticipantView.NormalizeSquareCount | src/lib/participant-management-view.ts:15-17 | a finite count is kept, anything else counts as 0 |
| ParticipantView.CompareNames | src/lib/participant-management-view.ts:20 | names compare equal exactly when they agree after lowercasing |
| ParticipantView.CompareNameAscending | src/lib/participant-management-view.ts:19-23 | order by name (case-insensitive), ties broken by id; equal only for the same name and id |
| ParticipantView.NameOrderIsConsistent | src/lib/participant-management-view.ts:19-23 | the name comparator is antisymmetric and transitive |
| ParticipantView.OrdersAreAsDescribed | src/lib/participant-management-view.ts:39-51 | each sort option orders as described: names ascending or descending, square counts descending or ascending with name as the tie-break |
| ParticipantView.ComparatorIsConsistent | src/lib/participant-management-view.ts:39-51 | every sort option's comparator is a total preorder, so the sort is well defined |
| ParticipantView.DeriveParticipantRows | src/lib/participant-management-view.ts:25-52 | the rows are exactly the participants the filter keeps, ordered by the chosen sort |
| ParticipantView.FiltersAreAsDescribed | src/lib/participant-management-view.ts:29-37 | "only without squares" keeps only zero counts; no filter and blank search keeps everyone; a search keeps only names containing the needle |
| Audit.EventRow | src/lib/audit.ts:46-56 | the inserted event carries the input's fields; the metadata (`{}` when missing) is stored as the JSON object `JSON.stringify` writes: exactly the properties that are not `undefined`, unchanged when it is already JSON |
| Audit.InsertAuditEvent | src/lib/audit.ts:45-57 | the insert appends the row exactly when its id is free |
| Audit.LogAuditEvent | src/lib/audit.ts:43-62 | logging appends the event, and a failed insert is swallowed with the log unchanged |
| Audit.ClampLimit | src/lib/audit.ts:100-105 | the limit is in 1..200: non-integers give the default, and integers are clamped |
| Audit.EffectiveLimit | src/lib/audit.ts:69 | an absent limit gives the default, and the result is always in 1..200 |
| Audit.KeyOrderIsStrict | src/lib/audit.ts:79 | the `(created_at, id) <` cursor order is a strict order, and keys that tie in it are equal |
| Audit.NewestFirstIsTotal | src/lib/audit.ts:92 | `order by created_at desc, id desc` is a total preorder |
| Audit.OlderIsDownwardClosed | src/lib/audit.ts:77-83 | anything before an event that passes the cursor also passes it |
| Audit.Selected | src/lib/audit.ts:75-83 | the where-clause keeps exactly the pool's events older than the cursor |
| Audit.Page | src/lib/audit.ts:88-94 | at most `limit` events, all of the pool and older than the cursor, newest first, forming a prefix of the ordered selection |
| Audit.MapAuditEventRow | src/lib/audit.ts:107-118 | mapping keeps every field, turns empty optional text into null and missing metadata into `{}` |
| Audit.ListAuditEvents | src/lib/audit.ts:64-98 | returns the mapped page for the pool, cursor and effective limit, with null metadata read as `{}` |
| Audit.LoggedMetadataReadsBack | src/lib/audit.ts:107-118 | a logged event's metadata reads back as the stored object |
| Audit.BuildAuditQuery | src/lib/audit.ts:69-86 | the pushed parameters bind the where clause to the pool and to the cursor the options describe, and the last placeholder to the clamped limit |
| Audit.NextPageContinues | src/lib/audit.ts:77-94 | the cursor taken from a page's last event selects exactly the remaining events, and all of them are older than the page |
| AdminSession.FirstNaming | src/lib/admin-session.ts:101-106 | finds the first `name=value` pair whose trimmed key is the cookie name, and -1 exactly when none is |
| AdminSession.CookieValue | src/lib/admin-session.ts:98-116 | no header means no value; otherwise the decoded value of the first pair naming the cookie, or none |
| AdminSession.ReadCookieValue | src/lib/admin-session.ts:98-116 | the scan over the pairs returns exactly that value |
| AdminSession.ParseInteger | src/lib/admin-session.ts:34-38 | numbers and non-blank strings parse exactly when they are integers, to that integer; other values never parse |
| AdminSession.ValidPayloadIsAsDescribed | src/lib/admin-session.ts:40-50 | a payload is valid exactly when it is an object with a non-empty `sub`, an integer `exp`, a truthy role that is only ever `admin`, and a truthy token that is only ever a string |
| AdminSession.DecodeAdminSession | src/lib/admin-session.ts:85-92 | a session exists exactly when the cookie unseals to a valid payload, and its fields are copied from it |
| AdminSession.GetAdminSessionFromRequest | src/lib/admin-session.ts:118-134 | no cookie means no session and not invalid; an undecodable or expired session is invalid; otherwise the session |
| Results.GetExistingResult | src/lib/results.ts:16-26 | the first stored result of (pool, game), none exactly when there is none |
| Results.ExistingResultSurvivesAppend | src/lib/results.ts:16-26 | appending a row never changes the stored result a game already has |
| Results.JsRemainder10 | src/lib/results.ts:108-109 | JavaScript's `% 10`: the sign of the score, distance below 10, and the difference a multiple of 10 |
| Results.ResolveCell | src/lib/results.ts:104-115 | `invalid_digit_map` exactly when a last digit is absent from its list; otherwise the first row and column holding those digits |
| Results.PermutationsResolveEveryScore | src/lib/results.ts:104-115 | with two permutations and non-negative scores, every score pair resolves to a cell in the grid labelled by those digits |
| Results.SeventeenTwelveSettlesAtRowZeroColumnOne | src/lib/results.ts:104-115 | with winning digits 7,0,1,… and losing digits 0,2,1,…, a 17-12 game settles on row 0, column 1 |
| Results.NegativeScoreIsAnInvalidDigitMap | src/lib/results.ts:108-115 | a negative score whose last digit is not 0, winner's or loser's, gives a negative remainder, which no list of non-negative digits holds: `invalid_digit_map` |
| Results.NegativeMultipleOfTenReadsAsZero | src/lib/results.ts:108-115 | against any non-negative score, and for any digit lists, a negative multiple of 10 resolves exactly as 0 does, as winner or loser |
| Results.LatestPayoutAmount | src/lib/results.ts:129-140 | none exactly when the pool has no row for the round; otherwise the amount of a row of the round that no other row is newer than (`effective_at desc nulls first`) |
| Results.InsertOrIgnore | src/lib/results.ts:142-159 | `on conflict do nothing`: nothing is inserted when the game has a result, a taken id fails, otherwise the row is inserted |
| Results.Finalize | src/lib/results.ts:56-170 | an existing result is returned unchanged; a failure inserts nothing and is never `finalize_failed`; a success yields a row for (pool, game) that is stored, being either the existing one or a single newly appended one with the given id and time |
| Results.FinalizeGameWithClient | src/lib/results.ts:56-170 | the sequence of queries returns and stores exactly what Finalize describes |
| Results.FinalizeGame | src/lib/results.ts:28-54 | the transaction does the same and, on failure, leaves the results table as it was |
| Results.FailuresInOrder | src/lib/results.ts:60-140 | with no stored result, the error is the first failing check in code order: pool missing, unlocked, game missing, not final, scores missing, tie, no map, hidden, invalid map, no square, no payout |
| Results.SettledRowIsAsDescribed | src/lib/results.ts:104-159 | a newly settled row comes from a locked pool and a final untied game with a visible map; the row and column digits are the last digits of the winner's and loser's scores; the square is of this pool at that cell and its truthy owner wins; the amount is the round's latest payout |
| Results.ValidMapsNeverInvalid | src/lib/results.ts:104-115 | with two valid permutations and non-negative scores, settlement never reports `invalid_digit_map` |
| Results.FinalizeIsIdempotent | src/lib/results.ts:57-58 | finalizing again after a success, with any id and time, returns the same row and leaves the table as it is |
| Results.ExactlyOneResultPerGame | src/lib/results.ts:142-169 | finalizing keeps at most one result per (pool, game), and after a success every result of that game is the returned row |

## Left out

- The AES-GCM sealing of the session cookie, the secret lookup and `JSON.parse` are the `unseal` parameter. `encodeAdminSession` and the cookie-setting helpers (src/lib/admin-session.ts:52-63, 136-171) only build output strings and are not part of this model.
- `decodeURIComponent`, with its failure, is the `decodeUri` parameter. Reading strings as numbers is the `parse` parameter.
- `Date.now()`, database `now()` defaults and `crypto.randomUUID()` are parameters (`now`, `nowMs`, ids). `Math.random()` is the sequence of draws `choices` given to the shuffle.
- `parseStartTime`, `listGames`, `listPoolResults` and the `mapGame`/`mapGameResult` conversions only convert dates and rows for output; the model keeps times as integers and rows as datatypes.
- The round label tables (`ROUND_LABELS`, `GAME_ROUND_LABELS`) are display text and are not modelled.
- Concurrency is not modelled: the model runs one call at a time. This means `finalize_failed` (another writer removing a result between the conflict and the re-read) is unreachable in the model, and Results.Finalize proves so.
- Foreign keys, check constraints and data types of the schema are not modelled; only primary keys and the unique (pool, row, col) and (pool, game) keys are. `console.error` in the audit logger is dropped.
- Digits.NormalizeDigits: models the array column; the string/JSON branch (src/lib/digits.ts:89-92) is not modelled, since the store keeps digits as integer arrays.
- Results.LatestPayoutAmount: among rows with equal effective time SQL may return any; the model picks the first in table order and states only that no row is newer.
- Results.Settle: carries no contract of its own; its results are stated by Results.Finalize, Results.FailuresInOrder and Results.SettledRowIsAsDescribed.
- Results.Finalize: the `Number.isInteger` score check is vacuous, because scores are integers in the store.
- ParticipantView.CompareNames: `localeCompare` with base sensitivity is modelled as code-point order after lowercasing A-Z. Accents and other locale rules are not modelled. The id tie-break `a.id.localeCompare(b.id)` (src/lib/participant-management-view.ts:22) uses locale order with default sensitivity; it is modelled as code-point order Collections.Compare, which agrees with it on lowercase uuid text.
- ParticipantView.DeriveParticipantRows: the search lowercases A-Z only, while `toLowerCase` folds every cased letter; accented and non-Latin letters are not folded (Js.Lower).
- Audit.EventRow: strings containing U+0000, which `jsonb` refuses (the insert then fails and the error is swallowed), are not modelled; nor are `toJSON` methods and values JSON cannot write other than `undefined` and non-finite numbers, since the value model has none.
- Audit.NextPageContinues: times have a single integer resolution, so the cursor time equals the stored `created_at`. The caller passes the cursor back through a JavaScript `Date`, which keeps milliseconds, while a timestamptz keeps microseconds. Events in the same millisecond as a page's last event but older than it could then be skipped; that loss of precision is not modelled.
- Collections.Compare: SQL text ordering uses the database collation, modelled as code-point order.
- JavaScript numbers: finite numbers are exact reals, so double-precision rounding is not modelled.
