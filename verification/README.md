# Desafio 6K — a verified model of the earnings tracker core

The Desafio 6K tracker lets ride-hailing drivers record one entry per day:
the rides taken, the revenue earned and the fuel spent. Entries are
aggregated into monthly totals and measured against a monthly goal of
R$ 6000. Badges are awarded when a month crosses a threshold:
100 rides, 30 working days, or R$ 6000 of revenue. A monthly ranking
orders the drivers by revenue.

This project models that core in Dafny and proves its properties:

- **`Storage`** (`storage.dfy`) is the server's storage class. It becomes
  the class `Store`, whose four tables (users, daily entries, monthly
  stats, achievements) are sequences that its methods reassign. Each
  method is specified by a pure function of the old tables:
  - `Recompute` gives the stats table after a month is recomputed.
  - `StatsOrZero` gives the stats row that is read or created.
  - `AwardOnce` gives the result of an insert-if-absent badge.
  - `PatchEntries` gives the result of an update by id.

  The lemmas beside these functions prove the properties of the design:
  - the totals are the sums of the month's entries;
  - recomputation is idempotent and updates the row in place;
  - there is at most one badge per (user, type);
  - badges are never removed;
  - the ranking is ordered by revenue, highest first.
- **`Consistency`** (`consistency.dfy`) states the invariant the service
  keeps between requests: every stats row holds the sums of its month,
  every entry is filed under a stats row, and there is one entry per
  (user, date). It proves that both the create branch and the update
  branch of the daily-entry handler preserve this invariant. It also
  proves that a save whose month sums exceed their columns breaks it,
  with a two-entry example.
- **`Routes`** (`routes.dfy`) models the request layer: body validation,
  the date and month format checks, the create-or-update handler, the
  read handlers, registration and login, and the mapping of failures to
  HTTP status codes. Beside the handler as written stands
  `PostDailyEntryAtomic`, the same handler with its writes in one
  transaction (see Findings).
- **`Auth`** (`auth.dfy`) models the session gate, registration and
  credential checking. Hashing and verification are function
  parameters.
- **`RankingView`** and **`Dashboard`** (`ranking_view.dfy`,
  `dashboard.dfy`) model the figures the two client screens derive:
  - colour band and status;
  - rounded percentage;
  - positions and podium;
  - initials;
  - capped progress and remaining amount;
  - net profit and return on fuel;
  - badge lighting.

  They use **`JsNumber`** (`jsnumber.dfy`), which models the JavaScript
  number operations they rely on, including division by zero.
- **`Schema`**, **`Wrappers`**, **`Seqs`**, **`Text`** and **`Sorting`**
  hold the row types and the helper functions on sequences and strings.

### Representation

- **Money.** On the server, money is integer cents, since the decimal
  columns have scale 2. On the client, money is an exact `real`.
- **Identifiers.** Identifiers are natural numbers handed out by the
  counter `Store.nextId`, in place of generated UUIDs.
- **Supplied functions.** Some operations are supplied by the caller as
  function parameters:
  - password hashing and verification;
  - JavaScript number-to-text conversion;
  - the decimal parse of a money text;
  - the email format check.
- **Request bodies.** A request body is a map from field names to JSON
  values.
- **Sessions.** A session holds an optional user id.

## Model

Source paths are relative to the repository's export directory.

| member | source | states |
|---|---|---|
| Schema.KindNameInjective | ReplitExport-brunopaulinoc/Desafio-6K-Sentinela-Drivers.zip/shared/schema.ts:68-73 | Distinct badge kinds are stored under distinct `type` names. |
| Text.Take | ReplitExport-brunopaulinoc/Desafio-6K-Sentinela-Drivers.zip/server/storage.ts:117 | `substring(0, n)` keeps the first n characters (all of a shorter string) and is a prefix of its input. |
| Text.DateMonth | ReplitExport-brunopaulinoc/Desafio-6K-Sentinela-Drivers.zip/server/storage.ts:189-197 | For a `YYYY-MM-DD` date, its first seven characters form a `YYYY-MM` month. A well-formed month is a prefix of the date exactly when it equals those seven characters, so the `LIKE month%` filter selects exactly the entries filed under that month. |
| Text.Split | ReplitExport-brunopaulinoc/Desafio-6K-Sentinela-Drivers.zip/client/src/components/ranking.tsx:64 | `split(' ')` gives at least one piece, and no piece contains the separator. |
| Text.JoinSplit | ReplitExport-brunopaulinoc/Desafio-6K-Sentinela-Drivers.zip/client/src/components/ranking.tsx:64 | Joining the pieces of a split with the separator gives back the original name, so the split loses nothing. |
| Text.SplitOnlySeparators | ReplitExport-brunopaulinoc/Desafio-6K-Sentinela-Drivers.zip/client/src/components/ranking.tsx:64 | A text made only of separators splits into one more piece than it has characters, and every piece is empty. |
| Text.Upper | ReplitExport-brunopaulinoc/Desafio-6K-Sentinela-Drivers.zip/client/src/components/ranking.tsx:64 | `toUpperCase` keeps the length and leaves no lower-case ASCII letter. Each lower-case letter becomes its own capital and every other character is kept. |
| Text.UpperIdempotent | ReplitExport-brunopaulinoc/Desafio-6K-Sentinela-Drivers.zip/client/src/components/ranking.tsx:64 | Upper-casing an upper-cased text changes nothing. |
| Text.UpperChar | ReplitExport-brunopaulinoc/Desafio-6K-Sentinela-Drivers.zip/client/src/components/ranking.tsx:64 | A lower-case ASCII letter becomes the capital of the same letter; every other character is unchanged. |
| Storage.TotalsOfConcat | ReplitExport-brunopaulinoc/Desafio-6K-Sentinela-Drivers.zip/server/storage.ts:199-201 | The three running sums over a concatenation are the sums of the two parts. |
| Storage.TotalsOfPermutation | ReplitExport-brunopaulinoc/Desafio-6K-Sentinela-Drivers.zip/server/storage.ts:189-201 | Any reordering of the selected rows gives the same totals, so the unordered query is deterministic in its sums. |
| Storage.TotalRidesNonNegative | ReplitExport-brunopaulinoc/Desafio-6K-Sentinela-Drivers.zip/server/storage.ts:199 | When every entry has non-negative rides, their sum is non-negative. |
| Storage.FindEntry | ReplitExport-brunopaulinoc/Desafio-6K-Sentinela-Drivers.zip/server/storage.ts:126-132 | The index found holds an entry of that user and date. Nothing is found exactly when no such entry exists. |
| Storage.FindEntryById | ReplitExport-brunopaulinoc/Desafio-6K-Sentinela-Drivers.zip/server/storage.ts:134-139 | The index found holds an entry with that id. Nothing is found exactly when no entry has it. |
| Storage.FindEntryByIdFindsIt | ReplitExport-brunopaulinoc/Desafio-6K-Sentinela-Drivers.zip/server/storage.ts:138 | With distinct ids, looking up an entry's id finds that very entry. |
| Storage.ApplyPatch | ReplitExport-brunopaulinoc/Desafio-6K-Sentinela-Drivers.zip/server/storage.ts:137 | `.set({...entry})` on one row: the id is kept, each column the patch sets takes the patch's value, and every column it leaves unset keeps the row's value. |
| Storage.PatchEntries | ReplitExport-brunopaulinoc/Desafio-6K-Sentinela-Drivers.zip/server/storage.ts:135-139 | The update by id keeps every row in its place with its id. Every row with the id becomes that row with the patch applied (`Storage.ApplyPatch`); every row with another id is left as it was. |
| Storage.PatchTwice | ReplitExport-brunopaulinoc/Desafio-6K-Sentinela-Drivers.zip/server/storage.ts:134-139 | Applying the same update twice gives the same table as applying it once. |
| Storage.NewerFirstIsPreorder | ReplitExport-brunopaulinoc/Desafio-6K-Sentinela-Drivers.zip/server/storage.ts:158 | Descending date order is total and transitive, so sorting by it is well defined. |
| Storage.FindStats | ReplitExport-brunopaulinoc/Desafio-6K-Sentinela-Drivers.zip/server/storage.ts:163-166 | Finds the first stats row of the (user, month) key. Nothing is found exactly when the key has no row. |
| Storage.Overwrite | ReplitExport-brunopaulinoc/Desafio-6K-Sentinela-Drivers.zip/server/storage.ts:211-220 | The stats update keeps every row in its place with its id, user, month and goal. Rows with the key carry the new totals; every other row is untouched. |
| Storage.Recompute | ReplitExport-brunopaulinoc/Desafio-6K-Sentinela-Drivers.zip/server/storage.ts:187-237 | Afterwards a row for (user, month) exists, and every such row holds the sums of the user's entries in that month. A table with one row per key keeps that property. It is applied only when the sums fit their columns (`Storage.Store.UpdateMonthlyStats`). |
| Storage.RecomputeInPlace | ReplitExport-brunopaulinoc/Desafio-6K-Sentinela-Drivers.zip/server/storage.ts:204-236 | An existing row is updated in place, keeping its id, key and goal, and no row is added or changed for any other key. Only when there is none is one row with goal 6000 appended. |
| Storage.RecomputeKeepsFit | ReplitExport-brunopaulinoc/Desafio-6K-Sentinela-Drivers.zip/shared/schema.ts:59-61 | When the month's sums fit the `integer` and `decimal(10, 2)` columns, every row of the recomputed table lies within its columns' ranges. |
| Storage.RecomputeKeepsIds | ReplitExport-brunopaulinoc/Desafio-6K-Sentinela-Drivers.zip/server/storage.ts:222-233 | Recomputation hands out at most the fresh id: an update keeps every id below it, and an insert keeps every id below the next one. |
| Storage.RecomputeKeepsKeys | ReplitExport-brunopaulinoc/Desafio-6K-Sentinela-Drivers.zip/server/storage.ts:210-236 | No (user, month) key loses its row. |
| Storage.RecomputeIdempotent | ReplitExport-brunopaulinoc/Desafio-6K-Sentinela-Drivers.zip/server/storage.ts:187-237 | Recomputing twice with no entry change in between leaves the same table as recomputing once. |
| Storage.StatsOrZero | ReplitExport-brunopaulinoc/Desafio-6K-Sentinela-Drivers.zip/server/storage.ts:162-185 | An existing row is returned unchanged and the table is untouched. Otherwise a row with zero totals and goal 6000 is appended and returned. One row per key is kept. |
| Storage.StatsOrZeroIdempotent | ReplitExport-brunopaulinoc/Desafio-6K-Sentinela-Drivers.zip/server/storage.ts:162-185 | A repeated get-or-create returns the same row and leaves the table as the first call left it. |
| Storage.StatsOrZeroKeepsFit | ReplitExport-brunopaulinoc/Desafio-6K-Sentinela-Drivers.zip/shared/schema.ts:59-61 | Creating a zeroed row keeps every row within its columns' ranges. |
| Storage.FindAchievement | ReplitExport-brunopaulinoc/Desafio-6K-Sentinela-Drivers.zip/server/storage.ts:263-272 | Finds a badge of that user and type exactly when one exists. |
| Storage.AwardOnce | ReplitExport-brunopaulinoc/Desafio-6K-Sentinela-Drivers.zip/server/storage.ts:261-283 | An existing badge is returned and the table is unchanged. Otherwise exactly one row is appended. Afterwards the badge is held, and one badge per (user, type) is kept. |
| Storage.AwardOnceIdempotent | ReplitExport-brunopaulinoc/Desafio-6K-Sentinela-Drivers.zip/server/storage.ts:261-283 | Awarding the same (user, type) again returns the same row and changes nothing. |
| Storage.Qualifying | ReplitExport-brunopaulinoc/Desafio-6K-Sentinela-Drivers.zip/server/storage.ts:310-353 | rides_100 is included iff rides ≥ 100. days_30 is included iff entries ≥ 30. goal_6k is included iff revenue ≥ 6000.00. Champion and veteran are never included, and the kinds come in evaluation order. |
| Storage.AwardStep | ReplitExport-brunopaulinoc/Desafio-6K-Sentinela-Drivers.zip/server/storage.ts:311-323 | One award step keeps every earlier row in place and adds rows only of the awarded kinds for that user. Every returned row is in the table. |
| Storage.CheckReadsRecomputedRow | ReplitExport-brunopaulinoc/Desafio-6K-Sentinela-Drivers.zip/server/storage.ts:116-121 | Right after recomputation, the award check reads the row just written without changing the table. The kinds it awards are exactly those the month's entries earn. |
| Storage.FindUserByEmail | ReplitExport-brunopaulinoc/Desafio-6K-Sentinela-Drivers.zip/server/storage.ts:53-56 | Finds a user with that email exactly when one exists. |
| Storage.JoinMonth | ReplitExport-brunopaulinoc/Desafio-6K-Sentinela-Drivers.zip/server/storage.ts:252-254 | The inner join holds exactly the pairs of a stats row of that month and the user that owns it. |
| Storage.HigherRevenueFirstIsPreorder | ReplitExport-brunopaulinoc/Desafio-6K-Sentinela-Drivers.zip/server/storage.ts:255 | Descending revenue order is total and transitive. |
| Storage.AppendEntryKeepsIds | ReplitExport-brunopaulinoc/Desafio-6K-Sentinela-Drivers.zip/server/storage.ts:110-114 | Inserting an entry with the next fresh id keeps the entry ids distinct and every id below the counter. |
| Storage.PatchKeepsIds | ReplitExport-brunopaulinoc/Desafio-6K-Sentinela-Drivers.zip/server/storage.ts:134-139 | An update by id changes no id, so the ids stay distinct and below the counter. |
| Storage.Store.constructor | ReplitExport-brunopaulinoc/Desafio-6K-Sentinela-Drivers.zip/server/storage.ts:359 | The storage starts with four empty tables that satisfy the table invariant. |
| Storage.Store.GetUserByEmail | ReplitExport-brunopaulinoc/Desafio-6K-Sentinela-Drivers.zip/server/storage.ts:53-56 | Returns a stored user with that email, or nothing exactly when no user has it. |
| Storage.Store.CreateUser | ReplitExport-brunopaulinoc/Desafio-6K-Sentinela-Drivers.zip/server/storage.ts:58-64 | A taken email is rejected and the tables are left unchanged. Otherwise exactly the given user row is appended under a fresh id, and the other tables are unchanged. |
| Storage.Store.GetDailyEntry | ReplitExport-brunopaulinoc/Desafio-6K-Sentinela-Drivers.zip/server/storage.ts:126-132 | Returns a stored entry of that user and date. It returns nothing exactly when the user has no entry for that date. |
| Storage.Store.GetUserDailyEntries | ReplitExport-brunopaulinoc/Desafio-6K-Sentinela-Drivers.zip/server/storage.ts:153-159 | Returns exactly the user's entries, each as often as stored, newest date first. |
| Storage.Store.CreateDailyEntry | ReplitExport-brunopaulinoc/Desafio-6K-Sentinela-Drivers.zip/server/storage.ts:110-124 | Always appends the entry under a fresh id. It succeeds exactly when the month's new sums fit their columns; then the month `date[0..7]` is recomputed and every kind it earns is awarded, keeping all earlier badges. Otherwise it fails with `Overflow`, the entry stays appended, and the stats and badges are unchanged. |
| Storage.Store.UpdateDailyEntry | ReplitExport-brunopaulinoc/Desafio-6K-Sentinela-Drivers.zip/server/storage.ts:134-151 | An unknown id is an error and changes nothing. Otherwise the row is patched in place. With an empty date the patched row is returned. With a non-empty date whose month's sums fit their columns, the month is recomputed, badges are re-checked and the patched row is returned. Otherwise it fails with `Overflow`, the row stays patched, and the stats and badges are unchanged. |
| Storage.Store.SyncMonth | ReplitExport-brunopaulinoc/Desafio-6K-Sentinela-Drivers.zip/server/storage.ts:116-121 | Recompute then award. The result is true exactly when the month's sums fit their columns. Then the stats table becomes `Recompute` of the old one, and the badge table keeps every earlier row, gains only badges for that user, and holds every kind the month earns. Otherwise stats and badges are unchanged. |
| Storage.Store.GetOrCreateMonthlyStats | ReplitExport-brunopaulinoc/Desafio-6K-Sentinela-Drivers.zip/server/storage.ts:162-185 | The new stats table and the returned row are those given by `StatsOrZero`. The other tables are unchanged. |
| Storage.Store.UpdateMonthlyStats | ReplitExport-brunopaulinoc/Desafio-6K-Sentinela-Drivers.zip/server/storage.ts:187-237 | Succeeds exactly when the month's sums fit their columns. Then the stats table becomes `Recompute` of the old one, and the returned row is the key's row holding the sums of the month's entries. Otherwise it fails with `Overflow` and changes nothing. |
| Storage.Store.GetMonthlyRanking | ReplitExport-brunopaulinoc/Desafio-6K-Sentinela-Drivers.zip/server/storage.ts:239-258 | Returns exactly the month's stats rows joined with their existing users, as a permutation of the join, with revenue non-increasing. |
| Storage.Store.CreateAchievement | ReplitExport-brunopaulinoc/Desafio-6K-Sentinela-Drivers.zip/server/storage.ts:261-283 | The new badge table and the returned row are those given by `AwardOnce`. The other tables are unchanged. |
| Storage.Store.CheckAndAwardAchievements | ReplitExport-brunopaulinoc/Desafio-6K-Sentinela-Drivers.zip/server/storage.ts:293-356 | Reads or creates the month's row. It returns one held badge per met threshold, new or existing, in the order rides_100, days_30, goal_6k. It never removes a badge and adds only those. |
| Consistency.InMonthExactly | ReplitExport-brunopaulinoc/Desafio-6K-Sentinela-Drivers.zip/server/storage.ts:189-197 | For well-formed dates and months, an entry matches the month filter exactly when it is filed under that month. |
| Consistency.AppendOtherMonth | ReplitExport-brunopaulinoc/Desafio-6K-Sentinela-Drivers.zip/server/storage.ts:110-121 | A new entry leaves the entry set of every other (user, month) unchanged. |
| Consistency.PatchOtherMonth | ReplitExport-brunopaulinoc/Desafio-6K-Sentinela-Drivers.zip/server/storage.ts:134-148 | A figures-only update of an entry outside a (user, month) leaves that month's entry set unchanged. |
| Consistency.RecomputeKeepsOthers | ReplitExport-brunopaulinoc/Desafio-6K-Sentinela-Drivers.zip/server/storage.ts:187-237 | When only one month's entries changed, recomputing that month makes every stats row hold its month's sums again. |
| Consistency.RecomputeKeepsShape | ReplitExport-brunopaulinoc/Desafio-6K-Sentinela-Drivers.zip/server/storage.ts:204-236 | Recomputing a well-formed month keeps every stats month in `YYYY-MM` form. |
| Consistency.AppendKeepsConsistent | ReplitExport-brunopaulinoc/Desafio-6K-Sentinela-Drivers.zip/server/routes.ts:148-156 | Creating an entry for a date the user has no entry for, then recomputing its month, keeps the service invariant. |
| Consistency.PatchKeepsKeys | ReplitExport-brunopaulinoc/Desafio-6K-Sentinela-Drivers.zip/server/routes.ts:143-147 | The handler's update sets only rides, revenue and fuel cost, so no entry changes user or date. |
| Consistency.PatchKeepsDays | ReplitExport-brunopaulinoc/Desafio-6K-Sentinela-Drivers.zip/server/routes.ts:139-147 | Such an update keeps the dates well formed and keeps one entry per (user, date). |
| Consistency.PatchKeepsFiled | ReplitExport-brunopaulinoc/Desafio-6K-Sentinela-Drivers.zip/server/storage.ts:141-148 | After such an update and a recomputation, every entry still has a stats row for its month. |
| Consistency.PatchKeepsConsistent | ReplitExport-brunopaulinoc/Desafio-6K-Sentinela-Drivers.zip/server/routes.ts:142-147 | Updating an existing entry's figures, then recomputing its month, keeps the service invariant. |
| Consistency.PatchLeavesOtherMonths | ReplitExport-brunopaulinoc/Desafio-6K-Sentinela-Drivers.zip/server/storage.ts:134-148 | Such an update changes the entry set of no stats row other than the patched entry's month. |
| Consistency.ZeroKeepsConsistent | ReplitExport-brunopaulinoc/Desafio-6K-Sentinela-Drivers.zip/server/routes.ts:203-207 | Creating a zeroed row for a well-formed month keeps the service invariant, since a month with no row has no entries. |
| Consistency.EmptyConsistent | ReplitExport-brunopaulinoc/Desafio-6K-Sentinela-Drivers.zip/server/storage.ts:359 | The empty store satisfies the service invariant. |
| Consistency.OverflowBreaksConsistency | ReplitExport-brunopaulinoc/Desafio-6K-Sentinela-Drivers.zip/server/storage.ts:116-121 | When a new entry brings its month's sums beyond their columns' ranges, leaving the stats as they were, as a refused recomputation does, breaks the service invariant. |
| Consistency.FirstLargeDayConsistent | ReplitExport-brunopaulinoc/Desafio-6K-Sentinela-Drivers.zip/server/storage.ts:110-121 | After one day of 60,000,000.00 revenue, the entry and its month row agree and the row fits its columns. |
| Consistency.TwoLargeDaysTotal | ReplitExport-brunopaulinoc/Desafio-6K-Sentinela-Drivers.zip/server/storage.ts:199-201 | Two such days in one month sum to 120,000,000.00 of revenue. |
| Consistency.TwoLargeDaysOverflow | ReplitExport-brunopaulinoc/Desafio-6K-Sentinela-Drivers.zip/shared/schema.ts:60 | Each of the two days fits its own `decimal(10, 2)` column, but their month sum does not fit `total_revenue`, and with the stats left as they were the tables no longer agree. |
| Auth.RequireUser | ReplitExport-brunopaulinoc/Desafio-6K-Sentinela-Drivers.zip/server/auth.ts:34-39 | Answers 401 exactly when the session holds no user. Otherwise it passes on the session's user. |
| Auth.RegisterUser | ReplitExport-brunopaulinoc/Desafio-6K-Sentinela-Drivers.zip/server/auth.ts:49-69 | A taken email fails with "Email já está em uso" and adds no user. Otherwise it appends one user that stores the password's hash, provider "local" and onboarded true. Other tables are unchanged. |
| Auth.AuthenticateUser | ReplitExport-brunopaulinoc/Desafio-6K-Sentinela-Drivers.zip/server/auth.ts:71-84 | Every failure carries the same message, and an unknown email always fails. Success returns the stored user with that email, whose non-empty hash the verifier accepts. |
| Auth.AuthenticateExactly | ReplitExport-brunopaulinoc/Desafio-6K-Sentinela-Drivers.zip/server/auth.ts:71-84 | With unique emails, login succeeds iff some stored user has that email and a usable hash that accepts the password. |
| Auth.LoginAfterRegister | ReplitExport-brunopaulinoc/Desafio-6K-Sentinela-Drivers.zip/server/auth.ts:41-47 | If the verifier accepts a password against its own non-empty hash, logging in right after registering with the same email and password returns the new account. |
| Routes.FailureResponse | ReplitExport-brunopaulinoc/Desafio-6K-Sentinela-Drivers.zip/server/routes.ts:159-165 | Status is 400 iff the failure is a schema error or the endpoint is registration. It is 401 iff login threw, and 500 iff saving an entry threw. Schema issues are passed through. |
| Routes.CheckText | ReplitExport-brunopaulinoc/Desafio-6K-Sentinela-Drivers.zip/server/routes.ts:21-30 | There is no issue iff the field is present, is a string and passes its check. Otherwise there is a single issue naming the field. |
| Routes.CheckMoney | ReplitExport-brunopaulinoc/Desafio-6K-Sentinela-Drivers.zip/server/routes.ts:17-18 | There is no issue iff the field, after a numeric value is turned into text, is a non-empty string. |
| Routes.CheckRides | ReplitExport-brunopaulinoc/Desafio-6K-Sentinela-Drivers.zip/server/routes.ts:16 | There is no issue iff rides is present, is a number and is ≥ 0. |
| Routes.ValidateDailyEntry | ReplitExport-brunopaulinoc/Desafio-6K-Sentinela-Drivers.zip/server/routes.ts:130-136 | Accepts iff the date matches `^\d{4}-\d{2}-\d{2}$`, rides ≥ 0, and both money fields are non-empty text. An accepted entry carries the session user. Rejections list one to four issues in schema field order. |
| Routes.BodyUserIgnored | ReplitExport-brunopaulinoc/Desafio-6K-Sentinela-Drivers.zip/server/routes.ts:131-133 | Whatever `userId` the body carries, validation gives the same result. |
| Routes.ToColumns | ReplitExport-brunopaulinoc/Desafio-6K-Sentinela-Drivers.zip/shared/schema.ts:48-50 | The row is accepted iff rides is a whole 32-bit integer and both money texts parse as decimals. The stored values are exactly those. |
| Routes.PostDailyEntry | ReplitExport-brunopaulinoc/Desafio-6K-Sentinela-Drivers.zip/server/routes.ts:128-167 | A missing user gives 401, a schema error gives 400 and a rejected row gives 500, each changing nothing. Otherwise the entry table becomes `Written`: the day's entry updated in place, or a new one appended. When the month's sums fit, it answers 200 with the saved entry, the only one for the day; the stats become `Recompute` of the old ones, the month's badges are awarded and the service invariant holds. When they do not fit, it answers 500 with the entry written and the stats and badges unchanged. |
| Routes.PostDailyEntryAtomic | ReplitExport-brunopaulinoc/Desafio-6K-Sentinela-Drivers.zip/server/routes.ts:128-167 | The handler with its writes in one transaction: the service invariant holds after every request. It answers 200 exactly when the session, the schema, the columns and the month's sums all accept the save, and then the entry is saved as in `Routes.PostDailyEntry`. Any other answer leaves every table unchanged. |
| Routes.SaveOver | ReplitExport-brunopaulinoc/Desafio-6K-Sentinela-Drivers.zip/server/routes.ts:142-147 | The day's entry is patched in place with the submitted figures and keeps its id; every other entry is untouched. When the month's sums fit, it answers 200 with that entry, the stats become `Recompute` of the old ones with no new id used, and the service invariant holds. Otherwise it answers 500 with the stats and badges unchanged. |
| Routes.UpdatedConsistently | ReplitExport-brunopaulinoc/Desafio-6K-Sentinela-Drivers.zip/server/routes.ts:139-147 | The tables after the update branch keep the service invariant and hold exactly the updated entry for that day. |
| Routes.SaveNew | ReplitExport-brunopaulinoc/Desafio-6K-Sentinela-Drivers.zip/server/routes.ts:148-156 | Exactly one entry with the submitted figures is appended under the next id. When the month's sums fit, it answers 200 with that entry, the stats become `Recompute` of the old ones, and the service invariant holds. Otherwise it answers 500 with the entry appended and the stats and badges unchanged. |
| Routes.CreatedConsistently | ReplitExport-brunopaulinoc/Desafio-6K-Sentinela-Drivers.zip/server/routes.ts:148-156 | The tables after the create branch keep the service invariant and hold exactly the new entry for that day. |
| Routes.GetEntries | ReplitExport-brunopaulinoc/Desafio-6K-Sentinela-Drivers.zip/server/routes.ts:169-178 | Without a user it answers 401. Otherwise it answers 200 with exactly the session user's entries, each as often as it is stored, newest first. |
| Routes.GetEntryByDate | ReplitExport-brunopaulinoc/Desafio-6K-Sentinela-Drivers.zip/server/routes.ts:180-195 | A malformed date gives 400. A well-formed date gives 200 with the entry, or null exactly when the user has none for it. |
| Routes.GetMonthlyStats | ReplitExport-brunopaulinoc/Desafio-6K-Sentinela-Drivers.zip/server/routes.ts:198-213 | A malformed month gives 400 before the store is touched. Otherwise it answers 200 with the read-or-created row. That row's totals equal the month's sums, and the service invariant is kept. |
| Routes.GetRanking | ReplitExport-brunopaulinoc/Desafio-6K-Sentinela-Drivers.zip/server/routes.ts:216-230 | A malformed month gives 400. Otherwise it answers 200 with rows of that month only, highest revenue first. |
| Routes.ValidateRegistration | ReplitExport-brunopaulinoc/Desafio-6K-Sentinela-Drivers.zip/server/routes.ts:21-25 | Accepts iff the email passes the check, the password has ≥ 6 characters and the name has ≥ 2. It returns those three values. |
| Routes.ValidateLogin | ReplitExport-brunopaulinoc/Desafio-6K-Sentinela-Drivers.zip/server/routes.ts:27-30 | Accepts iff the email passes the check and the password is non-empty. |
| Routes.PostRegister | ReplitExport-brunopaulinoc/Desafio-6K-Sentinela-Drivers.zip/server/routes.ts:37-58 | Every failure is 400 and changes neither the users nor the session. A taken email gets its own message. Success appends the new account and logs it in. |
| Routes.PostLogin | ReplitExport-brunopaulinoc/Desafio-6K-Sentinela-Drivers.zip/server/routes.ts:60-77 | A schema error is 400 and a credential failure is 401, both leaving the session unchanged. Success is 200 and stores in the session the user authenticated under that email. |
| JsNumber.Div | ReplitExport-brunopaulinoc/Desafio-6K-Sentinela-Drivers.zip/client/src/components/dashboard.tsx:40 | Division by a non-zero number is exact. Dividing by zero gives +∞, −∞ or NaN according to the sign of the dividend. |
| JsNumber.Scale | ReplitExport-brunopaulinoc/Desafio-6K-Sentinela-Drivers.zip/client/src/components/ranking.tsx:34 | Multiplying by a positive constant scales finite values and keeps infinities and NaN. |
| JsNumber.MinWith | ReplitExport-brunopaulinoc/Desafio-6K-Sentinela-Drivers.zip/client/src/components/dashboard.tsx:40 | `Math.min` with a finite bound never exceeds the bound and never gives +∞. It gives NaN exactly for NaN, and returns a finite input unless it exceeds the bound. |
| JsNumber.Round | ReplitExport-brunopaulinoc/Desafio-6K-Sentinela-Drivers.zip/client/src/components/ranking.tsx:59 | `Math.round` gives the integer within half a unit below and less than half a unit above its input. |
| JsNumber.RoundUnique | ReplitExport-brunopaulinoc/Desafio-6K-Sentinela-Drivers.zip/client/src/components/ranking.tsx:59 | That integer is unique. |
| JsNumber.RoundNum | ReplitExport-brunopaulinoc/Desafio-6K-Sentinela-Drivers.zip/client/src/components/ranking.tsx:59 | Rounding rounds finite values and passes infinities and NaN through. |
| RankingView.PercentageCompares | ReplitExport-brunopaulinoc/Desafio-6K-Sentinela-Drivers.zip/client/src/components/ranking.tsx:34 | For a positive goal, the percentage is ≥ k (or > k) iff revenue is ≥ (or >) k% of the goal. |
| RankingView.RankingColor | ReplitExport-brunopaulinoc/Desafio-6K-Sentinela-Drivers.zip/client/src/components/ranking.tsx:33-38 | For a positive goal: success iff revenue ≥ goal, warning iff goal/2 ≤ revenue < goal, danger iff revenue < goal/2. For a zero goal: success iff revenue > 0, and never warning. |
| RankingView.RankingStatus | ReplitExport-brunopaulinoc/Desafio-6K-Sentinela-Drivers.zip/client/src/components/ranking.tsx:40-46 | For a positive goal: "Meta batida!" iff revenue ≥ goal, "Acima de 50%" iff goal/2 ≤ revenue < goal, "Abaixo de 50%" iff 0 < revenue < goal/2, and "Não classificado" iff revenue ≤ 0. |
| RankingView.StatusAgreesWithColor | ReplitExport-brunopaulinoc/Desafio-6K-Sentinela-Drivers.zip/client/src/components/ranking.tsx:33-46 | For every revenue and goal, "Meta batida!" iff success, "Acima de 50%" iff warning, and danger iff one of the two lower statuses. |
| RankingView.GetPercentage | ReplitExport-brunopaulinoc/Desafio-6K-Sentinela-Drivers.zip/client/src/components/ranking.tsx:57-60 | For a positive goal, the result is the integer nearest to revenue/goal × 100, with halves rounded up. A zero goal gives a non-finite result. |
| RankingView.PositionLabel | ReplitExport-brunopaulinoc/Desafio-6K-Sentinela-Drivers.zip/client/src/components/ranking.tsx:199 | A place is shown iff revenue > 0, and it is the line's index + 1. Otherwise a dash is shown. |
| RankingView.Revenue | ReplitExport-brunopaulinoc/Desafio-6K-Sentinela-Drivers.zip/client/src/components/ranking.tsx:170 | A line's revenue in reais is its stored cents divided by 100. |
| RankingView.PlacesLeadTheList | ReplitExport-brunopaulinoc/Desafio-6K-Sentinela-Drivers.zip/client/src/components/ranking.tsx:169-174 | On a revenue-ordered list, a line with a place is preceded only by lines with smaller places. Once a dash appears, no later line has a place. |
| RankingView.PodiumOf | ReplitExport-brunopaulinoc/Desafio-6K-Sentinela-Drivers.zip/client/src/components/ranking.tsx:31 | The podium holds the first, second and third lines, each present iff the list is long enough. |
| RankingView.PodiumOrdered | ReplitExport-brunopaulinoc/Desafio-6K-Sentinela-Drivers.zip/client/src/components/ranking.tsx:30-31 | On the store's ranking, first ≥ second ≥ third in revenue, and first ≥ every line of the month. |
| RankingView.Heads | ReplitExport-brunopaulinoc/Desafio-6K-Sentinela-Drivers.zip/client/src/components/ranking.tsx:64 | Mapping each piece to its first character and joining gives at most one character per piece. |
| RankingView.Words | ReplitExport-brunopaulinoc/Desafio-6K-Sentinela-Drivers.zip/client/src/components/ranking.tsx:64 | The words of a name are non-empty and contain no space. |
| RankingView.HeadsAreWordInitials | ReplitExport-brunopaulinoc/Desafio-6K-Sentinela-Drivers.zip/client/src/components/ranking.tsx:64 | The joined heads are exactly the first characters of the non-empty pieces, in order, since an empty piece contributes nothing. |
| RankingView.Initials | ReplitExport-brunopaulinoc/Desafio-6K-Sentinela-Drivers.zip/client/src/components/ranking.tsx:62-70 | With a non-empty display name: the upper-cased initials of its first two words, or fewer if it has fewer words. Otherwise, with both names: the upper-cased first and last initials. Otherwise the email's upper-cased first character, or "U" for an empty email. |
| RankingView.BlankDisplayName | ReplitExport-brunopaulinoc/Desafio-6K-Sentinela-Drivers.zip/client/src/components/ranking.tsx:63-64 | Any non-empty display name made only of spaces is truthy yet yields no initials, so the fallbacks are not reached. |
| Dashboard.Read | ReplitExport-brunopaulinoc/Desafio-6K-Sentinela-Drivers.zip/client/src/components/dashboard.tsx:37-39 | A missing row reads as revenue 0, fuel 0 and goal 6000. A present row reads as its cents divided by 100. |
| Dashboard.FreshRowGoal | ReplitExport-brunopaulinoc/Desafio-6K-Sentinela-Drivers.zip/client/src/components/dashboard.tsx:39 | A stats row created by the server reads back with goal 6000. |
| Dashboard.Progress | ReplitExport-brunopaulinoc/Desafio-6K-Sentinela-Drivers.zip/client/src/components/dashboard.tsx:40 | Never above 100 and never +∞. For a positive goal it is exactly 100 iff revenue ≥ goal, and otherwise revenue/goal × 100. For a zero goal it is 100 iff revenue > 0, and NaN iff revenue = 0. |
| Dashboard.ShareBelowWhole | ReplitExport-brunopaulinoc/Desafio-6K-Sentinela-Drivers.zip/client/src/components/dashboard.tsx:40 | For a positive goal, the share reaches 100% iff revenue reaches the goal. |
| Dashboard.Remaining | ReplitExport-brunopaulinoc/Desafio-6K-Sentinela-Drivers.zip/client/src/components/dashboard.tsx:41 | Never negative. It is zero iff revenue ≥ goal, and otherwise revenue + remaining = goal. |
| Dashboard.NetProfit | ReplitExport-brunopaulinoc/Desafio-6K-Sentinela-Drivers.zip/client/src/components/dashboard.tsx:42 | Profit plus fuel cost gives back the revenue. |
| Dashboard.Roi | ReplitExport-brunopaulinoc/Desafio-6K-Sentinela-Drivers.zip/client/src/components/dashboard.tsx:43 | With fuel spent, roi × fuel = profit × 100. Without fuel, it is 0. |
| Dashboard.RoiSign | ReplitExport-brunopaulinoc/Desafio-6K-Sentinela-Drivers.zip/client/src/components/dashboard.tsx:42-43 | With fuel spent, the return is positive iff revenue exceeds fuel, and zero iff they are equal. |
| Dashboard.HasAchievement | ReplitExport-brunopaulinoc/Desafio-6K-Sentinela-Drivers.zip/client/src/components/dashboard.tsx:45-47 | True iff the list is present and holds a badge with that type name. |
| Dashboard.AnyOfType | ReplitExport-brunopaulinoc/Desafio-6K-Sentinela-Drivers.zip/client/src/components/dashboard.tsx:46 | `some` is true iff some element has that type name. |
| Dashboard.GoalBadgeExactly | ReplitExport-brunopaulinoc/Desafio-6K-Sentinela-Drivers.zip/client/src/components/dashboard.tsx:97 | For a positive goal, the "Meta 6K" badge is lit iff goal_6k is held or revenue ≥ goal, even without the badge stored. |
| Dashboard.FullProgressEarnsGoal6k | ReplitExport-brunopaulinoc/Desafio-6K-Sentinela-Drivers.zip/client/src/components/dashboard.tsx:37-40 | For a row with the default goal, the bar is full iff the server's threshold awards goal_6k for that row. |

## Left out

- **Database plumbing.** `LIKE month || '%'` is modelled as a prefix test. The `%` and `_` wildcards a month text could carry are not modelled; the route only passes `YYYY-MM`.
- **Timestamps.** `createdAt`, `updatedAt` and `earnedAt` are clock reads and are not modelled. `getUserAchievements` and the `GET /api/achievements` route are not part of this model, because their only logic is an order by `earnedAt`.
- **Decimal arithmetic.** Money on the server is exact cents. The `parseFloat` sums and `toString` of the aggregator are exact here, so binary floating-point rounding is not modelled. A sum outside a column's range is refused, as PostgreSQL refuses it; the range is checked on the exact sum.
- **Client arithmetic and formatting.** Client arithmetic is exact `real`, with infinities and NaN modelled but not negative zero. `toLocaleString` and `toFixed` formatting are not modelled.
- **Text.** `toUpperCase` is modelled for ASCII letters only. JavaScript's UTF-16 indexing is modelled as indexing of Dafny characters.
- **Identifiers.** `gen_random_uuid()` is modelled by the counter `nextId`.
- **Foreign keys.** The foreign keys of `user_id` are not modelled. The ranking's inner join drops rows without a user, as in the source.
- **Password hashing.** bcrypt hashing, salting and cost are not modelled; `hash` and `verify` are parameters.
- **Sessions and the other routes.** Not modelled:
  - the session store, cookies and `setupAuth`;
  - logout, `GET /api/auth/user` and `POST /api/profile`;
  - `getUser`, `upsertUser`, `updateUserProfile` and `markUserOnboarded`.

  They are outside the tracker's bookkeeping.
- **Session user id.** The session user is an optional id. An empty-string id, falsy in JavaScript, is not distinguished from a missing one.
- **Supplied functions.** Zod's email check, the JavaScript number-to-text conversion and PostgreSQL's decimal parse are not modelled. They are parameters (`isEmail`, `show`, `toCents`).
- **Request bodies.** A body is a map from field names to JSON values. Arrays, objects, booleans and null are all one "other" kind.
- **Concurrency.** Requests are modelled one at a time. Only `Routes.PostDailyEntryAtomic` stands for a transaction, and only as all-or-nothing writes. The check-then-insert races in the entry handler and in `createAchievement` are not modelled.
- **Champion and veteran.** The `champion` and `veteran` badges have no trigger in the code and are never awarded here.
- **Rendering.** React rendering, loading states and the other client files are not part of this model.
- **Source versus design description.** Where the source and its design description differ, the model follows the source:
  - `checkAndAwardAchievements` returns every qualifying badge, new or already held, not only the new ones.
  - Revenue and fuel cost are accepted as any non-empty text, so negative money is not rejected.
  - A date is checked only against `YYYY-MM-DD`, not against the calendar.
  - Recomputation runs outside any transaction.
- Routes.PostDailyEntry: the service invariant is not promised after a save whose month sums do not fit their columns. The source leaves the entry written beside stale totals; see Findings.
- Routes.SaveOver: the same; the patched entry stays, and the stats are not recomputed.
- Routes.SaveNew: the same; the appended entry stays, and the stats are not recomputed.
- Storage.Store.GetUserDailyEntries: the order among entries with equal dates is not stated; any order the sort produces is allowed, as `ORDER BY date DESC` allows.
- Storage.Store.GetMonthlyRanking: the order among rows with equal revenue is not stated, as `ORDER BY total_revenue DESC` leaves it open.
- Routes.GetRanking: states the rows' month and order, not that every row of the month is present; `Storage.Store.GetMonthlyRanking` states that.
- Routes.PostLogin: the 200 response's message and user fields are not stated, only its status and the new session.
- RankingView.RankingColor: a negative goal is not covered; every call on the screen passes the default goal of 6000.
- RankingView.RankingStatus: zero and negative goals are not covered, for the same reason.
- RankingView.GetPercentage: a negative goal is not covered, for the same reason.
- Dashboard.Progress: a negative goal is not covered; no route can store one.
- Dashboard.GoalBadgeExactly: only positive goals are covered, for the same reason.

## Findings

| source | as written | input that shows it | evidently intended | confidence | as-written member | corrected member |
|---|---|---|---|---|---|---|
| ReplitExport-brunopaulinoc/Desafio-6K-Sentinela-Drivers.zip/server/routes.ts:139-156 | The entry is written first. The month is then recomputed in a separate statement, with no transaction. When the month's new sums do not fit the `decimal(10, 2)` total columns, the recomputation throws. The handler answers 500, but the entry stays written beside the old totals. | Two entries of one user in one month, each with revenue 60000000.00: each fits its column, but the month's 120000000.00 does not (`Consistency.TwoLargeDaysOverflow`). | A failed save leaves every table as it was, so the stats keep matching the entries. | not executed | Routes.PostDailyEntry | Routes.PostDailyEntryAtomic |
