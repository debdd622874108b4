/**
 * The storage layer of the earnings tracker: four in-memory tables and the
 * operations that keep the monthly aggregates and the achievement badges in
 * step with the daily entries.
 *
 * The tables are ordinary sequences in insertion order. Each operation of
 * the store is a method of `Store`; its effect on the tables is stated by a
 * pure function of the old tables (`Recompute`, `StatsOrZero`, `AwardOnce`,
 * `PatchEntries`), and the properties of the design are proved about those
 * functions.
 */
module Storage {
  import opened Wrappers
  import opened Schema
  import Text
  import Seqs
  import Sorting

  // ------------------------------------------------------------------
  // Daily entries and their monthly sums
  // ------------------------------------------------------------------

  /** The month key an entry is filed under: `date.substring(0, 7)`. */
  function MonthOf(date: string): string {
    Text.Take(date, 7)
  }

  /** `user_id = userId AND date LIKE month || '%'`. */
  predicate InMonth(e: DailyEntry, userId: Id, month: string) {
    e.userId == userId && Text.StartsWith(e.date, month)
  }

  /** The rows the aggregator selects for one user and one month. */
  function MonthEntries(entries: seq<DailyEntry>, userId: Id, month: string): seq<DailyEntry> {
    Seqs.Filter(entries, (e: DailyEntry) => InMonth(e, userId, month))
  }

  datatype Totals = Totals(rides: int, revenue: int, fuelCost: int)

  function Plus(a: Totals, b: Totals): Totals {
    Totals(a.rides + b.rides, a.revenue + b.revenue, a.fuelCost + b.fuelCost)
  }

  function EntryTotals(e: DailyEntry): Totals {
    Totals(e.rides, e.revenue, e.fuelCost)
  }

  /** The three running sums, folded from the first row to the last. */
  function TotalsOf(entries: seq<DailyEntry>): Totals {
    if entries == [] then Totals(0, 0, 0)
    else Plus(TotalsOf(entries[..|entries| - 1]), EntryTotals(entries[|entries| - 1]))
  }

  /** The sums of a concatenation add up. */
  lemma {:induction false} TotalsOfConcat(a: seq<DailyEntry>, b: seq<DailyEntry>)
    ensures TotalsOf(a + b) == Plus(TotalsOf(a), TotalsOf(b))
  {
    if b == [] {
      assert a + b == a;
    } else {
      var n, ab := |b| - 1, a + b;
      assert ab[..|ab| - 1] == a + b[..n] && ab[|ab| - 1] == b[n];
      TotalsOfConcat(a, b[..n]);
    }
  }

  /** Taking one row out of the middle subtracts exactly its figures. */
  lemma {:induction false} TotalsOfRemove(b: seq<DailyEntry>, k: nat)
    requires k < |b|
    ensures TotalsOf(b) == Plus(TotalsOf(b[..k] + b[k + 1..]), EntryTotals(b[k]))
  {
    var front, x, back := b[..k], b[k], b[k + 1..];
    assert b == (front + [x]) + back;
    TotalsOfConcat(front + [x], back);
    assert TotalsOf(front + [x]) == Plus(TotalsOf(front), EntryTotals(x)) by {
      assert (front + [x])[..|front|] == front;
    }
    TotalsOfConcat(front, back);
    PlusSwap(TotalsOf(front), EntryTotals(x), TotalsOf(back));
  }

  lemma PlusSwap(a: Totals, x: Totals, b: Totals)
    ensures Plus(Plus(a, x), b) == Plus(Plus(a, b), x)
  {
  }

  lemma {:induction false} MultisetRemove<T>(b: seq<T>, k: nat)
    requires k < |b|
    ensures multiset(b[..k] + b[k + 1..]) == multiset(b) - multiset{b[k]}
  {
    assert b == b[..k] + [b[k]] + b[k + 1..];
  }

  /**
   * The sums do not depend on the order in which the rows come back: the
   * aggregator's query has no `ORDER BY`, and any order gives the same totals.
   */
  lemma {:induction false} TotalsOfPermutation(a: seq<DailyEntry>, b: seq<DailyEntry>)
    requires multiset(a) == multiset(b)
    ensures TotalsOf(a) == TotalsOf(b)
    decreases |a|
  {
    if a == [] {
      assert |b| == |multiset(b)| == 0;
    } else {
      var n := |a| - 1;
      var x, a' := a[n], a[..n];
      assert a == a' + [x];
      assert multiset(a) == multiset(a') + multiset{x};
      assert x in b by {
        assert x in multiset(b);
      }
      var k :| 0 <= k < |b| && b[k] == x;
      var b' := b[..k] + b[k + 1..];
      MultisetRemove(b, k);
      assert multiset(a') == multiset(b');
      TotalsOfPermutation(a', b');
      TotalsOfRemove(b, k);
      assert TotalsOf(a) == Plus(TotalsOf(a'), EntryTotals(x));
    }
  }

  /** What `updateMonthlyStats` computes for one user and month. */
  function MonthTotals(entries: seq<DailyEntry>, userId: Id, month: string): Totals {
    TotalsOf(MonthEntries(entries, userId, month))
  }

  /**
   * Whether month totals can be written: `total_rides` is an `integer`
   * column and the two money totals are `decimal(10, 2)` columns, and the
   * database refuses a value outside a column's range.
   */
  predicate Fits(t: Totals) {
    && INT32_MIN <= t.rides <= INT32_MAX
    && -DECIMAL_LIMIT_CENTS < t.revenue < DECIMAL_LIMIT_CENTS
    && -DECIMAL_LIMIT_CENTS < t.fuelCost < DECIMAL_LIMIT_CENTS
  }

  /** Rides summed over entries that each have non-negative rides are non-negative. */
  lemma {:induction false} TotalRidesNonNegative(entries: seq<DailyEntry>)
    requires forall e :: e in entries ==> e.rides >= 0
    ensures TotalsOf(entries).rides >= 0
  {
    if entries != [] {
      assert entries[|entries| - 1] in entries;
      TotalRidesNonNegative(entries[..|entries| - 1]);
    }
  }

  /** The row `getDailyEntry(userId, date)` returns: the first one for that user and date. */
  function FindEntry(entries: seq<DailyEntry>, userId: Id, date: string): (r: Option<nat>)
    ensures r.Some? ==> r.value < |entries| && entries[r.value].userId == userId && entries[r.value].date == date
    ensures r.None? <==> forall e :: e in entries ==> !(e.userId == userId && e.date == date)
  {
    Seqs.FirstIndex(entries, (e: DailyEntry) => e.userId == userId && e.date == date)
  }

  function FindEntryById(entries: seq<DailyEntry>, id: Id): (r: Option<nat>)
    ensures r.Some? ==> r.value < |entries| && entries[r.value].id == id
    ensures r.None? <==> forall e :: e in entries ==> e.id != id
  {
    Seqs.FirstIndex(entries, (e: DailyEntry) => e.id == id)
  }

  /** With distinct ids, looking up an entry's id finds that entry. */
  lemma FindEntryByIdFindsIt(entries: seq<DailyEntry>, k: nat)
    requires DistinctEntryIds(entries) && k < |entries|
    ensures FindEntryById(entries, entries[k].id) == Some(k)
  {
    var j := FindEntryById(entries, entries[k].id).value;
    assert entries[j].id == entries[k].id;
  }

  /** A `Partial<InsertDailyEntry>`: the columns an update may set. */
  datatype EntryPatch = EntryPatch(
    userId: Option<Id>,
    date: Option<string>,
    rides: Option<int>,
    revenue: Option<int>,
    fuelCost: Option<int>)

  /** One row after the update: each column the patch sets takes its value, every other keeps the row's. */
  function ApplyPatch(e: DailyEntry, p: EntryPatch): (r: DailyEntry)
    ensures r.id == e.id
    ensures p.userId.Some? ==> r.userId == p.userId.value
    ensures p.userId.None? ==> r.userId == e.userId
    ensures p.date.Some? ==> r.date == p.date.value
    ensures p.date.None? ==> r.date == e.date
    ensures p.rides.Some? ==> r.rides == p.rides.value
    ensures p.rides.None? ==> r.rides == e.rides
    ensures p.revenue.Some? ==> r.revenue == p.revenue.value
    ensures p.revenue.None? ==> r.revenue == e.revenue
    ensures p.fuelCost.Some? ==> r.fuelCost == p.fuelCost.value
    ensures p.fuelCost.None? ==> r.fuelCost == e.fuelCost
  {
    DailyEntry(
      e.id,
      if p.userId.Some? then p.userId.value else e.userId,
      if p.date.Some? then p.date.value else e.date,
      if p.rides.Some? then p.rides.value else e.rides,
      if p.revenue.Some? then p.revenue.value else e.revenue,
      if p.fuelCost.Some? then p.fuelCost.value else e.fuelCost)
  }

  /** `UPDATE daily_entries SET patch WHERE id = id`: every row with that id. */
  function PatchEntries(entries: seq<DailyEntry>, id: Id, p: EntryPatch): (r: seq<DailyEntry>)
    // no row moves, disappears or changes its id
    ensures |r| == |entries| && forall i :: 0 <= i < |entries| ==> r[i].id == entries[i].id
    // rows with another id are untouched
    ensures forall i :: 0 <= i < |entries| && entries[i].id != id ==> r[i] == entries[i]
    // the rows with the id take the patch
    ensures forall i :: 0 <= i < |entries| && entries[i].id == id ==> r[i] == ApplyPatch(entries[i], p)
  {
    seq(|entries|, i requires 0 <= i < |entries| =>
      if entries[i].id == id then ApplyPatch(entries[i], p) else entries[i])
  }

  /** Repeating the same update changes nothing more. */
  lemma PatchTwice(entries: seq<DailyEntry>, id: Id, p: EntryPatch)
    ensures PatchEntries(PatchEntries(entries, id, p), id, p) == PatchEntries(entries, id, p)
  {
    var once := PatchEntries(entries, id, p);
    var twice := PatchEntries(once, id, p);
    forall i | 0 <= i < |entries|
      ensures twice[i] == once[i]
    {
      if entries[i].id == id {
        assert once[i] == ApplyPatch(entries[i], p);
      }
    }
  }

  predicate DistinctEntryIds(entries: seq<DailyEntry>) {
    forall i, j :: 0 <= i < j < |entries| ==> entries[i].id != entries[j].id
  }

  /** Newer dates first: `ORDER BY date DESC`. */
  predicate NewerFirst(a: DailyEntry, b: DailyEntry) {
    Text.LexLe(b.date, a.date)
  }

  lemma NewerFirstIsPreorder()
    ensures Sorting.Total(NewerFirst) && Sorting.Transitive(NewerFirst)
  {
    forall a: DailyEntry, b: DailyEntry
      ensures NewerFirst(a, b) || NewerFirst(b, a)
    {
      Text.LexLeTotal(a.date, b.date);
    }
    forall a: DailyEntry, b: DailyEntry, c: DailyEntry | NewerFirst(a, b) && NewerFirst(b, c)
      ensures NewerFirst(a, c)
    {
      Text.LexLeTransitive(c.date, b.date, a.date);
    }
  }

  // ------------------------------------------------------------------
  // Monthly stats
  // ------------------------------------------------------------------

  predicate IsKey(r: MonthlyStats, userId: Id, month: string) {
    r.userId == userId && r.month == month
  }

  predicate HasStats(stats: seq<MonthlyStats>, userId: Id, month: string) {
    exists i :: 0 <= i < |stats| && IsKey(stats[i], userId, month)
  }

  /** The row a `WHERE user_id = userId AND month = month` lookup finds first. */
  function FindStats(stats: seq<MonthlyStats>, userId: Id, month: string): (r: Option<nat>)
    ensures r.Some? ==> r.value < |stats| && IsKey(stats[r.value], userId, month)
    ensures r.Some? ==> forall j :: 0 <= j < r.value ==> !IsKey(stats[j], userId, month)
    ensures r.None? <==> !HasStats(stats, userId, month)
  {
    Seqs.FirstIndex(stats, (s: MonthlyStats) => IsKey(s, userId, month))
  }

  /** At most one stats row per (user, month). */
  predicate OneStatsRowPerMonth(stats: seq<MonthlyStats>) {
    forall i, j :: 0 <= i < j < |stats| ==>
      !(stats[i].userId == stats[j].userId && stats[i].month == stats[j].month)
  }

  function RowTotals(r: MonthlyStats): Totals {
    Totals(r.totalRides, r.totalRevenue, r.totalFuelCost)
  }

  /** Every stats row's totals lie within their columns' ranges. */
  predicate RowsFit(stats: seq<MonthlyStats>) {
    forall s :: s in stats ==> Fits(RowTotals(s))
  }

  function WithTotals(r: MonthlyStats, t: Totals): MonthlyStats {
    r.(totalRides := t.rides, totalRevenue := t.revenue, totalFuelCost := t.fuelCost)
  }

  /** `UPDATE monthly_stats SET totals WHERE user_id = userId AND month = month`. */
  function Overwrite(stats: seq<MonthlyStats>, userId: Id, month: string, t: Totals): (r: seq<MonthlyStats>)
    // every row stays where it was, with its id, key and goal
    ensures |r| == |stats|
    ensures forall i :: 0 <= i < |stats| ==>
      && r[i].id == stats[i].id && r[i].userId == stats[i].userId && r[i].month == stats[i].month
      && r[i].goalAmount == stats[i].goalAmount
    // the key's rows carry the new totals; every other row is untouched
    ensures forall i :: 0 <= i < |stats| && IsKey(stats[i], userId, month) ==> RowTotals(r[i]) == t
    ensures forall i :: 0 <= i < |stats| && !IsKey(stats[i], userId, month) ==> r[i] == stats[i]
  {
    seq(|stats|, i requires 0 <= i < |stats| =>
      if IsKey(stats[i], userId, month) then WithTotals(stats[i], t) else stats[i])
  }

  /** A freshly inserted stats row with the default goal. */
  function NewStats(id: Id, userId: Id, month: string, t: Totals): MonthlyStats {
    MonthlyStats(id, userId, month, t.rides, t.revenue, t.fuelCost, DEFAULT_GOAL_CENTS)
  }

  /**
   * The stats table after `updateMonthlyStats(userId, month)`: the month's
   * sums overwrite the existing (user, month) row, or a new row with the
   * default goal is appended when there is none. `freshId` is the id a
   * new row would receive.
   */
  function Recompute(stats: seq<MonthlyStats>, entries: seq<DailyEntry>, userId: Id, month: string, freshId: Id)
    : (r: seq<MonthlyStats>)
    // a (user, month) row exists afterwards and every one holds the month's sums
    ensures HasStats(r, userId, month)
    ensures forall x :: x in r && IsKey(x, userId, month) ==> RowTotals(x) == MonthTotals(entries, userId, month)
    // the (user, month) key stays unique
    ensures OneStatsRowPerMonth(stats) ==> OneStatsRowPerMonth(r)
  {
    var t := MonthTotals(entries, userId, month);
    if HasStats(stats, userId, month) then
      var r := Overwrite(stats, userId, month, t);
      assert forall x :: x in r && IsKey(x, userId, month) ==> RowTotals(x) == t by {
        forall x | x in r && IsKey(x, userId, month) ensures RowTotals(x) == t {
          var i :| 0 <= i < |r| && r[i] == x;
        }
      }
      r
    else
      var r := stats + [NewStats(freshId, userId, month, t)];
      assert IsKey(r[|stats|], userId, month);
      assert forall x :: x in r && IsKey(x, userId, month) ==> RowTotals(x) == t by {
        forall x | x in r && IsKey(x, userId, month) ensures RowTotals(x) == t {
          var i :| 0 <= i < |r| && r[i] == x;
        }
      }
      r
  }

  /**
   * Recomputation never moves or re-keys a row: an existing (user, month)
   * row is overwritten in place, keeping its id and goal, and otherwise one
   * row with the default goal is appended.
   */
  lemma RecomputeInPlace(stats: seq<MonthlyStats>, entries: seq<DailyEntry>, userId: Id, month: string, freshId: Id)
    ensures var r := Recompute(stats, entries, userId, month, freshId);
      && (HasStats(stats, userId, month) ==>
        && |r| == |stats|
        && forall i :: 0 <= i < |stats| ==>
          && r[i].id == stats[i].id && r[i].userId == stats[i].userId && r[i].month == stats[i].month
          && r[i].goalAmount == stats[i].goalAmount
          && (!IsKey(stats[i], userId, month) ==> r[i] == stats[i]))
      && (!HasStats(stats, userId, month) ==>
        && r == stats + [NewStats(freshId, userId, month, MonthTotals(entries, userId, month))]
        && r[|stats|].goalAmount == DEFAULT_GOAL_CENTS)
  {
  }

  /** A recomputation whose totals fit the columns keeps every row within range. */
  lemma RecomputeKeepsFit(stats: seq<MonthlyStats>, entries: seq<DailyEntry>, userId: Id, month: string, freshId: Id)
    requires RowsFit(stats) && Fits(MonthTotals(entries, userId, month))
    ensures RowsFit(Recompute(stats, entries, userId, month, freshId))
  {
    var r := Recompute(stats, entries, userId, month, freshId);
    RecomputeInPlace(stats, entries, userId, month, freshId);
    forall x | x in r
      ensures Fits(RowTotals(x))
    {
      var i :| 0 <= i < |r| && r[i] == x;
      if !IsKey(x, userId, month) {
        assert i < |stats| && r[i] == stats[i];
        assert stats[i] in stats;
      }
    }
  }

  /** Recomputation hands out at most the fresh id: every row id stays below the next one. */
  lemma RecomputeKeepsIds(stats: seq<MonthlyStats>, entries: seq<DailyEntry>, userId: Id, month: string, freshId: Id)
    requires forall s :: s in stats ==> s.id < freshId
    ensures var r := Recompute(stats, entries, userId, month, freshId);
      && (HasStats(stats, userId, month) ==> forall s :: s in r ==> s.id < freshId)
      && (!HasStats(stats, userId, month) ==> forall s :: s in r ==> s.id < freshId + 1)
  {
    var r := Recompute(stats, entries, userId, month, freshId);
    RecomputeInPlace(stats, entries, userId, month, freshId);
    if HasStats(stats, userId, month) {
      forall s | s in r
        ensures s.id < freshId
      {
        var i :| 0 <= i < |r| && r[i] == s;
        assert stats[i] in stats;
      }
    }
  }

  /** No (user, month) key disappears when a month is recomputed. */
  lemma RecomputeKeepsKeys(stats: seq<MonthlyStats>, entries: seq<DailyEntry>, userId: Id, month: string, freshId: Id)
    ensures forall u, m :: HasStats(stats, u, m) ==> HasStats(Recompute(stats, entries, userId, month, freshId), u, m)
  {
    var r := Recompute(stats, entries, userId, month, freshId);
    RecomputeInPlace(stats, entries, userId, month, freshId);
    forall u, m | HasStats(stats, u, m) ensures HasStats(r, u, m) {
      var i :| 0 <= i < |stats| && IsKey(stats[i], u, m);
      assert IsKey(r[i], u, m);
    }
  }

  /** Recomputing twice with no entry change in between stores the same table as recomputing once. */
  lemma RecomputeIdempotent(stats: seq<MonthlyStats>, entries: seq<DailyEntry>, userId: Id, month: string,
                            freshId: Id, freshId': Id)
    ensures Recompute(Recompute(stats, entries, userId, month, freshId), entries, userId, month, freshId')
         == Recompute(stats, entries, userId, month, freshId)
  {
    var r1 := Recompute(stats, entries, userId, month, freshId);
    var r2 := Recompute(r1, entries, userId, month, freshId');
    var t := MonthTotals(entries, userId, month);
    assert r2 == Overwrite(r1, userId, month, t);
    forall i | 0 <= i < |r1|
      ensures r2[i] == r1[i]
    {
      if IsKey(r1[i], userId, month) {
        assert r1[i] in r1;
        assert RowTotals(r1[i]) == t;
      }
    }
  }

  /** A zeroed row with the default goal, as `getOrCreateMonthlyStats` inserts it. */
  function ZeroStats(id: Id, userId: Id, month: string): MonthlyStats {
    MonthlyStats(id, userId, month, 0, 0, 0, DEFAULT_GOAL_CENTS)
  }

  /**
   * The table and the row after `getOrCreateMonthlyStats(userId, month)`:
   * the first existing row, untouched, or a zeroed row appended.
   */
  function StatsOrZero(stats: seq<MonthlyStats>, userId: Id, month: string, freshId: Id)
    : (r: (seq<MonthlyStats>, MonthlyStats))
    ensures IsKey(r.1, userId, month) && r.1 in r.0
    ensures HasStats(stats, userId, month) ==> r.0 == stats && r.1 == stats[FindStats(stats, userId, month).value]
    ensures !HasStats(stats, userId, month) ==>
      r.1 == ZeroStats(freshId, userId, month) && r.0 == stats + [r.1]
    ensures OneStatsRowPerMonth(stats) ==> OneStatsRowPerMonth(r.0)
  {
    match FindStats(stats, userId, month)
    case Some(i) => (stats, stats[i])
    case None =>
      var z := ZeroStats(freshId, userId, month);
      (stats + [z], z)
  }

  /** A zeroed row fits every column, so creating one keeps the rows within range. */
  lemma StatsOrZeroKeepsFit(stats: seq<MonthlyStats>, userId: Id, month: string, freshId: Id)
    requires RowsFit(stats)
    ensures RowsFit(StatsOrZero(stats, userId, month, freshId).0)
  {
  }

  /** A repeated `getOrCreateMonthlyStats` returns the same row and changes nothing. */
  lemma StatsOrZeroIdempotent(stats: seq<MonthlyStats>, userId: Id, month: string, freshId: Id, freshId': Id)
    ensures var first := StatsOrZero(stats, userId, month, freshId);
            StatsOrZero(first.0, userId, month, freshId') == first
  {
    var first := StatsOrZero(stats, userId, month, freshId);
    if !HasStats(stats, userId, month) {
      var i := FindStats(first.0, userId, month).value;
    }
  }

  // ------------------------------------------------------------------
  // Achievements
  // ------------------------------------------------------------------

  predicate IsAward(a: Achievement, userId: Id, kind: AchievementType) {
    a.userId == userId && a.kind == kind
  }

  predicate HasAchievement(achievements: seq<Achievement>, userId: Id, kind: AchievementType) {
    exists i :: 0 <= i < |achievements| && IsAward(achievements[i], userId, kind)
  }

  function FindAchievement(achievements: seq<Achievement>, userId: Id, kind: AchievementType): (r: Option<nat>)
    ensures r.Some? ==> r.value < |achievements| && IsAward(achievements[r.value], userId, kind)
    ensures r.None? <==> !HasAchievement(achievements, userId, kind)
  {
    Seqs.FirstIndex(achievements, (a: Achievement) => IsAward(a, userId, kind))
  }

  /** At most one achievement per (user, type). */
  predicate OneAchievementPerKind(achievements: seq<Achievement>) {
    forall i, j :: 0 <= i < j < |achievements| ==>
      !(achievements[i].userId == achievements[j].userId && achievements[i].kind == achievements[j].kind)
  }

  /**
   * The table and the row after `createAchievement({userId, type})`: the
   * existing row when there is one, otherwise a new row appended.
   */
  function AwardOnce(achievements: seq<Achievement>, userId: Id, kind: AchievementType, freshId: Id)
    : (r: (seq<Achievement>, Achievement))
    ensures IsAward(r.1, userId, kind) && r.1 in r.0
    ensures HasAchievement(achievements, userId, kind) ==> r.0 == achievements
    ensures !HasAchievement(achievements, userId, kind) ==>
      r.1 == Achievement(freshId, userId, kind) && r.0 == achievements + [r.1]
    ensures HasAchievement(r.0, userId, kind)
    ensures OneAchievementPerKind(achievements) ==> OneAchievementPerKind(r.0)
  {
    match FindAchievement(achievements, userId, kind)
    case Some(i) => (achievements, achievements[i])
    case None =>
      var a := Achievement(freshId, userId, kind);
      assert IsAward((achievements + [a])[|achievements|], userId, kind);
      (achievements + [a], a)
  }

  /** Awarding the same (user, type) again returns the same row and changes nothing. */
  lemma AwardOnceIdempotent(achievements: seq<Achievement>, userId: Id, kind: AchievementType,
                            freshId: Id, freshId': Id)
    requires OneAchievementPerKind(achievements)
    ensures var first := AwardOnce(achievements, userId, kind, freshId);
            AwardOnce(first.0, userId, kind, freshId') == first
  {
    var first := AwardOnce(achievements, userId, kind, freshId);
    var i := FindAchievement(first.0, userId, kind).value;
    assert first.1 in first.0;
    var j :| 0 <= j < |first.0| && first.0[j] == first.1;
    assert OneAchievementPerKind(first.0);
    assert i == j;
  }

  /** Ordinal of the kinds in the order `checkAndAwardAchievements` evaluates them. */
  function Rank(k: AchievementType): nat {
    match k
    case Rides100 => 0
    case Days30 => 1
    case Goal6k => 2
    case Champion => 3
    case Veteran => 4
  }

  /** The kinds whose thresholds a month's figures meet, in evaluation order. */
  function Qualifying(totalRides: int, entryCount: nat, totalRevenue: int): (ks: seq<AchievementType>)
    ensures Rides100 in ks <==> totalRides >= RIDES_THRESHOLD
    ensures Days30 in ks <==> entryCount >= DAYS_THRESHOLD
    ensures Goal6k in ks <==> totalRevenue >= REVENUE_THRESHOLD_CENTS
    ensures Champion !in ks && Veteran !in ks
    ensures forall i, j :: 0 <= i < j < |ks| ==> Rank(ks[i]) < Rank(ks[j])
  {
    (if totalRides >= RIDES_THRESHOLD then [Rides100] else [])
    + (if entryCount >= DAYS_THRESHOLD then [Days30] else [])
    + (if totalRevenue >= REVENUE_THRESHOLD_CENTS then [Goal6k] else [])
  }

  /** The kinds that one user's entries for one month earn. */
  function QualifyingFor(entries: seq<DailyEntry>, userId: Id, month: string): seq<AchievementType> {
    var t := MonthTotals(entries, userId, month);
    Qualifying(t.rides, |MonthEntries(entries, userId, month)|, t.revenue)
  }

  function KindsOf(achievements: seq<Achievement>): seq<AchievementType> {
    seq(|achievements|, i requires 0 <= i < |achievements| => achievements[i].kind)
  }

  /**
   * `after` keeps every row of `before` in place, holds an achievement of
   * every kind in `kinds` for the user, and adds rows only of those kinds
   * and only for that user.
   */
  ghost predicate Extends(before: seq<Achievement>, after: seq<Achievement>, userId: Id, kinds: seq<AchievementType>) {
    && before <= after
    && (forall k :: k in kinds ==> HasAchievement(after, userId, k))
    && (forall i :: |before| <= i < |after| ==> after[i].userId == userId && after[i].kind in kinds)
  }

  lemma KindsOfAppend(awarded: seq<Achievement>, a: Achievement)
    ensures KindsOf(awarded + [a]) == KindsOf(awarded) + [a.kind]
  {
  }

  /** Every returned row is in the table and belongs to the user. */
  ghost predicate AllHeld(achievements: seq<Achievement>, awarded: seq<Achievement>, userId: Id) {
    forall a :: a in awarded ==> a in achievements && a.userId == userId
  }

  /** One `createAchievement` call inside the award check keeps `Extends` and `AllHeld`. */
  lemma {:induction false} AwardStep(before: seq<Achievement>, mid: seq<Achievement>, awarded: seq<Achievement>,
                                     userId: Id, kind: AchievementType, freshId: Id)
    requires Extends(before, mid, userId, KindsOf(awarded))
    requires AllHeld(mid, awarded, userId)
    ensures var next := AwardOnce(mid, userId, kind, freshId);
      Extends(before, next.0, userId, KindsOf(awarded + [next.1]))
      && AllHeld(next.0, awarded + [next.1], userId)
  {
    var next := AwardOnce(mid, userId, kind, freshId);
    KindsOfAppend(awarded, next.1);
    var ks := KindsOf(awarded + [next.1]);
    assert mid <= next.0;
    forall k | k in ks
      ensures HasAchievement(next.0, userId, k)
    {
      if k != kind {
        assert k in KindsOf(awarded);
        var i :| 0 <= i < |mid| && IsAward(mid[i], userId, k);
        assert IsAward(next.0[i], userId, k);
      }
    }
    forall i | |before| <= i < |next.0|
      ensures next.0[i].userId == userId && next.0[i].kind in ks
    {
      if i < |mid| {
        assert mid[i] == next.0[i];
      } else {
        assert next.0[i] == next.1;
      }
    }
  }

  /**
   * Right after a recomputation the award check reads back the row it just
   * wrote, so the kinds it awards are exactly those the entries earn.
   */
  lemma CheckReadsRecomputedRow(stats: seq<MonthlyStats>, entries: seq<DailyEntry>, userId: Id, month: string,
                                freshId: Id, freshId': Id)
    ensures var r := Recompute(stats, entries, userId, month, freshId);
            var read := StatsOrZero(r, userId, month, freshId');
            read.0 == r
            && Qualifying(read.1.totalRides, |MonthEntries(entries, userId, month)|, read.1.totalRevenue)
               == QualifyingFor(entries, userId, month)
  {
    var r := Recompute(stats, entries, userId, month, freshId);
    var read := StatsOrZero(r, userId, month, freshId');
    assert RowTotals(read.1) == MonthTotals(entries, userId, month);
  }

  // ------------------------------------------------------------------
  // Users and the ranking join
  // ------------------------------------------------------------------

  function FindUserByEmail(users: seq<User>, email: string): (r: Option<nat>)
    ensures r.Some? ==> r.value < |users| && users[r.value].email == email
    ensures r.None? <==> forall u :: u in users ==> u.email != email
  {
    Seqs.FirstIndex(users, (u: User) => u.email == email)
  }

  /** Primary key and unique email of the users table. */
  predicate UniqueUsers(users: seq<User>) {
    forall i, j :: 0 <= i < j < |users| ==> users[i].id != users[j].id && users[i].email != users[j].email
  }

  /**
   * `monthly_stats INNER JOIN users ON user_id = users.id WHERE month = month`,
   * before ordering.
   */
  function JoinMonth(stats: seq<MonthlyStats>, users: seq<User>, month: string): (rows: seq<RankingRow>)
    ensures forall row :: row in rows <==>
      row.stats in stats && row.stats.month == month && row.user in users && row.user.id == row.stats.userId
  {
    if stats == [] then []
    else
      var s := stats[|stats| - 1];
      assert stats == stats[..|stats| - 1] + [s];
      var owners := Seqs.Filter(users, (u: User) => u.id == s.userId);
      JoinMonth(stats[..|stats| - 1], users, month)
      + (if s.month == month then Pairs(s, owners) else [])
  }

  /** One stats row joined with each of the given users. */
  function Pairs(s: MonthlyStats, owners: seq<User>): (rows: seq<RankingRow>)
    ensures forall row :: row in rows <==> row.stats == s && row.user in owners
  {
    if owners == [] then []
    else Pairs(s, owners[..|owners| - 1]) + [RankingRow(s, owners[|owners| - 1])]
  }

  /** Higher revenue first: `ORDER BY total_revenue DESC`. */
  predicate HigherRevenueFirst(a: RankingRow, b: RankingRow) {
    a.stats.totalRevenue >= b.stats.totalRevenue
  }

  lemma HigherRevenueFirstIsPreorder()
    ensures Sorting.Total(HigherRevenueFirst) && Sorting.Transitive(HigherRevenueFirst)
  {
  }

  // ------------------------------------------------------------------
  // The store
  // ------------------------------------------------------------------

  datatype StoreError = NoSuchEntry | EmailTaken | Overflow

  predicate IdsBelow(users: seq<User>, entries: seq<DailyEntry>, stats: seq<MonthlyStats>,
                     achievements: seq<Achievement>, bound: Id) {
    && (forall u :: u in users ==> u.id < bound)
    && (forall e :: e in entries ==> e.id < bound)
    && (forall s :: s in stats ==> s.id < bound)
    && (forall a :: a in achievements ==> a.id < bound)
  }

  /** Appending a row with the next fresh id keeps every id below the bound and the entry ids distinct. */
  lemma AppendEntryKeepsIds(users: seq<User>, entries: seq<DailyEntry>, stats: seq<MonthlyStats>,
                            achievements: seq<Achievement>, nextId: Id, e: DailyEntry)
    requires IdsBelow(users, entries, stats, achievements, nextId) && DistinctEntryIds(entries)
    requires e.id == nextId
    ensures IdsBelow(users, entries + [e], stats, achievements, nextId + 1)
    ensures DistinctEntryIds(entries + [e])
  {
    forall i | 0 <= i < |entries|
      ensures entries[i].id != e.id
    {
      assert entries[i] in entries;
    }
  }

  /** Patching rows in place keeps every id, so the ids stay below the bound and distinct. */
  lemma PatchKeepsIds(users: seq<User>, entries: seq<DailyEntry>, stats: seq<MonthlyStats>,
                      achievements: seq<Achievement>, nextId: Id, id: Id, p: EntryPatch)
    requires IdsBelow(users, entries, stats, achievements, nextId) && DistinctEntryIds(entries)
    ensures IdsBelow(users, PatchEntries(entries, id, p), stats, achievements, nextId)
    ensures DistinctEntryIds(PatchEntries(entries, id, p))
  {
    var patched := PatchEntries(entries, id, p);
    forall i | 0 <= i < |entries|
      ensures patched[i].id == entries[i].id
    {
    }
    forall x | x in patched
      ensures x.id < nextId
    {
      var i :| 0 <= i < |patched| && patched[i] == x;
      assert entries[i] in entries;
    }
  }

  class Store {
    var users: seq<User>
    var entries: seq<DailyEntry>
    var stats: seq<MonthlyStats>
    var achievements: seq<Achievement>
    /** The next identifier handed out; stands in for `gen_random_uuid()`. */
    var nextId: Id

    /**
     * Fresh keys, unique emails and the ranges of the stats columns are
     * constraints of the tables; one stats row per (user, month) and one
     * badge per (user, type) have no table constraint behind them and are
     * kept by the operations themselves.
     */
    ghost predicate Valid()
      reads this
    {
      && IdsBelow(users, entries, stats, achievements, nextId)
      && UniqueUsers(users)
      && DistinctEntryIds(entries)
      && OneStatsRowPerMonth(stats)
      && RowsFit(stats)
      && OneAchievementPerKind(achievements)
    }

    constructor ()
      ensures Valid()
      ensures users == [] && entries == [] && stats == [] && achievements == []
    {
      users, entries, stats, achievements := [], [], [], [];
      nextId := 0;
    }

    // ----- users -----

    function GetUserByEmail(email: string): (r: Option<User>)
      reads this
      ensures r.Some? ==> r.value in users && r.value.email == email
      ensures r.None? <==> forall u :: u in users ==> u.email != email
    {
      match FindUserByEmail(users, email)
      case Some(i) => Some(users[i])
      case None => None
    }

    /** `createUser`: inserts a user; the unique email constraint rejects a taken email. */
    method CreateUser(email: string, passwordHash: Option<string>, displayName: Option<string>,
                      authProvider: string, isOnboarded: bool)
      returns (r: Result<User, StoreError>)
      requires Valid()
      modifies this
      ensures Valid()
      ensures entries == old(entries) && stats == old(stats) && achievements == old(achievements)
      ensures FindUserByEmail(old(users), email).Some? ==>
        r == Err(EmailTaken) && users == old(users) && nextId == old(nextId)
      ensures FindUserByEmail(old(users), email).None? ==>
        && r == Ok(User(old(nextId), email, passwordHash, None, None, displayName, None, isOnboarded, authProvider))
        && users == old(users) + [r.value]
    {
      if FindUserByEmail(users, email).Some? {
        return Err(EmailTaken);
      }
      var u := User(nextId, email, passwordHash, None, None, displayName, None, isOnboarded, authProvider);
      users := users + [u];
      nextId := nextId + 1;
      r := Ok(u);
    }

    // ----- daily entries -----

    /** `getDailyEntry(userId, date)`. */
    function GetDailyEntry(userId: Id, date: string): (r: Option<DailyEntry>)
      reads this
      ensures r.Some? ==> r.value in entries && r.value.userId == userId && r.value.date == date
      ensures r.None? <==> forall e :: e in entries ==> !(e.userId == userId && e.date == date)
    {
      match FindEntry(entries, userId, date)
      case Some(i) => Some(entries[i])
      case None => None
    }

    /** `getUserDailyEntries(userId)`: that user's entries, newest date first. */
    function GetUserDailyEntries(userId: Id): (r: seq<DailyEntry>)
      reads this
      ensures forall e :: e in r <==> e in entries && e.userId == userId
      ensures multiset(r) == multiset(Seqs.Filter(entries, (e: DailyEntry) => e.userId == userId))
      ensures Sorting.Ordered(r, NewerFirst)
    {
      var mine := Seqs.Filter(entries, (e: DailyEntry) => e.userId == userId);
      NewerFirstIsPreorder();
      Sorting.SortOrdered(mine, NewerFirst);
      assert forall e :: e in Sorting.Sort(mine, NewerFirst) <==> e in mine by {
        forall e ensures e in Sorting.Sort(mine, NewerFirst) <==> e in mine {
          Sorting.SortMembers(mine, NewerFirst, e);
        }
      }
      Sorting.Sort(mine, NewerFirst)
    }

    /**
     * `createDailyEntry`: inserts the row, then recomputes the stats of
     * the month `date.substring(0, 7)` and re-checks the achievements.
     * When the month's new totals do not fit their columns the
     * recomputation throws: the inserted row stays, and the stats and
     * achievements are left as they were.
     */
    method CreateDailyEntry(userId: Id, date: string, rides: int, revenue: int, fuelCost: int)
      returns (r: Result<DailyEntry, StoreError>)
      requires Valid()
      modifies this
      ensures Valid()
      ensures entries == old(entries) + [DailyEntry(old(nextId), userId, date, rides, revenue, fuelCost)]
      ensures users == old(users)
      ensures r.Ok? <==> Fits(MonthTotals(entries, userId, MonthOf(date)))
      ensures r.Ok? ==>
        && r.value == DailyEntry(old(nextId), userId, date, rides, revenue, fuelCost)
        && stats == Recompute(old(stats), entries, userId, MonthOf(date), old(nextId) + 1)
        && Extends(old(achievements), achievements, userId, QualifyingFor(entries, userId, MonthOf(date)))
      ensures r.Err? ==> r.error == Overflow && stats == old(stats) && achievements == old(achievements)
    {
      var e := DailyEntry(nextId, userId, date, rides, revenue, fuelCost);
      AppendEntryKeepsIds(users, entries, stats, achievements, nextId, e);
      entries, nextId := entries + [e], nextId + 1;
      var ok := SyncMonth(userId, MonthOf(date));
      if ok {
        r := Ok(e);
      } else {
        r := Err(Overflow);
      }
    }

    /**
     * `updateDailyEntry(id, patch)`: updates the row with that id; when the
     * updated row has a non-empty date, recomputes its month and re-checks
     * the achievements. No such row is an error and changes nothing. A
     * recomputation that does not fit the columns throws after the update:
     * the row stays patched, and the stats and achievements stay as they were.
     */
    method UpdateDailyEntry(id: Id, patch: EntryPatch) returns (r: Result<DailyEntry, StoreError>)
      requires Valid()
      modifies this
      ensures Valid()
      ensures users == old(users)
      ensures FindEntryById(old(entries), id).None? ==>
        && r == Err(NoSuchEntry)
        && entries == old(entries) && stats == old(stats) && achievements == old(achievements)
      ensures FindEntryById(old(entries), id).Some? ==>
        var updated := ApplyPatch(old(entries)[FindEntryById(old(entries), id).value], patch);
        var month := MonthOf(updated.date);
        && entries == PatchEntries(old(entries), id, patch)
        && (updated.date == [] ==>
              r == Ok(updated) && stats == old(stats) && achievements == old(achievements))
        && (updated.date != [] && Fits(MonthTotals(entries, updated.userId, month)) ==>
              && r == Ok(updated)
              && stats == Recompute(old(stats), entries, updated.userId, month, old(nextId))
              && Extends(old(achievements), achievements, updated.userId, QualifyingFor(entries, updated.userId, month)))
        && (updated.date != [] && !Fits(MonthTotals(entries, updated.userId, month)) ==>
              r == Err(Overflow) && stats == old(stats) && achievements == old(achievements))
    {
      var i := FindEntryById(entries, id);
      if i.None? {
        return Err(NoSuchEntry);
      }
      var updated := ApplyPatch(entries[i.value], patch);
      PatchKeepsIds(users, entries, stats, achievements, nextId, id, patch);
      entries := PatchEntries(entries, id, patch);
      r := Ok(updated);
      if updated.date != [] {
        var ok := SyncMonth(updated.userId, MonthOf(updated.date));
        if !ok {
          r := Err(Overflow);
        }
      }
    }

    /**
     * The two steps every entry write ends with: recompute the month's
     * totals, then re-check the achievements against the new totals. The
     * result says whether the totals fitted their columns; when they did
     * not, the recomputation threw and nothing changed.
     */
    method SyncMonth(userId: Id, month: string) returns (ok: bool)
      requires Valid()
      modifies this
      ensures Valid()
      ensures users == old(users) && entries == old(entries)
      ensures ok <==> Fits(MonthTotals(entries, userId, month))
      ensures ok ==>
        && stats == Recompute(old(stats), entries, userId, month, old(nextId))
        && Extends(old(achievements), achievements, userId, QualifyingFor(entries, userId, month))
      ensures !ok ==> stats == old(stats) && achievements == old(achievements)
    {
      var row := UpdateMonthlyStats(userId, month);
      if row.Err? {
        return false;
      }
      ghost var recomputed := stats;
      CheckReadsRecomputedRow(old(stats), entries, userId, month, old(nextId), nextId);
      var awarded := CheckAndAwardAchievements(userId, month);
      assert stats == recomputed;
      assert KindsOf(awarded) == QualifyingFor(entries, userId, month);
      ok := true;
    }

    // ----- monthly stats -----

    /** `getOrCreateMonthlyStats(userId, month)`. */
    method GetOrCreateMonthlyStats(userId: Id, month: string) returns (row: MonthlyStats)
      requires Valid()
      modifies this
      ensures Valid()
      ensures users == old(users) && entries == old(entries) && achievements == old(achievements)
      ensures (stats, row) == StatsOrZero(old(stats), userId, month, old(nextId))
    {
      StatsOrZeroKeepsFit(stats, userId, month, nextId);
      var i := FindStats(stats, userId, month);
      if i.Some? {
        row := stats[i.value];
      } else {
        row := ZeroStats(nextId, userId, month);
        stats := stats + [row];
        nextId := nextId + 1;
      }
    }

    /**
     * `updateMonthlyStats(userId, month)`: recompute the month's totals from
     * scratch and write them. The database refuses totals outside their
     * columns' ranges; the write then fails and nothing changes.
     */
    method UpdateMonthlyStats(userId: Id, month: string) returns (r: Result<MonthlyStats, StoreError>)
      requires Valid()
      modifies this
      ensures Valid()
      ensures users == old(users) && entries == old(entries) && achievements == old(achievements)
      ensures r.Ok? <==> Fits(MonthTotals(entries, userId, month))
      ensures r.Ok? ==>
        && stats == Recompute(old(stats), entries, userId, month, old(nextId))
        && r.value in stats && IsKey(r.value, userId, month)
        && RowTotals(r.value) == MonthTotals(entries, userId, month)
      ensures r.Err? ==> r.error == Overflow && stats == old(stats) && nextId == old(nextId)
    {
      var totals := MonthTotals(entries, userId, month);
      if !Fits(totals) {
        return Err(Overflow);
      }
      RecomputeKeepsFit(stats, entries, userId, month, nextId);
      RecomputeKeepsIds(stats, entries, userId, month, nextId);
      ghost var recomputed := Recompute(stats, entries, userId, month, nextId);
      var i := FindStats(stats, userId, month);
      if i.Some? {
        stats := Overwrite(stats, userId, month, totals);
        assert stats == recomputed;
        assert stats[i.value] in stats && IsKey(stats[i.value], userId, month);
        r := Ok(stats[i.value]);
      } else {
        var row := NewStats(nextId, userId, month, totals);
        stats := stats + [row];
        nextId := nextId + 1;
        assert stats == recomputed;
        assert row in stats;
        r := Ok(row);
      }
      assert OneStatsRowPerMonth(stats) && RowsFit(stats);
      assert IdsBelow(users, entries, stats, achievements, nextId);
    }

    /** `getMonthlyRanking(month)`: the month's stats rows with their users, highest revenue first. */
    function GetMonthlyRanking(month: string): (r: seq<RankingRow>)
      reads this
      ensures forall row :: row in r <==>
        row.stats in stats && row.stats.month == month && row.user in users && row.user.id == row.stats.userId
      ensures multiset(r) == multiset(JoinMonth(stats, users, month))
      ensures Sorting.Ordered(r, HigherRevenueFirst)
    {
      var joined := JoinMonth(stats, users, month);
      HigherRevenueFirstIsPreorder();
      Sorting.SortOrdered(joined, HigherRevenueFirst);
      assert forall row :: row in Sorting.Sort(joined, HigherRevenueFirst) <==> row in joined by {
        forall row ensures row in Sorting.Sort(joined, HigherRevenueFirst) <==> row in joined {
          Sorting.SortMembers(joined, HigherRevenueFirst, row);
        }
      }
      Sorting.Sort(joined, HigherRevenueFirst)
    }

    // ----- achievements -----

    /** `createAchievement`: insert only if the (user, type) pair is absent. */
    method CreateAchievement(userId: Id, kind: AchievementType) returns (a: Achievement)
      requires Valid()
      modifies this
      ensures Valid()
      ensures users == old(users) && entries == old(entries) && stats == old(stats)
      ensures (achievements, a) == AwardOnce(old(achievements), userId, kind, old(nextId))
    {
      var i := FindAchievement(achievements, userId, kind);
      if i.Some? {
        a := achievements[i.value];
      } else {
        a := Achievement(nextId, userId, kind);
        achievements := achievements + [a];
        nextId := nextId + 1;
      }
    }

    /**
     * `checkAndAwardAchievements(userId, month)`: reads (or creates) the
     * month's stats row, counts the month's entries, and awards each kind
     * whose threshold is met. The returned list holds one row per met
     * threshold, whether it was just created or already existed.
     */
    method CheckAndAwardAchievements(userId: Id, month: string) returns (awarded: seq<Achievement>)
      requires Valid()
      modifies this
      ensures Valid()
      ensures users == old(users) && entries == old(entries)
      ensures stats == StatsOrZero(old(stats), userId, month, old(nextId)).0
      ensures var row := StatsOrZero(old(stats), userId, month, old(nextId)).1;
        KindsOf(awarded) == Qualifying(row.totalRides, |MonthEntries(entries, userId, month)|, row.totalRevenue)
      ensures AllHeld(achievements, awarded, userId)
      ensures Extends(old(achievements), achievements, userId, KindsOf(awarded))
    {
      var row := GetOrCreateMonthlyStats(userId, month);
      var count := |MonthEntries(entries, userId, month)|;
      assert row == StatsOrZero(old(stats), userId, month, old(nextId)).1;
      ghost var before := achievements;
      awarded := [];
      if row.totalRides >= RIDES_THRESHOLD {
        AwardStep(before, achievements, awarded, userId, Rides100, nextId);
        var a := CreateAchievement(userId, Rides100);
        KindsOfAppend(awarded, a);
        awarded := awarded + [a];
      }
      assert Extends(before, achievements, userId, KindsOf(awarded)) && AllHeld(achievements, awarded, userId);
      assert KindsOf(awarded) == (if row.totalRides >= RIDES_THRESHOLD then [Rides100] else []);
      if count >= DAYS_THRESHOLD {
        AwardStep(before, achievements, awarded, userId, Days30, nextId);
        var a := CreateAchievement(userId, Days30);
        KindsOfAppend(awarded, a);
        awarded := awarded + [a];
      }
      assert Extends(before, achievements, userId, KindsOf(awarded)) && AllHeld(achievements, awarded, userId);
      assert KindsOf(awarded) == (if row.totalRides >= RIDES_THRESHOLD then [Rides100] else [])
        + (if count >= DAYS_THRESHOLD then [Days30] else []);
      if row.totalRevenue >= REVENUE_THRESHOLD_CENTS {
        AwardStep(before, achievements, awarded, userId, Goal6k, nextId);
        var a := CreateAchievement(userId, Goal6k);
        KindsOfAppend(awarded, a);
        awarded := awarded + [a];
      }
      assert KindsOf(awarded) == Qualifying(row.totalRides, count, row.totalRevenue);
    }
  }
}
