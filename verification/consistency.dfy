/**
 * The consistency the service keeps between daily entries and monthly
 * aggregates: every stored aggregate equals the sum of its month's entries,
 * and every entry is filed under an aggregate row.
 *
 * The store alone does not guarantee this (it accepts any date string and
 * matches months by prefix); it holds because the request handlers only
 * pass dates of the form YYYY-MM-DD and months of the form YYYY-MM. The
 * lemmas here show that each storage step the handlers use keeps it.
 */
module Consistency {
  import opened Schema
  import Text
  import Seqs
  import opened Storage

  /** Every entry date has the form YYYY-MM-DD. */
  predicate DatesWellFormed(entries: seq<DailyEntry>) {
    forall e :: e in entries ==> Text.IsDate(e.date)
  }

  /** Every stats month has the form YYYY-MM. */
  predicate MonthsWellFormed(stats: seq<MonthlyStats>) {
    forall s :: s in stats ==> Text.IsMonth(s.month)
  }

  /** Every aggregate row holds the sums of its user's entries in its month. */
  predicate StatsReflectEntries(stats: seq<MonthlyStats>, entries: seq<DailyEntry>) {
    forall s :: s in stats ==> RowTotals(s) == MonthTotals(entries, s.userId, s.month)
  }

  /** Every entry has an aggregate row for its user and month. */
  predicate EveryEntryFiled(stats: seq<MonthlyStats>, entries: seq<DailyEntry>) {
    forall e :: e in entries ==> HasStats(stats, e.userId, MonthOf(e.date))
  }

  /** At most one entry per user and date. */
  predicate OneEntryPerDay(entries: seq<DailyEntry>) {
    forall i, j :: 0 <= i < j < |entries| ==>
      !(entries[i].userId == entries[j].userId && entries[i].date == entries[j].date)
  }

  predicate Consistent(stats: seq<MonthlyStats>, entries: seq<DailyEntry>) {
    && DatesWellFormed(entries)
    && MonthsWellFormed(stats)
    && StatsReflectEntries(stats, entries)
    && EveryEntryFiled(stats, entries)
    && OneEntryPerDay(entries)
  }

  /** With well-formed dates and months, an entry lies in exactly one month: its own. */
  lemma InMonthExactly(e: DailyEntry, userId: Id, month: string)
    requires Text.IsDate(e.date) && Text.IsMonth(month)
    ensures InMonth(e, userId, month) <==> e.userId == userId && MonthOf(e.date) == month
  {
    Text.DateMonth(e.date, month);
  }

  /** Appending an entry leaves every other month's selection unchanged. */
  lemma {:induction false} AppendOtherMonth(entries: seq<DailyEntry>, e: DailyEntry, userId: Id, month: string)
    requires Text.IsDate(e.date) && Text.IsMonth(month)
    requires !(userId == e.userId && month == MonthOf(e.date))
    ensures MonthEntries(entries + [e], userId, month) == MonthEntries(entries, userId, month)
  {
    InMonthExactly(e, userId, month);
    Seqs.FilterAppend(entries, e, (x: DailyEntry) => InMonth(x, userId, month));
  }

  /**
   * A patch that keeps user and date leaves every month that does not hold
   * the patched entry unchanged.
   */
  lemma PatchOtherMonth(entries: seq<DailyEntry>, id: Id, p: EntryPatch, userId: Id, month: string)
    requires p.userId.None? && p.date.None?
    requires forall e :: e in entries && e.id == id ==> !InMonth(e, userId, month)
    ensures MonthEntries(PatchEntries(entries, id, p), userId, month) == MonthEntries(entries, userId, month)
  {
    var patched := PatchEntries(entries, id, p);
    forall i | 0 <= i < |entries|
      ensures InMonth(entries[i], userId, month) == InMonth(patched[i], userId, month)
      ensures InMonth(entries[i], userId, month) ==> entries[i] == patched[i]
    {
      assert entries[i] in entries;
    }
    Seqs.FilterPointwise(entries, patched, (x: DailyEntry) => InMonth(x, userId, month));
  }

  /**
   * Rows other than the recomputed key keep their values, and those values
   * still match their (unchanged) month selections.
   */
  lemma {:induction false} RecomputeKeepsOthers(stats: seq<MonthlyStats>, before: seq<DailyEntry>,
                                                after: seq<DailyEntry>, userId: Id, month: string, freshId: Id)
    requires StatsReflectEntries(stats, before)
    requires forall s :: s in stats && !IsKey(s, userId, month) ==>
      MonthEntries(after, s.userId, s.month) == MonthEntries(before, s.userId, s.month)
    ensures StatsReflectEntries(Recompute(stats, after, userId, month, freshId), after)
  {
    var r := Recompute(stats, after, userId, month, freshId);
    RecomputeInPlace(stats, after, userId, month, freshId);
    forall x | x in r
      ensures RowTotals(x) == MonthTotals(after, x.userId, x.month)
    {
      if !IsKey(x, userId, month) {
        var i :| 0 <= i < |r| && r[i] == x;
        if HasStats(stats, userId, month) {
          assert r[i] == stats[i];
        } else {
          assert i < |stats|;
          assert r[i] == stats[i];
        }
        assert x in stats;
      }
    }
  }

  /** Recomputation keeps months well formed and files every entry that was filed. */
  lemma RecomputeKeepsShape(stats: seq<MonthlyStats>, entries: seq<DailyEntry>, userId: Id, month: string, freshId: Id)
    requires MonthsWellFormed(stats) && Text.IsMonth(month)
    ensures MonthsWellFormed(Recompute(stats, entries, userId, month, freshId))
  {
    var r := Recompute(stats, entries, userId, month, freshId);
    RecomputeInPlace(stats, entries, userId, month, freshId);
    forall x | x in r
      ensures Text.IsMonth(x.month)
    {
      var i :| 0 <= i < |r| && r[i] == x;
      if i < |stats| {
        assert r[i].month == stats[i].month;
        assert stats[i] in stats;
      }
    }
  }

  /**
   * Creating an entry for a day that has none, then recomputing its month,
   * keeps the service consistent.
   */
  lemma AppendKeepsConsistent(stats: seq<MonthlyStats>, entries: seq<DailyEntry>, e: DailyEntry, freshId: Id)
    requires Consistent(stats, entries)
    requires Text.IsDate(e.date)
    requires forall x :: x in entries ==> !(x.userId == e.userId && x.date == e.date)
    ensures Consistent(Recompute(stats, entries + [e], e.userId, MonthOf(e.date), freshId), entries + [e])
  {
    var after := entries + [e];
    var month := MonthOf(e.date);
    Text.DateMonth(e.date, month);
    var r := Recompute(stats, after, e.userId, month, freshId);
    forall s | s in stats && !IsKey(s, e.userId, month)
      ensures MonthEntries(after, s.userId, s.month) == MonthEntries(entries, s.userId, s.month)
    {
      AppendOtherMonth(entries, e, s.userId, s.month);
    }
    RecomputeKeepsOthers(stats, entries, after, e.userId, month, freshId);
    RecomputeKeepsShape(stats, after, e.userId, month, freshId);
    RecomputeKeepsKeys(stats, after, e.userId, month, freshId);
    forall x | x in after
      ensures HasStats(r, x.userId, MonthOf(x.date))
    {
      if x != e {
        assert x in entries;
      }
    }
    forall i, j | 0 <= i < j < |after|
      ensures !(after[i].userId == after[j].userId && after[i].date == after[j].date)
    {
      if j < |entries| {
        assert after[i] == entries[i] && after[j] == entries[j];
      } else {
        assert after[i] in entries;
      }
    }
  }

  /** A patch that keeps user and date keeps every entry's user and date. */
  lemma PatchKeepsKeys(entries: seq<DailyEntry>, id: Id, p: EntryPatch)
    requires p.userId.None? && p.date.None?
    ensures forall i :: 0 <= i < |entries| ==>
      PatchEntries(entries, id, p)[i].userId == entries[i].userId
      && PatchEntries(entries, id, p)[i].date == entries[i].date
  {
  }

  /** Such a patch keeps the dates well formed and at most one entry per user and day. */
  lemma PatchKeepsDays(entries: seq<DailyEntry>, id: Id, p: EntryPatch)
    requires DatesWellFormed(entries) && OneEntryPerDay(entries)
    requires p.userId.None? && p.date.None?
    ensures DatesWellFormed(PatchEntries(entries, id, p)) && OneEntryPerDay(PatchEntries(entries, id, p))
  {
    var after := PatchEntries(entries, id, p);
    PatchKeepsKeys(entries, id, p);
    forall x | x in after
      ensures Text.IsDate(x.date)
    {
      var i :| 0 <= i < |after| && after[i] == x;
      assert entries[i] in entries;
    }
  }

  /** Such a patch, followed by a recomputation of any month, keeps every entry filed. */
  lemma PatchKeepsFiled(stats: seq<MonthlyStats>, entries: seq<DailyEntry>, id: Id, p: EntryPatch,
                        userId: Id, month: string, freshId: Id)
    requires EveryEntryFiled(stats, entries)
    requires p.userId.None? && p.date.None?
    ensures EveryEntryFiled(Recompute(stats, PatchEntries(entries, id, p), userId, month, freshId),
                            PatchEntries(entries, id, p))
  {
    var after := PatchEntries(entries, id, p);
    var r := Recompute(stats, after, userId, month, freshId);
    RecomputeKeepsKeys(stats, after, userId, month, freshId);
    PatchKeepsKeys(entries, id, p);
    forall x | x in after
      ensures HasStats(r, x.userId, MonthOf(x.date))
    {
      var i :| 0 <= i < |after| && after[i] == x;
      assert entries[i] in entries;
    }
  }

  /**
   * Overwriting rides, revenue and fuel cost of an existing entry, then
   * recomputing its month, keeps the service consistent.
   */
  lemma PatchKeepsConsistent(stats: seq<MonthlyStats>, entries: seq<DailyEntry>, k: nat, p: EntryPatch, freshId: Id)
    requires Consistent(stats, entries) && DistinctEntryIds(entries)
    requires k < |entries| && p.userId.None? && p.date.None?
    ensures var e := entries[k];
      Consistent(Recompute(stats, PatchEntries(entries, e.id, p), e.userId, MonthOf(e.date), freshId),
                 PatchEntries(entries, e.id, p))
  {
    var e := entries[k];
    var after := PatchEntries(entries, e.id, p);
    var month := MonthOf(e.date);
    assert e in entries;
    Text.DateMonth(e.date, month);
    PatchLeavesOtherMonths(stats, entries, k, p);
    RecomputeKeepsOthers(stats, entries, after, e.userId, month, freshId);
    RecomputeKeepsShape(stats, after, e.userId, month, freshId);
    PatchKeepsDays(entries, e.id, p);
    PatchKeepsFiled(stats, entries, e.id, p, e.userId, month, freshId);
  }

  /** Patching entry `k` changes no stats row's selection except that of its own month. */
  lemma PatchLeavesOtherMonths(stats: seq<MonthlyStats>, entries: seq<DailyEntry>, k: nat, p: EntryPatch)
    requires DatesWellFormed(entries) && MonthsWellFormed(stats) && DistinctEntryIds(entries)
    requires k < |entries| && p.userId.None? && p.date.None?
    ensures var e := entries[k];
      forall s :: s in stats && !IsKey(s, e.userId, MonthOf(e.date)) ==>
        MonthEntries(PatchEntries(entries, e.id, p), s.userId, s.month) == MonthEntries(entries, s.userId, s.month)
  {
    var e := entries[k];
    assert e in entries;
    forall s | s in stats && !IsKey(s, e.userId, MonthOf(e.date))
      ensures MonthEntries(PatchEntries(entries, e.id, p), s.userId, s.month) == MonthEntries(entries, s.userId, s.month)
    {
      forall x | x in entries && x.id == e.id
        ensures !InMonth(x, s.userId, s.month)
      {
        var i :| 0 <= i < |entries| && entries[i] == x;
        assert i == k;
        InMonthExactly(e, s.userId, s.month);
      }
      PatchOtherMonth(entries, e.id, p, s.userId, s.month);
    }
  }

  /**
   * Creating a zeroed row for a well-formed month keeps the service
   * consistent: when the month has entries a row already exists, so a new
   * row is only created for a month whose sums are zero.
   */
  lemma ZeroKeepsConsistent(stats: seq<MonthlyStats>, entries: seq<DailyEntry>, userId: Id, month: string, freshId: Id)
    requires Consistent(stats, entries) && Text.IsMonth(month)
    ensures Consistent(StatsOrZero(stats, userId, month, freshId).0, entries)
  {
    if !HasStats(stats, userId, month) {
      var z := ZeroStats(freshId, userId, month);
      var r := stats + [z];
      assert StatsOrZero(stats, userId, month, freshId).0 == r;
      assert MonthEntries(entries, userId, month) == [] by {
        forall i | 0 <= i < |entries|
          ensures !InMonth(entries[i], userId, month)
        {
          assert entries[i] in entries;
          InMonthExactly(entries[i], userId, month);
        }
        Seqs.FilterNone(entries, (x: DailyEntry) => InMonth(x, userId, month));
      }
      assert RowTotals(z) == MonthTotals(entries, userId, month);
      assert StatsReflectEntries(r, entries) by {
        forall x | x in r
          ensures RowTotals(x) == MonthTotals(entries, x.userId, x.month)
        {
          if x != z {
            assert x in stats;
          }
        }
      }
      assert MonthsWellFormed(r);
      assert EveryEntryFiled(r, entries) by {
        forall x | x in entries
          ensures HasStats(r, x.userId, MonthOf(x.date))
        {
          var i :| 0 <= i < |stats| && IsKey(stats[i], x.userId, MonthOf(x.date));
          assert r[i] == stats[i];
        }
      }
    }
  }

  /** The empty store is consistent. */
  lemma EmptyConsistent()
    ensures Consistent([], [])
  {
  }

  // ------------------------------------------------------------------
  // Totals beyond the columns' ranges
  // ------------------------------------------------------------------

  /**
   * When a new entry brings its month's totals beyond their columns'
   * ranges, no stats row can hold them: leaving the stats as they were,
   * which is what a refused recomputation does, breaks the agreement.
   */
  lemma OverflowBreaksConsistency(stats: seq<MonthlyStats>, entries: seq<DailyEntry>, e: DailyEntry)
    requires Consistent(stats, entries) && RowsFit(stats) && Text.IsDate(e.date)
    requires !Fits(MonthTotals(entries + [e], e.userId, MonthOf(e.date)))
    ensures !Consistent(stats, entries + [e])
  {
    var month := MonthOf(e.date);
    var after := entries + [e];
    assert e in after;
    if HasStats(stats, e.userId, month) {
      var i :| 0 <= i < |stats| && IsKey(stats[i], e.userId, month);
      assert stats[i] in stats && Fits(RowTotals(stats[i]));
      assert RowTotals(stats[i]) != MonthTotals(after, stats[i].userId, stats[i].month);
      assert !StatsReflectEntries(stats, after);
    } else {
      assert !EveryEntryFiled(stats, after);
    }
  }

  /** A day of 60,000,000.00 revenue for user 0, as in the example below. */
  function LargeDay(id: Id, date: string): DailyEntry {
    DailyEntry(id, 0, date, 1, 6_000_000_000, 0)
  }

  /** User 0's stats row for `month` after one large day. */
  function LargeMonthRow(month: string): MonthlyStats {
    MonthlyStats(2, 0, month, 1, 6_000_000_000, 0, DEFAULT_GOAL_CENTS)
  }

  /** After the first large day the tables agree and the row fits its columns. */
  lemma FirstLargeDayConsistent(date: string)
    requires Text.IsDate(date)
    ensures Consistent([LargeMonthRow(MonthOf(date))], [LargeDay(0, date)])
    ensures RowsFit([LargeMonthRow(MonthOf(date))])
  {
    var first, month := LargeDay(0, date), MonthOf(date);
    Text.DateMonth(date, month);
    InMonthExactly(first, 0, month);
    assert MonthEntries([first], 0, month) == [first];
    assert TotalsOf([first]) == EntryTotals(first) by {
      assert [first][..0] == [];
    }
    assert IsKey([LargeMonthRow(month)][0], 0, month);
  }

  /** Two large days of one month sum to 120,000,000.00 of revenue. */
  lemma TwoLargeDaysTotal(d1: string, d2: string, month: string)
    requires InMonth(LargeDay(0, d1), 0, month) && InMonth(LargeDay(1, d2), 0, month)
    ensures MonthTotals([LargeDay(0, d1)] + [LargeDay(1, d2)], 0, month) == Totals(2, 12_000_000_000, 0)
  {
    var first, second := LargeDay(0, d1), LargeDay(1, d2);
    assert MonthEntries([first], 0, month) == [first];
    Seqs.FilterAppend([first], second, (x: DailyEntry) => InMonth(x, 0, month));
    assert MonthEntries([first] + [second], 0, month) == [first] + [second];
    OneDayTotal(first);
    OneDayTotal(second);
    TotalsOfConcat([first], [second]);
    assert TotalsOf([first] + [second]) == Totals(2, 12_000_000_000, 0);
  }

  /** The sums of a single row are its own figures. */
  lemma OneDayTotal(e: DailyEntry)
    ensures TotalsOf([e]) == EntryTotals(e)
  {
    assert [e][..0] == [];
  }

  /**
   * Two days of 60,000,000.00 revenue in one month: each entry fits its own
   * `decimal(10, 2)` column and the tables agree after the first
   * (`FirstLargeDayConsistent`), but the month's revenue of 120,000,000.00
   * does not fit `total_revenue`, so after the second the stored row no
   * longer matches its entries.
   */
  lemma TwoLargeDaysOverflow(d1: string, d2: string)
    requires Text.IsDate(d1) && Text.IsDate(d2) && d1 != d2 && MonthOf(d1) == MonthOf(d2)
    ensures Fits(EntryTotals(LargeDay(1, d2)))
    ensures !Fits(MonthTotals([LargeDay(0, d1)] + [LargeDay(1, d2)], 0, MonthOf(d1)))
    ensures !Consistent([LargeMonthRow(MonthOf(d1))], [LargeDay(0, d1)] + [LargeDay(1, d2)])
  {
    var first, second, month := LargeDay(0, d1), LargeDay(1, d2), MonthOf(d1);
    Text.DateMonth(d1, month);
    InMonthExactly(first, 0, month);
    InMonthExactly(second, 0, month);
    TwoLargeDaysTotal(d1, d2, month);
    assert MonthOf(second.date) == month && second.userId == 0;
    FirstLargeDayConsistent(d1);
    OverflowBreaksConsistency([LargeMonthRow(month)], [first], second);
  }
}
