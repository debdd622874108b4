/**
 * The figures the monthly ranking screen derives from each ranking line:
 * the colour band and status text for a revenue against the goal, the
 * rounded percentage, the position shown beside each line, the podium of
 * the first three lines, and the initials drawn in each avatar.
 *
 * Revenue arrives as the decimal text of the stored cents and is read
 * back with `parseFloat`, so a line's revenue is its cents divided by 100.
 */
module RankingView {
  import opened Wrappers
  import opened Schema
  import Text
  import Seqs
  import Sorting
  import Storage
  import opened JsNumber

  /** The colour band of a line; `ColorClass` is the CSS class name the helper returns. */
  datatype Color = Success | Warning | Danger

  function ColorClass(c: Color): string {
    match c
    case Success => "app-success"
    case Warning => "app-warning"
    case Danger => "app-danger"
  }

  /** The status of a line; `StatusText` is the text the helper returns. */
  datatype Status = GoalMet | AboveHalf | BelowHalf | Unranked

  function StatusText(s: Status): string {
    match s
    case GoalMet => "Meta batida!"
    case AboveHalf => "Acima de 50%"
    case BelowHalf => "Abaixo de 50%"
    case Unranked => "Não classificado"
  }

  /** The goal every helper on this screen is called with: 6000 reais. */
  const DEFAULT_GOAL := 6000.0

  /** `(revenue / goal) * 100`. */
  function Percentage(revenue: real, goal: real): Num {
    Scale(Div(revenue, goal), 100.0)
  }

  /** For a positive goal the percentage is a scaled share of it, so it compares as revenue does. */
  lemma PercentageCompares(revenue: real, goal: real, k: real)
    ensures goal > 0.0 ==> Percentage(revenue, goal).Finite?
    ensures goal > 0.0 ==> (AtLeast(Percentage(revenue, goal), k) <==> revenue >= goal * k / 100.0)
    ensures goal > 0.0 ==> (Exceeds(Percentage(revenue, goal), k) <==> revenue > goal * k / 100.0)
  {
    if goal > 0.0 {
      var q := revenue / goal;
      assert q * goal == revenue;
      assert (q * 100.0 - k) * goal == (revenue - goal * k / 100.0) * 100.0;
    }
  }

  /** `getRankingColor`: success from 100% of the goal, warning from 50%, danger below. */
  function RankingColor(revenue: real, goal: real): (c: Color)
    ensures goal > 0.0 ==> (c == Success <==> revenue >= goal)
    ensures goal > 0.0 ==> (c == Warning <==> goal / 2.0 <= revenue < goal)
    ensures goal > 0.0 ==> (c == Danger <==> revenue < goal / 2.0)
    // a zero goal divides to an infinity or NaN: any positive revenue is a success
    ensures goal == 0.0 ==> (c == Success <==> revenue > 0.0) && c != Warning
  {
    PercentageCompares(revenue, goal, 100.0);
    PercentageCompares(revenue, goal, 50.0);
    var p := Percentage(revenue, goal);
    if AtLeast(p, 100.0) then Success
    else if AtLeast(p, 50.0) then Warning
    else Danger
  }

  /** `getRankingStatus`: the same two bands, with the lowest split at zero revenue. */
  function RankingStatus(revenue: real, goal: real): (s: Status)
    ensures goal > 0.0 ==> (s == GoalMet <==> revenue >= goal)
    ensures goal > 0.0 ==> (s == AboveHalf <==> goal / 2.0 <= revenue < goal)
    ensures goal > 0.0 ==> (s == BelowHalf <==> 0.0 < revenue < goal / 2.0)
    ensures goal > 0.0 ==> (s == Unranked <==> revenue <= 0.0)
  {
    PercentageCompares(revenue, goal, 100.0);
    PercentageCompares(revenue, goal, 50.0);
    PercentageCompares(revenue, goal, 0.0);
    var p := Percentage(revenue, goal);
    if AtLeast(p, 100.0) then GoalMet
    else if AtLeast(p, 50.0) then AboveHalf
    else if Exceeds(p, 0.0) then BelowHalf
    else Unranked
  }

  /** Status and colour tell the same story, for every revenue and every goal. */
  lemma StatusAgreesWithColor(revenue: real, goal: real)
    ensures RankingStatus(revenue, goal) == GoalMet <==> RankingColor(revenue, goal) == Success
    ensures RankingStatus(revenue, goal) == AboveHalf <==> RankingColor(revenue, goal) == Warning
    ensures RankingColor(revenue, goal) == Danger <==>
      RankingStatus(revenue, goal) == BelowHalf || RankingStatus(revenue, goal) == Unranked
  {
  }

  /** `getPercentage`: the percentage of the goal, rounded to the nearest integer. */
  function GetPercentage(revenue: real, goal: real): (r: Num)
    ensures goal > 0.0 ==> r.Finite? && r.v == r.v.Floor as real
    ensures goal > 0.0 ==> r.v - 0.5 <= revenue / goal * 100.0 < r.v + 0.5
    ensures goal == 0.0 ==> !r.Finite?
  {
    RoundNum(Percentage(revenue, goal))
  }

  /** What the circle beside a line shows: its 1-based place, or a dash. */
  datatype Position = Place(n: nat) | Dash

  /** `revenue > 0 ? index + 1 : "-"`. */
  function PositionLabel(index: nat, revenue: real): (p: Position)
    ensures p.Place? <==> revenue > 0.0
    ensures p.Place? ==> p.n == index + 1
  {
    if revenue > 0.0 then Place(index + 1) else Dash
  }

  /** `parseFloat(totalRevenue)` of a ranking line. */
  function Revenue(row: RankingRow): (r: real)
    ensures r * 100.0 == row.stats.totalRevenue as real
  {
    row.stats.totalRevenue as real / 100.0
  }

  /**
   * On a list ordered by revenue, the lines with a place come first: once a
   * line shows a dash, every later line does too, and the places shown are
   * 1, 2, ... with no gap.
   */
  lemma PlacesLeadTheList(rows: seq<RankingRow>, i: nat, j: nat)
    requires Sorting.Ordered(rows, Storage.HigherRevenueFirst)
    requires i < j < |rows|
    ensures PositionLabel(j, Revenue(rows[j])).Place? ==> PositionLabel(i, Revenue(rows[i])).Place?
    ensures PositionLabel(j, Revenue(rows[j])).Place? ==>
      PositionLabel(i, Revenue(rows[i])).n < PositionLabel(j, Revenue(rows[j])).n
  {
    assert Storage.HigherRevenueFirst(rows[i], rows[j]);
  }

  /** `const [first, second, third, ...others] = ranking`. */
  datatype Podium = Podium(first: Option<RankingRow>, second: Option<RankingRow>, third: Option<RankingRow>)

  function At(rows: seq<RankingRow>, i: nat): (r: Option<RankingRow>)
    ensures r.Some? <==> i < |rows|
    ensures r.Some? ==> r.value == rows[i]
  {
    if i < |rows| then Some(rows[i]) else None
  }

  function PodiumOf(rows: seq<RankingRow>): (p: Podium)
    ensures p.first.Some? <==> |rows| >= 1
    ensures p.second.Some? <==> |rows| >= 2
    ensures p.third.Some? <==> |rows| >= 3
    ensures p.first.Some? ==> p.first.value == rows[0]
    ensures p.second.Some? ==> p.second.value == rows[1]
    ensures p.third.Some? ==> p.third.value == rows[2]
  {
    Podium(At(rows, 0), At(rows, 1), At(rows, 2))
  }

  /**
   * On the ranking the store returns, the podium is in revenue order and
   * its first place earns at least as much as every line of the month.
   */
  lemma PodiumOrdered(store: Storage.Store, month: string)
    ensures var p := PodiumOf(store.GetMonthlyRanking(month));
      && (p.second.Some? ==> Revenue(p.first.value) >= Revenue(p.second.value))
      && (p.third.Some? ==> Revenue(p.second.value) >= Revenue(p.third.value))
      && (p.first.Some? ==> forall row :: row in store.GetMonthlyRanking(month) ==>
            Revenue(p.first.value) >= Revenue(row))
  {
    var rows := store.GetMonthlyRanking(month);
    if |rows| >= 2 {
      assert Storage.HigherRevenueFirst(rows[0], rows[1]);
    }
    if |rows| >= 3 {
      assert Storage.HigherRevenueFirst(rows[1], rows[2]);
    }
    forall row | row in rows
      ensures Revenue(rows[0]) >= Revenue(row)
    {
      var k :| 0 <= k < |rows| && rows[k] == row;
      if k > 0 {
        assert Storage.HigherRevenueFirst(rows[0], rows[k]);
      }
    }
  }

  // ------------------------------------------------------------------
  // Initials
  // ------------------------------------------------------------------

  /** JavaScript truthiness of an optional string: present and non-empty. */
  predicate Truthy(s: Option<string>) {
    s.Some? && s.value != ""
  }

  /**
   * `parts.map(n => n[0]).join('')`: the first character of every part;
   * an empty part maps to `undefined`, which `join` writes as nothing.
   */
  function Heads(parts: seq<string>): (r: string)
    ensures |r| <= |parts|
  {
    if parts == [] then ""
    else
      var last := parts[|parts| - 1];
      Heads(parts[..|parts| - 1]) + (if last == "" then "" else [last[0]])
  }

  /** The words of a name: the non-empty pieces between spaces. */
  function Words(name: string): (w: seq<string>)
    ensures forall i :: 0 <= i < |w| ==> w[i] != "" && ' ' !in w[i]
  {
    var parts := Text.Split(name, ' ');
    var w := Seqs.Filter(parts, (p: string) => p != "");
    assert forall i :: 0 <= i < |w| ==> w[i] in parts;
    w
  }

  /** The heads of the pieces are the first characters of the non-empty pieces, in order. */
  lemma {:induction false} HeadsAreWordInitials(parts: seq<string>)
    ensures var w := Seqs.Filter(parts, (p: string) => p != "");
      && |Heads(parts)| == |w|
      && forall i :: 0 <= i < |w| ==> w[i] != "" && Heads(parts)[i] == w[i][0]
  {
    if parts != [] {
      var front := parts[..|parts| - 1];
      HeadsAreWordInitials(front);
    }
  }

  function Min(a: int, b: int): int {
    if a < b then a else b
  }

  /**
   * `getInitials`: up to two initials of the display name; else the
   * first-name and last-name initials; else the first character of the
   * email; else "U". All are upper-cased.
   */
  function Initials(u: User): (r: string)
    ensures Truthy(u.displayName) ==>
      var w := Words(u.displayName.value);
      |r| == Min(2, |w|) && forall i :: 0 <= i < |r| ==> r[i] == Text.UpperChar(w[i][0])
    ensures !Truthy(u.displayName) && Truthy(u.firstName) && Truthy(u.lastName) ==>
      r == [Text.UpperChar(u.firstName.value[0]), Text.UpperChar(u.lastName.value[0])]
    ensures !Truthy(u.displayName) && !(Truthy(u.firstName) && Truthy(u.lastName)) ==>
      r == (if u.email != "" then [Text.UpperChar(u.email[0])] else "U")
  {
    if Truthy(u.displayName) then
      HeadsAreWordInitials(Text.Split(u.displayName.value, ' '));
      Text.Take(Text.Upper(Heads(Text.Split(u.displayName.value, ' '))), 2)
    else if Truthy(u.firstName) && Truthy(u.lastName) then
      Text.Upper([u.firstName.value[0]] + [u.lastName.value[0]])
    else if u.email != "" then
      Text.Upper([u.email[0]])
    else
      "U"
  }

  /** A display name made only of spaces is truthy yet has no initials, so the avatar is blank. */
  lemma BlankDisplayName(u: User)
    requires u.displayName.Some? && u.displayName.value != []
    requires forall i :: 0 <= i < |u.displayName.value| ==> u.displayName.value[i] == ' '
    ensures Initials(u) == ""
  {
    var parts := Text.Split(u.displayName.value, ' ');
    Text.SplitOnlySeparators(u.displayName.value, ' ');
    Seqs.FilterNone(parts, (p: string) => p != "");
  }
}
