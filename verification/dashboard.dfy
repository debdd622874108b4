/**
 * The figures the dashboard derives from the current month's stats row and
 * the user's achievement list: progress towards the goal (capped at 100%),
 * the amount still missing, the net profit, the return on fuel, and which
 * badges are lit.
 *
 * The row arrives with its decimal columns as text and is read back with
 * `parseFloat`; a missing row (the request not answered) falls back to
 * revenue 0, fuel cost 0 and a goal of 6000.
 */
module Dashboard {
  import opened Wrappers
  import opened Schema
  import opened JsNumber
  import Storage

  /** The figures read from the stats row, in reais. */
  datatype Figures = Figures(revenue: real, fuelCost: real, goal: real)

  /** `parseFloat(monthlyStats?.column || default)` for the three columns. */
  function Read(stats: Option<MonthlyStats>): (f: Figures)
    ensures stats.None? ==> f == Figures(0.0, 0.0, 6000.0)
    ensures stats.Some? ==>
      && f.revenue * 100.0 == stats.value.totalRevenue as real
      && f.fuelCost * 100.0 == stats.value.totalFuelCost as real
      && f.goal * 100.0 == stats.value.goalAmount as real
  {
    match stats
    case None => Figures(0.0, 0.0, 6000.0)
    case Some(s) =>
      Figures(s.totalRevenue as real / 100.0, s.totalFuelCost as real / 100.0, s.goalAmount as real / 100.0)
  }

  /** A freshly created stats row reads back with the default goal of 6000. */
  lemma FreshRowGoal(s: MonthlyStats)
    requires s.goalAmount == DEFAULT_GOAL_CENTS
    ensures Read(Some(s)).goal == 6000.0
  {
  }

  /** `Math.min((revenue / goal) * 100, 100)`. */
  function Progress(revenue: real, goal: real): (p: Num)
    // never more than 100%
    ensures p != PosInf && (p.Finite? ==> p.v <= 100.0)
    ensures goal > 0.0 ==> p.Finite?
    ensures goal > 0.0 && revenue >= goal ==> p == Finite(100.0)
    ensures goal > 0.0 && revenue < goal ==> p.v < 100.0 && p.v * goal == revenue * 100.0
    // a zero goal: full for positive revenue, NaN for none
    ensures goal == 0.0 ==> (p == Finite(100.0) <==> revenue > 0.0) && (p == NaN <==> revenue == 0.0)
  {
    ShareBelowWhole(revenue, goal);
    MinWith(Scale(Div(revenue, goal), 100.0), 100.0)
  }

  /** For a positive goal, the share in percent reaches 100 exactly when revenue reaches the goal. */
  lemma ShareBelowWhole(revenue: real, goal: real)
    ensures goal > 0.0 ==> (revenue / goal * 100.0 >= 100.0 <==> revenue >= goal)
    ensures goal > 0.0 ==> revenue / goal * 100.0 * goal == revenue * 100.0
  {
    if goal > 0.0 {
      var q := revenue / goal;
      assert q * goal == revenue;
      assert (q - 1.0) * goal == revenue - goal;
    }
  }

  /** `Math.max(goal - revenue, 0)`. */
  function Remaining(revenue: real, goal: real): (r: real)
    ensures r >= 0.0
    ensures r == 0.0 <==> revenue >= goal
    ensures r > 0.0 ==> revenue + r == goal
  {
    if goal - revenue > 0.0 then goal - revenue else 0.0
  }

  /** `revenue - fuelCost`. */
  function NetProfit(revenue: real, fuelCost: real): (r: real)
    ensures r + fuelCost == revenue
  {
    revenue - fuelCost
  }

  /** `fuelCost > 0 ? (netProfit / fuelCost) * 100 : 0`. */
  function Roi(revenue: real, fuelCost: real): (r: real)
    ensures fuelCost > 0.0 ==> r * fuelCost == NetProfit(revenue, fuelCost) * 100.0
    ensures fuelCost <= 0.0 ==> r == 0.0
  {
    if fuelCost > 0.0 then NetProfit(revenue, fuelCost) / fuelCost * 100.0 else 0.0
  }

  /** With fuel spent, the return is positive exactly when revenue exceeds fuel, and zero when they are equal. */
  lemma RoiSign(revenue: real, fuelCost: real)
    requires fuelCost > 0.0
    ensures Roi(revenue, fuelCost) > 0.0 <==> revenue > fuelCost
    ensures Roi(revenue, fuelCost) == 0.0 <==> revenue == fuelCost
  {
    var r := Roi(revenue, fuelCost);
    assert r * fuelCost == (revenue - fuelCost) * 100.0;
    if r > 0.0 {
      assert r * fuelCost > 0.0;
    } else if r < 0.0 {
      assert -r * fuelCost > 0.0;
    }
  }

  /**
   * `achievements?.some?.(a => a.type === type)`: whether an achievement
   * of the named type is in the list; an absent list gives `undefined`,
   * which is falsy.
   */
  function HasAchievement(achievements: Option<seq<Achievement>>, name: string): (b: bool)
    ensures b <==> achievements.Some? && exists a :: a in achievements.value && KindName(a.kind) == name
  {
    match achievements
    case None => false
    case Some(list) => AnyOfType(list, name)
  }

  /** `list.some(a => a.type === name)`, scanning from the front. */
  function AnyOfType(list: seq<Achievement>, name: string): (b: bool)
    ensures b <==> exists a :: a in list && KindName(a.kind) == name
  {
    if list == [] then false
    else if KindName(list[0].kind) == name then true
    else
      assert forall a :: a in list[1..] ==> a in list;
      assert forall a :: a in list && a != list[0] ==> a in list[1..];
      AnyOfType(list[1..], name)
  }

  /** The "Meta 6K" badge: lit when the goal_6k achievement is held or progress has reached 100. */
  predicate GoalBadgeLit(achievements: Option<seq<Achievement>>, f: Figures) {
    HasAchievement(achievements, KindName(Goal6k)) || AtLeast(Progress(f.revenue, f.goal), 100.0)
  }

  /**
   * With a positive goal the badge is lit exactly when the achievement is
   * held or the month's revenue has reached the goal, so reaching the goal
   * lights it before the achievement is stored.
   */
  lemma GoalBadgeExactly(achievements: Option<seq<Achievement>>, f: Figures)
    requires f.goal > 0.0
    ensures GoalBadgeLit(achievements, f) <==>
      (achievements.Some? && exists a :: a in achievements.value && a.kind == Goal6k) || f.revenue >= f.goal
  {
    if achievements.Some? {
      forall a | a in achievements.value
        ensures KindName(a.kind) == KindName(Goal6k) <==> a.kind == Goal6k
      {
        KindNameInjective(a.kind, Goal6k);
      }
    }
  }

  /**
   * On a row with the default goal, the progress bar is full exactly when
   * the row's revenue earns the goal_6k achievement on the server.
   */
  lemma FullProgressEarnsGoal6k(s: MonthlyStats, entryCount: nat)
    requires s.goalAmount == DEFAULT_GOAL_CENTS
    ensures AtLeast(Progress(Read(Some(s)).revenue, Read(Some(s)).goal), 100.0) <==>
      Goal6k in Storage.Qualifying(s.totalRides, entryCount, s.totalRevenue)
  {
    var f := Read(Some(s));
    assert f.goal == 6000.0;
    assert f.revenue >= f.goal <==> s.totalRevenue >= REVENUE_THRESHOLD_CENTS;
  }
}
