/**
 * The rows of the four tables of the earnings tracker (users, daily
 * entries, monthly stats, achievements). Identifiers are natural numbers
 * handed out by the store; money is kept in integer cents, matching the
 * two fraction digits of the decimal columns.
 */
module Schema {
  import opened Wrappers

  type Id = nat

  /** A registered driver. Nullable columns are `Option`s. */
  datatype User = User(
    id: Id,
    email: string,
    passwordHash: Option<string>,
    firstName: Option<string>,
    lastName: Option<string>,
    displayName: Option<string>,
    profileImageUrl: Option<string>,
    isOnboarded: bool,
    authProvider: string)

  /** One user's rides, revenue and fuel cost for one `YYYY-MM-DD` date. */
  datatype DailyEntry = DailyEntry(
    id: Id,
    userId: Id,
    date: string,
    rides: int,
    revenue: int,
    fuelCost: int)

  /** The materialised totals of one user's entries for one `YYYY-MM` month. */
  datatype MonthlyStats = MonthlyStats(
    id: Id,
    userId: Id,
    month: string,
    totalRides: int,
    totalRevenue: int,
    totalFuelCost: int,
    goalAmount: int)

  /** The badge kinds; `Champion` and `Veteran` have no automatic trigger. */
  datatype AchievementType = Rides100 | Days30 | Goal6k | Champion | Veteran

  datatype Achievement = Achievement(id: Id, userId: Id, kind: AchievementType)

  /** One line of the monthly ranking: a stats row joined with its user. */
  datatype RankingRow = RankingRow(stats: MonthlyStats, user: User)

  /** The monthly goal written into every new stats row: 6000.00. */
  const DEFAULT_GOAL_CENTS := 600000

  /** The range of a Postgres `integer` column. */
  const INT32_MIN: int := -2147483648
  const INT32_MAX: int := 2147483647

  /**
   * A `decimal(10, 2)` column holds at most eight integer digits, so its
   * values in cents lie strictly between minus and plus this bound.
   */
  const DECIMAL_LIMIT_CENTS: int := 10_000_000_000

  /** Achievement thresholds. */
  const RIDES_THRESHOLD := 100
  const DAYS_THRESHOLD := 30
  const REVENUE_THRESHOLD_CENTS := 600000

  /** The value stored in the `type` column for each kind. */
  function KindName(k: AchievementType): string
  {
    match k
    case Rides100 => "rides_100"
    case Days30 => "days_30"
    case Goal6k => "goal_6k"
    case Champion => "champion"
    case Veteran => "veteran"
  }

  /** Distinct kinds are stored under distinct names. */
  lemma KindNameInjective(k: AchievementType, k': AchievementType)
    ensures KindName(k) == KindName(k') ==> k == k'
  {
  }
}
