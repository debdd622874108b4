/**
 * The request layer: body validation, the format checks on path
 * parameters, the create-or-update decision for daily entries, and the
 * mapping from failures to HTTP status codes.
 *
 * A handler receives the store, the session and the request; it returns
 * the response (and, for login and registration, the new session).
 * Number-to-text conversion, the decimal column parser and the email
 * check are functions supplied by the caller.
 */
module Routes {
  import opened Wrappers
  import opened Schema
  import Text
  import Seqs
  import Sorting
  import opened Storage
  import opened Consistency
  import opened Auth

  // ------------------------------------------------------------------
  // Requests and responses
  // ------------------------------------------------------------------

  /** A JSON value in a request body, as far as validation tells them apart. */
  datatype Json = JNumber(n: real) | JString(s: string) | JOther

  type Body = map<string, Json>

  datatype IssueKind = Required | WrongType | Invalid(message: string)

  /** One validation failure, naming the offending field. */
  datatype Issue = Issue(field: string, kind: IssueKind)

  datatype Payload =
    | Message(text: string)
    | Issues(message: string, issues: seq<Issue>)
    | SavedEntry(entry: DailyEntry)
    | EntryOrNull(found: Option<DailyEntry>)
    | EntryList(entries: seq<DailyEntry>)
    | StatsRow(stats: MonthlyStats)
    | Ranking(rows: seq<RankingRow>)
    | Account(message: string, id: Id, email: string, displayName: Option<string>)

  datatype Response = Response(status: int, payload: Payload)

  const UNAUTHORIZED: string := "Unauthorized"
  const DATE_FORMAT: string := "Date must be in YYYY-MM-DD format"
  const RIDES_NON_NEGATIVE: string := "Rides must be non-negative"
  const REVENUE_REQUIRED: string := "Revenue is required"
  const FUEL_REQUIRED: string := "Fuel cost is required"
  const INVALID_DATE: string := "Invalid date format"
  const INVALID_MONTH: string := "Invalid month format (YYYY-MM)"
  const SAVE_FAILED: string := "Failed to save daily entry"
  const EMAIL_INVALID: string := "Email inválido"
  const PASSWORD_SHORT: string := "Senha deve ter pelo menos 6 caracteres"
  const NAME_SHORT: string := "Nome deve ter pelo menos 2 caracteres"
  const PASSWORD_REQUIRED: string := "Senha é obrigatória"

  // ------------------------------------------------------------------
  // Failures and status codes
  // ------------------------------------------------------------------

  datatype Endpoint = SaveEntry | Login | Register

  /** What a handler's `catch` sees: a schema error, or anything else thrown. */
  datatype Failure = Validation(issues: seq<Issue>) | Thrown(message: string)

  /**
   * The `catch` blocks of the three handlers that distinguish failures:
   * schema errors are 400 everywhere; anything else is 500 when saving an
   * entry, 401 on login and 400 on registration.
   */
  function FailureResponse(endpoint: Endpoint, f: Failure): (resp: Response)
    ensures resp.status == 400 <==> f.Validation? || endpoint == Register
    ensures resp.status == 401 <==> f.Thrown? && endpoint == Login
    ensures resp.status == 500 <==> f.Thrown? && endpoint == SaveEntry
    ensures f.Validation? ==> resp.payload.Issues? && resp.payload.issues == f.issues
    ensures f.Thrown? && f.message != "" && endpoint != SaveEntry ==> resp.payload == Message(f.message)
  {
    match f
    case Validation(issues) =>
      Response(400, Issues(if endpoint == SaveEntry then "Invalid input" else "Dados inválidos", issues))
    case Thrown(m) =>
      match endpoint
      case SaveEntry => Response(500, Message(SAVE_FAILED))
      case Login => Response(401, Message(if m != "" then m else "Erro no login"))
      case Register => Response(400, Message(if m != "" then m else "Erro ao criar usuário"))
  }

  // ------------------------------------------------------------------
  // Field checks
  // ------------------------------------------------------------------

  /** A string field that must satisfy `ok`; no issue, or one issue naming the field. */
  function CheckText(body: Body, field: string, ok: string -> bool, message: string): (issues: seq<Issue>)
    ensures issues == [] <==> field in body && body[field].JString? && ok(body[field].s)
    ensures |issues| <= 1 && forall i :: 0 <= i < |issues| ==> issues[i].field == field
  {
    if field !in body then [Issue(field, Required)]
    else if !body[field].JString? then [Issue(field, WrongType)]
    else if !ok(body[field].s) then [Issue(field, Invalid(message))]
    else []
  }

  /**
   * The text a money field holds once a number has been turned into its
   * string form, as the handler does before validating.
   */
  function MoneyText(body: Body, field: string, show: real -> string): Option<string> {
    if field !in body then None
    else match body[field]
      case JString(s) => Some(s)
      case JNumber(n) => Some(show(n))
      case JOther => None
  }

  function CheckMoney(body: Body, field: string, show: real -> string, message: string): (issues: seq<Issue>)
    ensures issues == [] <==> MoneyText(body, field, show).Some? && |MoneyText(body, field, show).value| >= 1
    ensures |issues| <= 1 && forall i :: 0 <= i < |issues| ==> issues[i].field == field
  {
    if field !in body then [Issue(field, Required)]
    else match MoneyText(body, field, show)
      case None => [Issue(field, WrongType)]
      case Some(s) => if |s| < 1 then [Issue(field, Invalid(message))] else []
  }

  function CheckRides(body: Body): (issues: seq<Issue>)
    ensures issues == [] <==> "rides" in body && body["rides"].JNumber? && body["rides"].n >= 0.0
    ensures |issues| <= 1 && forall i :: 0 <= i < |issues| ==> issues[i].field == "rides"
  {
    if "rides" !in body then [Issue("rides", Required)]
    else if !body["rides"].JNumber? then [Issue("rides", WrongType)]
    else if body["rides"].n < 0.0 then [Issue("rides", Invalid(RIDES_NON_NEGATIVE))]
    else []
  }

  /** Position of a field in the daily-entry schema; issues are reported in this order. */
  function FieldRank(field: string): nat {
    if field == "date" then 1
    else if field == "rides" then 2
    else if field == "revenue" then 3
    else if field == "fuelCost" then 4
    else 0
  }

  /** At most one issue per field, fields taken in schema order: the issues come out in that order. */
  lemma IssuesInSchemaOrder(a: seq<Issue>, b: seq<Issue>, c: seq<Issue>, d: seq<Issue>)
    requires |a| <= 1 && |b| <= 1 && |c| <= 1 && |d| <= 1
    requires forall i :: 0 <= i < |a| ==> FieldRank(a[i].field) == 1
    requires forall i :: 0 <= i < |b| ==> FieldRank(b[i].field) == 2
    requires forall i :: 0 <= i < |c| ==> FieldRank(c[i].field) == 3
    requires forall i :: 0 <= i < |d| ==> FieldRank(d[i].field) == 4
    ensures var s := a + b + c + d;
      forall i, j :: 0 <= i < j < |s| ==> FieldRank(s[i].field) < FieldRank(s[j].field)
  {
    var s := a + b + c + d;
    // position k of s holds the issue of the field ranked Rank(k)
    forall k | 0 <= k < |s|
      ensures FieldRank(s[k].field) == (if k < |a| then 1 else if k < |a| + |b| then 2
                                        else if k < |a| + |b| + |c| then 3 else 4)
    {
      if k >= |a| + |b| + |c| {
        assert s[k] == d[k - |a| - |b| - |c|];
      } else if k >= |a| + |b| {
        assert s[k] == c[k - |a| - |b|];
      } else if k >= |a| {
        assert s[k] == b[k - |a|];
      }
    }
  }

  /** A daily entry that passed validation; its user is always the session's. */
  datatype EntryRequest = EntryRequest(userId: Id, date: string, rides: real, revenue: string, fuelCost: string)

  /**
   * `dailyEntryRequestSchema` applied to the body with the session user
   * in place of any `userId` it carries and numeric money turned into text.
   * Every failing field is reported, in schema order.
   */
  function ValidateDailyEntry(body: Body, sessionUser: Id, show: real -> string): (r: Result<EntryRequest, seq<Issue>>)
    ensures r.Ok? <==>
      && "date" in body && body["date"].JString? && Text.IsDate(body["date"].s)
      && "rides" in body && body["rides"].JNumber? && body["rides"].n >= 0.0
      && MoneyText(body, "revenue", show).Some? && |MoneyText(body, "revenue", show).value| >= 1
      && MoneyText(body, "fuelCost", show).Some? && |MoneyText(body, "fuelCost", show).value| >= 1
    ensures r.Ok? ==>
      r.value == EntryRequest(sessionUser, body["date"].s, body["rides"].n,
                              MoneyText(body, "revenue", show).value, MoneyText(body, "fuelCost", show).value)
    ensures r.Err? ==> r.error != [] && |r.error| <= 4
    ensures r.Err? ==> forall i, j :: 0 <= i < j < |r.error| ==> FieldRank(r.error[i].field) < FieldRank(r.error[j].field)
  {
    var dateIssues := CheckText(body, "date", Text.IsDate, DATE_FORMAT);
    var ridesIssues := CheckRides(body);
    var revenueIssues := CheckMoney(body, "revenue", show, REVENUE_REQUIRED);
    var fuelIssues := CheckMoney(body, "fuelCost", show, FUEL_REQUIRED);
    var issues := dateIssues + ridesIssues + revenueIssues + fuelIssues;
    assert FieldRank("date") == 1 && FieldRank("rides") == 2;
    assert FieldRank("revenue") == 3 && FieldRank("fuelCost") == 4;
    IssuesInSchemaOrder(dateIssues, ridesIssues, revenueIssues, fuelIssues);
    if issues == [] then
      Ok(EntryRequest(sessionUser, body["date"].s, body["rides"].n,
                      MoneyText(body, "revenue", show).value, MoneyText(body, "fuelCost", show).value))
    else
      Err(issues)
  }

  /** Whatever `userId` the body carries, validation gives the same result. */
  lemma BodyUserIgnored(body: Body, forged: Json, sessionUser: Id, show: real -> string)
    ensures ValidateDailyEntry(body["userId" := forged], sessionUser, show) == ValidateDailyEntry(body, sessionUser, show)
  {
    var forgedBody := body["userId" := forged];
    assert forall f :: f in {"date", "rides", "revenue", "fuelCost"} ==> (f in forgedBody <==> f in body);
    assert forall f :: f in {"date", "rides", "revenue", "fuelCost"} && f in body ==> forgedBody[f] == body[f];
    assert MoneyText(forgedBody, "revenue", show) == MoneyText(body, "revenue", show);
    assert MoneyText(forgedBody, "fuelCost", show) == MoneyText(body, "fuelCost", show);
  }

  // ------------------------------------------------------------------
  // Database column conversion
  // ------------------------------------------------------------------

  /** The values written to the `rides`, `revenue` and `fuel_cost` columns. */
  datatype Columns = Columns(rides: int, revenue: int, fuelCost: int)

  /**
   * The database accepts the row only when rides is a 32-bit integer and
   * both money texts parse as decimal(10, 2); `toCents` stands for that
   * parse. A rejection surfaces as a thrown error.
   */
  function ToColumns(req: EntryRequest, toCents: string -> Option<int>): (r: Option<Columns>)
    ensures r.Some? <==>
      && req.rides == req.rides.Floor as real && INT32_MIN <= req.rides.Floor <= INT32_MAX
      && toCents(req.revenue).Some? && toCents(req.fuelCost).Some?
    ensures r.Some? ==>
      && r.value.rides as real == req.rides
      && Some(r.value.revenue) == toCents(req.revenue)
      && Some(r.value.fuelCost) == toCents(req.fuelCost)
  {
    var rides := req.rides.Floor;
    if rides as real != req.rides || rides < INT32_MIN || rides > INT32_MAX then None
    else match (toCents(req.revenue), toCents(req.fuelCost))
      case (Some(revenue), Some(fuelCost)) => Some(Columns(rides, revenue, fuelCost))
      case _ => None
  }

  // ------------------------------------------------------------------
  // Handlers
  // ------------------------------------------------------------------

  /** What the service keeps between requests: the table rules and the entry/aggregate agreement. */
  ghost predicate ServiceInvariant(store: Store)
    reads store
  {
    store.Valid() && Consistent(store.stats, store.entries)
  }

  /** The patch of the update branch: the submitted figures, with user and date kept. */
  function FiguresPatch(c: Columns): EntryPatch {
    EntryPatch(None, None, Some(c.rides), Some(c.revenue), Some(c.fuelCost))
  }

  /**
   * The entry table once the daily-entry handler has written: the user's
   * entry for that date patched with the submitted figures, or a new entry
   * with id `freshId` appended when there was none.
   */
  function Written(before: seq<DailyEntry>, userId: Id, date: string, c: Columns, freshId: Id): seq<DailyEntry> {
    match FindEntry(before, userId, date)
    case Some(k) => PatchEntries(before, before[k].id, FiguresPatch(c))
    case None => before + [DailyEntry(freshId, userId, date, c.rides, c.revenue, c.fuelCost)]
  }

  /**
   * After saving, `e` carries the submitted values for that user and date,
   * it is the only entry for them, and it replaced the earlier one in place
   * (every other entry untouched) or was appended when there was none.
   */
  ghost predicate SavedAs(before: seq<DailyEntry>, after: seq<DailyEntry>, e: DailyEntry,
                          userId: Id, date: string, c: Columns)
  {
    && e.userId == userId && e.date == date
    && e.rides == c.rides && e.revenue == c.revenue && e.fuelCost == c.fuelCost
    && e in after
    && (forall x :: x in after && x.userId == userId && x.date == date ==> x == e)
    && (FindEntry(before, userId, date).Some? ==>
          var k := FindEntry(before, userId, date).value;
          && after == PatchEntries(before, before[k].id, FiguresPatch(c))
          && e == after[k] && e.id == before[k].id)
    && (FindEntry(before, userId, date).None? ==> after == before + [e])
  }

  /**
   * `POST /api/daily-entries`: gate, validate, then update the day's entry
   * if the user already has one for that date, else create it. The write
   * and the recomputation that follows are separate statements: when the
   * month's new totals do not fit their columns the recomputation throws,
   * the answer is 500, and the entry stays written beside stale totals.
   */
  method PostDailyEntry(store: Store, session: Session, body: Body, show: real -> string,
                        toCents: string -> Option<int>)
    returns (resp: Response)
    requires ServiceInvariant(store)
    modifies store
    ensures store.Valid()
    ensures resp.status == 200 ==> ServiceInvariant(store)
    ensures store.users == old(store.users)
    ensures session.userId.None? ==> resp == Response(401, Message(UNAUTHORIZED)) && unchanged(store)
    ensures session.userId.Some? && ValidateDailyEntry(body, session.userId.value, show).Err? ==>
      && resp == FailureResponse(SaveEntry, Validation(ValidateDailyEntry(body, session.userId.value, show).error))
      && unchanged(store)
    ensures session.userId.Some? && ValidateDailyEntry(body, session.userId.value, show).Ok?
            && ToColumns(ValidateDailyEntry(body, session.userId.value, show).value, toCents).None? ==>
      resp == FailureResponse(SaveEntry, Thrown("")) && unchanged(store)
    ensures session.userId.Some? && ValidateDailyEntry(body, session.userId.value, show).Ok?
            && ToColumns(ValidateDailyEntry(body, session.userId.value, show).value, toCents).Some? ==>
      var req := ValidateDailyEntry(body, session.userId.value, show).value;
      var c := ToColumns(req, toCents).value;
      var month := MonthOf(req.date);
      var existed := FindEntry(old(store.entries), req.userId, req.date).Some?;
      && store.entries == Written(old(store.entries), req.userId, req.date, c, old(store.nextId))
      && (Fits(MonthTotals(store.entries, req.userId, month)) ==>
            && resp.status == 200 && resp.payload.SavedEntry?
            && SavedAs(old(store.entries), store.entries, resp.payload.entry, req.userId, req.date, c)
            && store.stats == Recompute(old(store.stats), store.entries, req.userId, month,
                                        if existed then old(store.nextId) else old(store.nextId) + 1)
            && Extends(old(store.achievements), store.achievements, req.userId,
                       QualifyingFor(store.entries, req.userId, month))
            && ServiceInvariant(store))
      && (!Fits(MonthTotals(store.entries, req.userId, month)) ==>
            && resp == FailureResponse(SaveEntry, Thrown(""))
            && store.stats == old(store.stats) && store.achievements == old(store.achievements))
  {
    var gate := RequireUser(session);
    if gate.Err? {
      return Response(401, Message(UNAUTHORIZED));
    }
    var userId := gate.value;
    var v := ValidateDailyEntry(body, userId, show);
    if v.Err? {
      return FailureResponse(SaveEntry, Validation(v.error));
    }
    var req := v.value;
    var existing := store.GetDailyEntry(userId, req.date);
    var cols := ToColumns(req, toCents);
    if cols.None? {
      return FailureResponse(SaveEntry, Thrown(""));
    }
    var c := cols.value;
    if existing.Some? {
      resp := SaveOver(store, userId, req.date, c);
    } else {
      resp := SaveNew(store, userId, req.date, c);
    }
  }

  /** The request and columns the daily-entry handler goes on to write, if the gate, the schema and the columns accept the body. */
  function SaveRequest(session: Session, body: Body, show: real -> string, toCents: string -> Option<int>)
    : Option<(EntryRequest, Columns)>
  {
    if session.userId.None? then None
    else match ValidateDailyEntry(body, session.userId.value, show)
      case Err(_) => None
      case Ok(req) =>
        match ToColumns(req, toCents)
        case None => None
        case Some(c) => Some((req, c))
  }

  /**
   * The daily-entry handler with its writes in one transaction: a failure
   * after the first write rolls every table back, so the service's
   * invariant holds after every request.
   */
  method PostDailyEntryAtomic(store: Store, session: Session, body: Body, show: real -> string,
                              toCents: string -> Option<int>)
    returns (resp: Response)
    requires ServiceInvariant(store)
    modifies store
    ensures ServiceInvariant(store)
    ensures resp.status != 200 ==>
      && store.users == old(store.users) && store.entries == old(store.entries)
      && store.stats == old(store.stats) && store.achievements == old(store.achievements)
      && store.nextId == old(store.nextId)
    ensures resp.status == 200 <==>
      && SaveRequest(session, body, show, toCents).Some?
      && var (req, c) := SaveRequest(session, body, show, toCents).value;
         Fits(MonthTotals(Written(old(store.entries), req.userId, req.date, c, old(store.nextId)),
                          req.userId, MonthOf(req.date)))
    ensures resp.status == 200 ==>
      var (req, c) := SaveRequest(session, body, show, toCents).value;
      && store.entries == Written(old(store.entries), req.userId, req.date, c, old(store.nextId))
      && resp.payload.SavedEntry?
      && SavedAs(old(store.entries), store.entries, resp.payload.entry, req.userId, req.date, c)
      && Extends(old(store.achievements), store.achievements, req.userId,
                 QualifyingFor(store.entries, req.userId, MonthOf(req.date)))
  {
    var users, entries, stats, achievements, nextId :=
      store.users, store.entries, store.stats, store.achievements, store.nextId;
    resp := PostDailyEntry(store, session, body, show, toCents);
    ghost var saved := SaveRequest(session, body, show, toCents);
    if saved.Some? {
      var (req, c) := saved.value;
      assert req == ValidateDailyEntry(body, session.userId.value, show).value;
      assert c == ToColumns(req, toCents).value;
      assert store.entries == Written(old(store.entries), req.userId, req.date, c, old(store.nextId));
    } else {
      assert resp.status != 200;
    }
    if resp.status != 200 {
      // roll back
      store.users, store.entries, store.stats, store.achievements, store.nextId :=
        users, entries, stats, achievements, nextId;
      assert store.Valid();
    }
  }

  /** The update branch of the daily-entry handler. */
  method SaveOver(store: Store, userId: Id, date: string, c: Columns) returns (resp: Response)
    requires ServiceInvariant(store) && Text.IsDate(date)
    requires FindEntry(store.entries, userId, date).Some?
    modifies store
    ensures store.Valid()
    ensures store.users == old(store.users)
    ensures store.entries == Written(old(store.entries), userId, date, c, old(store.nextId))
    ensures Fits(MonthTotals(store.entries, userId, MonthOf(date))) ==>
      && resp.status == 200 && resp.payload.SavedEntry?
      && SavedAs(old(store.entries), store.entries, resp.payload.entry, userId, date, c)
      && store.stats == Recompute(old(store.stats), store.entries, userId, MonthOf(date), old(store.nextId))
      && Extends(old(store.achievements), store.achievements, userId, QualifyingFor(store.entries, userId, MonthOf(date)))
      && ServiceInvariant(store)
    ensures !Fits(MonthTotals(store.entries, userId, MonthOf(date))) ==>
      && resp == FailureResponse(SaveEntry, Thrown(""))
      && store.stats == old(store.stats) && store.achievements == old(store.achievements)
  {
    var k := FindEntry(store.entries, userId, date).value;
    var target := store.entries[k];
    FindEntryByIdFindsIt(store.entries, k);
    var r := store.UpdateDailyEntry(target.id, FiguresPatch(c));
    if r.Err? {
      return FailureResponse(SaveEntry, Thrown(""));
    }
    var e := r.value;
    UpdatedConsistently(old(store.stats), old(store.entries), k, FiguresPatch(c), old(store.nextId),
                        store.entries, store.stats, e, userId, date, c);
    assert ServiceInvariant(store);
    assert SavedAs(old(store.entries), store.entries, e, userId, date, c);
    resp := Response(200, SavedEntry(e));
  }

  /** The tables after the update branch are consistent and hold exactly the updated entry for that day. */
  lemma UpdatedConsistently(stats: seq<MonthlyStats>, before: seq<DailyEntry>, k: nat, p: EntryPatch, freshId: Id,
                            after: seq<DailyEntry>, stats': seq<MonthlyStats>, e: DailyEntry,
                            userId: Id, date: string, c: Columns)
    requires Consistent(stats, before) && DistinctEntryIds(before)
    requires FindEntry(before, userId, date) == Some(k)
    requires p == FiguresPatch(c)
    requires after == PatchEntries(before, before[k].id, p)
    requires e == ApplyPatch(before[k], p)
    requires stats' == Recompute(stats, after, userId, MonthOf(date), freshId)
    ensures Consistent(stats', after)
    ensures SavedAs(before, after, e, userId, date, c)
  {
    PatchKeepsConsistent(stats, before, k, p, freshId);
    assert e == after[k];
    forall x | x in after && x.userId == userId && x.date == date
      ensures x == e
    {
      var i :| 0 <= i < |after| && after[i] == x;
      assert before[i].userId == userId && before[i].date == date;
      assert i == k;
    }
  }

  /** The create branch of the daily-entry handler. */
  method SaveNew(store: Store, userId: Id, date: string, c: Columns) returns (resp: Response)
    requires ServiceInvariant(store) && Text.IsDate(date)
    requires FindEntry(store.entries, userId, date).None?
    modifies store
    ensures store.Valid()
    ensures store.users == old(store.users)
    ensures store.entries == Written(old(store.entries), userId, date, c, old(store.nextId))
    ensures Fits(MonthTotals(store.entries, userId, MonthOf(date))) ==>
      && resp.status == 200 && resp.payload.SavedEntry?
      && SavedAs(old(store.entries), store.entries, resp.payload.entry, userId, date, c)
      && store.stats == Recompute(old(store.stats), store.entries, userId, MonthOf(date), old(store.nextId) + 1)
      && Extends(old(store.achievements), store.achievements, userId, QualifyingFor(store.entries, userId, MonthOf(date)))
      && ServiceInvariant(store)
    ensures !Fits(MonthTotals(store.entries, userId, MonthOf(date))) ==>
      && resp == FailureResponse(SaveEntry, Thrown(""))
      && store.stats == old(store.stats) && store.achievements == old(store.achievements)
  {
    var r := store.CreateDailyEntry(userId, date, c.rides, c.revenue, c.fuelCost);
    if r.Err? {
      return FailureResponse(SaveEntry, Thrown(""));
    }
    var e := r.value;
    CreatedConsistently(old(store.entries), old(store.stats), old(store.nextId) + 1, store.entries, store.stats,
                        e, userId, date, c);
    assert ServiceInvariant(store);
    assert SavedAs(old(store.entries), store.entries, e, userId, date, c);
    resp := Response(200, SavedEntry(e));
  }

  /** The tables after the create branch are consistent and hold exactly the new entry for that day. */
  lemma CreatedConsistently(before: seq<DailyEntry>, stats: seq<MonthlyStats>, freshId: Id,
                            after: seq<DailyEntry>, stats': seq<MonthlyStats>, e: DailyEntry,
                            userId: Id, date: string, c: Columns)
    requires Consistent(stats, before) && Text.IsDate(date)
    requires FindEntry(before, userId, date).None?
    requires e.userId == userId && e.date == date
    requires e.rides == c.rides && e.revenue == c.revenue && e.fuelCost == c.fuelCost
    requires after == before + [e]
    requires stats' == Recompute(stats, after, userId, MonthOf(date), freshId)
    ensures Consistent(stats', after)
    ensures SavedAs(before, after, e, userId, date, c)
  {
    AppendKeepsConsistent(stats, before, e, freshId);
  }

  /** `GET /api/daily-entries`: the session user's entries, newest first. */
  function GetEntries(store: Store, session: Session): (resp: Response)
    reads store
    ensures session.userId.None? ==> resp == Response(401, Message(UNAUTHORIZED))
    ensures session.userId.Some? ==>
      && resp.status == 200 && resp.payload.EntryList?
      && (forall e :: e in resp.payload.entries <==> e in store.entries && e.userId == session.userId.value)
      && multiset(resp.payload.entries)
         == multiset(Seqs.Filter(store.entries, (e: DailyEntry) => e.userId == session.userId.value))
      && Sorting.Ordered(resp.payload.entries, NewerFirst)
  {
    match RequireUser(session)
    case Err(_) => Response(401, Message(UNAUTHORIZED))
    case Ok(userId) => Response(200, EntryList(store.GetUserDailyEntries(userId)))
  }

  /** `GET /api/daily-entries/:date`: 400 on a malformed date, else the entry or null. */
  function GetEntryByDate(store: Store, session: Session, date: string): (resp: Response)
    reads store
    ensures session.userId.None? ==> resp == Response(401, Message(UNAUTHORIZED))
    ensures session.userId.Some? && !Text.IsDate(date) ==> resp == Response(400, Message(INVALID_DATE))
    ensures session.userId.Some? && Text.IsDate(date) ==>
      && resp.status == 200 && resp.payload.EntryOrNull?
      && (resp.payload.found.None? <==>
            forall e :: e in store.entries ==> !(e.userId == session.userId.value && e.date == date))
      && (resp.payload.found.Some? ==>
            var e := resp.payload.found.value;
            e in store.entries && e.userId == session.userId.value && e.date == date)
  {
    match RequireUser(session)
    case Err(_) => Response(401, Message(UNAUTHORIZED))
    case Ok(userId) =>
      if !Text.IsDate(date) then Response(400, Message(INVALID_DATE))
      else Response(200, EntryOrNull(store.GetDailyEntry(userId, date)))
  }

  /**
   * `GET /api/monthly-stats/:month`: 400 on a malformed month before the
   * store is touched; otherwise the (possibly new) row, whose totals are
   * the sums of the month's entries.
   */
  method GetMonthlyStats(store: Store, session: Session, month: string) returns (resp: Response)
    requires ServiceInvariant(store)
    modifies store
    ensures ServiceInvariant(store)
    ensures session.userId.None? ==> resp == Response(401, Message(UNAUTHORIZED)) && unchanged(store)
    ensures session.userId.Some? && !Text.IsMonth(month) ==>
      resp == Response(400, Message(INVALID_MONTH)) && unchanged(store)
    ensures session.userId.Some? && Text.IsMonth(month) ==>
      var userId := session.userId.value;
      && resp.status == 200 && resp.payload.StatsRow?
      && (store.stats, resp.payload.stats) == StatsOrZero(old(store.stats), userId, month, old(store.nextId))
      && store.entries == old(store.entries) && store.users == old(store.users)
      && RowTotals(resp.payload.stats) == MonthTotals(store.entries, userId, month)
  {
    var gate := RequireUser(session);
    if gate.Err? {
      return Response(401, Message(UNAUTHORIZED));
    }
    if !Text.IsMonth(month) {
      return Response(400, Message(INVALID_MONTH));
    }
    ZeroKeepsConsistent(store.stats, store.entries, gate.value, month, store.nextId);
    var row := store.GetOrCreateMonthlyStats(gate.value, month);
    resp := Response(200, StatsRow(row));
  }

  /** `GET /api/ranking/:month`: 400 on a malformed month, else the month's ranking. */
  function GetRanking(store: Store, session: Session, month: string): (resp: Response)
    reads store
    ensures session.userId.None? ==> resp == Response(401, Message(UNAUTHORIZED))
    ensures session.userId.Some? && !Text.IsMonth(month) ==> resp == Response(400, Message(INVALID_MONTH))
    ensures session.userId.Some? && Text.IsMonth(month) ==>
      && resp.status == 200 && resp.payload.Ranking?
      && (forall row :: row in resp.payload.rows ==> row.stats in store.stats && row.stats.month == month)
      && Sorting.Ordered(resp.payload.rows, HigherRevenueFirst)
  {
    match RequireUser(session)
    case Err(_) => Response(401, Message(UNAUTHORIZED))
    case Ok(_) =>
      if !Text.IsMonth(month) then Response(400, Message(INVALID_MONTH))
      else Response(200, Ranking(store.GetMonthlyRanking(month)))
  }

  // ------------------------------------------------------------------
  // Registration and login
  // ------------------------------------------------------------------

  function AtLeast(n: nat): string -> bool {
    (s: string) => |s| >= n
  }

  /** `registerSchema`: a valid email, a password of 6+ characters, a name of 2+. */
  function ValidateRegistration(body: Body, isEmail: string -> bool): (r: Result<(string, string, string), seq<Issue>>)
    ensures r.Ok? <==>
      && "email" in body && body["email"].JString? && isEmail(body["email"].s)
      && "password" in body && body["password"].JString? && |body["password"].s| >= 6
      && "displayName" in body && body["displayName"].JString? && |body["displayName"].s| >= 2
    ensures r.Ok? ==> r.value == (body["email"].s, body["password"].s, body["displayName"].s)
    ensures r.Err? ==> r.error != []
  {
    var issues := CheckText(body, "email", isEmail, EMAIL_INVALID)
      + CheckText(body, "password", AtLeast(6), PASSWORD_SHORT)
      + CheckText(body, "displayName", AtLeast(2), NAME_SHORT);
    if issues == [] then Ok((body["email"].s, body["password"].s, body["displayName"].s))
    else Err(issues)
  }

  /** `loginSchema`: a valid email and a non-empty password. */
  function ValidateLogin(body: Body, isEmail: string -> bool): (r: Result<(string, string), seq<Issue>>)
    ensures r.Ok? <==>
      && "email" in body && body["email"].JString? && isEmail(body["email"].s)
      && "password" in body && body["password"].JString? && |body["password"].s| >= 1
    ensures r.Ok? ==> r.value == (body["email"].s, body["password"].s)
    ensures r.Err? ==> r.error != []
  {
    var issues := CheckText(body, "email", isEmail, EMAIL_INVALID)
      + CheckText(body, "password", AtLeast(1), PASSWORD_REQUIRED);
    if issues == [] then Ok((body["email"].s, body["password"].s))
    else Err(issues)
  }

  /**
   * `POST /api/auth/register`: every failure is a 400; on success the new
   * user is logged in at once.
   */
  method PostRegister(store: Store, session: Session, body: Body, isEmail: string -> bool, hash: string -> string)
    returns (resp: Response, next: Session)
    requires ServiceInvariant(store)
    modifies store
    ensures ServiceInvariant(store)
    ensures store.entries == old(store.entries) && store.stats == old(store.stats)
    ensures resp.status != 200 ==> resp.status == 400 && next == session && store.users == old(store.users)
    ensures ValidateRegistration(body, isEmail).Err? ==>
      resp == FailureResponse(Register, Validation(ValidateRegistration(body, isEmail).error))
    ensures ValidateRegistration(body, isEmail).Ok? ==>
      var (email, password, displayName) := ValidateRegistration(body, isEmail).value;
      && (FindUserByEmail(old(store.users), email).Some? ==> resp == Response(400, Message(EMAIL_TAKEN)))
      && (FindUserByEmail(old(store.users), email).None? ==>
            var account := NewAccount(old(store.nextId), email, password, displayName, hash);
            && resp == Response(200, Account("Usuário criado com sucesso", account.id, email, Some(displayName)))
            && next == Session(Some(account.id))
            && store.users == old(store.users) + [account])
  {
    var v := ValidateRegistration(body, isEmail);
    if v.Err? {
      return FailureResponse(Register, Validation(v.error)), session;
    }
    var (email, password, displayName) := v.value;
    var r := RegisterUser(store, email, password, displayName, hash);
    match r
    case Err(message) =>
      resp, next := FailureResponse(Register, Thrown(message)), session;
    case Ok(user) =>
      resp := Response(200, Account("Usuário criado com sucesso", user.id, user.email, user.displayName));
      next := Session(Some(user.id));
  }

  /**
   * `POST /api/auth/login`: schema errors are 400, credential failures
   * 401; on success the session holds the user.
   */
  function PostLogin(store: Store, session: Session, body: Body, isEmail: string -> bool,
                     verify: (string, string) -> bool): (r: (Response, Session))
    reads store
    ensures ValidateLogin(body, isEmail).Err? ==>
      r.0.status == 400 && r.0.payload.Issues? && r.1 == session
    ensures ValidateLogin(body, isEmail).Ok? ==>
      var (email, password) := ValidateLogin(body, isEmail).value;
      match AuthenticateUser(store.users, email, password, verify)
      case Err(_) => r == (Response(401, Message(BAD_CREDENTIALS)), session)
      case Ok(user) => r.0.status == 200 && r.1 == Session(Some(user.id)) && user.email == email
  {
    match ValidateLogin(body, isEmail)
    case Err(issues) => (FailureResponse(Login, Validation(issues)), session)
    case Ok((email, password)) =>
      match AuthenticateUser(store.users, email, password, verify)
      case Err(message) => (FailureResponse(Login, Thrown(message)), session)
      case Ok(user) =>
        (Response(200, Account("Login realizado com sucesso", user.id, user.email, user.displayName)),
         Session(Some(user.id)))
  }
}
