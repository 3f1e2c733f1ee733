/** The handlers of src/api/schedules.ts. `userID` is the id withAuth
    attached; a body field is `None` when undefined, and a nullable one is
    `Some(None)` when null. Body dates become Date objects through the
    engine's `parse`. */
module ApiSchedules {

  import opened Wrappers
  import opened JsString
  import opened Store
  import opened Http
  import opened JsDate
  import DbSchedules

  type Schedule = DbSchedules.Schedule

  const IDRequiredMessage := "Schedule ID is required"
  const NotFoundMessage := "Schedule not found"
  const DeleteFailedMessage := "Failed to delete schedule"

  /** The create body. `None` is undefined or null for the fields the
      handler tests with `!`, `??` or `? :`; `isActive` keeps the JSON value,
      since `!!` treats null and undefined differently from `=== undefined`. */
  datatype CreateBody = CreateBody(
    robotInstanceID: Option<Id>,
    scheduleName: Option<string>,
    cronExpression: Option<string>,
    timezone: Option<string>,
    isActive: Option<Json>,
    lastExecutionAt: Option<string>,
    nextExecutionAt: Option<string>,
    description: Option<string>,
    maxRetries: Option<int>,
    retryDelayMinutes: Option<int>)

  /** `v ? new Date(v) : null` for a date of the body: an empty or missing
      text is none, any other is read by the engine. */
  function DateOrNull(parse: DateParser, v: Option<string>): (d: Option<Date>)
    ensures d.None? <==> !Truthy(v)
    ensures d.Some? ==> d.value == Parse(parse, v.value)
  {
    if Truthy(v) then Some(Parse(parse, v.value)) else None
  }

  /** The checks and defaults of handlerCreateSchedule: `robotInstanceID`,
      `scheduleName` and `cronExpression` are required in that order; the
      time zone defaults to America/Sao_Paulo, the flag to active when it is
      absent (a given value counts by its truthiness), an empty date to
      none, the description to none, and the retry settings to 3 and 5. */
  function CreateParams(parse: DateParser, userID: Id, body: CreateBody)
    : (r: Result<DbSchedules.CreateScheduleParams, ApiError>)
    ensures !Truthy(body.robotInstanceID) ==> r == Failure(BadRequest("robotInstanceID is required"))
    ensures Truthy(body.robotInstanceID) && !Truthy(body.scheduleName) ==>
      r == Failure(BadRequest("scheduleName is required"))
    ensures Truthy(body.robotInstanceID) && Truthy(body.scheduleName) && !Truthy(body.cronExpression) ==>
      r == Failure(BadRequest("cronExpression is required"))
    ensures r.Success? <==> Truthy(body.robotInstanceID) && Truthy(body.scheduleName) && Truthy(body.cronExpression)
    ensures r.Success? ==> var p := r.value;
      && p.robotInstanceID == body.robotInstanceID.value && p.userID == userID
      && p.scheduleName == body.scheduleName.value && p.cronExpression == body.cronExpression.value
      && p.timezone == Some(body.timezone.GetOr(DbSchedules.DefaultTimezone))
      && p.isActive == Some(body.isActive.None? || JsonTruthy(body.isActive))
      && p.lastExecutionAt == DateOrNull(parse, body.lastExecutionAt)
      && p.nextExecutionAt == DateOrNull(parse, body.nextExecutionAt)
      && p.description == body.description
      && p.maxRetries == Some(body.maxRetries.GetOr(DbSchedules.DefaultMaxRetries))
      && p.retryDelayMinutes == Some(body.retryDelayMinutes.GetOr(DbSchedules.DefaultRetryDelayMinutes))
  {
    if !Truthy(body.robotInstanceID) then Failure(BadRequest("robotInstanceID is required"))
    else if !Truthy(body.scheduleName) then Failure(BadRequest("scheduleName is required"))
    else if !Truthy(body.cronExpression) then Failure(BadRequest("cronExpression is required"))
    else Success(DbSchedules.CreateScheduleParams(
      body.robotInstanceID.value, userID, body.scheduleName.value, body.cronExpression.value,
      Some(body.timezone.GetOr(DbSchedules.DefaultTimezone)),
      Some(if body.isActive.None? then true else JsonTruthy(body.isActive)),
      DateOrNull(parse, body.lastExecutionAt),
      DateOrNull(parse, body.nextExecutionAt),
      body.description,
      Some(body.maxRetries.GetOr(DbSchedules.DefaultMaxRetries)),
      Some(body.retryDelayMinutes.GetOr(DbSchedules.DefaultRetryDelayMinutes))))
  }

  /** `isActive: null` deactivates, although an absent flag activates; an
      explicit zero retry count is kept, not replaced by the default. */
  lemma CreateDefaultsEdges(parse: DateParser, userID: Id, body: CreateBody)
    requires CreateParams(parse, userID, body).Success?
    ensures body.isActive == Some(Null) ==> CreateParams(parse, userID, body).value.isActive == Some(false)
    ensures body.isActive == None ==> CreateParams(parse, userID, body).value.isActive == Some(true)
    ensures body.maxRetries == Some(0) ==> CreateParams(parse, userID, body).value.maxRetries == Some(0)
  {
  }

  /** Both dates of a create body can be written: each is empty or a time. */
  predicate CreateDatesWritable(parse: DateParser, body: CreateBody) {
    Writable(DateOrNull(parse, body.lastExecutionAt)) && Writable(DateOrNull(parse, body.nextExecutionAt))
  }

  /** handlerCreateSchedule: a missing required field is its 400 and a date
      that is not a time a 500 from the RangeError, and neither writes
      anything; otherwise 201 with the new schedule, which holds the body's
      fields with their defaults, both dates as ISO text, and the current
      time in both stamps. */
  method HandlerCreateSchedule(table: DbSchedules.SchedulesTable, parse: DateParser, newID: Id, userID: Id,
                               body: CreateBody)
    returns (r: Result<Reply<Schedule>, ApiError>)
    requires table.Valid() && newID !in table.rows
    modifies table
    ensures table.Valid()
    ensures var checked := CreateParams(parse, userID, body);
      && (checked.Failure? ==> r == Failure(checked.error) && table.rows == old(table.rows))
      && (checked.Success? && !CreateDatesWritable(parse, body) ==>
        r == Failure(DateThrown(RangeError(InvalidTimeValue))) && table.rows == old(table.rows))
      && (r.Success? <==> checked.Success? && CreateDatesWritable(parse, body))
    ensures r.Success? ==>
      r.value.status == 201 && table.rows == old(table.rows)[newID := r.value.body]
      && r.value.body == DbSchedules.Schedule(newID, old(table.clock), old(table.clock),
        body.robotInstanceID.value, userID, body.scheduleName.value, body.cronExpression.value,
        body.timezone.GetOr(DbSchedules.DefaultTimezone), body.isActive.None? || JsonTruthy(body.isActive),
        ToColumn(DateOrNull(parse, body.lastExecutionAt)).value, ToColumn(DateOrNull(parse, body.nextExecutionAt)).value,
        body.description, body.maxRetries.GetOr(DbSchedules.DefaultMaxRetries),
        body.retryDelayMinutes.GetOr(DbSchedules.DefaultRetryDelayMinutes))
  {
    var checked := CreateParams(parse, userID, body);
    if checked.Failure? {
      return Failure(checked.error);
    }
    var created := table.CreateSchedule(newID, checked.value);
    if created.Failure? {
      return Failure(DateThrown(created.error));
    }
    r := Success(Reply(201, created.value));
  }

  /** handlerListAllSchedules: 200 with the user's schedules. */
  function HandlerListAllSchedules(table: DbSchedules.SchedulesTable, userID: Id): (r: Reply<seq<Schedule>>)
    reads table
    requires table.Valid()
    ensures r.status == 200 && r.body == table.ListAll(userID)
    ensures forall i :: 0 <= i < |r.body| ==> r.body[i].userID == userID
  {
    Reply(200, table.ListAll(userID))
  }

  function OwnerOf(s: Schedule): Id { s.userID }

  /** The schedule the path names, when it is the user's; a 404 for an
      unknown one in all three handlers. */
  function Owned(rows: map<Id, Schedule>, userID: Id, pathname: string): Result<Id, ApiError> {
    Locate(rows, OwnerOf, userID, pathname, IDRequiredMessage, NotFound(NotFoundMessage))
  }

  /** handlerGetScheduleByID: 200 with the user's schedule. */
  function HandlerGetScheduleByID(table: DbSchedules.SchedulesTable, userID: Id, pathname: string)
    : (r: Result<Reply<Schedule>, ApiError>)
    reads table
    ensures r.Failure? <==> Owned(table.rows, userID, pathname).Failure?
    ensures r.Failure? ==> r.error == Owned(table.rows, userID, pathname).error
    ensures r.Success? ==> r.value == Reply(200, table.rows[LastSegment(pathname)])
  {
    var id :- Owned(table.rows, userID, pathname);
    Success(Reply(200, table.rows[id]))
  }

  /** The schedule a create answered with is what a get of `…/<id>` then
      answers, for the user who created it. */
  lemma GetCreated(table: DbSchedules.SchedulesTable, userID: Id, prefix: string, s: Schedule)
    requires s.id in table.rows && table.rows[s.id] == s
    requires s.userID == userID && s.id != "" && '/' !in s.id
    ensures HandlerGetScheduleByID(table, userID, prefix + "/" + s.id) == Success(Reply(200, s))
  {
    LastSegmentOf(prefix, s.id);
  }

  /** handlerDeleteSchedule: after the checks the row goes and the answer
      is 204; the delete is scoped as the checks were, so its 500 never
      happens. */
  method HandlerDeleteSchedule(table: DbSchedules.SchedulesTable, userID: Id, pathname: string)
    returns (r: Result<Reply<()>, ApiError>)
    requires table.Valid()
    modifies table
    ensures table.Valid()
    ensures var checked := Owned(old(table.rows), userID, pathname);
      && (r.Failure? <==> checked.Failure?)
      && (r.Failure? ==> r.error == checked.error && table.rows == old(table.rows))
      && (r.Success? ==> r.value.status == 204 && table.rows == old(table.rows) - {checked.value})
    ensures r != Failure(InternalServer(DeleteFailedMessage))
  {
    var checked := Owned(table.rows, userID, pathname);
    if checked.Failure? {
      return Failure(checked.error);
    }
    var deleted := table.DeleteSchedule(checked.value, userID);
    r := if deleted then Success(Reply(204, ())) else Failure(InternalServer(DeleteFailedMessage));
  }

  /** The update body: each field `None` when undefined. */
  datatype UpdateBody = UpdateBody(
    scheduleName: Option<string>,
    cronExpression: Option<string>,
    timezone: Option<string>,
    isActive: Option<Json>,
    lastExecutionAt: Option<Option<string>>,
    nextExecutionAt: Option<Option<string>>,
    description: Option<Option<string>>,
    maxRetries: Option<int>,
    retryDelayMinutes: Option<int>)

  function Given<T>(v: Option<T>): Patch<T> {
    match v
    case None => Keep
    case Some(x) => Put(x)
  }

  /** A given date: an empty or null one clears the column, any other is
      read by the engine. */
  function GivenDate(parse: DateParser, v: Option<Option<string>>): (p: Patch<Option<Date>>)
    ensures p.Put? <==> v.Some?
    ensures p.Put? ==> (p.value.None? <==> !Truthy(v.value))
    ensures p.Put? && p.value.Some? ==> p.value.value == Parse(parse, v.value.value)
  {
    match v
    case None => Keep
    case Some(d) => Put(DateOrNull(parse, d))
  }

  /** A given date of an update body can be written: it is empty, null or
      a time. */
  predicate UpdateDateWritable(parse: DateParser, v: Option<Option<string>>) {
    v.Some? ==> Writable(DateOrNull(parse, v.value))
  }

  /** What a given date of an update body writes to its column. */
  function GivenText(parse: DateParser, v: Option<Option<string>>, kept: Option<string>): Option<string>
    requires UpdateDateWritable(parse, v)
  {
    if v.Some? then ToColumn(DateOrNull(parse, v.value)).value else kept
  }

  /** The update params: exactly the fields the body defines, the flag by
      its truthiness; the dates are writable exactly when each given one is
      empty, null or a text the engine reads as a time. */
  function UpdateParams(parse: DateParser, body: UpdateBody): (p: DbSchedules.UpdateScheduleParams)
    ensures p == DbSchedules.NoChange <==> body == UpdateBody(None, None, None, None, None, None, None, None, None)
    ensures p.isActive.Put? <==> body.isActive.Some?
    ensures p.isActive.Put? ==> p.isActive.value == JsonTruthy(body.isActive)
    ensures DbSchedules.DatesWritable(p) <==>
      UpdateDateWritable(parse, body.lastExecutionAt) && UpdateDateWritable(parse, body.nextExecutionAt)
    ensures DbSchedules.DatesWritable(p) ==> forall s :: DbSchedules.Merge(s, p) == s.(
      scheduleName := body.scheduleName.GetOr(s.scheduleName),
      cronExpression := body.cronExpression.GetOr(s.cronExpression),
      timezone := body.timezone.GetOr(s.timezone),
      isActive := if body.isActive.Some? then JsonTruthy(body.isActive) else s.isActive,
      lastExecutionAt := GivenText(parse, body.lastExecutionAt, s.lastExecutionAt),
      nextExecutionAt := GivenText(parse, body.nextExecutionAt, s.nextExecutionAt),
      description := body.description.GetOr(s.description),
      maxRetries := body.maxRetries.GetOr(s.maxRetries),
      retryDelayMinutes := body.retryDelayMinutes.GetOr(s.retryDelayMinutes))
  {
    DbSchedules.UpdateScheduleParams(Given(body.scheduleName), Given(body.cronExpression), Given(body.timezone),
      if body.isActive.Some? then Put(JsonTruthy(body.isActive)) else Keep,
      GivenDate(parse, body.lastExecutionAt), GivenDate(parse, body.nextExecutionAt), Given(body.description),
      Given(body.maxRetries), Given(body.retryDelayMinutes))
  }

  /** handlerUpdateSchedule: the checks before the body is read; a date
      that is not a time is a 500 from the RangeError and writes nothing;
      otherwise the user's schedule gets the body's fields and is answered
      with 200. */
  method HandlerUpdateSchedule(table: DbSchedules.SchedulesTable, parse: DateParser, userID: Id, pathname: string,
                               body: UpdateBody)
    returns (r: Result<Reply<Schedule>, ApiError>)
    requires table.Valid()
    modifies table
    ensures table.Valid()
    ensures var checked := Owned(old(table.rows), userID, pathname);
      && (checked.Failure? ==> r == Failure(checked.error) && table.rows == old(table.rows))
      && (checked.Success? && !DbSchedules.DatesWritable(UpdateParams(parse, body)) ==>
        r == Failure(DateThrown(RangeError(InvalidTimeValue))) && table.rows == old(table.rows))
      && (r.Success? <==> checked.Success? && DbSchedules.DatesWritable(UpdateParams(parse, body)))
    ensures r.Success? ==> var id, p := LastSegment(pathname), UpdateParams(parse, body);
      && r.value.status == 200 && id in table.rows && r.value.body == table.rows[id]
      && (p == DbSchedules.NoChange ==> table.rows == old(table.rows))
      && (p != DbSchedules.NoChange ==>
        table.rows == old(table.rows)[id := DbSchedules.Merge(old(table.rows)[id], p).(updatedAt := old(table.clock))])
  {
    var checked := Owned(table.rows, userID, pathname);
    if checked.Failure? {
      return Failure(checked.error);
    }
    var params := UpdateParams(parse, body);
    var updated := table.UpdateSchedule(checked.value, userID, params);
    if updated.Failure? {
      return Failure(DateThrown(updated.error));
    }
    r := Success(Reply(200, updated.value.value));
  }
}
