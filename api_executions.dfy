/** The handlers of src/api/executions.ts. `userID` is the id withAuth
    attached to the request; query parameters are `None` when absent; a body
    field is `None` when undefined, and a nullable one is `Some(None)` when
    null. Body dates become Date objects through the engine's `parse`. */
module ApiExecutions {

  import opened Wrappers
  import opened JsString
  import opened Store
  import opened Http
  import opened JsDate
  import DbExecutions
  import ExecutionService

  type Execution = DbExecutions.Execution

  const IDRequiredMessage := "Execution ID is required"
  const NotFoundMessage := "Execution not found"
  const DeleteFailedMessage := "Failed to delete execution"

  function OwnerOf(e: Execution): Id { e.userID }

  /** The execution the path names, when it is the user's: an unknown id is
      `missing`, a 400 for get and a 404 for update and delete. */
  function Owned(rows: map<Id, Execution>, userID: Id, pathname: string, missing: ApiError): Result<Id, ApiError> {
    Locate(rows, OwnerOf, userID, pathname, IDRequiredMessage, missing)
  }

  datatype CreateBody = CreateBody(robotInstanceID: Option<Id>, executionType: Option<string>, scheduleID: Option<Id>)

  /** handlerCreateExecution: the body handed to the execution service, with
      an empty schedule id dropped; 201 with the new execution: pending, of
      the user's instance and the body's type, with no timings, outputs or
      retries yet, stamped now. */
  method HandlerCreateExecution(table: DbExecutions.ExecutionsTable, instances: ExecutionService.RobotInstances,
                                newID: Id, userID: Id, body: CreateBody)
    returns (r: Result<Reply<Execution>, ApiError>)
    requires table.Valid() && newID !in table.rows
    modifies table
    ensures table.Valid()
    ensures var dto := ExecutionService.CreateExecutionDTO(body.robotInstanceID, userID, body.executionType,
      OrNull(body.scheduleID));
      && (r.Failure? <==> ExecutionService.Admit(instances, dto).Failure?)
      && (r.Failure? ==> r.error == ExecutionService.Admit(instances, dto).error && table.rows == old(table.rows))
    ensures r.Success? ==>
      r.value.status == 201 && table.rows == old(table.rows)[newID := r.value.body]
      && r.value.body == DbExecutions.Execution(newID, old(table.clock), old(table.clock),
        instances[body.robotInstanceID.value].id, userID, "pending", None, None, None, None,
        body.executionType.value, OrNull(body.scheduleID), None, None, None, 0, None)
  {
    var dto := ExecutionService.CreateExecutionDTO(body.robotInstanceID, userID, body.executionType,
      OrNull(body.scheduleID));
    var created := ExecutionService.CreateExecution(table, instances, newID, dto);
    if created.Failure? {
      return Failure(created.error);
    }
    r := Success(Reply(201, created.value));
  }

  /** handlerListAllExecutions: a non-empty `robotInstanceID` wins, then a
      non-empty `status`, else all of the user's executions. */
  function HandlerListAllExecutions(table: DbExecutions.ExecutionsTable, userID: Id,
                                    robotInstanceID: Option<string>, status: Option<string>)
    : (r: Reply<seq<Execution>>)
    reads table
    requires table.Valid()
    ensures r.status == 200
    ensures Truthy(robotInstanceID) ==> r.body == table.ListByRobotInstance(userID, robotInstanceID.value)
    ensures !Truthy(robotInstanceID) && Truthy(status) ==> r.body == table.ListByStatus(userID, status.value)
    ensures !Truthy(robotInstanceID) && !Truthy(status) ==> r.body == table.ListByUser(userID)
    ensures forall i :: 0 <= i < |r.body| ==> r.body[i].userID == userID
  {
    var executions :=
      if Truthy(robotInstanceID) then table.ListByRobotInstance(userID, robotInstanceID.value)
      else if Truthy(status) then table.ListByStatus(userID, status.value)
      else table.ListByUser(userID);
    Reply(200, executions)
  }

  /** handlerGetExecutionByID: 200 with the user's execution; an unknown id
      is a BadRequestError here, not a 404. */
  function HandlerGetExecutionByID(table: DbExecutions.ExecutionsTable, userID: Id, pathname: string)
    : (r: Result<Reply<Execution>, ApiError>)
    reads table
    ensures r.Success? <==> Owned(table.rows, userID, pathname, BadRequest(NotFoundMessage)).Success?
    ensures r.Failure? ==> r.error == Owned(table.rows, userID, pathname, BadRequest(NotFoundMessage)).error
    ensures r.Success? ==> r.value == Reply(200, table.rows[LastSegment(pathname)])
  {
    var id :- Owned(table.rows, userID, pathname, BadRequest(NotFoundMessage));
    Success(Reply(200, table.rows[id]))
  }

  /** The execution a create answered with is what a get of `…/<id>` then
      answers, for the user who created it. */
  lemma GetCreated(table: DbExecutions.ExecutionsTable, userID: Id, prefix: string, e: Execution)
    requires e.id in table.rows && table.rows[e.id] == e
    requires e.userID == userID && e.id != "" && '/' !in e.id
    ensures HandlerGetExecutionByID(table, userID, prefix + "/" + e.id) == Success(Reply(200, e))
  {
    LastSegmentOf(prefix, e.id);
  }

  /** The update body: each field `None` when undefined; a date is a text or
      null. */
  datatype UpdateBody = UpdateBody(
    status: Option<string>,
    startedAt: Option<Option<string>>,
    finishedAt: Option<Option<string>>,
    errorMessage: Option<Option<string>>,
    errorStack: Option<Option<string>>,
    outputDataJson: Option<Option<string>>,
    outputFilePath: Option<Option<string>>,
    logsFilePath: Option<Option<string>>,
    retryCount: Option<int>,
    durationSeconds: Option<Option<int>>)

  function Given<T>(v: Option<T>): Patch<T> {
    match v
    case None => Keep
    case Some(x) => Put(x)
  }

  /** A defined date becomes `new Date(value)`, which for null is time 0. */
  function GivenDate(parse: DateParser, v: Option<Option<string>>): (p: Patch<Date>)
    ensures p.Put? <==> v.Some?
    ensures v == Some(None) ==> p == Put(Time(Epoch))
    ensures v == Some(Some("")) ==> p == Put(InvalidDate)
  {
    match v
    case None => Keep
    case Some(value) => Put(FromJson(parse, value))
  }

  /** The update params: exactly the fields the body defines, with their
      values; the dates are writable exactly when each given one is null or
      a text the engine reads as a time. */
  function UpdateParams(parse: DateParser, body: UpdateBody): (p: DbExecutions.UpdateExecutionParams)
    ensures p.status.Put? <==> body.status.Some?
    ensures p.retryCount.Put? <==> body.retryCount.Some?
    ensures p == DbExecutions.NoChange <==> body == UpdateBody(None, None, None, None, None, None, None, None, None, None)
    ensures DbExecutions.DatesWritable(p) <==>
      (body.startedAt.Some? ==> FromJson(parse, body.startedAt.value).Time?)
      && (body.finishedAt.Some? ==> FromJson(parse, body.finishedAt.value).Time?)
    ensures DbExecutions.DatesWritable(p) ==> forall e :: DbExecutions.Merge(e, p) == e.(
      status := body.status.GetOr(e.status),
      startedAt := if body.startedAt.Some? then Some(FromJson(parse, body.startedAt.value).iso) else e.startedAt,
      finishedAt := if body.finishedAt.Some? then Some(FromJson(parse, body.finishedAt.value).iso) else e.finishedAt,
      errorMessage := body.errorMessage.GetOr(e.errorMessage),
      errorStack := body.errorStack.GetOr(e.errorStack),
      outputDataJson := body.outputDataJson.GetOr(e.outputDataJson),
      outputFilePath := body.outputFilePath.GetOr(e.outputFilePath),
      logsFilePath := body.logsFilePath.GetOr(e.logsFilePath),
      retryCount := body.retryCount.GetOr(e.retryCount),
      durationSeconds := body.durationSeconds.GetOr(e.durationSeconds))
  {
    DbExecutions.UpdateExecutionParams(Given(body.status), GivenDate(parse, body.startedAt), GivenDate(parse, body.finishedAt),
      Given(body.errorMessage), Given(body.errorStack), Given(body.outputDataJson), Given(body.outputFilePath),
      Given(body.logsFilePath), Given(body.retryCount), Given(body.durationSeconds))
  }

  /** handlerUpdateExecution: 404 and 403 before the body is read; a date
      that is not a time is a 500 from the RangeError and writes nothing;
      otherwise the user's execution gets the body's fields and is answered
      with 200. */
  method HandlerUpdateExecution(table: DbExecutions.ExecutionsTable, parse: DateParser, userID: Id, pathname: string,
                                body: UpdateBody)
    returns (r: Result<Reply<Execution>, ApiError>)
    requires table.Valid()
    modifies table
    ensures table.Valid()
    ensures var checked := Owned(old(table.rows), userID, pathname, NotFound(NotFoundMessage));
      && (checked.Failure? ==> r == Failure(checked.error) && table.rows == old(table.rows))
      && (checked.Success? && !DbExecutions.DatesWritable(UpdateParams(parse, body)) ==>
        r == Failure(DateThrown(RangeError(InvalidTimeValue))) && table.rows == old(table.rows))
      && (r.Success? <==> checked.Success? && DbExecutions.DatesWritable(UpdateParams(parse, body)))
    ensures r.Success? ==> var id, p := LastSegment(pathname), UpdateParams(parse, body);
      && r.value.status == 200 && id in table.rows && r.value.body == table.rows[id]
      && (p == DbExecutions.NoChange ==> table.rows == old(table.rows))
      && (p != DbExecutions.NoChange ==>
        table.rows == old(table.rows)[id := DbExecutions.Merge(old(table.rows)[id], p).(updatedAt := old(table.clock))])
  {
    var checked := Owned(table.rows, userID, pathname, NotFound(NotFoundMessage));
    if checked.Failure? {
      return Failure(checked.error);
    }
    var params := UpdateParams(parse, body);
    var updated := table.UpdateExecution(checked.value, userID, params);
    if updated.Failure? {
      return Failure(DateThrown(updated.error));
    }
    r := Success(Reply(200, updated.value.value));
  }

  /** handlerDeleteExecution: 404 and 403 as for update, then the row goes
      and the answer is 204. The deletion is scoped to the same id and user
      the checks saw, so the 500 for a delete that removed nothing never
      happens. */
  method HandlerDeleteExecution(table: DbExecutions.ExecutionsTable, userID: Id, pathname: string)
    returns (r: Result<Reply<()>, ApiError>)
    requires table.Valid()
    modifies table
    ensures table.Valid()
    ensures var checked := Owned(old(table.rows), userID, pathname, NotFound(NotFoundMessage));
      && (r.Failure? <==> checked.Failure?)
      && (r.Failure? ==> r.error == checked.error && table.rows == old(table.rows))
      && (r.Success? ==> r.value.status == 204 && table.rows == old(table.rows) - {checked.value})
    ensures r != Failure(InternalServer(DeleteFailedMessage))
  {
    var checked := Owned(table.rows, userID, pathname, NotFound(NotFoundMessage));
    if checked.Failure? {
      return Failure(checked.error);
    }
    var deleted := table.DeleteExecution(userID, checked.value);
    r := if deleted then Success(Reply(204, ())) else Failure(InternalServer(DeleteFailedMessage));
  }
}
