/** The handlers of src/api/execution-logs.ts. `userID` is the id withAuth
    attached; `executions` are the rows of the executions table, which the
    create handler queries directly and the log queries join on. */
module ApiExecutionLogs {

  import opened Wrappers
  import opened JsString
  import opened Store
  import opened Http
  import DbExecutionLogs

  type ExecutionLog = DbExecutionLogs.ExecutionLog
  type Executions = DbExecutionLogs.Executions

  const ValidLogLevels: seq<string> := ["debug", "info", "warn", "error", "fatal"]

  const RequiredMessage := "executionID, logLevel and message are required"
  const LevelMessage := "logLevel must be one of: debug, info, warn, error, fatal"
  const QueryRequiredMessage := "executionID or logLevel query parameter is required"
  const ExecutionQueryRequiredMessage := "executionID query parameter is required"
  const IDRequiredMessage := "Execution Log ID is required"
  const DeleteFailedMessage := "Failed to delete execution log"

  /** isValidLogLevel: one of the five levels, spelled exactly. */
  predicate IsValidLogLevel(level: string) {
    level in ValidLogLevels
  }

  lemma LogLevels(level: string)
    ensures IsValidLogLevel(level) <==>
      level == "debug" || level == "info" || level == "warn" || level == "error" || level == "fatal"
    ensures !IsValidLogLevel("DEBUG") && !IsValidLogLevel("warning") && !IsValidLogLevel("")
  {
  }

  /** The create body: each field `None` when undefined or null. */
  datatype CreateBody = CreateBody(
    executionID: Option<Id>,
    logLevel: Option<string>,
    message: Option<string>,
    contextJSON: Option<string>)

  /** The checks of handlerCreateExecutionLog in their order: the three
      required fields, the level, the execution's existence (404), its owner
      (403); then the params, with no context unless one is given. */
  function CreateParams(executions: Executions, userID: Id, body: CreateBody)
    : (r: Result<DbExecutionLogs.CreateExecutionLogParams, ApiError>)
    ensures !(Truthy(body.executionID) && Truthy(body.logLevel) && Truthy(body.message)) ==>
      r == Failure(BadRequest(RequiredMessage))
    ensures Truthy(body.executionID) && Truthy(body.logLevel) && Truthy(body.message) ==>
      && (!IsValidLogLevel(body.logLevel.value) ==> r == Failure(BadRequest(LevelMessage)))
      && (IsValidLogLevel(body.logLevel.value) && body.executionID.value !in executions ==>
        r == Failure(NotFound("Execution not found")))
    ensures r.Success? <==>
      Truthy(body.executionID) && Truthy(body.logLevel) && Truthy(body.message)
      && IsValidLogLevel(body.logLevel.value) && DbExecutionLogs.OwnedBy(executions, body.executionID.value, userID)
    ensures r.Failure? ==> r.error.BadRequest? || r.error.NotFound? || r.error == Forbidden("Forbidden")
    ensures r.Success? ==> r.value == DbExecutionLogs.CreateExecutionLogParams(body.executionID.value,
      body.logLevel.value, body.message.value, body.contextJSON)
  {
    if !Truthy(body.executionID) || !Truthy(body.logLevel) || !Truthy(body.message) then
      Failure(BadRequest(RequiredMessage))
    else if !IsValidLogLevel(body.logLevel.value) then Failure(BadRequest(LevelMessage))
    else if body.executionID.value !in executions then Failure(NotFound("Execution not found"))
    else if executions[body.executionID.value].userID != userID then Failure(Forbidden("Forbidden"))
    else Success(DbExecutionLogs.CreateExecutionLogParams(body.executionID.value, body.logLevel.value,
      body.message.value, body.contextJSON))
  }

  /** handlerCreateExecutionLog: 201 with the new log when every check
      passes, holding the body's execution, level, message and context and
      stamped now; nothing is written otherwise. */
  method HandlerCreateExecutionLog(table: DbExecutionLogs.ExecutionLogsTable, executions: Executions, newID: Id,
                                   userID: Id, body: CreateBody)
    returns (r: Result<Reply<ExecutionLog>, ApiError>)
    requires table.Valid() && newID !in table.rows
    modifies table
    ensures table.Valid()
    ensures var checked := CreateParams(executions, userID, body);
      && (r.Failure? <==> checked.Failure?)
      && (r.Failure? ==> r.error == checked.error && table.rows == old(table.rows))
      && (r.Success? ==>
        r.value.status == 201 && table.rows == old(table.rows)[newID := r.value.body]
        && r.value.body == DbExecutionLogs.ExecutionLog(newID, old(table.clock), body.executionID.value,
          body.logLevel.value, body.message.value, body.contextJSON))
  {
    var checked := CreateParams(executions, userID, body);
    if checked.Failure? {
      return Failure(checked.error);
    }
    var log := table.CreateExecutionLog(newID, checked.value);
    r := Success(Reply(201, log));
  }

  /** handlerListExecutionLogs: a non-empty `executionID` wins; otherwise a
      non-empty `logLevel`, which must be valid; with neither it is a 400. */
  function HandlerListExecutionLogs(table: DbExecutionLogs.ExecutionLogsTable, executions: Executions, userID: Id,
                                    executionID: Option<string>, logLevel: Option<string>)
    : (r: Result<Reply<seq<ExecutionLog>>, ApiError>)
    reads table
    requires table.Valid()
    ensures Truthy(executionID) ==>
      r == Success(Reply(200, table.ListByExecution(executions, executionID.value, userID)))
    ensures !Truthy(executionID) && !Truthy(logLevel) ==> r == Failure(BadRequest(QueryRequiredMessage))
    ensures !Truthy(executionID) && Truthy(logLevel) ==>
      r == if IsValidLogLevel(logLevel.value) then Success(Reply(200, table.ListByLevel(executions, userID, logLevel.value)))
        else Failure(BadRequest(LevelMessage))
    ensures r.Success? ==> forall i :: 0 <= i < |r.value.body| ==>
      DbExecutionLogs.OwnedBy(executions, r.value.body[i].executionID, userID)
  {
    if Truthy(executionID) then Success(Reply(200, table.ListByExecution(executions, executionID.value, userID)))
    else if Truthy(logLevel) then
      if !IsValidLogLevel(logLevel.value) then Failure(BadRequest(LevelMessage))
      else Success(Reply(200, table.ListByLevel(executions, userID, logLevel.value)))
    else Failure(BadRequest(QueryRequiredMessage))
  }

  /** The log the path names, when it is the user's: an empty id is a 400,
      an unknown log a 404, and a log of someone else's execution a 403, in
      that order. */
  function OwnedLog(table: DbExecutionLogs.ExecutionLogsTable, executions: Executions, userID: Id, pathname: string)
    : (r: Result<Id, ApiError>)
    reads table
    ensures PathID(pathname, IDRequiredMessage).Failure? ==> r == Failure(BadRequest(IDRequiredMessage))
    ensures PathID(pathname, IDRequiredMessage).Success? && LastSegment(pathname) !in table.rows ==>
      r == Failure(NotFound("Execution Log not found"))
    ensures r.Success? <==>
      PathID(pathname, IDRequiredMessage).Success? && table.VerifyOwnership(executions, LastSegment(pathname), userID)
    ensures r.Success? ==> r.value == LastSegment(pathname)
    ensures r.Failure? ==> r.error.BadRequest? || r.error.NotFound? || r.error == Forbidden("Forbidden")
  {
    var id :- PathID(pathname, IDRequiredMessage);
    if table.Get(id).None? then Failure(NotFound("Execution Log not found"))
    else if !table.VerifyOwnership(executions, id, userID) then Failure(Forbidden("Forbidden"))
    else Success(id)
  }

  /** handlerGetExecutionLogByID: 200 with the user's log. */
  function HandlerGetExecutionLogByID(table: DbExecutionLogs.ExecutionLogsTable, executions: Executions, userID: Id,
                                      pathname: string)
    : (r: Result<Reply<ExecutionLog>, ApiError>)
    reads table
    ensures r.Failure? <==> OwnedLog(table, executions, userID, pathname).Failure?
    ensures r.Failure? ==> r.error == OwnedLog(table, executions, userID, pathname).error
    ensures r.Success? ==> r.value == Reply(200, table.rows[LastSegment(pathname)])
  {
    var id :- OwnedLog(table, executions, userID, pathname);
    Success(Reply(200, table.rows[id]))
  }

  /** The log a create answered with is what a get of `…/<id>` then
      answers, while its execution is the user's, as the create checked. */
  lemma GetCreated(table: DbExecutionLogs.ExecutionLogsTable, executions: Executions, userID: Id, prefix: string,
                   l: ExecutionLog)
    requires l.id in table.rows && table.rows[l.id] == l
    requires DbExecutionLogs.OwnedBy(executions, l.executionID, userID) && l.id != "" && '/' !in l.id
    ensures HandlerGetExecutionLogByID(table, executions, userID, prefix + "/" + l.id) == Success(Reply(200, l))
  {
    LastSegmentOf(prefix, l.id);
  }

  /** handlerDeleteExecutionLog: after the same checks the log goes and the
      answer is 204; the delete is scoped as the checks were, so the 500
      for a delete that removed nothing never happens. */
  method HandlerDeleteExecutionLog(table: DbExecutionLogs.ExecutionLogsTable, executions: Executions, userID: Id,
                                   pathname: string)
    returns (r: Result<Reply<()>, ApiError>)
    requires table.Valid()
    modifies table
    ensures table.Valid()
    ensures var checked := old(OwnedLog(table, executions, userID, pathname));
      && (r.Failure? <==> checked.Failure?)
      && (r.Failure? ==> r.error == checked.error && table.rows == old(table.rows))
      && (r.Success? ==> r.value.status == 204 && table.rows == old(table.rows) - {checked.value})
    ensures r != Failure(InternalServer(DeleteFailedMessage))
  {
    var checked := OwnedLog(table, executions, userID, pathname);
    if checked.Failure? {
      return Failure(checked.error);
    }
    var deleted := table.DeleteExecutionLog(executions, checked.value, userID);
    r := if deleted then Success(Reply(204, ())) else Failure(InternalServer(DeleteFailedMessage));
  }

  /** handlerDeleteExecutionLogsByExecutionID: a missing `executionID` is a
      400; otherwise the execution's logs go when it is the user's, every
      other log stays as it was, and the answer is 200 with how many went. */
  method HandlerDeleteByExecutionID(table: DbExecutionLogs.ExecutionLogsTable, executions: Executions, userID: Id,
                                    executionID: Option<string>)
    returns (r: Result<Reply<nat>, ApiError>)
    requires table.Valid()
    modifies table
    ensures table.Valid()
    ensures !Truthy(executionID) ==> r == Failure(BadRequest(ExecutionQueryRequiredMessage)) && table.rows == old(table.rows)
    ensures Truthy(executionID) ==>
      r.Success? && r.value.status == 200
      && r.value.body == |DbExecutionLogs.LogsOf(old(table.rows), executions, executionID.value, userID)|
    ensures Truthy(executionID) ==> var owned := DbExecutionLogs.OwnedBy(executions, executionID.value, userID);
      && (forall k :: k in table.rows <==>
            k in old(table.rows) && !(owned && old(table.rows)[k].executionID == executionID.value))
      && (forall k :: k in table.rows ==> table.rows[k] == old(table.rows)[k])
  {
    if !Truthy(executionID) {
      return Failure(BadRequest(ExecutionQueryRequiredMessage));
    }
    var deleted := table.DeleteByExecution(executions, executionID.value, userID);
    r := Success(Reply(200, deleted));
  }
}
