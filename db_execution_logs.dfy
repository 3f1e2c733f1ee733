/** The execution_logs table of src/db/execution-logs.ts. A log belongs to a
    user through its execution: the queries join on the executions table,
    which each operation here takes as the rows of that table. */
module DbExecutionLogs {

  import opened Wrappers
  import opened Store
  import DbExecutions

  datatype ExecutionLog = ExecutionLog(
    id: Id,
    createdAt: nat,
    executionID: Id,
    logLevel: string,
    message: string,
    contextJSON: Option<string>)

  function CreatedAt(l: ExecutionLog): nat { l.createdAt }

  /** `contextJSON` is `None` when undefined or null. */
  datatype CreateExecutionLogParams = CreateExecutionLogParams(
    executionID: Id,
    logLevel: string,
    message: string,
    contextJSON: Option<string>)

  type Executions = map<Id, DbExecutions.Execution>

  /** The join `execution_id = e.id AND e.user_id = ?`: the execution is
      there and is the user's. */
  predicate OwnedBy(executions: Executions, executionID: Id, userID: Id) {
    executionID in executions && executions[executionID].userID == userID
  }

  /** Each row sits under its own id and was written before `clock`. */
  ghost predicate Wellformed(order: seq<Id>, rows: map<Id, ExecutionLog>, clock: nat) {
    Chronicle(order, rows, CreatedAt)
    && forall id :: id in rows ==> rows[id].id == id && rows[id].createdAt < clock
  }

  lemma WellformedInsert(order: seq<Id>, rows: map<Id, ExecutionLog>, clock: nat, row: ExecutionLog)
    requires Wellformed(order, rows, clock)
    requires row.id !in rows && row.createdAt == clock
    ensures Wellformed(order + [row.id], rows[row.id := row], clock + 1)
  {
    ChronicleInsert(order, rows, CreatedAt, row.id, row);
  }

  /** The ids of the logs of one execution of the user. */
  function LogsOf(rows: map<Id, ExecutionLog>, executions: Executions, executionID: Id, userID: Id): set<Id> {
    set id | id in rows && rows[id].executionID == executionID && OwnedBy(executions, executionID, userID)
  }

  lemma DroppedLogs(rows: map<Id, ExecutionLog>, executions: Executions, executionID: Id, userID: Id,
                    keep: ExecutionLog -> bool)
    requires forall l :: keep(l) == !(l.executionID == executionID && OwnedBy(executions, l.executionID, userID))
    ensures KeysFailing(rows, keep) == LogsOf(rows, executions, executionID, userID)
  {
  }

  class ExecutionLogsTable {
    var rows: map<Id, ExecutionLog>
    var order: seq<Id>
    var clock: nat

    ghost predicate Valid()
      reads this
    {
      Wellformed(order, rows, clock)
    }

    constructor ()
      ensures Valid() && rows == map[] && clock == 0
    {
      rows, order, clock := map[], [], 0;
    }

    /** getExecutionLogByID. */
    function Get(id: Id): (r: Option<ExecutionLog>)
      reads this
      ensures r.Some? <==> id in rows
      ensures r.Some? ==> r.value == rows[id]
    {
      if id in rows then Some(rows[id]) else None
    }

    /** createExecutionLog: one new row under `newID` (the value randomUUID
        gave), with no context unless one is given and the current time as
        its creation stamp. */
    method CreateExecutionLog(newID: Id, params: CreateExecutionLogParams) returns (l: ExecutionLog)
      requires Valid() && newID !in rows
      modifies this
      ensures Valid()
      ensures l == ExecutionLog(newID, old(clock), params.executionID, params.logLevel, params.message,
        params.contextJSON)
      ensures rows == old(rows)[newID := l]
      ensures clock == old(clock) + 1
    {
      l := ExecutionLog(newID, clock, params.executionID, params.logLevel, params.message, params.contextJSON);
      WellformedInsert(order, rows, clock, l);
      rows := rows[newID := l];
      order := order + [newID];
      clock := clock + 1;
    }

    /** listExecutionLogsByExecutionID: the logs of one execution, oldest
        first, and none unless the execution is the user's. */
    function ListByExecution(executions: Executions, executionID: Id, userID: Id): (r: seq<ExecutionLog>)
      reads this
      requires Valid()
      ensures forall i :: 0 <= i < |r| ==>
        r[i].executionID == executionID && OwnedBy(executions, executionID, userID) && r[i] in rows.Values
      ensures forall id :: (id in rows && rows[id].executionID == executionID && OwnedBy(executions, executionID, userID)
        ==> rows[id] in r)
      ensures forall i, j :: 0 <= i < j < |r| ==> r[i].createdAt < r[j].createdAt
    {
      var keep := (l: ExecutionLog) => l.executionID == executionID && OwnedBy(executions, l.executionID, userID);
      OldestListed(order, rows, keep, CreatedAt);
      Oldest(order, rows, keep)
    }

    /** listExecutionLogsByLevel: the user's logs of one level across all
        their executions, newest first. */
    function ListByLevel(executions: Executions, userID: Id, logLevel: string): (r: seq<ExecutionLog>)
      reads this
      requires Valid()
      ensures forall i :: 0 <= i < |r| ==>
        OwnedBy(executions, r[i].executionID, userID) && r[i].logLevel == logLevel && r[i] in rows.Values
      ensures forall id :: (id in rows && OwnedBy(executions, rows[id].executionID, userID) && rows[id].logLevel == logLevel
        ==> rows[id] in r)
      ensures forall i, j :: 0 <= i < j < |r| ==> r[i].createdAt > r[j].createdAt
    {
      var keep := (l: ExecutionLog) => OwnedBy(executions, l.executionID, userID) && l.logLevel == logLevel;
      NewestListed(order, rows, keep, CreatedAt);
      Newest(order, rows, keep)
    }

    /** verifyExecutionLogOwnership: whether the log exists and its
        execution is the user's. */
    function VerifyOwnership(executions: Executions, logID: Id, userID: Id): (owned: bool)
      reads this
      ensures owned ==> logID in rows
    {
      logID in rows && OwnedBy(executions, rows[logID].executionID, userID)
    }

    /** The ownership check agrees with the listing: a log is the user's
        exactly when it is listed among the logs of its own execution. */
    lemma OwnershipListed(executions: Executions, logID: Id, userID: Id)
      requires Valid()
      ensures VerifyOwnership(executions, logID, userID) <==>
        logID in rows && rows[logID] in ListByExecution(executions, rows[logID].executionID, userID)
    {
      if logID in rows {
        var l := rows[logID];
        var r := ListByExecution(executions, l.executionID, userID);
        if l in r {
          var i :| 0 <= i < |r| && r[i] == l;
        }
      }
    }

    /** deleteExecutionLog: removes the log only when it has this id AND its
        execution is the user's, and says whether a row went. */
    method DeleteExecutionLog(executions: Executions, id: Id, userID: Id) returns (deleted: bool)
      requires Valid()
      modifies this
      ensures Valid()
      ensures deleted <==> old(VerifyOwnership(executions, id, userID))
      ensures forall k :: k in rows <==> k in old(rows) && !(k == id && OwnedBy(executions, old(rows)[k].executionID, userID))
      ensures forall k :: k in rows ==> rows[k] == old(rows)[k]
    {
      var keep := (l: ExecutionLog) => !(l.id == id && OwnedBy(executions, l.executionID, userID));
      var removed;
      order, rows, removed := DeleteWhere(order, rows, keep, CreatedAt);
      deleted := removed > 0;
    }

    /** deleteExecutionLogsByExecutionID: removes every log of the execution
        when the execution is the user's, and none otherwise; says how many
        went. */
    method DeleteByExecution(executions: Executions, executionID: Id, userID: Id) returns (deleted: nat)
      requires Valid()
      modifies this
      ensures Valid()
      ensures deleted == |LogsOf(old(rows), executions, executionID, userID)|
      ensures !OwnedBy(executions, executionID, userID) ==> deleted == 0 && rows == old(rows)
      ensures forall k :: k in rows <==>
        k in old(rows) && !(old(rows)[k].executionID == executionID && OwnedBy(executions, executionID, userID))
      ensures forall k :: k in rows ==> rows[k] == old(rows)[k]
    {
      var keep := (l: ExecutionLog) => !(l.executionID == executionID && OwnedBy(executions, l.executionID, userID));
      DroppedLogs(rows, executions, executionID, userID, keep);
      order, rows, deleted := DeleteWhere(order, rows, keep, CreatedAt);
    }
  }
}
