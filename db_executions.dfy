/** The executions table of src/db/executions.ts. A row holds its dates as
    the ISO text `toISOString` wrote; CURRENT_TIMESTAMP is the table's clock. */
module DbExecutions {

  import opened Wrappers
  import opened JsString
  import opened Store
  import opened JsDate

  datatype Execution = Execution(
    id: Id,
    createdAt: nat,
    updatedAt: nat,
    robotInstanceID: Id,
    userID: Id,
    status: string,
    startedAt: Option<string>,
    finishedAt: Option<string>,
    errorMessage: Option<string>,
    errorStack: Option<string>,
    executionType: string,
    scheduleID: Option<Id>,
    outputDataJson: Option<string>,
    outputFilePath: Option<string>,
    logsFilePath: Option<string>,
    retryCount: int,
    durationSeconds: Option<int>)

  function CreatedAt(e: Execution): nat { e.createdAt }

  datatype CreateExecutionParams = CreateExecutionParams(
    robotInstanceID: Id,
    userID: Id,
    executionType: string,
    scheduleID: Option<Id>,
    status: Option<string>)

  /** Each field `Keep` when the parameter is undefined; the two dates are
      Date objects, which may be invalid. */
  datatype UpdateExecutionParams = UpdateExecutionParams(
    status: Patch<string>,
    startedAt: Patch<Date>,
    finishedAt: Patch<Date>,
    errorMessage: Patch<Option<string>>,
    errorStack: Patch<Option<string>>,
    outputDataJson: Patch<Option<string>>,
    outputFilePath: Patch<Option<string>>,
    logsFilePath: Patch<Option<string>>,
    retryCount: Patch<int>,
    durationSeconds: Patch<Option<int>>)

  const NoChange := UpdateExecutionParams(Keep, Keep, Keep, Keep, Keep, Keep, Keep, Keep, Keep, Keep)

  /** Every given date is a time, so `toISOString` does not throw. */
  predicate DatesWritable(p: UpdateExecutionParams) {
    (p.startedAt.Put? ==> p.startedAt.value.Time?) && (p.finishedAt.Put? ==> p.finishedAt.value.Time?)
  }

  /** One `column = ?` entry of the SET list, with the value bound to it. */
  datatype Column =
    | Status(status: string)
    | StartedAt(startedAt: string)
    | FinishedAt(finishedAt: string)
    | ErrorMessage(errorMessage: Option<string>)
    | ErrorStack(errorStack: Option<string>)
    | OutputDataJson(outputDataJson: Option<string>)
    | OutputFilePath(outputFilePath: Option<string>)
    | LogsFilePath(logsFilePath: Option<string>)
    | RetryCount(retryCount: int)
    | DurationSeconds(durationSeconds: Option<int>)

  function SetColumn(e: Execution, c: Column): Execution {
    match c
    case Status(v) => e.(status := v)
    case StartedAt(v) => e.(startedAt := Some(v))
    case FinishedAt(v) => e.(finishedAt := Some(v))
    case ErrorMessage(v) => e.(errorMessage := v)
    case ErrorStack(v) => e.(errorStack := v)
    case OutputDataJson(v) => e.(outputDataJson := v)
    case OutputFilePath(v) => e.(outputFilePath := v)
    case LogsFilePath(v) => e.(logsFilePath := v)
    case RetryCount(v) => e.(retryCount := v)
    case DurationSeconds(v) => e.(durationSeconds := v)
  }

  /** What `SET c1 = ?, c2 = ?, …` does to a row, left to right. */
  function Assign(e: Execution, updates: seq<Column>): Execution {
    if updates == [] then e
    else SetColumn(Assign(e, updates[..|updates| - 1]), updates[|updates| - 1])
  }

  lemma AssignPush(e: Execution, updates: seq<Column>, c: Column)
    ensures Assign(e, updates + [c]) == SetColumn(Assign(e, updates), c)
  {
    assert (updates + [c])[..|updates|] == updates;
  }

  /** The reference meaning of a partial update: the row with each given
      field replaced and every other field as it was. */
  function Merge(e: Execution, p: UpdateExecutionParams): Execution
    requires DatesWritable(p)
  {
    e.(status := p.status.Or(e.status),
       startedAt := if p.startedAt.Put? then Some(p.startedAt.value.iso) else e.startedAt,
       finishedAt := if p.finishedAt.Put? then Some(p.finishedAt.value.iso) else e.finishedAt,
       errorMessage := p.errorMessage.Or(e.errorMessage),
       errorStack := p.errorStack.Or(e.errorStack),
       outputDataJson := p.outputDataJson.Or(e.outputDataJson),
       outputFilePath := p.outputFilePath.Or(e.outputFilePath),
       logsFilePath := p.logsFilePath.Or(e.logsFilePath),
       retryCount := p.retryCount.Or(e.retryCount),
       durationSeconds := p.durationSeconds.Or(e.durationSeconds))
  }

  /** The same update twice is the update once, and no fields is no change. */
  lemma MergeIdempotent(e: Execution, p: UpdateExecutionParams)
    requires DatesWritable(p)
    ensures Merge(Merge(e, p), p) == Merge(e, p)
    ensures Merge(e, NoChange) == e
  {
  }

  /** The parameter an entry sets; a date entry stands for the time its
      text renders. */
  function Mark(done: UpdateExecutionParams, c: Column): UpdateExecutionParams {
    match c
    case Status(v) => done.(status := Put(v))
    case StartedAt(v) => done.(startedAt := Put(Time(v)))
    case FinishedAt(v) => done.(finishedAt := Put(Time(v)))
    case ErrorMessage(v) => done.(errorMessage := Put(v))
    case ErrorStack(v) => done.(errorStack := Put(v))
    case OutputDataJson(v) => done.(outputDataJson := Put(v))
    case OutputFilePath(v) => done.(outputFilePath := Put(v))
    case LogsFilePath(v) => done.(logsFilePath := Put(v))
    case RetryCount(v) => done.(retryCount := Put(v))
    case DurationSeconds(v) => done.(durationSeconds := Put(v))
  }

  /** The parameters that the entries of a SET list stand for; their dates
      are times, since an entry holds a rendered date. */
  function Marks(updates: seq<Column>): (done: UpdateExecutionParams)
    ensures DatesWritable(done)
  {
    if updates == [] then NoChange
    else Mark(Marks(updates[..|updates| - 1]), updates[|updates| - 1])
  }

  lemma MarksPush(updates: seq<Column>, c: Column)
    ensures Marks(updates + [c]) == Mark(Marks(updates), c)
  {
    assert (updates + [c])[..|updates|] == updates;
  }

  /** Every entry defines a parameter, so only the empty list stands for
      no change. */
  lemma MarksEmpty(updates: seq<Column>)
    ensures updates == [] <==> Marks(updates) == NoChange
  {
  }

  /** Setting one more column merges one more parameter. */
  lemma MergeMark(e: Execution, done: UpdateExecutionParams, c: Column)
    requires DatesWritable(done)
    ensures SetColumn(Merge(e, done), c) == Merge(e, Mark(done, c))
  {
    match c
    case Status(_) =>
    case StartedAt(_) =>
    case FinishedAt(_) =>
    case ErrorMessage(_) =>
    case ErrorStack(_) =>
    case OutputDataJson(_) =>
    case OutputFilePath(_) =>
    case LogsFilePath(_) =>
    case RetryCount(_) =>
    case DurationSeconds(_) =>
  }

  /** Running a SET list on a row merges the parameters it stands for. */
  lemma {:induction false} AssignMerges(e: Execution, updates: seq<Column>)
    ensures Assign(e, updates) == Merge(e, Marks(updates))
    decreases |updates|
  {
    if updates != [] {
      AssignMerges(e, updates[..|updates| - 1]);
      MergeMark(e, Marks(updates[..|updates| - 1]), updates[|updates| - 1]);
    }
  }

  /** The SET list of updateExecution: one entry per defined parameter, in
      the order of the source, or the RangeError of a given Invalid Date. The
      list stands for exactly the given parameters, so the UPDATE merges the
      defined fields into any row and an empty list means no parameter was
      given. */
  method SetClause(p: UpdateExecutionParams) returns (r: Result<seq<Column>, RangeError>)
    ensures r.Failure? <==> !DatesWritable(p)
    ensures r.Failure? ==> r.error == RangeError(InvalidTimeValue)
    ensures r.Success? ==> Marks(r.value) == p && (r.value == [] <==> p == NoChange)
    ensures r.Success? ==> forall e :: Assign(e, r.value) == Merge(e, p)
  {
    var lifecycle := PushLifecycle(p);
    if lifecycle.Failure? {
      return Failure(lifecycle.error);
    }
    var updates := PushResults(p, lifecycle.value);
    MarksEmpty(updates);
    forall e ensures Assign(e, updates) == Merge(e, p) {
      AssignMerges(e, updates);
    }
    r := Success(updates);
  }

  /** The lifecycle fields of `p` alone. */
  function Lifecycle(p: UpdateExecutionParams): UpdateExecutionParams {
    NoChange.(status := p.status, startedAt := p.startedAt, finishedAt := p.finishedAt,
      errorMessage := p.errorMessage, errorStack := p.errorStack)
  }

  /** The first five pushes of updateExecution (status to error stack); the
      two dates are rendered as they are pushed, so an Invalid Date throws
      there. */
  method PushLifecycle(p: UpdateExecutionParams) returns (r: Result<seq<Column>, RangeError>)
    ensures r.Failure? <==> !DatesWritable(p)
    ensures r.Failure? ==> r.error == RangeError(InvalidTimeValue)
    ensures r.Success? ==> Marks(r.value) == Lifecycle(p)
  {
    var updates := [];
    if p.status.Put? {
      var c := Status(p.status.value);
      MarksPush(updates, c);
      updates := updates + [c];
    }
    if p.startedAt.Put? {
      var iso :- ToISOString(p.startedAt.value);
      var c := StartedAt(iso);
      MarksPush(updates, c);
      updates := updates + [c];
    }
    if p.finishedAt.Put? {
      var iso :- ToISOString(p.finishedAt.value);
      var c := FinishedAt(iso);
      MarksPush(updates, c);
      updates := updates + [c];
    }
    if p.errorMessage.Put? {
      var c := ErrorMessage(p.errorMessage.value);
      MarksPush(updates, c);
      updates := updates + [c];
    }
    if p.errorStack.Put? {
      var c := ErrorStack(p.errorStack.value);
      MarksPush(updates, c);
      updates := updates + [c];
    }
    r := Success(updates);
  }

  /** The last five pushes (output to duration), appended to the list so far. */
  method PushResults(p: UpdateExecutionParams, before: seq<Column>) returns (updates: seq<Column>)
    requires Marks(before) == Lifecycle(p)
    ensures Marks(updates) == p
  {
    updates := before;
    if p.outputDataJson.Put? {
      var c := OutputDataJson(p.outputDataJson.value);
      MarksPush(updates, c);
      updates := updates + [c];
    }
    if p.outputFilePath.Put? {
      var c := OutputFilePath(p.outputFilePath.value);
      MarksPush(updates, c);
      updates := updates + [c];
    }
    if p.logsFilePath.Put? {
      var c := LogsFilePath(p.logsFilePath.value);
      MarksPush(updates, c);
      updates := updates + [c];
    }
    if p.retryCount.Put? {
      var c := RetryCount(p.retryCount.value);
      MarksPush(updates, c);
      updates := updates + [c];
    }
    if p.durationSeconds.Put? {
      var c := DurationSeconds(p.durationSeconds.value);
      MarksPush(updates, c);
      updates := updates + [c];
    }
  }

  /** Each row sits under its own id and was written before `clock`. */
  ghost predicate Wellformed(order: seq<Id>, rows: map<Id, Execution>, clock: nat) {
    Chronicle(order, rows, CreatedAt)
    && forall id :: id in rows ==> rows[id].id == id && rows[id].createdAt < clock && rows[id].updatedAt < clock
  }

  /** A new row stamped with the clock keeps the table well formed. */
  lemma WellformedInsert(order: seq<Id>, rows: map<Id, Execution>, clock: nat, row: Execution)
    requires Wellformed(order, rows, clock)
    requires row.id !in rows && row.createdAt == clock && row.updatedAt == clock
    ensures Wellformed(order + [row.id], rows[row.id := row], clock + 1)
  {
    ChronicleInsert(order, rows, CreatedAt, row.id, row);
  }

  /** Rewriting a row in place with a fresh updated_at keeps the table well
      formed. */
  lemma WellformedRewrite(order: seq<Id>, rows: map<Id, Execution>, clock: nat, row: Execution)
    requires Wellformed(order, rows, clock)
    requires row.id in rows && row.createdAt == rows[row.id].createdAt && row.updatedAt == clock
    ensures Wellformed(order, rows[row.id := row], clock + 1)
  {
    ChronicleRestamp(order, rows, rows[row.id := row], CreatedAt);
  }

  class ExecutionsTable {
    var rows: map<Id, Execution>
    var order: seq<Id>
    var clock: nat

    ghost predicate Valid()
      reads this
    {
      Wellformed(order, rows, clock)
    }

    constructor ()
      ensures Valid() && rows == map[] && clock == 0
    {
      rows, order, clock := map[], [], 0;
    }

    /** getExecutionByID. */
    function Get(id: Id): (r: Option<Execution>)
      reads this
      ensures r.Some? <==> id in rows
      ensures r.Some? ==> r.value == rows[id]
    {
      if id in rows then Some(rows[id]) else None
    }

    /** createExecution: one new row under `newID` (the value randomUUID
        gave) with status defaulting to 'pending', no schedule unless one is
        given, retry count 0 and both stamps the current time; the row is
        read back by its id. */
    method CreateExecution(newID: Id, params: CreateExecutionParams) returns (e: Execution)
      requires Valid() && newID !in rows
      modifies this
      ensures Valid()
      ensures e == Execution(newID, old(clock), old(clock), params.robotInstanceID, params.userID,
        OrElse(params.status, "pending"), None, None, None, None, params.executionType,
        OrNull(params.scheduleID), None, None, None, 0, None)
      ensures rows == old(rows)[newID := e]
      ensures clock == old(clock) + 1
    {
      e := Execution(newID, clock, clock, params.robotInstanceID, params.userID,
        OrElse(params.status, "pending"), None, None, None, None, params.executionType,
        OrNull(params.scheduleID), None, None, None, 0, None);
      WellformedInsert(order, rows, clock, e);
      rows := rows[newID := e];
      order := order + [newID];
      clock := clock + 1;
    }

    /** listExecutionsByUserID: the user's rows, newest first. */
    function ListByUser(userID: Id): (r: seq<Execution>)
      reads this
      requires Valid()
      ensures forall i :: 0 <= i < |r| ==> r[i].userID == userID && r[i] in rows.Values
      ensures forall id :: id in rows && rows[id].userID == userID ==> rows[id] in r
      ensures forall i, j :: 0 <= i < j < |r| ==> r[i].createdAt > r[j].createdAt
    {
      var keep := (e: Execution) => e.userID == userID;
      NewestListed(order, rows, keep, CreatedAt);
      Newest(order, rows, keep)
    }

    /** listExecutionsByRobotInstanceID: the user's rows of one robot
        instance, newest first. */
    function ListByRobotInstance(userID: Id, robotInstanceID: Id): (r: seq<Execution>)
      reads this
      requires Valid()
      ensures forall i :: 0 <= i < |r| ==>
        r[i].userID == userID && r[i].robotInstanceID == robotInstanceID && r[i] in rows.Values
      ensures forall id :: (id in rows && rows[id].userID == userID && rows[id].robotInstanceID == robotInstanceID
        ==> rows[id] in r)
      ensures forall i, j :: 0 <= i < j < |r| ==> r[i].createdAt > r[j].createdAt
    {
      var keep := (e: Execution) => e.userID == userID && e.robotInstanceID == robotInstanceID;
      NewestListed(order, rows, keep, CreatedAt);
      Newest(order, rows, keep)
    }

    /** listExecutionsByStatus: the user's rows in one status, newest first. */
    function ListByStatus(userID: Id, status: string): (r: seq<Execution>)
      reads this
      requires Valid()
      ensures forall i :: 0 <= i < |r| ==> r[i].userID == userID && r[i].status == status && r[i] in rows.Values
      ensures forall id :: id in rows && rows[id].userID == userID && rows[id].status == status ==> rows[id] in r
      ensures forall i, j :: 0 <= i < j < |r| ==> r[i].createdAt > r[j].createdAt
    {
      var keep := (e: Execution) => e.userID == userID && e.status == status;
      NewestListed(order, rows, keep, CreatedAt);
      Newest(order, rows, keep)
    }

    /** updateExecution: a given Invalid Date throws a RangeError while the
        SET list is built, before anything is written; with no defined field
        nothing is written; otherwise the row with this id AND this user gets
        the defined fields and a new updated_at, and any other row is left
        alone. Unless it throws, the result is the row read back by id alone. */
    method UpdateExecution(id: Id, userID: Id, params: UpdateExecutionParams)
      returns (r: Result<Option<Execution>, RangeError>)
      requires Valid()
      modifies this
      ensures Valid()
      ensures r.Failure? <==> !DatesWritable(params)
      ensures r.Failure? ==> r.error == RangeError(InvalidTimeValue) && rows == old(rows) && clock == old(clock)
      ensures r.Success? && params == NoChange ==> rows == old(rows) && clock == old(clock)
      ensures r.Success? && params != NoChange && id in old(rows) && old(rows)[id].userID == userID ==>
        rows == old(rows)[id := Merge(old(rows)[id], params).(updatedAt := old(clock))]
      ensures r.Success? && params != NoChange && !(id in old(rows) && old(rows)[id].userID == userID) ==>
        rows == old(rows)
      ensures r.Success? ==> r.value == Get(id)
    {
      var clause := SetClause(params);
      if clause.Failure? {
        return Failure(clause.error);
      }
      var updates := clause.value;
      if |updates| == 0 {
        r := Success(Get(id));
        return;
      }
      if id in rows && rows[id].userID == userID {
        var updated := Assign(rows[id], updates).(updatedAt := clock);
        WellformedRewrite(order, rows, clock, updated);
        rows := rows[id := updated];
      }
      clock := clock + 1;
      r := Success(Get(id));
    }

    /** deleteExecution: removes the row only when it has this id AND this
        user, and says whether a row went. */
    method DeleteExecution(userID: Id, id: Id) returns (deleted: bool)
      requires Valid()
      modifies this
      ensures Valid()
      ensures deleted <==> id in old(rows) && old(rows)[id].userID == userID
      ensures forall k :: k in rows <==> k in old(rows) && !(k == id && old(rows)[k].userID == userID)
      ensures forall k :: k in rows ==> rows[k] == old(rows)[k]
    {
      var keep := (e: Execution) => !(e.userID == userID && e.id == id);
      var removed;
      order, rows, removed := DeleteWhere(order, rows, keep, CreatedAt);
      deleted := removed > 0;
    }
  }
}
