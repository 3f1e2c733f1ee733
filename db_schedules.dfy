/** The schedules table of src/db/schedules.ts. `is_active` is an INTEGER
    column read back with `!!`; a row holds its dates as the ISO text
    `toISOString` wrote. */
module DbSchedules {

  import opened Wrappers
  import opened Store
  import opened JsDate

  datatype Schedule = Schedule(
    id: Id,
    createdAt: nat,
    updatedAt: nat,
    robotInstanceID: Id,
    userID: Id,
    scheduleName: string,
    cronExpression: string,
    timezone: string,
    isActive: bool,
    lastExecutionAt: Option<string>,
    nextExecutionAt: Option<string>,
    description: Option<string>,
    maxRetries: int,
    retryDelayMinutes: int)

  function CreatedAt(s: Schedule): nat { s.createdAt }

  /** `None` for an optional parameter that is undefined; for the two dates
      also for null, since both are written as NULL. A given date is a Date
      object, which may be invalid. */
  datatype CreateScheduleParams = CreateScheduleParams(
    robotInstanceID: Id,
    userID: Id,
    scheduleName: string,
    cronExpression: string,
    timezone: Option<string>,
    isActive: Option<bool>,
    lastExecutionAt: Option<Date>,
    nextExecutionAt: Option<Date>,
    description: Option<string>,
    maxRetries: Option<int>,
    retryDelayMinutes: Option<int>)

  const DefaultTimezone := "America/Sao_Paulo"
  const DefaultMaxRetries := 3
  const DefaultRetryDelayMinutes := 5

  /** Each field `Keep` when the parameter is undefined. */
  datatype UpdateScheduleParams = UpdateScheduleParams(
    scheduleName: Patch<string>,
    cronExpression: Patch<string>,
    timezone: Patch<string>,
    isActive: Patch<bool>,
    lastExecutionAt: Patch<Option<Date>>,
    nextExecutionAt: Patch<Option<Date>>,
    description: Patch<Option<string>>,
    maxRetries: Patch<int>,
    retryDelayMinutes: Patch<int>)

  const NoChange := UpdateScheduleParams(Keep, Keep, Keep, Keep, Keep, Keep, Keep, Keep, Keep)

  /** Every given date is null or a time, so `toISOString` does not throw. */
  predicate DatesWritable(p: UpdateScheduleParams) {
    (p.lastExecutionAt.Put? ==> Writable(p.lastExecutionAt.value))
    && (p.nextExecutionAt.Put? ==> Writable(p.nextExecutionAt.value))
  }

  /** One `column = ?` entry of the SET list, with the value bound to it;
      `is_active` binds the stored 1/0. */
  datatype Column =
    | ScheduleName(scheduleName: string)
    | CronExpression(cronExpression: string)
    | Timezone(timezone: string)
    | IsActive(stored: int)
    | LastExecutionAt(lastExecutionAt: Option<string>)
    | NextExecutionAt(nextExecutionAt: Option<string>)
    | Description(description: Option<string>)
    | MaxRetries(maxRetries: int)
    | RetryDelayMinutes(retryDelayMinutes: int)

  function SetColumn(s: Schedule, c: Column): Schedule {
    match c
    case ScheduleName(v) => s.(scheduleName := v)
    case CronExpression(v) => s.(cronExpression := v)
    case Timezone(v) => s.(timezone := v)
    case IsActive(n) => s.(isActive := LoadBool(n))
    case LastExecutionAt(v) => s.(lastExecutionAt := v)
    case NextExecutionAt(v) => s.(nextExecutionAt := v)
    case Description(v) => s.(description := v)
    case MaxRetries(v) => s.(maxRetries := v)
    case RetryDelayMinutes(v) => s.(retryDelayMinutes := v)
  }

  /** What `SET c1 = ?, c2 = ?, …` does to a row, left to right. */
  function Assign(s: Schedule, updates: seq<Column>): Schedule {
    if updates == [] then s
    else SetColumn(Assign(s, updates[..|updates| - 1]), updates[|updates| - 1])
  }

  /** The reference meaning of a partial update: the row with each given
      field replaced and every other field as it was. */
  function Merge(s: Schedule, p: UpdateScheduleParams): Schedule
    requires DatesWritable(p)
  {
    s.(scheduleName := p.scheduleName.Or(s.scheduleName),
       cronExpression := p.cronExpression.Or(s.cronExpression),
       timezone := p.timezone.Or(s.timezone),
       isActive := p.isActive.Or(s.isActive),
       lastExecutionAt := if p.lastExecutionAt.Put? then ToColumn(p.lastExecutionAt.value).value else s.lastExecutionAt,
       nextExecutionAt := if p.nextExecutionAt.Put? then ToColumn(p.nextExecutionAt.value).value else s.nextExecutionAt,
       description := p.description.Or(s.description),
       maxRetries := p.maxRetries.Or(s.maxRetries),
       retryDelayMinutes := p.retryDelayMinutes.Or(s.retryDelayMinutes))
  }

  /** The same update twice is the update once, and no fields is no change. */
  lemma MergeIdempotent(s: Schedule, p: UpdateScheduleParams)
    requires DatesWritable(p)
    ensures Merge(Merge(s, p), p) == Merge(s, p)
    ensures Merge(s, NoChange) == s
  {
  }

  /** The parameter an entry sets; a stored flag stands for the boolean it
      reads back as, and a stored date for the time its text renders. */
  function Mark(done: UpdateScheduleParams, c: Column): UpdateScheduleParams {
    match c
    case ScheduleName(v) => done.(scheduleName := Put(v))
    case CronExpression(v) => done.(cronExpression := Put(v))
    case Timezone(v) => done.(timezone := Put(v))
    case IsActive(n) => done.(isActive := Put(LoadBool(n)))
    case LastExecutionAt(v) => done.(lastExecutionAt := Put(FromColumn(v)))
    case NextExecutionAt(v) => done.(nextExecutionAt := Put(FromColumn(v)))
    case Description(v) => done.(description := Put(v))
    case MaxRetries(v) => done.(maxRetries := Put(v))
    case RetryDelayMinutes(v) => done.(retryDelayMinutes := Put(v))
  }

  /** The parameters that the entries of a SET list stand for; their dates
      can be written, since an entry holds a rendered date. */
  function Marks(updates: seq<Column>): (done: UpdateScheduleParams)
    ensures DatesWritable(done)
  {
    if updates == [] then NoChange
    else Mark(Marks(updates[..|updates| - 1]), updates[|updates| - 1])
  }

  lemma MarksPush(updates: seq<Column>, c: Column)
    ensures Marks(updates + [c]) == Mark(Marks(updates), c)
  {
    assert (updates + [c])[..|updates|] == updates;
  }

  /** Every entry defines a parameter, so only the empty list stands for
      no change. */
  lemma MarksEmpty(updates: seq<Column>)
    ensures updates == [] <==> Marks(updates) == NoChange
  {
  }

  /** Setting one more column merges one more parameter. */
  lemma MergeMark(s: Schedule, done: UpdateScheduleParams, c: Column)
    requires DatesWritable(done)
    ensures SetColumn(Merge(s, done), c) == Merge(s, Mark(done, c))
  {
    match c
    case ScheduleName(_) =>
    case CronExpression(_) =>
    case Timezone(_) =>
    case IsActive(_) =>
    case LastExecutionAt(_) =>
    case NextExecutionAt(_) =>
    case Description(_) =>
    case MaxRetries(_) =>
    case RetryDelayMinutes(_) =>
  }

  /** Running a SET list on a row merges the parameters it stands for. */
  lemma {:induction false} AssignMerges(s: Schedule, updates: seq<Column>)
    ensures Assign(s, updates) == Merge(s, Marks(updates))
    decreases |updates|
  {
    if updates != [] {
      AssignMerges(s, updates[..|updates| - 1]);
      MergeMark(s, Marks(updates[..|updates| - 1]), updates[|updates| - 1]);
    }
  }

  /** The SET list of updateSchedule: one entry per defined parameter, in
      the order of the source, or the RangeError of a given Invalid Date. The
      list stands for exactly the given parameters, so the UPDATE merges the
      defined fields into any row and an empty list means no parameter was
      given. */
  method SetClause(p: UpdateScheduleParams) returns (r: Result<seq<Column>, RangeError>)
    ensures r.Failure? <==> !DatesWritable(p)
    ensures r.Failure? ==> r.error == RangeError(InvalidTimeValue)
    ensures r.Success? ==> Marks(r.value) == p && (r.value == [] <==> p == NoChange)
    ensures r.Success? ==> forall s :: Assign(s, r.value) == Merge(s, p)
  {
    var updates := PushTrigger(p);
    var dated := PushDates(p, updates);
    if dated.Failure? {
      return Failure(dated.error);
    }
    updates := PushRetries(p, dated.value);
    MarksEmpty(updates);
    forall s ensures Assign(s, updates) == Merge(s, p) {
      AssignMerges(s, updates);
    }
    r := Success(updates);
  }

  /** The name, cron, time zone and activity fields of `p` alone. */
  function Trigger(p: UpdateScheduleParams): UpdateScheduleParams {
    NoChange.(scheduleName := p.scheduleName, cronExpression := p.cronExpression,
      timezone := p.timezone, isActive := p.isActive)
  }

  /** The first four pushes of updateSchedule (name to activity). */
  method PushTrigger(p: UpdateScheduleParams) returns (updates: seq<Column>)
    ensures Marks(updates) == Trigger(p)
  {
    updates := [];
    if p.scheduleName.Put? {
      var c := ScheduleName(p.scheduleName.value);
      MarksPush(updates, c);
      updates := updates + [c];
    }
    if p.cronExpression.Put? {
      var c := CronExpression(p.cronExpression.value);
      MarksPush(updates, c);
      updates := updates + [c];
    }
    if p.timezone.Put? {
      var c := Timezone(p.timezone.value);
      MarksPush(updates, c);
      updates := updates + [c];
    }
    if p.isActive.Put? {
      var c := IsActive(StoreBool(p.isActive.value));
      MarksPush(updates, c);
      updates := updates + [c];
    }
  }

  /** The fields of `p` up to the two execution dates. */
  function Dated(p: UpdateScheduleParams): UpdateScheduleParams {
    Trigger(p).(lastExecutionAt := p.lastExecutionAt, nextExecutionAt := p.nextExecutionAt)
  }

  /** The two date pushes, appended to the list so far; each date is
      rendered as it is pushed, so an Invalid Date throws there. */
  method PushDates(p: UpdateScheduleParams, before: seq<Column>) returns (r: Result<seq<Column>, RangeError>)
    requires Marks(before) == Trigger(p)
    ensures r.Failure? <==> !DatesWritable(p)
    ensures r.Failure? ==> r.error == RangeError(InvalidTimeValue)
    ensures r.Success? ==> Marks(r.value) == Dated(p)
  {
    var updates := before;
    if p.lastExecutionAt.Put? {
      var v :- ToColumn(p.lastExecutionAt.value);
      var c := LastExecutionAt(v);
      MarksPush(updates, c);
      updates := updates + [c];
    }
    if p.nextExecutionAt.Put? {
      var v :- ToColumn(p.nextExecutionAt.value);
      var c := NextExecutionAt(v);
      MarksPush(updates, c);
      updates := updates + [c];
    }
    r := Success(updates);
  }

  /** The last three pushes (description to retry delay), appended to the
      list so far. */
  method PushRetries(p: UpdateScheduleParams, before: seq<Column>) returns (updates: seq<Column>)
    requires Marks(before) == Dated(p)
    ensures Marks(updates) == p
  {
    updates := before;
    if p.description.Put? {
      var c := Description(p.description.value);
      MarksPush(updates, c);
      updates := updates + [c];
    }
    if p.maxRetries.Put? {
      var c := MaxRetries(p.maxRetries.value);
      MarksPush(updates, c);
      updates := updates + [c];
    }
    if p.retryDelayMinutes.Put? {
      var c := RetryDelayMinutes(p.retryDelayMinutes.value);
      MarksPush(updates, c);
      updates := updates + [c];
    }
  }

  /** Each row sits under its own id and was written before `clock`. */
  ghost predicate Wellformed(order: seq<Id>, rows: map<Id, Schedule>, clock: nat) {
    Chronicle(order, rows, CreatedAt)
    && forall id :: id in rows ==> rows[id].id == id && rows[id].createdAt < clock && rows[id].updatedAt < clock
  }

  /** A new row stamped with the clock keeps the table well formed. */
  lemma WellformedInsert(order: seq<Id>, rows: map<Id, Schedule>, clock: nat, row: Schedule)
    requires Wellformed(order, rows, clock)
    requires row.id !in rows && row.createdAt == clock && row.updatedAt == clock
    ensures Wellformed(order + [row.id], rows[row.id := row], clock + 1)
  {
    ChronicleInsert(order, rows, CreatedAt, row.id, row);
  }

  /** Rewriting a row in place with a fresh updated_at keeps the table well
      formed. */
  lemma WellformedRewrite(order: seq<Id>, rows: map<Id, Schedule>, clock: nat, row: Schedule)
    requires Wellformed(order, rows, clock)
    requires row.id in rows && row.createdAt == rows[row.id].createdAt && row.updatedAt == clock
    ensures Wellformed(order, rows[row.id := row], clock + 1)
  {
    ChronicleRestamp(order, rows, rows[row.id := row], CreatedAt);
  }

  class SchedulesTable {
    var rows: map<Id, Schedule>
    var order: seq<Id>
    var clock: nat

    ghost predicate Valid()
      reads this
    {
      Wellformed(order, rows, clock)
    }

    constructor ()
      ensures Valid() && rows == map[] && clock == 0
    {
      rows, order, clock := map[], [], 0;
    }

    /** getScheduleByID. */
    function Get(id: Id): (r: Option<Schedule>)
      reads this
      ensures r.Some? <==> id in rows
      ensures r.Some? ==> r.value == rows[id]
    {
      if id in rows then Some(rows[id]) else None
    }

    /** createSchedule: a given Invalid Date throws a RangeError while the
        values are bound, before anything is written. Otherwise one new row
        under `newID` (the value randomUUID gave) with the defaults of the
        source: time zone America/Sao_Paulo, active unless told otherwise, no
        execution dates or description unless given, 3 retries 5 minutes
        apart; both stamps are the current time and the row is read back by
        its id. */
    method CreateSchedule(newID: Id, params: CreateScheduleParams) returns (r: Result<Schedule, RangeError>)
      requires Valid() && newID !in rows
      modifies this
      ensures Valid()
      ensures r.Failure? <==> !(Writable(params.lastExecutionAt) && Writable(params.nextExecutionAt))
      ensures r.Failure? ==> r.error == RangeError(InvalidTimeValue) && rows == old(rows) && clock == old(clock)
      ensures r.Success? ==> r.value == Schedule(newID, old(clock), old(clock), params.robotInstanceID, params.userID,
        params.scheduleName, params.cronExpression, params.timezone.GetOr(DefaultTimezone),
        params.isActive.GetOr(true), ToColumn(params.lastExecutionAt).value, ToColumn(params.nextExecutionAt).value,
        params.description, params.maxRetries.GetOr(DefaultMaxRetries),
        params.retryDelayMinutes.GetOr(DefaultRetryDelayMinutes))
      ensures r.Success? ==> rows == old(rows)[newID := r.value] && clock == old(clock) + 1
    {
      var stored := if params.isActive.None? then 1 else StoreBool(params.isActive.value);
      var last :- ToColumn(params.lastExecutionAt);
      var next :- ToColumn(params.nextExecutionAt);
      var s := Schedule(newID, clock, clock, params.robotInstanceID, params.userID,
        params.scheduleName, params.cronExpression, params.timezone.GetOr(DefaultTimezone),
        LoadBool(stored), last, next,
        params.description, params.maxRetries.GetOr(DefaultMaxRetries),
        params.retryDelayMinutes.GetOr(DefaultRetryDelayMinutes));
      WellformedInsert(order, rows, clock, s);
      rows := rows[newID := s];
      order := order + [newID];
      clock := clock + 1;
      r := Success(s);
    }

    /** listAllSchedules: the user's schedules, newest first. */
    function ListAll(userID: Id): (r: seq<Schedule>)
      reads this
      requires Valid()
      ensures forall i :: 0 <= i < |r| ==> r[i].userID == userID && r[i] in rows.Values
      ensures forall id :: id in rows && rows[id].userID == userID ==> rows[id] in r
      ensures forall i, j :: 0 <= i < j < |r| ==> r[i].createdAt > r[j].createdAt
    {
      var keep := (s: Schedule) => s.userID == userID;
      NewestListed(order, rows, keep, CreatedAt);
      Newest(order, rows, keep)
    }

    /** updateSchedule: a given Invalid Date throws a RangeError while the
        SET list is built, before anything is written; with no defined field
        nothing is written; otherwise the row with this id AND this user gets
        the defined fields and a new updated_at, and any other row is left
        alone. Unless it throws, the result is the row read back by id alone. */
    method UpdateSchedule(id: Id, userID: Id, params: UpdateScheduleParams) returns (r: Result<Option<Schedule>, RangeError>)
      requires Valid()
      modifies this
      ensures Valid()
      ensures r.Failure? <==> !DatesWritable(params)
      ensures r.Failure? ==> r.error == RangeError(InvalidTimeValue) && rows == old(rows) && clock == old(clock)
      ensures r.Success? && params == NoChange ==> rows == old(rows) && clock == old(clock)
      ensures r.Success? && params != NoChange && id in old(rows) && old(rows)[id].userID == userID ==>
        rows == old(rows)[id := Merge(old(rows)[id], params).(updatedAt := old(clock))]
      ensures r.Success? && params != NoChange && !(id in old(rows) && old(rows)[id].userID == userID) ==>
        rows == old(rows)
      ensures r.Success? ==> r.value == Get(id)
    {
      var clause := SetClause(params);
      if clause.Failure? {
        return Failure(clause.error);
      }
      var updates := clause.value;
      if |updates| == 0 {
        r := Success(Get(id));
        return;
      }
      if id in rows && rows[id].userID == userID {
        var updated := Assign(rows[id], updates).(updatedAt := clock);
        WellformedRewrite(order, rows, clock, updated);
        rows := rows[id := updated];
      }
      clock := clock + 1;
      r := Success(Get(id));
    }

    /** deleteSchedule: removes the row only when it has this id AND this
        user, and says whether a row went. */
    method DeleteSchedule(id: Id, userID: Id) returns (deleted: bool)
      requires Valid()
      modifies this
      ensures Valid()
      ensures deleted <==> id in old(rows) && old(rows)[id].userID == userID
      ensures forall k :: k in rows <==> k in old(rows) && !(k == id && old(rows)[k].userID == userID)
      ensures forall k :: k in rows ==> rows[k] == old(rows)[k]
    {
      var keep := (s: Schedule) => !(s.id == id && s.userID == userID);
      var removed;
      order, rows, removed := DeleteWhere(order, rows, keep, CreatedAt);
      deleted := removed > 0;
    }
  }
}
