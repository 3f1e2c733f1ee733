/** src/services/execution.service.ts: the rules an execution must meet
    before it is created. The robot instances come in as the rows
    getRobotInstanceByID reads, keyed by id, with the fields the service
    looks at. */
module ExecutionService {

  import opened Wrappers
  import opened JsString
  import opened Store
  import opened Http
  import DbExecutions

  datatype RobotInstance = RobotInstance(id: Id, userID: Id, isActive: bool)

  type RobotInstances = map<Id, RobotInstance>

  /** CreateExecutionDTO as the handler fills it from the request body:
      `None` where the body has no such field. */
  datatype CreateExecutionDTO = CreateExecutionDTO(
    robotInstanceID: Option<Id>,
    userID: Id,
    executionType: Option<string>,
    scheduleID: Option<Id>)

  const ExecutionTypes: seq<string> := ["manual", "scheduled", "retry"]

  const InvalidTypeMessage := "executionType must be 'manual', 'scheduled', or 'retry'"
  const MissingScheduleMessage := "scheduleID is required for scheduled executions"
  const InstanceNotFoundMessage := "Robot Instance not found"
  const InstanceInactiveMessage := "Robot Instance is not active"

  /** validateExecutionRules: the type is one of the three, and a scheduled
      execution names its schedule. */
  function ValidateExecutionRules(dto: CreateExecutionDTO): (r: Outcome<ApiError>)
    ensures r.Pass? <==>
      dto.executionType.Some? && dto.executionType.value in ExecutionTypes
      && (dto.executionType.value == "scheduled" ==> Truthy(dto.scheduleID))
    ensures !(dto.executionType.Some? && dto.executionType.value in ExecutionTypes) ==>
      r == Fail(BadRequest(InvalidTypeMessage))
    ensures r.Fail? ==> r.error.BadRequest?
  {
    if !(dto.executionType.Some? && dto.executionType.value in ExecutionTypes) then
      Fail(BadRequest(InvalidTypeMessage))
    else if dto.executionType.value == "scheduled" && !Truthy(dto.scheduleID) then
      Fail(BadRequest(MissingScheduleMessage))
    else Pass
  }

  /** validateRobotInstance: the instance exists, is the user's and is
      active; a missing instance and another user's look the same. */
  function ValidateRobotInstance(instances: RobotInstances, instanceID: Option<Id>, userID: Id)
    : (r: Result<RobotInstance, ApiError>)
    ensures r.Success? <==>
      instanceID.Some? && instanceID.value in instances
      && instances[instanceID.value].userID == userID && instances[instanceID.value].isActive
    ensures r.Success? ==> r.value == instances[instanceID.value]
    ensures !(instanceID.Some? && instanceID.value in instances && instances[instanceID.value].userID == userID) ==>
      r == Failure(BadRequest(InstanceNotFoundMessage))
    ensures r.Failure? ==> r.error.BadRequest?
  {
    if instanceID.None? || instanceID.value !in instances || instances[instanceID.value].userID != userID then
      Failure(BadRequest(InstanceNotFoundMessage))
    else
      var instance := instances[instanceID.value];
      if !instance.isActive then Failure(BadRequest(InstanceInactiveMessage))
      else Success(instance)
  }

  /** Both checks of createExecution in their order: the rules first, so an
      invalid request is refused whatever the store holds. */
  function Admit(instances: RobotInstances, dto: CreateExecutionDTO): (r: Result<RobotInstance, ApiError>)
    ensures ValidateExecutionRules(dto).Fail? ==> r == Failure(ValidateExecutionRules(dto).error)
    ensures ValidateExecutionRules(dto).Pass? ==> r == ValidateRobotInstance(instances, dto.robotInstanceID, dto.userID)
  {
    var rules := ValidateExecutionRules(dto);
    if rules.Fail? then Failure(rules.error)
    else ValidateRobotInstance(instances, dto.robotInstanceID, dto.userID)
  }

  /** What createExecution asks the table to insert. */
  function ParamsFor(instance: RobotInstance, dto: CreateExecutionDTO): (p: DbExecutions.CreateExecutionParams)
    requires dto.executionType.Some?
    ensures p.status == Some("pending") && p.userID == dto.userID && p.robotInstanceID == instance.id
    ensures p.scheduleID.Some? <==> Truthy(dto.scheduleID)
    ensures p.scheduleID.Some? ==> p.scheduleID == dto.scheduleID
  {
    DbExecutions.CreateExecutionParams(instance.id, dto.userID, dto.executionType.value, OrNull(dto.scheduleID),
      Some("pending"))
  }

  /** createExecution: nothing is written unless both checks pass; then one
      pending execution of the user's instance, with the schedule only when
      one is given, is inserted under `newID` and returned. */
  method CreateExecution(table: DbExecutions.ExecutionsTable, instances: RobotInstances, newID: Id,
                         dto: CreateExecutionDTO)
    returns (r: Result<DbExecutions.Execution, ApiError>)
    requires table.Valid() && newID !in table.rows
    modifies table
    ensures table.Valid()
    ensures r.Failure? <==> Admit(instances, dto).Failure?
    ensures r.Failure? ==> r.error == Admit(instances, dto).error && table.rows == old(table.rows)
    ensures r.Success? ==>
      r.value.id == newID && r.value.status == "pending" && r.value.userID == dto.userID
      && r.value.robotInstanceID == instances[dto.robotInstanceID.value].id
      && Some(r.value.executionType) == dto.executionType
      && r.value.scheduleID == OrNull(dto.scheduleID)
      && table.rows == old(table.rows)[newID := r.value]
    ensures r.Success? ==> r.value == DbExecutions.Execution(newID, old(table.clock), old(table.clock),
      instances[dto.robotInstanceID.value].id, dto.userID, "pending", None, None, None, None,
      dto.executionType.value, OrNull(dto.scheduleID), None, None, None, 0, None)
  {
    var admitted := Admit(instances, dto);
    if admitted.Failure? {
      return Failure(admitted.error);
    }
    var e := table.CreateExecution(newID, ParamsFor(admitted.value, dto));
    r := Success(e);
  }
}
