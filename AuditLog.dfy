/**
 * The AuditLog entity (ScimProvisioning.Core/Entities/AuditLog.cs): a
 * constructor that refuses a blank action, a blank entity type and an empty
 * entity id, and two unguarded status transitions. The ArgumentException the
 * constructor throws is a precondition here; the service that builds entries
 * checks CheckArguments first and turns a refusal into a failure carrying
 * the exception's message.
 */
module AuditLogs {
  import opened Common
  import opened Text

  const ActionRequired := "Action is required (Parameter 'action')"
  const EntityTypeRequired := "Entity type is required (Parameter 'entityType')"
  const EntityIdEmpty := "Entity ID cannot be empty (Parameter 'entityId')"

  /** AuditStatus: Pending = 0, Success = 1, Failed = 2. */
  datatype AuditStatus = Pending | Succeeded | Failed

  /** The columns the store keeps for an audit entry. */
  datatype AuditRow = AuditRow(
    id: Guid, outboxMessageId: Option<Guid>, action: string, entityType: string, entityId: Guid,
    userId: Option<string>, changeDetails: Option<string>, timestamp: DateTime,
    status: AuditStatus, errorMessage: Option<string>)

  /**
   * The constructor's checks, in their order: the message of the first
   * ArgumentException it would throw, or None when all pass.
   */
  function CheckArguments(action: string, entityType: string, entityId: Guid): (r: Option<string>)
    ensures r.None? <==> !IsBlank(action) && !IsBlank(entityType) && entityId != EmptyGuid
    ensures IsBlank(action) ==> r == Some(ActionRequired)
    ensures !IsBlank(action) && IsBlank(entityType) ==> r == Some(EntityTypeRequired)
    ensures !IsBlank(action) && !IsBlank(entityType) && entityId == EmptyGuid ==> r == Some(EntityIdEmpty)
    ensures r.Some? ==> r.value != ""
  {
    if IsBlank(action) then Some(ActionRequired)
    else if IsBlank(entityType) then Some(EntityTypeRequired)
    else if entityId == EmptyGuid then Some(EntityIdEmpty)
    else None
  }

  class AuditLog {
    const id: Guid
    const outboxMessageId: Option<Guid>
    const action: string
    const entityType: string
    const entityId: Guid
    const userId: Option<string>
    const changeDetails: Option<string>
    const timestamp: DateTime
    var status: AuditStatus
    var errorMessage: Option<string>

    /** The persisted columns of this entry. */
    function Row(): (row: AuditRow)
      reads this
      ensures row.id == id && row.status == status && row.errorMessage == errorMessage
      ensures row.action == action && row.entityType == entityType && row.entityId == entityId
    {
      AuditRow(id, outboxMessageId, action, entityType, entityId, userId, changeDetails, timestamp,
               status, errorMessage)
    }

    /**
     * new AuditLog(...): every field as passed, Id fresh, Timestamp the clock
     * reading, Status Pending and no ErrorMessage.
     */
    constructor (action: string, entityType: string, entityId: Guid, userId: Option<string>,
                 changeDetails: Option<string>, outboxMessageId: Option<Guid>, id: Guid, now: DateTime)
      requires CheckArguments(action, entityType, entityId).None?
      ensures Row() == AuditRow(id, outboxMessageId, action, entityType, entityId, userId, changeDetails, now,
                                Pending, None)
    {
      this.id := id;
      this.action := action;
      this.entityType := entityType;
      this.entityId := entityId;
      this.userId := userId;
      this.changeDetails := changeDetails;
      this.outboxMessageId := outboxMessageId;
      timestamp := now;
      status := Pending;
      errorMessage := None;
    }

    /** An entry as the store hands it back. */
    constructor FromRow(row: AuditRow)
      ensures Row() == row
    {
      id := row.id;
      outboxMessageId := row.outboxMessageId;
      action := row.action;
      entityType := row.entityType;
      entityId := row.entityId;
      userId := row.userId;
      changeDetails := row.changeDetails;
      timestamp := row.timestamp;
      status := row.status;
      errorMessage := row.errorMessage;
    }

    /**
     * MarkAsSuccess: from any status, including Failed; only Status changes,
     * so a second call changes nothing.
     */
    method MarkAsSuccess()
      modifies this`status
      ensures Row() == old(Row()).(status := Succeeded)
    {
      status := Succeeded;
    }

    /** MarkAsFailed(message): from any status, including Success; Status and ErrorMessage change. */
    method MarkAsFailed(message: string)
      modifies this`status, this`errorMessage
      ensures Row() == old(Row()).(status := Failed, errorMessage := Some(message))
    {
      status := Failed;
      errorMessage := Some(message);
    }
  }
}
