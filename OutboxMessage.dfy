/**
 * The OutboxMessage entity (ScimProvisioning.Core/Entities/OutboxMessage.cs):
 * a constructor that refuses an empty aggregate id, a blank event type and
 * blank content, and the one transition Unprocessed -> Processed. The
 * ArgumentException the constructor throws is a precondition here; the
 * service that builds messages checks CheckArguments first.
 */
module OutboxMessages {
  import opened Common
  import opened Text

  const AggregateIdEmpty := "Aggregate ID cannot be empty (Parameter 'aggregateId')"
  const EventTypeRequired := "Event type is required (Parameter 'eventType')"
  const ContentRequired := "Content is required (Parameter 'content')"

  /** The columns the store keeps for an outbox message. */
  datatype OutboxRow = OutboxRow(
    id: Guid, aggregateId: Guid, eventType: string, content: string, createdAt: DateTime,
    processed: bool, processedAt: Option<DateTime>, correlationId: string)

  /**
   * The constructor's checks, in their order: the message of the first
   * ArgumentException it would throw, or None when all pass.
   */
  function CheckArguments(aggregateId: Guid, eventType: string, content: string): (r: Option<string>)
    ensures r.None? <==> aggregateId != EmptyGuid && !IsBlank(eventType) && !IsBlank(content)
    ensures aggregateId == EmptyGuid ==> r == Some(AggregateIdEmpty)
    ensures aggregateId != EmptyGuid && IsBlank(eventType) ==> r == Some(EventTypeRequired)
    ensures aggregateId != EmptyGuid && !IsBlank(eventType) && IsBlank(content) ==> r == Some(ContentRequired)
    ensures r.Some? ==> r.value != ""
  {
    if aggregateId == EmptyGuid then Some(AggregateIdEmpty)
    else if IsBlank(eventType) then Some(EventTypeRequired)
    else if IsBlank(content) then Some(ContentRequired)
    else None
  }

  class OutboxMessage {
    const id: Guid
    const aggregateId: Guid
    const eventType: string
    const content: string
    const createdAt: DateTime
    const correlationId: string
    var processed: bool
    var processedAt: Option<DateTime>

    /** The persisted columns of this message. */
    function Row(): (row: OutboxRow)
      reads this
      ensures row.id == id && row.processed == processed && row.processedAt == processedAt
      ensures row.correlationId == correlationId
    {
      OutboxRow(id, aggregateId, eventType, content, createdAt, processed, processedAt, correlationId)
    }

    /**
     * new OutboxMessage(aggregateId, eventType, content, correlationId):
     * unprocessed, with no ProcessedAt, CreatedAt the clock reading, and
     * CorrelationId the one given or else the text of a second fresh Guid
     * (`correlationGuid`; its "D" rendering is stood in for by its digits).
     */
    constructor (aggregateId: Guid, eventType: string, content: string, correlationId: Option<string>,
                 id: Guid, correlationGuid: Guid, now: DateTime)
      requires CheckArguments(aggregateId, eventType, content).None?
      ensures Row() == OutboxRow(id, aggregateId, eventType, content, now, false, None,
                                 if correlationId.Some? then correlationId.value else NatToString(correlationGuid))
    {
      this.id := id;
      this.aggregateId := aggregateId;
      this.eventType := eventType;
      this.content := content;
      createdAt := now;
      processed := false;
      processedAt := None;
      this.correlationId := if correlationId.Some? then correlationId.value else NatToString(correlationGuid);
    }

    /** A message as the store hands it back. */
    constructor FromRow(row: OutboxRow)
      ensures Row() == row
    {
      id := row.id;
      aggregateId := row.aggregateId;
      eventType := row.eventType;
      content := row.content;
      createdAt := row.createdAt;
      correlationId := row.correlationId;
      processed := row.processed;
      processedAt := row.processedAt;
    }

    /**
     * MarkAsProcessed: Processed becomes true, whatever it was, and
     * ProcessedAt the clock reading; no other column changes. No member sets
     * Processed back to false.
     */
    method MarkAsProcessed(now: DateTime)
      modifies this`processed, this`processedAt
      ensures Row() == old(Row()).(processed := true, processedAt := Some(now))
    {
      processed := true;
      processedAt := Some(now);
    }
  }
}
