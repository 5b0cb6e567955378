/**
 * BaseEntity (ScimProvisioning.Core/Common/BaseEntity.cs): the identity and
 * timestamps every aggregate carries, and its in-memory list of domain
 * events. The aggregates hold one BaseEntity each (field `entity`) in place of
 * inheriting from it.
 */
module BaseEntities {
  import opened Common
  import opened DomainEvents

  class BaseEntity {
    var id: Guid
    var createdAt: DateTime
    var modifiedAt: DateTime
    /** _domainEvents; DomainEvents exposes exactly this list, in insertion order. */
    var domainEvents: seq<DomainEvent>

    /** The state a derived constructor sets up: Id, CreatedAt and ModifiedAt, no events yet. */
    constructor (id: Guid, now: DateTime)
      ensures this.id == id && createdAt == now && modifiedAt == now
      ensures domainEvents == []
    {
      this.id := id;
      createdAt := now;
      modifiedAt := now;
      domainEvents := [];
    }

    /** AddDomainEvent: appends one event; Id, CreatedAt and ModifiedAt are outside the frame. */
    method AddDomainEvent(e: DomainEvent)
      modifies this`domainEvents
      ensures domainEvents == old(domainEvents) + [e]
    {
      domainEvents := domainEvents + [e];
    }

    /**
     * ClearDomainEvents: empties the list whatever it held, so a second call
     * changes nothing; Id, CreatedAt and ModifiedAt are outside the frame.
     */
    method ClearDomainEvents()
      modifies this`domainEvents
      ensures domainEvents == []
    {
      domainEvents := [];
    }
  }
}
