/**
 * The domain events of ScimProvisioning.Core/Events/UserDomainEvents.cs and
 * GroupDomainEvents.cs, seen through the IDomainEvent interface
 * (ScimProvisioning.Core/Common/IDomainEvent.cs). Each variant carries the
 * fields its abstract base class copies in its constructor; the concrete
 * subclasses add none, so a variant is a tag.
 */
module DomainEvents {
  import opened Common
  import opened Text

  datatype UserEventKind = UserProvisioned | UserUpdated | UserDeleted

  datatype GroupEventKind = GroupProvisioned | GroupUpdated | GroupDeleted

  /**
   * EventId and OccurredAt come from Guid.NewGuid() and DateTime.UtcNow in the
   * base constructor; the model receives them from the caller.
   */
  datatype DomainEvent =
    | UserEvent(userKind: UserEventKind, eventId: Guid, occurredAt: DateTime,
                userId: Guid, externalId: string, userName: string)
    | GroupEvent(groupKind: GroupEventKind, eventId: Guid, occurredAt: DateTime,
                 groupId: Guid, externalId: string, displayName: string)

  /** The event exposes a public UserId property. */
  predicate HasUserId(e: DomainEvent) { e.UserEvent? }

  /** The event exposes a public GroupId property. */
  predicate HasGroupId(e: DomainEvent) { e.GroupEvent? }

  /** GetType().Name of the concrete event class. */
  function TypeName(e: DomainEvent): (name: string)
    ensures |name| > 0 && name[0] == if HasUserId(e) then 'U' else 'G'
  {
    TypeNameOf(e)
  }

  /** No event class has a blank name. */
  lemma TypeNameNotBlank(e: DomainEvent)
    ensures !IsBlank(TypeName(e))
  {
    assert !IsWhiteSpace(TypeName(e)[0]);
  }

  function TypeNameOf(e: DomainEvent): string {
    match e
    case UserEvent(k, _, _, _, _, _) =>
      (match k
       case UserProvisioned => "UserProvisionedDomainEvent"
       case UserUpdated => "UserUpdatedDomainEvent"
       case UserDeleted => "UserDeletedDomainEvent")
    case GroupEvent(k, _, _, _, _, _) =>
      (match k
       case GroupProvisioned => "GroupProvisionedDomainEvent"
       case GroupUpdated => "GroupUpdatedDomainEvent"
       case GroupDeleted => "GroupDeletedDomainEvent")
  }

  /** Events of different variants have different type names, so EventType identifies the variant. */
  lemma TypeNameIdentifiesVariant(a: DomainEvent, b: DomainEvent)
    requires TypeName(a) == TypeName(b)
    ensures a.UserEvent? == b.UserEvent?
    ensures a.UserEvent? ==> a.userKind == b.userKind
    ensures a.GroupEvent? ==> a.groupKind == b.groupKind
  {
    var na, nb := TypeName(a), TypeName(b);
    assert na[0] == nb[0] && na[4] == nb[4] && na[5] == nb[5];
  }

  /**
   * The aggregate id the outbox records: UserId when the event has that
   * property, otherwise GroupId. The source throws when neither exists; no
   * variant of DomainEvent lacks both, so that branch cannot be reached.
   */
  function AggregateId(e: DomainEvent): (id: Guid)
    ensures HasUserId(e) ==> id == e.userId
    ensures !HasUserId(e) && HasGroupId(e) ==> id == e.groupId
  {
    if HasUserId(e) then e.userId else e.groupId
  }

  /** Every event has exactly one of the two id properties. */
  lemma ExactlyOneAggregateProperty(e: DomainEvent)
    ensures HasUserId(e) != HasGroupId(e)
  {
  }

  /**
   * JsonSerializer.Serialize(domainEvent): the declared type of the argument is
   * IDomainEvent, so only that interface's properties, EventId and OccurredAt,
   * are written. Guid and DateTime renderings are stood in for by decimal digits.
   */
  function Serialize(e: DomainEvent): (json: string)
    ensures |json| >= 2 && json[0] == '{' && json[|json| - 1] == '}'
  {
    "{\"EventId\":\"" + NatToString(e.eventId) + "\",\"OccurredAt\":\"" + IntToString(e.occurredAt) + "\"}"
  }

  /** The content is never blank: it opens with a brace. */
  lemma SerializeNotBlank(e: DomainEvent)
    ensures !IsBlank(Serialize(e))
  {
    assert !IsWhiteSpace(Serialize(e)[0]);
  }

  /** The payload fields (ids, names, variant) do not reach the serialized content. */
  lemma SerializeSeesOnlyInterface(a: DomainEvent, b: DomainEvent)
    requires a.eventId == b.eventId && a.occurredAt == b.occurredAt
    ensures Serialize(a) == Serialize(b)
  {
  }

  /** Events with distinct EventIds serialize differently. */
  lemma SerializeDistinguishesEvents(a: DomainEvent, b: DomainEvent)
    requires a.eventId != b.eventId
    ensures Serialize(a) != Serialize(b)
  {
    var prefix := "{\"EventId\":\"";
    var sa, sb := NatToString(a.eventId), NatToString(b.eventId);
    var ta := "\",\"OccurredAt\":\"" + IntToString(a.occurredAt) + "\"}";
    var tb := "\",\"OccurredAt\":\"" + IntToString(b.occurredAt) + "\"}";
    if sa == sb {
      NatToStringInjective(a.eventId, b.eventId);
    }
    if prefix + sa + ta == prefix + sb + tb {
      DigitsThenQuote(sa, ta, sb, tb);
    }
    assert Serialize(a) == prefix + sa + ta && Serialize(b) == prefix + sb + tb;
  }

  /** In p + s + t with s all digits and t starting with a non-digit, the digits of s end at |p| + |s|. */
  lemma DigitRun(p: string, s: string, t: string)
    requires forall i :: 0 <= i < |s| ==> IsDigit(s[i])
    requires |t| > 0 && !IsDigit(t[0])
    ensures forall i :: |p| <= i < |p| + |s| ==> IsDigit((p + s + t)[i])
    ensures !IsDigit((p + s + t)[|p| + |s|])
  {
    forall i | |p| <= i < |p| + |s| ensures IsDigit((p + s + t)[i]) {
      assert (p + s + t)[i] == s[i - |p|];
    }
  }

  /** Two digit strings each followed by a quote can only share a prefix when they are equal. */
  lemma DigitsThenQuote(sa: string, ta: string, sb: string, tb: string)
    requires forall i :: 0 <= i < |sa| ==> IsDigit(sa[i])
    requires forall i :: 0 <= i < |sb| ==> IsDigit(sb[i])
    requires |ta| > 0 && ta[0] == '"' && |tb| > 0 && tb[0] == '"'
    requires "{\"EventId\":\"" + sa + ta == "{\"EventId\":\"" + sb + tb
    ensures sa == sb
  {
    var prefix := "{\"EventId\":\"";
    var x := prefix + sa + ta;
    DigitRun(prefix, sa, ta);
    DigitRun(prefix, sb, tb);
    assert |sa| == |sb|;
    forall i | 0 <= i < |sa| ensures sa[i] == sb[i] {
      assert x[|prefix| + i] == sa[i];
      assert (prefix + sb + tb)[|prefix| + i] == sb[i];
    }
  }
}
