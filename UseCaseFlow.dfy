/**
 * The protected region every writing use case shares
 * (the try blocks of CreateUserUseCase, UpdateUserUseCase, DeleteUserUseCase
 * and CreateGroupUseCase): begin a transaction, stage the entity write,
 * publish the entity's one domain event to the outbox, stage an audit entry,
 * save, commit, then mark the entry Success; any exception rolls the
 * transaction back and becomes a failure whose message is the use case's
 * prefix followed by the exception's message.
 *
 * Exceptions the database or the connection may throw at any awaited step
 * are not part of this model; an injected `fault` names the step that throws
 * and its message. The other failures are the ones the modelled code raises:
 * the outbox message and audit entry constructors' argument checks, and a
 * save that breaks a key or unique index or finds a row missing.
 */
module UseCaseFlow {
  import opened Common
  import opened DomainEvents
  import opened OutboxMessages
  import opened AuditLogs
  import opened Store
  import OutboxService
  import AuditLogService

  /** The awaited steps that talk to the database. */
  datatype Step = BeginStep | SaveStep | CommitStep | MarkStep

  /** An exception thrown by the database at one step. */
  datatype Fault = Fault(step: Step, message: string)

  predicate FaultAt(fault: Option<Fault>, step: Step) {
    fault.Some? && fault.value.step == step
  }

  /** The Guid.NewGuid() values the outbox row and the audit entry draw. */
  datatype TrailIds = TrailIds(message: Guid, correlation: Guid, audit: Guid)

  /** The outbox row PublishDomainEventsAsync stages for the event (no correlation id is passed). */
  function TrailOutbox(e: DomainEvent, ids: TrailIds, now: DateTime): OutboxRow {
    OutboxService.RowFor(e, OutboxService.MessageIds(ids.message, ids.correlation), None, now)
  }

  /** The Pending audit entry CreateAuditLogAsync stages for the event's aggregate (no user, no outbox message). */
  function TrailAudit(e: DomainEvent, action: string, entityType: string, details: Option<string>,
                      ids: TrailIds, now: DateTime): AuditRow
  {
    AuditRow(ids.audit, None, action, entityType, AggregateId(e), None, details, now, Pending, None)
  }

  /** SaveChangesAsync on the entity write, the outbox row and the audit entry together. */
  function TrailSave(t: Tables, w: Write, e: DomainEvent, action: string, entityType: string,
                     details: Option<string>, ids: TrailIds, now: DateTime): Result<Tables>
  {
    Save(t, [w, AddOutbox(TrailOutbox(e, ids, now)), AddAudit(TrailAudit(e, action, entityType, details, ids, now))])
  }

  /** Tables after MarkAsSuccessAsync on the entry saved last. */
  function MarkLast(t: Tables): (m: Tables)
    requires |t.audit| > 0
    ensures |m.audit| == |t.audit| && m.audit[..|t.audit| - 1] == t.audit[..|t.audit| - 1]
    ensures m.audit[|t.audit| - 1] == t.audit[|t.audit| - 1].(status := Succeeded)
    ensures m.users == t.users && m.groups == t.groups && m.outbox == t.outbox
  {
    t.(audit := t.audit[|t.audit| - 1 := t.audit[|t.audit| - 1].(status := Succeeded)])
  }

  /** Marking the entry just appended replaces it by its Success copy. */
  lemma MarkAppended(t: Tables, a: AuditRow)
    ensures MarkLast(t.(audit := t.audit + [a])) == t.(audit := t.audit + [a.(status := Succeeded)])
  {
    assert (t.audit + [a])[|t.audit| := a.(status := Succeeded)] == t.audit + [a.(status := Succeeded)];
  }

  /** A use case's failure message, or None when it succeeds. */
  function ErrorOf<T>(r: Result<T>): Option<string> {
    if r.Success? then None else Some(r.error)
  }

  /** Every step up to and including the commit went through: the change is visible to all. */
  predicate ReachesCommit(t: Tables, w: Write, e: DomainEvent, action: string, entityType: string,
                          details: Option<string>, ids: TrailIds, now: DateTime, fault: Option<Fault>)
  {
    && !FaultAt(fault, BeginStep)
    && AggregateId(e) != EmptyGuid
    && AuditLogs.CheckArguments(action, entityType, AggregateId(e)).None?
    && !FaultAt(fault, SaveStep)
    && TrailSave(t, w, e, action, entityType, details, ids, now).Success?
    && !FaultAt(fault, CommitStep)
  }

  /** The message of the first exception the region raises, or None when it completes. */
  function FirstError(t: Tables, w: Write, e: DomainEvent, action: string, entityType: string,
                      details: Option<string>, ids: TrailIds, now: DateTime, fault: Option<Fault>): (m: Option<string>)
    ensures m.None? <==> ReachesCommit(t, w, e, action, entityType, details, ids, now, fault) && fault.None?
  {
    if FaultAt(fault, BeginStep) then Some(fault.value.message)
    else if AggregateId(e) == EmptyGuid then Some(AggregateIdEmpty)
    else if AuditLogs.CheckArguments(action, entityType, AggregateId(e)).Some? then
      AuditLogs.CheckArguments(action, entityType, AggregateId(e))
    else if FaultAt(fault, SaveStep) then Some(fault.value.message)
    else if TrailSave(t, w, e, action, entityType, details, ids, now).Failure? then
      Some(TrailSave(t, w, e, action, entityType, details, ids, now).error)
    else if fault.Some? then Some(fault.value.message)
    else None
  }

  /**
   * The staging half of the try block, once the transaction is open: the
   * entity write, then the outbox row of its one event, then the Pending
   * audit entry. Publishing refuses an event without an aggregate, the audit
   * constructor refuses a blank action or entity type; nothing is saved.
   */
  method StageChange(uow: UnitOfWork, w: Write, e: DomainEvent, action: string, entityType: string,
                     details: Option<string>, ids: TrailIds, now: DateTime)
    returns (r: Result<()>)
    requires uow.staged == []
    modifies uow`staged
    ensures r.Failure? <==> AggregateId(e) == EmptyGuid || AuditLogs.CheckArguments(action, entityType, AggregateId(e)).Some?
    ensures r.Failure? ==>
      r.error == (if AggregateId(e) == EmptyGuid then AggregateIdEmpty
                  else AuditLogs.CheckArguments(action, entityType, AggregateId(e)).value)
    ensures r.Success? ==>
      uow.staged == [w, AddOutbox(TrailOutbox(e, ids, now)), AddAudit(TrailAudit(e, action, entityType, details, ids, now))]
    ensures r.Failure? && AggregateId(e) == EmptyGuid ==> uow.staged == [w]
    ensures r.Failure? && AggregateId(e) != EmptyGuid ==> uow.staged == [w, AddOutbox(TrailOutbox(e, ids, now))]
  {
    uow.Stage(w);
    var published := OutboxService.Publish(uow, [e], None, [OutboxService.MessageIds(ids.message, ids.correlation)], now);
    if published.Failure? {
      assert uow.staged == uow.staged[..1];
      return Failure(published.error);
    }
    OutboxService.StagedOne(uow.staged, [w], e, OutboxService.MessageIds(ids.message, ids.correlation), None, now);
    var entry := AuditLogService.CreateAuditLog(uow, action, entityType, AggregateId(e), None, details, None, ids.audit, now);
    if entry.Failure? {
      return Failure(entry.error);
    }
    return Ok();
  }

  /**
   * The try block. Starting idle over committed tables t, it ends idle.
   * Unless every step up to the commit goes through, nothing is committed;
   * on success t has gained the entity write, the outbox row and the audit
   * entry at once, the entry marked Success. A fault while marking comes
   * after the commit, and what the rollback then does to the committed
   * tables is left unstated.
   */
  method RecordChange(uow: UnitOfWork, w: Write, e: DomainEvent, action: string, entityType: string,
                      details: Option<string>, ids: TrailIds, now: DateTime, fault: Option<Fault>, prefix: string)
    returns (r: Result<()>)
    requires uow.Valid() && uow.Idle()
    modifies uow`committed, uow`current, uow`staged, uow`inTransaction
    ensures uow.Valid() && uow.Idle() && uow.current == uow.committed
    ensures r.Failure? <==> FirstError(old(uow.committed), w, e, action, entityType, details, ids, now, fault).Some?
    ensures r.Failure? ==>
      r.error == prefix + FirstError(old(uow.committed), w, e, action, entityType, details, ids, now, fault).value
    ensures !ReachesCommit(old(uow.committed), w, e, action, entityType, details, ids, now, fault) ==>
      uow.committed == old(uow.committed)
    ensures r.Success? ==>
      var saved := TrailSave(old(uow.committed), w, e, action, entityType, details, ids, now).value;
      |saved.audit| > 0 && uow.committed == MarkLast(saved)
  {
    ghost var t := uow.committed;
    if FaultAt(fault, BeginStep) {
      uow.Rollback();
      return Failure(prefix + fault.value.message);
    }
    uow.BeginTransaction();
    var staged := StageChange(uow, w, e, action, entityType, details, ids, now);
    if staged.Failure? {
      uow.Rollback();
      return Failure(prefix + staged.error);
    }
    r := CommitChange(uow, t, w, e, action, entityType, details, ids, now, fault, prefix);
  }

  /**
   * The saving half of the try block, with the change staged in an open
   * transaction over committed tables t: save, commit, mark the entry
   * Success. A save the store refuses or a fault at any of the three steps
   * rolls back.
   */
  method CommitChange(uow: UnitOfWork, ghost t: Tables, w: Write, e: DomainEvent, action: string, entityType: string,
                      details: Option<string>, ids: TrailIds, now: DateTime, fault: Option<Fault>, prefix: string)
    returns (r: Result<()>)
    requires uow.Valid() && uow.inTransaction && uow.committed == t && uow.current == t
    requires !FaultAt(fault, BeginStep)
    requires uow.staged == [w, AddOutbox(TrailOutbox(e, ids, now)), AddAudit(TrailAudit(e, action, entityType, details, ids, now))]
    modifies uow`committed, uow`current, uow`staged, uow`inTransaction
    ensures uow.Valid() && uow.Idle() && uow.current == uow.committed
    ensures var s := TrailSave(t, w, e, action, entityType, details, ids, now);
      && (r.Failure? <==> fault.Some? || s.Failure?)
      && (r.Failure? ==> r.error == prefix + (if FaultAt(fault, SaveStep) || s.Success? then fault.value.message else s.error))
      && (FaultAt(fault, SaveStep) || s.Failure? || FaultAt(fault, CommitStep) ==> uow.committed == t)
      && (r.Success? ==> |s.value.audit| > 0 && uow.committed == MarkLast(s.value))
  {
    if FaultAt(fault, SaveStep) {
      uow.Rollback();
      return Failure(prefix + fault.value.message);
    }
    var saved := uow.SaveChanges();
    if saved.Failure? {
      uow.Rollback();
      return Failure(prefix + saved.error);
    }
    if FaultAt(fault, CommitStep) {
      uow.Rollback();
      return Failure(prefix + fault.value.message);
    }
    uow.Commit();
    AuditedEntryIsLast(t, w, e, action, entityType, details, ids, now);
    if FaultAt(fault, MarkStep) {
      uow.Rollback();
      return Failure(prefix + fault.value.message);
    }
    MarkSavedEntry(uow, t, w, e, action, entityType, details, ids, now);
    return Ok();
  }

  /**
   * The MarkAsSuccessAsync call after the commit. It cannot fail: the entry
   * was saved last, and overwriting it keeps every key and index.
   */
  method MarkSavedEntry(uow: UnitOfWork, ghost t: Tables, w: Write, e: DomainEvent, action: string, entityType: string,
                        details: Option<string>, ids: TrailIds, now: DateTime)
    requires uow.Valid() && uow.Idle()
    requires TrailSave(t, w, e, action, entityType, details, ids, now).Success?
    requires uow.current == TrailSave(t, w, e, action, entityType, details, ids, now).value
    modifies uow`committed, uow`current, uow`staged
    ensures uow.Valid() && uow.Idle() && uow.current == uow.committed
    ensures |old(uow.current).audit| > 0 && uow.committed == MarkLast(old(uow.current))
  {
    AuditedEntryIsLast(t, w, e, action, entityType, details, ids, now);
    MarkLastEntry(uow, ids.audit);
  }

  /** MarkAsSuccessAsync(id) when the entry with that id is the last saved one: it is marked and saved. */
  method MarkLastEntry(uow: UnitOfWork, id: Guid)
    requires uow.Valid() && uow.Idle()
    requires |uow.current.audit| > 0 && uow.current.audit[|uow.current.audit| - 1].id == id
    modifies uow`committed, uow`current, uow`staged
    ensures uow.Valid() && uow.Idle() && uow.current == uow.committed
    ensures uow.committed == MarkLast(old(uow.current))
  {
    ghost var s := uow.current;
    ghost var a := s.audit[|s.audit| - 1];
    SaveMarkedAudit(s, a, a.(status := Succeeded));
    assert [] + [UpdateAudit(a.(status := Succeeded))] == [UpdateAudit(a.(status := Succeeded))];
    var marked := AuditLogService.MarkAsSuccess(uow, id);
  }

  /** After a successful save, the audit entry is the last row of the audit table. */
  lemma AuditedEntryIsLast(t: Tables, w: Write, e: DomainEvent, action: string, entityType: string,
                           details: Option<string>, ids: TrailIds, now: DateTime)
    requires TrailSave(t, w, e, action, entityType, details, ids, now).Success?
    ensures var s := TrailSave(t, w, e, action, entityType, details, ids, now).value;
      |s.audit| > 0 && s.audit[|s.audit| - 1] == TrailAudit(e, action, entityType, details, ids, now)
  {
    var o, a := TrailOutbox(e, ids, now), TrailAudit(e, action, entityType, details, ids, now);
    ApplyThree(t, w, AddOutbox(o), AddAudit(a));
  }
}
