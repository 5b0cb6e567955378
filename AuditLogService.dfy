/**
 * AuditLogService (ScimProvisioning.Infrastructure/Services/AuditLogService.cs):
 * stages a new Pending entry, marks an entry Succeeded or Failed and saves,
 * and lists the entries of one outbox message. Fresh entry ids and the clock
 * are parameters.
 */
module AuditLogService {
  import opened Common
  import Seqs
  import opened AuditLogs
  import opened Store

  /**
   * CreateAuditLogAsync: the entry the AuditLog constructor builds is staged
   * (not saved) and returned; an argument the constructor refuses is the
   * failure, carrying its ArgumentException's message, and nothing is staged.
   */
  method CreateAuditLog(uow: UnitOfWork, action: string, entityType: string, entityId: Guid,
                        userId: Option<string>, changeDetails: Option<string>, outboxMessageId: Option<Guid>,
                        id: Guid, now: DateTime)
    returns (r: Result<AuditLog>)
    modifies uow`staged
    ensures r.Valid()
    ensures r.Success? <==> CheckArguments(action, entityType, entityId).None?
    ensures r.Failure? ==> r.error == CheckArguments(action, entityType, entityId).value && uow.staged == old(uow.staged)
    ensures r.Success? ==>
      && fresh(r.value)
      && r.value.Row() == AuditRow(id, outboxMessageId, action, entityType, entityId, userId, changeDetails, now, Pending, None)
      && uow.staged == old(uow.staged) + [AddAudit(r.value.Row())]
  {
    var check := CheckArguments(action, entityType, entityId);
    if check.Some? {
      return Failure(check.value);
    }
    var entry := new AuditLog(action, entityType, entityId, userId, changeDetails, outboxMessageId, id, now);
    uow.Stage(AddAudit(entry.Row()));
    return Success(entry);
  }

  /**
   * MarkAsSuccessAsync(id): an id with no row is a no-op; otherwise that
   * entry's Status becomes Success, it is staged, and everything staged is
   * saved.
   */
  method MarkAsSuccess(uow: UnitOfWork, auditLogId: Guid) returns (r: Result<()>)
    requires uow.Valid()
    modifies uow`committed, uow`current, uow`staged
    ensures uow.Valid() && r.Valid()
    ensures AuditIndex(old(uow.current.audit), auditLogId).None? ==>
      r == Ok() && uow.current == old(uow.current) && uow.committed == old(uow.committed) && uow.staged == old(uow.staged)
    ensures AuditIndex(old(uow.current.audit), auditLogId).Some? ==>
      var k := AuditIndex(old(uow.current.audit), auditLogId).value;
      var row := old(uow.current.audit)[k].(status := Succeeded);
      var s := Save(old(uow.current), old(uow.staged) + [UpdateAudit(row)]);
      && (r.Success? <==> s.Success?)
      && (r.Success? ==> uow.current == s.value && uow.staged == [])
      && (r.Success? ==> uow.committed == (if uow.inTransaction then old(uow.committed) else uow.current))
      && (r.Failure? ==> r.error == s.error && uow.current == old(uow.current))
      && (r.Failure? ==> uow.staged == old(uow.staged) + [UpdateAudit(row)] && uow.committed == old(uow.committed))
  {
    var k := AuditIndex(uow.current.audit, auditLogId);
    if k.None? {
      return Ok();
    }
    var entry := new AuditLog.FromRow(uow.current.audit[k.value]);
    entry.MarkAsSuccess();
    uow.Stage(UpdateAudit(entry.Row()));
    r := uow.SaveChanges();
  }

  /**
   * MarkAsFailedAsync(id, message): an id with no row is a no-op; otherwise
   * that entry's Status becomes Failed with the message, it is staged, and
   * everything staged is saved.
   */
  method MarkAsFailed(uow: UnitOfWork, auditLogId: Guid, errorMessage: string) returns (r: Result<()>)
    requires uow.Valid()
    modifies uow`committed, uow`current, uow`staged
    ensures uow.Valid() && r.Valid()
    ensures AuditIndex(old(uow.current.audit), auditLogId).None? ==>
      r == Ok() && uow.current == old(uow.current) && uow.committed == old(uow.committed) && uow.staged == old(uow.staged)
    ensures AuditIndex(old(uow.current.audit), auditLogId).Some? ==>
      var k := AuditIndex(old(uow.current.audit), auditLogId).value;
      var row := old(uow.current.audit)[k].(status := Failed, errorMessage := Some(errorMessage));
      var s := Save(old(uow.current), old(uow.staged) + [UpdateAudit(row)]);
      && (r.Success? <==> s.Success?)
      && (r.Success? ==> uow.current == s.value && uow.staged == [])
      && (r.Success? ==> uow.committed == (if uow.inTransaction then old(uow.committed) else uow.current))
      && (r.Failure? ==> r.error == s.error && uow.current == old(uow.current))
      && (r.Failure? ==> uow.staged == old(uow.staged) + [UpdateAudit(row)] && uow.committed == old(uow.committed))
  {
    var k := AuditIndex(uow.current.audit, auditLogId);
    if k.None? {
      return Ok();
    }
    var entry := new AuditLog.FromRow(uow.current.audit[k.value]);
    entry.MarkAsFailed(errorMessage);
    uow.Stage(UpdateAudit(entry.Row()));
    r := uow.SaveChanges();
  }

  /**
   * With nothing else staged, updating an existing entry saves, and the only
   * change is that entry: the other entries and tables are untouched. Both
   * MarkAsSuccess and MarkAsFailed stage such an update.
   */
  lemma UpdateOnlyChangesThatEntry(t: Tables, k: nat, row: AuditRow)
    requires WellFormed(t) && k < |t.audit| && row.id == t.audit[k].id
    ensures Save(t, [UpdateAudit(row)]) == Success(t.(audit := t.audit[k := row]))
  {
    var t' := t.(audit := t.audit[k := row]);
    var ws := [UpdateAudit(row)];
    assert ws[0] == UpdateAudit(row) && ws[1..] == [];
    assert AuditIndex(t.audit, row.id) == Some(k);
    assert Apply(t, ws[0]) == Success(t');
    assert ApplyAll(t', []) == Success(t');
    assert ApplyAll(t, ws) == Success(t');
    ReplaceAuditWellFormed(t.audit, k, row);
    assert WellFormed(t');
  }

  /** Where(a => a.OutboxMessageId == outboxMessageId) */
  function ForMessage(outboxMessageId: Guid): AuditRow -> bool {
    (a: AuditRow) => a.outboxMessageId == Some(outboxMessageId)
  }

  /**
   * GetByOutboxMessageIdAsync: the entries linked to the message. The query
   * has no ORDER BY, so the database promises no order; the model keeps
   * table order. Entries without an outbox message never match.
   */
  function GetByOutboxMessageId(audit: seq<AuditRow>, outboxMessageId: Guid): (r: seq<AuditRow>)
    ensures forall i :: 0 <= i < |r| ==> r[i].outboxMessageId == Some(outboxMessageId)
  {
    Seqs.Filter(audit, ForMessage(outboxMessageId))
  }

  /** Every linked entry of the table is listed, and only entries of the table are. */
  lemma GetByOutboxMessageIdIsComplete(audit: seq<AuditRow>, outboxMessageId: Guid)
    ensures forall i :: 0 <= i < |audit| && audit[i].outboxMessageId == Some(outboxMessageId) ==>
      audit[i] in GetByOutboxMessageId(audit, outboxMessageId)
    ensures multiset(GetByOutboxMessageId(audit, outboxMessageId)) <= multiset(audit)
  {
    Seqs.FilterKeepsMatches(audit, ForMessage(outboxMessageId));
  }
}
