/**
 * The user use cases that write: CreateUserUseCase, UpdateUserUseCase and
 * DeleteUserUseCase (ScimProvisioning.Application/UseCases/Users). Each runs
 * its checks against the committed tables, then the shared try block of
 * UseCaseFlow with its own write, event, audit action and failure prefix.
 * Fresh Guids and the clock are parameters; the request serialised as the
 * audit entry's change details is the string `details`.
 */
module UserUseCases {
  import opened Common
  import opened Text
  import opened DomainEvents
  import opened Users
  import opened AuditLogs
  import Store
  import UserRepository
  import opened UseCaseFlow

  const ExternalIdTaken := "User with this external ID already exists"
  const UserNotFound := "User not found"
  const CreateFailed := "Failed to create user: "
  const UpdateFailed := "Failed to update user: "
  const DeleteFailed := "Failed to delete user: "

  /** The Guids one CreateUser call draws: the user's Id, its event's Id, and those of the outbox row and audit entry. */
  datatype NewUserIds = NewUserIds(user: Guid, event: Guid, trail: TrailIds)

  /** The Guids one UpdateUser or DeleteUser call draws. */
  datatype ChangeIds = ChangeIds(event: Guid, trail: TrailIds)

  /** The audit constructor accepts the use cases' literal action and entity type for any aggregate but Guid.Empty. */
  lemma LiteralAuditArguments(action: string, entityType: string, id: Guid)
    requires |action| > 0 && !IsWhiteSpace(action[0]) && |entityType| > 0 && !IsWhiteSpace(entityType[0])
    ensures AuditLogs.CheckArguments(action, entityType, id).None? <==> id != EmptyGuid
  {
  }

  /** The columns of the user ScimUser.Create builds. */
  function NewUserRow(externalId: string, userName: string, displayName: string, primaryEmail: string,
                      id: Guid, now: DateTime): UserRow
  {
    UserRow(id, externalId, userName, displayName, primaryEmail, true, now, now)
  }

  /** The checks CreateUser makes before its try block, with their messages. */
  function CreatePrecheck(users: seq<UserRow>, externalId: string, userName: string, displayName: string,
                          primaryEmail: string): (r: Option<string>)
    ensures UserRepository.GetByExternalId(users, externalId).Some? ==> r == Some(ExternalIdTaken)
    ensures r.None? <==>
      (forall i :: 0 <= i < |users| ==> users[i].externalId != externalId)
      && CheckCreate(externalId, userName, displayName, primaryEmail).Success?
  {
    if UserRepository.GetByExternalId(users, externalId).Some? then Some(ExternalIdTaken)
    else if CheckCreate(externalId, userName, displayName, primaryEmail).Failure? then
      Some(CheckCreate(externalId, userName, displayName, primaryEmail).error)
    else None
  }

  /**
   * The try block of CreateUser over committed tables t reaches the commit
   * exactly when no fault strikes before it, the user's Id is not
   * Guid.Empty, the new row clashes with no user on Id, ExternalId or
   * UserName, and the outbox row's and audit entry's Ids are unused; what
   * it saves is the three rows appended.
   */
  lemma {:induction false} CreateUserCommits(t: Store.Tables, u: UserRow, eventId: Guid, details: string,
                                             ids: TrailIds, now: DateTime, fault: Option<Fault>)
    requires Store.WellFormed(t)
    ensures var e := UserEvent(UserProvisioned, eventId, now, u.id, u.externalId, u.userName);
      var s := TrailSave(t, Store.AddUser(u), e, "Created", "User", Some(details), ids, now);
      && (ReachesCommit(t, Store.AddUser(u), e, "Created", "User", Some(details), ids, now, fault) <==>
            && !FaultAt(fault, BeginStep) && !FaultAt(fault, SaveStep) && !FaultAt(fault, CommitStep)
            && u.id != EmptyGuid && Store.AdmitsUser(t.users, u)
            && Store.OutboxIdFree(t.outbox, ids.message) && Store.AuditIdFree(t.audit, ids.audit))
      && (s.Success? ==>
            s.value == t.(users := t.users + [u], outbox := t.outbox + [TrailOutbox(e, ids, now)],
                          audit := t.audit + [TrailAudit(e, "Created", "User", Some(details), ids, now)]))
  {
    var e := UserEvent(UserProvisioned, eventId, now, u.id, u.externalId, u.userName);
    LiteralAuditArguments("Created", "User", u.id);
    Store.SaveNewUser(t, u, TrailOutbox(e, ids, now), TrailAudit(e, "Created", "User", Some(details), ids, now));
  }

  /**
   * What the try block of CreateUser does for the user row u over committed
   * tables t, ending with committed tables `after` and failure message err (None on success): the row,
   * its UserProvisioned outbox row and its "Created" audit entry are
   * committed together or not at all. It succeeds exactly when no fault
   * strikes, the Id is not Guid.Empty, the row clashes with no user on Id,
   * ExternalId or UserName and the two new Ids are unused. After a fault
   * while marking, which strikes once the rows are committed, the committed
   * tables are left unstated.
   */
  ghost predicate Provisioned(t: Store.Tables, after: Store.Tables, u: UserRow, eventId: Guid, details: string,
                              ids: TrailIds, now: DateTime, fault: Option<Fault>, err: Option<string>)
  {
    var e := UserEvent(UserProvisioned, eventId, now, u.id, u.externalId, u.userName);
    var a := TrailAudit(e, "Created", "User", Some(details), ids, now);
    var added := t.(users := t.users + [u], outbox := t.outbox + [TrailOutbox(e, ids, now)], audit := t.audit + [a]);
    && (err.Some? <==> FirstError(t, Store.AddUser(u), e, "Created", "User", Some(details), ids, now, fault).Some?)
    && (err.Some? ==>
          err.value == CreateFailed + FirstError(t, Store.AddUser(u), e, "Created", "User", Some(details), ids, now, fault).value)
    && var commits := && u.id != EmptyGuid && Store.AdmitsUser(t.users, u)
                      && Store.OutboxIdFree(t.outbox, ids.message) && Store.AuditIdFree(t.audit, ids.audit);
    && (err.None? <==> fault.None? && commits)
    && (err.None? ==> after == added.(audit := t.audit + [a.(status := Succeeded)]))
    && (err.Some? && !(commits && FaultAt(fault, MarkStep)) ==> after == t)
  }

  /** The try block of CreateUser for the user row u. */
  method RecordNewUser(uow: Store.UnitOfWork, u: UserRow, eventId: Guid, details: string,
                       ids: TrailIds, now: DateTime, fault: Option<Fault>)
    returns (r: Result<()>)
    requires uow.Valid() && uow.Idle()
    modifies uow`committed, uow`current, uow`staged, uow`inTransaction
    ensures uow.Valid() && uow.Idle() && uow.current == uow.committed
    ensures Provisioned(old(uow.committed), uow.committed, u, eventId, details, ids, now, fault, ErrorOf(r))
  {
    ghost var t := uow.committed;
    var e := UserEvent(UserProvisioned, eventId, now, u.id, u.externalId, u.userName);
    r := RecordChange(uow, Store.AddUser(u), e, "Created", "User", Some(details), ids, now, fault, CreateFailed);
    CreateUserCommits(t, u, eventId, details, ids, now, fault);
    MarkAppended(t.(users := t.users + [u], outbox := t.outbox + [TrailOutbox(e, ids, now)]),
                 TrailAudit(e, "Created", "User", Some(details), ids, now));
  }

  /**
   * The steps of CreateUser before its try block: the lookup by ExternalId,
   * then ScimUser.Create; the first that fails gives the failure.
   */
  method CheckAndBuild(users: seq<UserRow>, externalId: string, userName: string, displayName: string,
                       primaryEmail: string, ids: NewUserIds, now: DateTime)
    returns (r: Result<ScimUser>)
    ensures r.Failure? <==> CreatePrecheck(users, externalId, userName, displayName, primaryEmail).Some?
    ensures r.Failure? ==> r.error == CreatePrecheck(users, externalId, userName, displayName, primaryEmail).value
    ensures r.Success? ==>
      && fresh(r.value) && fresh(r.value.entity)
      && r.value.Row() == NewUserRow(externalId, userName, displayName, primaryEmail, ids.user, now)
  {
    var existing := UserRepository.GetByExternalId(users, externalId);
    if existing.Some? {
      return Failure(ExternalIdTaken);
    }
    r := ScimUser.Create(externalId, userName, displayName, primaryEmail, ids.user, now, ids.event);
  }

  /**
   * CreateUserUseCase.ExecuteAsync. A taken ExternalId or a request
   * ScimUser.Create refuses fails with that message and changes nothing.
   * Otherwise the user, its UserProvisioned outbox row and its "Created"
   * audit entry are committed together or not at all; on success the entry
   * is marked Success, the user's events are cleared and the user returned.
   */
  method CreateUser(uow: Store.UnitOfWork, externalId: string, userName: string, displayName: string,
                    primaryEmail: string, details: string, ids: NewUserIds, now: DateTime, fault: Option<Fault>)
    returns (r: Result<ScimUser>)
    requires uow.Valid() && uow.Idle()
    modifies uow`committed, uow`current, uow`staged, uow`inTransaction
    ensures uow.Valid() && uow.Idle() && uow.current == uow.committed
    ensures var check := CreatePrecheck(old(uow.committed).users, externalId, userName, displayName, primaryEmail);
      && (check.Some? ==> r == Failure(check.value) && uow.committed == old(uow.committed))
      && (check.None? ==>
            Provisioned(old(uow.committed), uow.committed, NewUserRow(externalId, userName, displayName, primaryEmail, ids.user, now),
                        ids.event, details, ids.trail, now, fault, ErrorOf(r)))
    ensures r.Success? ==> fresh(r.value) && r.value.Row() == NewUserRow(externalId, userName, displayName, primaryEmail, ids.user, now)
    ensures r.Success? ==> r.value.entity.domainEvents == []
  {
    var created := CheckAndBuild(uow.current.users, externalId, userName, displayName, primaryEmail, ids, now);
    if created.Failure? {
      return Failure(created.error);
    }
    var user := created.value;
    var row := user.Row();
    assert row == NewUserRow(externalId, userName, displayName, primaryEmail, ids.user, now);
    var recorded := RecordNewUser(uow, row, ids.event, details, ids.trail, now, fault);
    if recorded.Failure? {
      return Failure(recorded.error);
    }
    user.entity.ClearDomainEvents();
    return Success(user);
  }

  /** The columns of the stored user `row` after ScimUser.Update with these arguments succeeds. */
  function UpdatedRow(row: UserRow, displayName: Option<string>, primaryEmail: Option<string>, active: Option<bool>,
                      now: DateTime): (u: UserRow)
    ensures u.id == row.id && u.externalId == row.externalId && u.userName == row.userName && u.createdAt == row.createdAt
  {
    row.(displayName := if IsNullOrWhiteSpace(displayName) then row.displayName else displayName.value,
         primaryEmail := if IsNullOrWhiteSpace(primaryEmail) then row.primaryEmail else primaryEmail.value,
         active := if active.Some? then active.value else row.active,
         modifiedAt := now)
  }

  /** The columns of the stored user `row` after ScimUser.Delete: a soft delete. */
  function DeletedRow(row: UserRow, now: DateTime): (u: UserRow)
    ensures u.id == row.id && u.externalId == row.externalId && u.userName == row.userName && u.createdAt == row.createdAt
    ensures !u.active
  {
    row.(active := false, modifiedAt := now)
  }

  /** u replaces the stored row with its Id, keeping that row's ExternalId and UserName. */
  ghost predicate ReplacesStoredRow(t: Store.Tables, u: UserRow) {
    && Store.UserIndex(t.users, u.id).Some?
    && t.users[Store.UserIndex(t.users, u.id).value].externalId == u.externalId
    && t.users[Store.UserIndex(t.users, u.id).value].userName == u.userName
  }

  /**
   * The try block of UpdateUser or DeleteUser for the changed row u over
   * committed tables t, ending with committed tables `after` and failure message err (None on success):
   * the row replaces the stored one in place, together with the event's
   * outbox row and the audit entry, or nothing is committed. It succeeds
   * exactly when no fault strikes, the Id is not Guid.Empty and the two new
   * Ids are unused. After a fault while marking, once the change is
   * committed, the committed tables are left unstated.
   */
  ghost predicate Changed(t: Store.Tables, after: Store.Tables, u: UserRow, kind: UserEventKind, eventId: Guid,
                          action: string, details: Option<string>, ids: TrailIds, now: DateTime, fault: Option<Fault>,
                          prefix: string, err: Option<string>)
    requires ReplacesStoredRow(t, u)
  {
    var k := Store.UserIndex(t.users, u.id).value;
    var e := UserEvent(kind, eventId, now, u.id, u.externalId, u.userName);
    var a := TrailAudit(e, action, "User", details, ids, now);
    var changed := t.(users := t.users[k := u], outbox := t.outbox + [TrailOutbox(e, ids, now)], audit := t.audit + [a]);
    && (err.Some? <==> FirstError(t, Store.UpdateUser(u), e, action, "User", details, ids, now, fault).Some?)
    && (err.Some? ==>
          err.value == prefix + FirstError(t, Store.UpdateUser(u), e, action, "User", details, ids, now, fault).value)
    && var commits := u.id != EmptyGuid && Store.OutboxIdFree(t.outbox, ids.message) && Store.AuditIdFree(t.audit, ids.audit);
    && (err.None? <==> fault.None? && commits)
    && (err.None? ==> after == changed.(audit := t.audit + [a.(status := Succeeded)]))
    && (err.Some? && !(commits && FaultAt(fault, MarkStep)) ==> after == t)
  }

  /**
   * The try block of UpdateUser or DeleteUser over committed tables t, for
   * a row u that keeps the stored row's identity, reaches the commit exactly
   * when no fault strikes before it, the Id is not Guid.Empty and the outbox
   * row's and audit entry's Ids are unused; what it saves is the row
   * replaced in place and the two rows appended.
   */
  lemma {:induction false} ChangeUserCommits(t: Store.Tables, u: UserRow, kind: UserEventKind, eventId: Guid,
                                             action: string, details: Option<string>, ids: TrailIds, now: DateTime,
                                             fault: Option<Fault>)
    requires Store.WellFormed(t) && ReplacesStoredRow(t, u)
    requires |action| > 0 && !IsWhiteSpace(action[0])
    ensures var k := Store.UserIndex(t.users, u.id).value;
      var e := UserEvent(kind, eventId, now, u.id, u.externalId, u.userName);
      var s := TrailSave(t, Store.UpdateUser(u), e, action, "User", details, ids, now);
      && (ReachesCommit(t, Store.UpdateUser(u), e, action, "User", details, ids, now, fault) <==>
            && !FaultAt(fault, BeginStep) && !FaultAt(fault, SaveStep) && !FaultAt(fault, CommitStep)
            && u.id != EmptyGuid && Store.OutboxIdFree(t.outbox, ids.message) && Store.AuditIdFree(t.audit, ids.audit))
      && (s.Success? ==>
            s.value == t.(users := t.users[k := u], outbox := t.outbox + [TrailOutbox(e, ids, now)],
                          audit := t.audit + [TrailAudit(e, action, "User", details, ids, now)]))
  {
    var k := Store.UserIndex(t.users, u.id).value;
    var e := UserEvent(kind, eventId, now, u.id, u.externalId, u.userName);
    LiteralAuditArguments(action, "User", u.id);
    Store.SaveChangedUser(t, k, u, TrailOutbox(e, ids, now), TrailAudit(e, action, "User", details, ids, now));
  }

  /** The try block of UpdateUser or DeleteUser for the changed row u. */
  method RecordChangedUser(uow: Store.UnitOfWork, u: UserRow, kind: UserEventKind, eventId: Guid, action: string,
                           details: Option<string>, ids: TrailIds, now: DateTime, fault: Option<Fault>, prefix: string)
    returns (r: Result<()>)
    requires uow.Valid() && uow.Idle() && ReplacesStoredRow(uow.committed, u)
    requires |action| > 0 && !IsWhiteSpace(action[0])
    modifies uow`committed, uow`current, uow`staged, uow`inTransaction
    ensures uow.Valid() && uow.Idle() && uow.current == uow.committed
    ensures Changed(old(uow.committed), uow.committed, u, kind, eventId, action, details, ids, now, fault, prefix, ErrorOf(r))
  {
    ghost var t := uow.committed;
    ghost var k := Store.UserIndex(t.users, u.id).value;
    var e := UserEvent(kind, eventId, now, u.id, u.externalId, u.userName);
    r := RecordChange(uow, Store.UpdateUser(u), e, action, "User", details, ids, now, fault, prefix);
    ChangeUserCommits(t, u, kind, eventId, action, details, ids, now, fault);
    MarkAppended(t.(users := t.users[k := u], outbox := t.outbox + [TrailOutbox(e, ids, now)]),
                 TrailAudit(e, action, "User", details, ids, now));
  }

  /** The aggregate step of UpdateUserUseCase: the loaded row rehydrated, then ScimUser.Update. */
  method UpdateLoaded(found: UserRow, displayName: Option<string>, primaryEmail: Option<string>,
                      active: Option<bool>, now: DateTime, eventId: Guid)
    returns (user: ScimUser, r: Result<()>)
    ensures fresh(user) && fresh(user.entity) && user.Valid() && r.Valid()
    ensures r.Failure? <==> !IsNullOrWhiteSpace(primaryEmail) && Emails.Create(primaryEmail.value, true).Failure?
    ensures r.Failure? ==> primaryEmail.Some? && r.error == Emails.Create(primaryEmail.value, true).error
    ensures r.Success? ==> user.Row() == UpdatedRow(found, displayName, primaryEmail, active, now)
  {
    user := new ScimUser.FromRow(found);
    r := user.Update(displayName, primaryEmail, active, now, eventId);
  }

  /**
   * UpdateUserUseCase.ExecuteAsync. An Id with no user fails with "User not
   * found", and a primary email ScimUser.Update refuses fails with
   * Email.Create's message; neither changes anything. Otherwise the updated
   * row replaces the stored one, with its UserUpdated outbox row and its
   * "Updated" audit entry, together or not at all.
   */
  method UpdateUser(uow: Store.UnitOfWork, userId: Guid, displayName: Option<string>, primaryEmail: Option<string>,
                    active: Option<bool>, details: string, ids: ChangeIds, now: DateTime, fault: Option<Fault>)
    returns (r: Result<ScimUser>)
    requires uow.Valid() && uow.Idle()
    modifies uow`committed, uow`current, uow`staged, uow`inTransaction
    ensures uow.Valid() && uow.Idle() && uow.current == uow.committed
    ensures var found := UserRepository.GetById(old(uow.committed).users, userId);
      var refused := !IsNullOrWhiteSpace(primaryEmail) && Emails.Create(primaryEmail.value, true).Failure?;
      && (found.None? ==> r == Failure(UserNotFound) && uow.committed == old(uow.committed))
      && (found.Some? && refused ==>
            r == Failure(Emails.Create(primaryEmail.value, true).error) && uow.committed == old(uow.committed))
      && (found.Some? && !refused ==>
            && ReplacesStoredRow(old(uow.committed), UpdatedRow(found.value, displayName, primaryEmail, active, now))
            && Changed(old(uow.committed), uow.committed, UpdatedRow(found.value, displayName, primaryEmail, active, now),
                       UserUpdated, ids.event, "Updated", Some(details), ids.trail, now, fault, UpdateFailed,
                       ErrorOf(r)))
    ensures r.Success? ==> fresh(r.value) && r.value.entity.domainEvents == []
  {
    ghost var t := uow.committed;
    var found := UserRepository.GetById(uow.current.users, userId);
    if found.None? {
      return Failure(UserNotFound);
    }
    UserRepository.GetByIdIsStoreRow(t.users, userId);
    var user, updated := UpdateLoaded(found.value, displayName, primaryEmail, active, now, ids.event);
    if updated.Failure? {
      return Failure(updated.error);
    }
    var row := user.Row();
    var recorded := RecordChangedUser(uow, row, UserUpdated, ids.event, "Updated", Some(details), ids.trail, now, fault,
                                      UpdateFailed);
    if recorded.Failure? {
      return Failure(recorded.error);
    }
    user.entity.ClearDomainEvents();
    return Success(user);
  }

  /**
   * DeleteUserUseCase.ExecuteAsync: a soft delete. An Id with no user fails
   * with "User not found" and changes nothing. Otherwise the row, now
   * inactive, replaces the stored one, with its UserDeleted outbox row and
   * its "Deleted" audit entry (no change details), together or not at all.
   */
  method DeleteUser(uow: Store.UnitOfWork, userId: Guid, ids: ChangeIds, now: DateTime, fault: Option<Fault>)
    returns (r: Result<()>)
    requires uow.Valid() && uow.Idle()
    modifies uow`committed, uow`current, uow`staged, uow`inTransaction
    ensures uow.Valid() && uow.Idle() && uow.current == uow.committed
    ensures var found := UserRepository.GetById(old(uow.committed).users, userId);
      && (found.None? ==> r == Failure(UserNotFound) && uow.committed == old(uow.committed))
      && (found.Some? ==>
            && ReplacesStoredRow(old(uow.committed), DeletedRow(found.value, now))
            && Changed(old(uow.committed), uow.committed, DeletedRow(found.value, now), UserDeleted, ids.event,
                       "Deleted", None, ids.trail, now, fault, DeleteFailed, ErrorOf(r)))
  {
    ghost var t := uow.committed;
    var found := UserRepository.GetById(uow.current.users, userId);
    if found.None? {
      return Failure(UserNotFound);
    }
    UserRepository.GetByIdIsStoreRow(t.users, userId);
    var user := new ScimUser.FromRow(found.value);
    user.Delete(now, ids.event);
    var row := user.Row();
    assert row == DeletedRow(found.value, now);
    r := RecordChangedUser(uow, row, UserDeleted, ids.event, "Deleted", None, ids.trail, now, fault, DeleteFailed);
    if r.Success? {
      user.entity.ClearDomainEvents();
    }
  }
}
