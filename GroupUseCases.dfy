/**
 * CreateGroupUseCase (ScimProvisioning.Application/UseCases/Groups/CreateGroupUseCase.cs):
 * checks against the committed tables, then the shared try block of
 * UseCaseFlow with the new group, its GroupProvisioned event and a
 * "Created" audit entry. Fresh Guids and the clock are parameters; the
 * request serialised as the audit entry's change details is `details`.
 */
module GroupUseCases {
  import opened Common
  import opened DomainEvents
  import opened Groups
  import opened AuditLogs
  import Store
  import GroupRepository
  import UserUseCases
  import opened UseCaseFlow

  const ExternalIdTaken := "Group with this external ID already exists"
  const CreateFailed := "Failed to create group: "

  /** The Guids one CreateGroup call draws: the group's Id, its event's Id, and those of the outbox row and audit entry. */
  datatype NewGroupIds = NewGroupIds(group: Guid, event: Guid, trail: TrailIds)

  /** The checks CreateGroup makes before its try block, with their messages. */
  function CreatePrecheck(groups: seq<GroupRow>, externalId: string, displayName: string): (r: Option<string>)
    ensures GroupRepository.GetByExternalId(groups, externalId).Some? ==> r == Some(ExternalIdTaken)
    ensures r.None? <==>
      (forall i :: 0 <= i < |groups| ==> groups[i].externalId != externalId) && CheckCreate(externalId, displayName).Success?
  {
    if GroupRepository.GetByExternalId(groups, externalId).Some? then Some(ExternalIdTaken)
    else if CheckCreate(externalId, displayName).Failure? then Some(CheckCreate(externalId, displayName).error)
    else None
  }

  /**
   * What the try block of CreateGroup does for the group row g over
   * committed tables t, ending with committed tables `after` and failure message err (None on success):
   * the group, its GroupProvisioned outbox row and its "Created" audit entry
   * are committed together or not at all. It succeeds exactly when no fault
   * strikes, the Id is not Guid.Empty, the row clashes with no group on Id
   * or ExternalId, its members are its own, and the two new Ids are unused.
   * After a fault while marking, once the rows are committed, the committed
   * tables are left unstated.
   */
  ghost predicate Provisioned(t: Store.Tables, after: Store.Tables, g: GroupRow, eventId: Guid, details: string,
                              ids: TrailIds, now: DateTime, fault: Option<Fault>, err: Option<string>)
  {
    var e := GroupEvent(GroupProvisioned, eventId, now, g.id, g.externalId, g.displayName);
    var a := TrailAudit(e, "Created", "Group", Some(details), ids, now);
    var added := t.(groups := t.groups + [g], outbox := t.outbox + [TrailOutbox(e, ids, now)], audit := t.audit + [a]);
    && (err.Some? <==> FirstError(t, Store.AddGroup(g), e, "Created", "Group", Some(details), ids, now, fault).Some?)
    && (err.Some? ==>
          err.value == CreateFailed + FirstError(t, Store.AddGroup(g), e, "Created", "Group", Some(details), ids, now, fault).value)
    && var commits := && g.id != EmptyGuid && Store.AdmitsGroup(t.groups, g)
                      && Store.OutboxIdFree(t.outbox, ids.message) && Store.AuditIdFree(t.audit, ids.audit);
    && (err.None? <==> fault.None? && commits)
    && (err.None? ==> after == added.(audit := t.audit + [a.(status := Succeeded)]))
    && (err.Some? && !(commits && FaultAt(fault, MarkStep)) ==> after == t)
  }

  /**
   * The try block of CreateGroup over committed tables t reaches the commit
   * exactly when no fault strikes before it, the group's Id is not
   * Guid.Empty, the row is admissible and the two new Ids are unused; what it
   * saves is the three rows appended.
   */
  lemma {:induction false} CreateGroupCommits(t: Store.Tables, g: GroupRow, eventId: Guid, details: string,
                                              ids: TrailIds, now: DateTime, fault: Option<Fault>)
    requires Store.WellFormed(t)
    ensures var e := GroupEvent(GroupProvisioned, eventId, now, g.id, g.externalId, g.displayName);
      var s := TrailSave(t, Store.AddGroup(g), e, "Created", "Group", Some(details), ids, now);
      && (ReachesCommit(t, Store.AddGroup(g), e, "Created", "Group", Some(details), ids, now, fault) <==>
            && !FaultAt(fault, BeginStep) && !FaultAt(fault, SaveStep) && !FaultAt(fault, CommitStep)
            && g.id != EmptyGuid && Store.AdmitsGroup(t.groups, g)
            && Store.OutboxIdFree(t.outbox, ids.message) && Store.AuditIdFree(t.audit, ids.audit))
      && (s.Success? ==>
            s.value == t.(groups := t.groups + [g], outbox := t.outbox + [TrailOutbox(e, ids, now)],
                          audit := t.audit + [TrailAudit(e, "Created", "Group", Some(details), ids, now)]))
  {
    var e := GroupEvent(GroupProvisioned, eventId, now, g.id, g.externalId, g.displayName);
    UserUseCases.LiteralAuditArguments("Created", "Group", g.id);
    Store.SaveNewGroup(t, g, TrailOutbox(e, ids, now), TrailAudit(e, "Created", "Group", Some(details), ids, now));
  }

  /** The try block of CreateGroup for the group row g. */
  method RecordNewGroup(uow: Store.UnitOfWork, g: GroupRow, eventId: Guid, details: string,
                        ids: TrailIds, now: DateTime, fault: Option<Fault>)
    returns (r: Result<()>)
    requires uow.Valid() && uow.Idle()
    modifies uow`committed, uow`current, uow`staged, uow`inTransaction
    ensures uow.Valid() && uow.Idle() && uow.current == uow.committed
    ensures Provisioned(old(uow.committed), uow.committed, g, eventId, details, ids, now, fault, ErrorOf(r))
  {
    ghost var t := uow.committed;
    var e := GroupEvent(GroupProvisioned, eventId, now, g.id, g.externalId, g.displayName);
    r := RecordChange(uow, Store.AddGroup(g), e, "Created", "Group", Some(details), ids, now, fault, CreateFailed);
    CreateGroupCommits(t, g, eventId, details, ids, now, fault);
    MarkAppended(t.(groups := t.groups + [g], outbox := t.outbox + [TrailOutbox(e, ids, now)]),
                 TrailAudit(e, "Created", "Group", Some(details), ids, now));
  }

  /**
   * CreateGroupUseCase.ExecuteAsync. A taken ExternalId or a request
   * ScimGroup.Create refuses fails with that message and changes nothing.
   * Otherwise the new group (no members), its GroupProvisioned outbox row
   * and its "Created" audit entry are committed together or not at all.
   */
  method CreateGroup(uow: Store.UnitOfWork, externalId: string, displayName: string, details: string,
                     ids: NewGroupIds, now: DateTime, fault: Option<Fault>)
    returns (r: Result<ScimGroup>)
    requires uow.Valid() && uow.Idle()
    modifies uow`committed, uow`current, uow`staged, uow`inTransaction
    ensures uow.Valid() && uow.Idle() && uow.current == uow.committed
    ensures var check := CreatePrecheck(old(uow.committed).groups, externalId, displayName);
      && (check.Some? ==> r == Failure(check.value) && uow.committed == old(uow.committed))
      && (check.None? ==>
            Provisioned(old(uow.committed), uow.committed, GroupRow(ids.group, externalId, displayName, now, now, []),
                        ids.event, details, ids.trail, now, fault, ErrorOf(r)))
    ensures r.Success? ==> fresh(r.value) && r.value.Row() == GroupRow(ids.group, externalId, displayName, now, now, [])
    ensures r.Success? ==> r.value.entity.domainEvents == []
  {
    var existing := GroupRepository.GetByExternalId(uow.current.groups, externalId);
    if existing.Some? {
      return Failure(ExternalIdTaken);
    }
    var created := ScimGroup.Create(externalId, displayName, ids.group, now, ids.event);
    if created.Failure? {
      return Failure(created.error);
    }
    var group := created.value;
    var row := group.Row();
    var recorded := RecordNewGroup(uow, row, ids.event, details, ids.trail, now, fault);
    if recorded.Failure? {
      return Failure(recorded.error);
    }
    group.entity.ClearDomainEvents();
    return Success(group);
  }
}
