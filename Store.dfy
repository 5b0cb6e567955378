/**
 * The persistence the repositories, services and use cases share: the
 * database tables as sequences of rows, the change tracker as a list of
 * staged writes, and the unit of work that saves, commits and rolls back.
 *
 * The IUnitOfWork implementation is not part of this model; UnitOfWork below
 * is the abstraction the use cases rely on. SaveChanges applies the staged
 * writes all at once or not at all: an update or removal of a row that is not
 * there fails like EF Core's concurrency check, and a result that breaks a
 * key or unique index
 * (ScimProvisioning.Infrastructure/Persistence/Configurations/EntityConfigurations.cs)
 * fails like a database constraint violation.
 */
module Store {
  import opened Common
  import Seqs
  import Users
  import Groups
  import OutboxMessages
  import AuditLogs

  /** The message of the DbUpdateException a constraint violation surfaces as. */
  const SaveFailed := "An error occurred while saving the entity changes. See the inner exception for details."
  /** The message of the DbUpdateConcurrencyException for an update or delete that matched no row. */
  const RowMissing :=
    "The database operation was expected to affect 1 row(s), but actually affected 0 row(s); data may have been modified or deleted since entities were loaded. See https://go.microsoft.com/fwlink/?LinkId=527962 for information on understanding and handling optimistic concurrency exceptions."

  datatype Tables = Tables(
    users: seq<Users.UserRow>,
    groups: seq<Groups.GroupRow>,
    outbox: seq<OutboxMessages.OutboxRow>,
    audit: seq<AuditLogs.AuditRow>)

  /** One entry of the change tracker: an Add, Update or Remove of one entity. */
  datatype Write =
    | AddUser(user: Users.UserRow) | UpdateUser(user: Users.UserRow) | RemoveUser(user: Users.UserRow)
    | AddGroup(group: Groups.GroupRow) | UpdateGroup(group: Groups.GroupRow) | RemoveGroup(group: Groups.GroupRow)
    | AddOutbox(message: OutboxMessages.OutboxRow) | UpdateOutbox(message: OutboxMessages.OutboxRow)
    | AddAudit(entry: AuditLogs.AuditRow) | UpdateAudit(entry: AuditLogs.AuditRow)

  // Keys and unique indexes

  /** Users: key Id, unique indexes on ExternalId and UserName (keys compared exactly in the model). */
  predicate UsersWellFormed(users: seq<Users.UserRow>) {
    forall i, j :: 0 <= i < j < |users| ==>
      users[i].id != users[j].id && users[i].externalId != users[j].externalId &&
      users[i].userName != users[j].userName
  }

  /**
   * Groups: key Id, unique index on ExternalId (compared exactly in the model), member key
   * (GroupId, UserId), members point at their group.
   */
  predicate GroupsWellFormed(groups: seq<Groups.GroupRow>) {
    && (forall i, j :: 0 <= i < j < |groups| ==>
          groups[i].id != groups[j].id && groups[i].externalId != groups[j].externalId)
    && (forall i :: 0 <= i < |groups| ==> Groups.MembersOf(groups[i].members, groups[i].id))
  }

  /** OutboxMessages: key Id. */
  predicate OutboxWellFormed(outbox: seq<OutboxMessages.OutboxRow>) {
    forall i, j :: 0 <= i < j < |outbox| ==> outbox[i].id != outbox[j].id
  }

  /** AuditLogs: key Id. */
  predicate AuditWellFormed(audit: seq<AuditLogs.AuditRow>) {
    forall i, j :: 0 <= i < j < |audit| ==> audit[i].id != audit[j].id
  }

  /** Every key and unique index of the schema holds. */
  predicate WellFormed(t: Tables) {
    UsersWellFormed(t.users) && GroupsWellFormed(t.groups) && OutboxWellFormed(t.outbox) && AuditWellFormed(t.audit)
  }

  /** A user row can join `users` without clashing on Id, ExternalId or UserName. */
  predicate AdmitsUser(users: seq<Users.UserRow>, u: Users.UserRow) {
    forall i :: 0 <= i < |users| ==>
      users[i].id != u.id && users[i].externalId != u.externalId && users[i].userName != u.userName
  }

  /** A group row can join `groups`: no clash on Id or ExternalId, and its members are its own. */
  predicate AdmitsGroup(groups: seq<Groups.GroupRow>, g: Groups.GroupRow) {
    && (forall i :: 0 <= i < |groups| ==> groups[i].id != g.id && groups[i].externalId != g.externalId)
    && Groups.MembersOf(g.members, g.id)
  }

  /** No outbox row has this Id. */
  predicate OutboxIdFree(outbox: seq<OutboxMessages.OutboxRow>, id: Guid) {
    forall i :: 0 <= i < |outbox| ==> outbox[i].id != id
  }

  /** No audit row has this Id. */
  predicate AuditIdFree(audit: seq<AuditLogs.AuditRow>, id: Guid) {
    forall i :: 0 <= i < |audit| ==> audit[i].id != id
  }

  // Lookups by key (DbSet.Find and FirstOrDefault on Id)

  function UserIndex(users: seq<Users.UserRow>, id: Guid): (r: Option<nat>)
    ensures r.Some? ==> r.value < |users| && users[r.value].id == id
    ensures r.None? <==> forall i :: 0 <= i < |users| ==> users[i].id != id
  {
    if users == [] then None
    else if users[|users| - 1].id == id then Some(|users| - 1)
    else UserIndex(users[..|users| - 1], id)
  }

  function GroupIndex(groups: seq<Groups.GroupRow>, id: Guid): (r: Option<nat>)
    ensures r.Some? ==> r.value < |groups| && groups[r.value].id == id
    ensures r.None? <==> forall i :: 0 <= i < |groups| ==> groups[i].id != id
  {
    if groups == [] then None
    else if groups[|groups| - 1].id == id then Some(|groups| - 1)
    else GroupIndex(groups[..|groups| - 1], id)
  }

  function OutboxIndex(outbox: seq<OutboxMessages.OutboxRow>, id: Guid): (r: Option<nat>)
    ensures r.Some? ==> r.value < |outbox| && outbox[r.value].id == id
    ensures r.None? <==> OutboxIdFree(outbox, id)
  {
    if outbox == [] then None
    else if outbox[|outbox| - 1].id == id then Some(|outbox| - 1)
    else OutboxIndex(outbox[..|outbox| - 1], id)
  }

  function AuditIndex(audit: seq<AuditLogs.AuditRow>, id: Guid): (r: Option<nat>)
    ensures r.Some? ==> r.value < |audit| && audit[r.value].id == id
    ensures r.None? <==> AuditIdFree(audit, id)
  {
    if audit == [] then None
    else if audit[|audit| - 1].id == id then Some(|audit| - 1)
    else AuditIndex(audit[..|audit| - 1], id)
  }

  // Applying the change tracker

  /** One write against the tables: an Add appends, an Update or Remove needs the row to be there. */
  function Apply(t: Tables, w: Write): (r: Result<Tables>)
    ensures r.Failure? ==> r.error == RowMissing
  {
    match w
    case AddUser(u) => Success(t.(users := t.users + [u]))
    case UpdateUser(u) =>
      var k := UserIndex(t.users, u.id);
      if k.None? then Failure(RowMissing) else Success(t.(users := t.users[k.value := u]))
    case RemoveUser(u) =>
      var k := UserIndex(t.users, u.id);
      if k.None? then Failure(RowMissing) else Success(t.(users := Seqs.RemoveAt(t.users, k.value)))
    case AddGroup(g) => Success(t.(groups := t.groups + [g]))
    case UpdateGroup(g) =>
      var k := GroupIndex(t.groups, g.id);
      if k.None? then Failure(RowMissing) else Success(t.(groups := t.groups[k.value := g]))
    case RemoveGroup(g) =>
      // the member rows go with the group (cascade delete)
      var k := GroupIndex(t.groups, g.id);
      if k.None? then Failure(RowMissing) else Success(t.(groups := Seqs.RemoveAt(t.groups, k.value)))
    case AddOutbox(m) => Success(t.(outbox := t.outbox + [m]))
    case UpdateOutbox(m) =>
      var k := OutboxIndex(t.outbox, m.id);
      if k.None? then Failure(RowMissing) else Success(t.(outbox := t.outbox[k.value := m]))
    case AddAudit(a) => Success(t.(audit := t.audit + [a]))
    case UpdateAudit(a) =>
      var k := AuditIndex(t.audit, a.id);
      if k.None? then Failure(RowMissing) else Success(t.(audit := t.audit[k.value := a]))
  }

  /**
   * What a user write does: an Add appends the row; an Update or a Remove
   * succeeds exactly when some row has its Id, and then replaces or removes
   * such a row. The other tables do not change.
   */
  lemma ApplyUserWrite(t: Tables, w: Write)
    ensures w.AddUser? ==> Apply(t, w) == Success(t.(users := t.users + [w.user]))
    ensures w.UpdateUser? || w.RemoveUser? ==>
      (Apply(t, w).Success? <==> exists i :: 0 <= i < |t.users| && t.users[i].id == w.user.id)
    ensures w.UpdateUser? && Apply(t, w).Success? ==>
      exists k :: 0 <= k < |t.users| && t.users[k].id == w.user.id &&
        Apply(t, w).value == t.(users := t.users[k := w.user])
    ensures w.RemoveUser? && Apply(t, w).Success? ==>
      exists k :: 0 <= k < |t.users| && t.users[k].id == w.user.id &&
        Apply(t, w).value == t.(users := Seqs.RemoveAt(t.users, k))
  {
    if w.UpdateUser? || w.RemoveUser? {
      var k := UserIndex(t.users, w.user.id);
      if k.Some? {
        assert t.users[k.value].id == w.user.id;
      }
    }
  }

  /**
   * What a group write does: an Add appends the row; an Update or a Remove
   * (which takes the member rows with it) succeeds exactly when some row has
   * its Id, and then replaces or removes such a row. The other tables do not
   * change.
   */
  lemma ApplyGroupWrite(t: Tables, w: Write)
    ensures w.AddGroup? ==> Apply(t, w) == Success(t.(groups := t.groups + [w.group]))
    ensures w.UpdateGroup? || w.RemoveGroup? ==>
      (Apply(t, w).Success? <==> exists i :: 0 <= i < |t.groups| && t.groups[i].id == w.group.id)
    ensures w.UpdateGroup? && Apply(t, w).Success? ==>
      exists k :: 0 <= k < |t.groups| && t.groups[k].id == w.group.id &&
        Apply(t, w).value == t.(groups := t.groups[k := w.group])
    ensures w.RemoveGroup? && Apply(t, w).Success? ==>
      exists k :: 0 <= k < |t.groups| && t.groups[k].id == w.group.id &&
        Apply(t, w).value == t.(groups := Seqs.RemoveAt(t.groups, k))
  {
    if w.UpdateGroup? || w.RemoveGroup? {
      var k := GroupIndex(t.groups, w.group.id);
      if k.Some? {
        assert t.groups[k.value].id == w.group.id;
      }
    }
  }

  /**
   * What an outbox or audit write does: an Add appends the row; an Update
   * succeeds exactly when some row has its Id, and then replaces such a row.
   * The other tables do not change.
   */
  lemma ApplyLogWrite(t: Tables, w: Write)
    ensures w.AddOutbox? ==> Apply(t, w) == Success(t.(outbox := t.outbox + [w.message]))
    ensures w.UpdateOutbox? ==>
      (Apply(t, w).Success? <==> exists i :: 0 <= i < |t.outbox| && t.outbox[i].id == w.message.id)
    ensures w.UpdateOutbox? && Apply(t, w).Success? ==>
      exists k :: 0 <= k < |t.outbox| && t.outbox[k].id == w.message.id &&
        Apply(t, w).value == t.(outbox := t.outbox[k := w.message])
    ensures w.AddAudit? ==> Apply(t, w) == Success(t.(audit := t.audit + [w.entry]))
    ensures w.UpdateAudit? ==>
      (Apply(t, w).Success? <==> exists i :: 0 <= i < |t.audit| && t.audit[i].id == w.entry.id)
    ensures w.UpdateAudit? && Apply(t, w).Success? ==>
      exists k :: 0 <= k < |t.audit| && t.audit[k].id == w.entry.id &&
        Apply(t, w).value == t.(audit := t.audit[k := w.entry])
  {
    if w.UpdateOutbox? {
      var k := OutboxIndex(t.outbox, w.message.id);
      if k.Some? {
        assert t.outbox[k.value].id == w.message.id;
      }
    } else if w.UpdateAudit? {
      var k := AuditIndex(t.audit, w.entry.id);
      if k.Some? {
        assert t.audit[k.value].id == w.entry.id;
      }
    }
  }

  /** The writes in order; the first that fails ends the batch. */
  function ApplyAll(t: Tables, ws: seq<Write>): (r: Result<Tables>)
    ensures r.Failure? ==> r.error == RowMissing
    decreases |ws|
  {
    if ws == [] then Success(t)
    else
      var r := Apply(t, ws[0]);
      if r.Failure? then r else ApplyAll(r.value, ws[1..])
  }

  /**
   * SaveChanges against the tables `t`: every staged write takes effect and
   * the result keeps every key and unique index, or nothing takes effect.
   */
  function Save(t: Tables, ws: seq<Write>): (r: Result<Tables>)
    ensures r.Valid()
    ensures r.Success? ==> WellFormed(r.value) && ApplyAll(t, ws) == r
    ensures r.Success? <==> ApplyAll(t, ws).Success? && WellFormed(ApplyAll(t, ws).value)
    ensures r.Failure? ==> r.error in {RowMissing, SaveFailed}
  {
    var r := ApplyAll(t, ws);
    if r.Failure? then r else if WellFormed(r.value) then r else Failure(SaveFailed)
  }

  /** Saving nothing leaves well-formed tables as they are. */
  lemma SaveNothing(t: Tables)
    requires WellFormed(t)
    ensures Save(t, []) == Success(t)
  {
  }

  /** Three writes apply one after the other. */
  lemma ApplyThree(t: Tables, w1: Write, w2: Write, w3: Write)
    ensures ApplyAll(t, [w1, w2, w3]) ==
      var r1 := Apply(t, w1);
      if r1.Failure? then r1
      else
        var r2 := Apply(r1.value, w2);
        if r2.Failure? then r2 else Apply(r2.value, w3)
  {
    var ws := [w1, w2, w3];
    assert ws[1..] == [w2, w3] && [w2, w3][1..] == [w3] && [w3][1..] == [];
    var r1 := Apply(t, w1);
    if r1.Success? {
      var r2 := Apply(r1.value, w2);
      if r2.Success? {
        var r3 := Apply(r2.value, w3);
        if r3.Success? {
          assert ApplyAll(r3.value, []) == r3;
        }
        assert ApplyAll(r2.value, [w3]) == r3;
      }
      assert ApplyAll(r1.value, [w2, w3]) == if r2.Failure? then r2 else Apply(r2.value, w3);
    }
  }

  /** Appending a user keeps the users well formed exactly when the row clashes with none. */
  lemma AddUserWellFormed(users: seq<Users.UserRow>, u: Users.UserRow)
    requires UsersWellFormed(users)
    ensures UsersWellFormed(users + [u]) <==> AdmitsUser(users, u)
  {
    var s := users + [u];
    if AdmitsUser(users, u) {
      forall i, j | 0 <= i < j < |s|
        ensures s[i].id != s[j].id && s[i].externalId != s[j].externalId && s[i].userName != s[j].userName
      {
        assert s[i] == users[i];
      }
    } else {
      var i :| 0 <= i < |users| &&
        !(users[i].id != u.id && users[i].externalId != u.externalId && users[i].userName != u.userName);
      assert s[i] == users[i] && s[|users|] == u;
    }
  }

  /** Appending a group keeps the groups well formed exactly when the row clashes with none. */
  lemma AddGroupWellFormed(groups: seq<Groups.GroupRow>, g: Groups.GroupRow)
    requires GroupsWellFormed(groups)
    ensures GroupsWellFormed(groups + [g]) <==> AdmitsGroup(groups, g)
  {
    var s := groups + [g];
    if AdmitsGroup(groups, g) {
      forall i, j | 0 <= i < j < |s| ensures s[i].id != s[j].id && s[i].externalId != s[j].externalId {
        assert s[i] == groups[i];
      }
      forall i | 0 <= i < |s| ensures Groups.MembersOf(s[i].members, s[i].id) {
        if i < |groups| {
          assert s[i] == groups[i];
        }
      }
    } else if !Groups.MembersOf(g.members, g.id) {
      assert s[|groups|] == g;
    } else {
      var i :| 0 <= i < |groups| && !(groups[i].id != g.id && groups[i].externalId != g.externalId);
      assert s[i] == groups[i] && s[|groups|] == g;
    }
  }

  /** Appending an outbox row keeps the keys distinct exactly when its Id is free. */
  lemma AddOutboxWellFormed(outbox: seq<OutboxMessages.OutboxRow>, m: OutboxMessages.OutboxRow)
    requires OutboxWellFormed(outbox)
    ensures OutboxWellFormed(outbox + [m]) <==> OutboxIdFree(outbox, m.id)
  {
    var s := outbox + [m];
    if !OutboxIdFree(outbox, m.id) {
      var i :| 0 <= i < |outbox| && outbox[i].id == m.id;
      assert s[i] == outbox[i] && s[|outbox|] == m;
    } else {
      forall i, j | 0 <= i < j < |s| ensures s[i].id != s[j].id {
        assert s[i] == outbox[i];
      }
    }
  }

  /** Appending an audit row keeps the keys distinct exactly when its Id is free. */
  lemma AddAuditWellFormed(audit: seq<AuditLogs.AuditRow>, a: AuditLogs.AuditRow)
    requires AuditWellFormed(audit)
    ensures AuditWellFormed(audit + [a]) <==> AuditIdFree(audit, a.id)
  {
    var s := audit + [a];
    if !AuditIdFree(audit, a.id) {
      var i :| 0 <= i < |audit| && audit[i].id == a.id;
      assert s[i] == audit[i] && s[|audit|] == a;
    } else {
      forall i, j | 0 <= i < j < |s| ensures s[i].id != s[j].id {
        assert s[i] == audit[i];
      }
    }
  }

  /** Overwriting a user row with one that keeps its Id, ExternalId and UserName keeps the users well formed. */
  lemma ReplaceUserWellFormed(users: seq<Users.UserRow>, k: nat, u: Users.UserRow)
    requires UsersWellFormed(users) && k < |users|
    requires u.id == users[k].id && u.externalId == users[k].externalId && u.userName == users[k].userName
    ensures UsersWellFormed(users[k := u])
  {
  }

  /** Overwriting an outbox row with one of the same Id keeps the keys distinct. */
  lemma ReplaceOutboxWellFormed(outbox: seq<OutboxMessages.OutboxRow>, k: nat, m: OutboxMessages.OutboxRow)
    requires OutboxWellFormed(outbox) && k < |outbox| && m.id == outbox[k].id
    ensures OutboxWellFormed(outbox[k := m])
  {
  }

  /** Overwriting an audit row with one of the same Id keeps the keys distinct. */
  lemma ReplaceAuditWellFormed(audit: seq<AuditLogs.AuditRow>, k: nat, a: AuditLogs.AuditRow)
    requires AuditWellFormed(audit) && k < |audit| && a.id == audit[k].id
    ensures AuditWellFormed(audit[k := a])
  {
  }

  /**
   * A use case's save: a new user, its outbox row and its audit entry go in
   * together exactly when none of them clashes with a stored row; otherwise
   * the save fails as a constraint violation and nothing changes.
   */
  lemma SaveNewUser(t: Tables, u: Users.UserRow, o: OutboxMessages.OutboxRow, a: AuditLogs.AuditRow)
    requires WellFormed(t)
    ensures Save(t, [AddUser(u), AddOutbox(o), AddAudit(a)]) ==
      if AdmitsUser(t.users, u) && OutboxIdFree(t.outbox, o.id) && AuditIdFree(t.audit, a.id)
      then Success(t.(users := t.users + [u], outbox := t.outbox + [o], audit := t.audit + [a]))
      else Failure(SaveFailed)
  {
    ApplyThree(t, AddUser(u), AddOutbox(o), AddAudit(a));
    var t' := t.(users := t.users + [u], outbox := t.outbox + [o], audit := t.audit + [a]);
    assert ApplyAll(t, [AddUser(u), AddOutbox(o), AddAudit(a)]) == Success(t');
    AddUserWellFormed(t.users, u);
    AddOutboxWellFormed(t.outbox, o);
    AddAuditWellFormed(t.audit, a);
    assert WellFormed(t') <==> AdmitsUser(t.users, u) && OutboxIdFree(t.outbox, o.id) && AuditIdFree(t.audit, a.id);
  }

  /** The same for a new group. */
  lemma SaveNewGroup(t: Tables, g: Groups.GroupRow, o: OutboxMessages.OutboxRow, a: AuditLogs.AuditRow)
    requires WellFormed(t)
    ensures Save(t, [AddGroup(g), AddOutbox(o), AddAudit(a)]) ==
      if AdmitsGroup(t.groups, g) && OutboxIdFree(t.outbox, o.id) && AuditIdFree(t.audit, a.id)
      then Success(t.(groups := t.groups + [g], outbox := t.outbox + [o], audit := t.audit + [a]))
      else Failure(SaveFailed)
  {
    ApplyThree(t, AddGroup(g), AddOutbox(o), AddAudit(a));
    var t' := t.(groups := t.groups + [g], outbox := t.outbox + [o], audit := t.audit + [a]);
    assert ApplyAll(t, [AddGroup(g), AddOutbox(o), AddAudit(a)]) == Success(t');
    AddGroupWellFormed(t.groups, g);
    AddOutboxWellFormed(t.outbox, o);
    AddAuditWellFormed(t.audit, a);
    assert WellFormed(t') <==> AdmitsGroup(t.groups, g) && OutboxIdFree(t.outbox, o.id) && AuditIdFree(t.audit, a.id);
  }

  /**
   * The same for a changed user that keeps its Id, ExternalId and UserName:
   * the row is overwritten in place, and only the new outbox row and audit
   * entry can clash.
   */
  lemma SaveChangedUser(t: Tables, k: nat, u: Users.UserRow, o: OutboxMessages.OutboxRow, a: AuditLogs.AuditRow)
    requires WellFormed(t) && k < |t.users|
    requires u.id == t.users[k].id && u.externalId == t.users[k].externalId && u.userName == t.users[k].userName
    ensures Save(t, [UpdateUser(u), AddOutbox(o), AddAudit(a)]) ==
      if OutboxIdFree(t.outbox, o.id) && AuditIdFree(t.audit, a.id)
      then Success(t.(users := t.users[k := u], outbox := t.outbox + [o], audit := t.audit + [a]))
      else Failure(SaveFailed)
  {
    ApplyThree(t, UpdateUser(u), AddOutbox(o), AddAudit(a));
    assert UserIndex(t.users, u.id) == Some(k);
    var t' := t.(users := t.users[k := u], outbox := t.outbox + [o], audit := t.audit + [a]);
    assert ApplyAll(t, [UpdateUser(u), AddOutbox(o), AddAudit(a)]) == Success(t');
    ReplaceUserWellFormed(t.users, k, u);
    AddOutboxWellFormed(t.outbox, o);
    AddAuditWellFormed(t.audit, a);
    assert WellFormed(t') <==> OutboxIdFree(t.outbox, o.id) && AuditIdFree(t.audit, a.id);
  }

  /**
   * Marking the audit entry a use case has just saved: it is the last row,
   * and overwriting it with a same-Id row always saves.
   */
  lemma SaveMarkedAudit(t: Tables, a: AuditLogs.AuditRow, marked: AuditLogs.AuditRow)
    requires WellFormed(t) && |t.audit| > 0 && t.audit[|t.audit| - 1] == a && marked.id == a.id
    ensures AuditIndex(t.audit, a.id) == Some(|t.audit| - 1)
    ensures Save(t, [UpdateAudit(marked)]) == Success(t.(audit := t.audit[|t.audit| - 1 := marked]))
  {
    var k := |t.audit| - 1;
    var t' := t.(audit := t.audit[k := marked]);
    var ws := [UpdateAudit(marked)];
    assert ws[0] == UpdateAudit(marked) && ws[1..] == [];
    assert Apply(t, ws[0]) == Success(t');
    assert ApplyAll(t', []) == Success(t');
    ReplaceAuditWellFormed(t.audit, k, marked);
    assert WellFormed(t');
  }

  /**
   * The database plus one DbContext: `committed` is what other readers see,
   * `current` what this context's queries see (committed, plus what it has
   * saved inside its open transaction), `staged` its change tracker.
   */
  class UnitOfWork {
    var committed: Tables
    var current: Tables
    var staged: seq<Write>
    var inTransaction: bool

    /** The database keeps its indexes, and outside a transaction the context sees what is committed. */
    ghost predicate Valid()
      reads this
    {
      WellFormed(committed) && WellFormed(current) && (!inTransaction ==> current == committed)
    }

    /** No transaction open and nothing staged: the state each request starts from. */
    predicate Idle()
      reads this
    {
      !inTransaction && staged == []
    }

    /** A fresh context over a database holding `t`. */
    constructor (t: Tables)
      requires WellFormed(t)
      ensures Valid() && Idle() && committed == t && current == t
    {
      committed := t;
      current := t;
      staged := [];
      inTransaction := false;
    }

    /** AddAsync / Update / Remove on a DbSet: the change is tracked, nothing is written. */
    method Stage(w: Write)
      modifies this`staged
      ensures staged == old(staged) + [w]
    {
      staged := staged + [w];
    }

    /** BeginTransactionAsync. */
    method BeginTransaction()
      requires Valid() && !inTransaction
      modifies this`inTransaction
      ensures Valid() && inTransaction
    {
      inTransaction := true;
    }

    /**
     * SaveChangesAsync: the staged writes take effect together or not at all.
     * Inside a transaction only this context sees them until Commit; outside
     * one they are committed at once. A failed save keeps the staged writes.
     */
    method SaveChanges() returns (r: Result<()>)
      requires Valid()
      modifies this`committed, this`current, this`staged
      ensures Valid() && r.Valid()
      ensures r.Success? <==> Save(old(current), old(staged)).Success?
      ensures r.Success? ==>
        && current == Save(old(current), old(staged)).value && staged == []
        && committed == (if inTransaction then old(committed) else current)
      ensures r.Failure? ==>
        && r.error == Save(old(current), old(staged)).error
        && current == old(current) && staged == old(staged) && committed == old(committed)
    {
      var s := Save(current, staged);
      if s.Failure? {
        return Failure(s.error);
      }
      current := s.value;
      staged := [];
      if !inTransaction {
        committed := current;
      }
      return Ok();
    }

    /** CommitTransactionAsync: what was saved in the transaction becomes visible to all. */
    method Commit()
      requires Valid() && inTransaction
      modifies this`committed, this`inTransaction
      ensures Valid() && !inTransaction && committed == current
    {
      committed := current;
      inTransaction := false;
    }

    /**
     * RollbackTransactionAsync: what was saved in the transaction is undone
     * and the change tracker is emptied.
     */
    method Rollback()
      requires Valid()
      modifies this`current, this`staged, this`inTransaction
      ensures Valid() && Idle() && current == committed
    {
      current := committed;
      staged := [];
      inTransaction := false;
    }
  }
}
