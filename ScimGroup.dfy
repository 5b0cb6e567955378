/**
 * The ScimGroup aggregate and its GroupMember entries
 * (ScimProvisioning.Core/Entities/ScimGroup.cs): a factory with two ordered
 * checks, Update and Delete, which reassign fields and queue one event each,
 * and AddMember and RemoveMember, which change the member list in place.
 * Guid.NewGuid() and DateTime.UtcNow are the parameters `id`, `eventId` and
 * `now`; one call reads the clock once.
 */
module Groups {
  import opened Common
  import opened Text
  import opened DomainEvents
  import opened BaseEntities
  import Seqs

  const ExternalIdRequired := "External ID is required"
  const DisplayNameRequired := "Display name is required"
  const MemberExists := "Member already exists in the group"
  const MemberNotFound := "Member not found in the group"

  /** GroupMember: GroupId, UserId, DisplayName and AddedAt, all set once by its constructor. */
  datatype GroupMember = GroupMember(groupId: Guid, userId: Guid, displayName: string, addedAt: DateTime)

  /** The columns the store keeps for a group, with its member rows (loaded by Include). */
  datatype GroupRow = GroupRow(
    id: Guid, externalId: string, displayName: string,
    createdAt: DateTime, modifiedAt: DateTime, members: seq<GroupMember>)

  /** Some member has this UserId. */
  predicate HasMember(members: seq<GroupMember>, userId: Guid) {
    exists i :: 0 <= i < |members| && members[i].userId == userId
  }

  /** No two members share a UserId. */
  predicate DistinctUserIds(members: seq<GroupMember>) {
    forall i, j :: 0 <= i < j < |members| ==> members[i].userId != members[j].userId
  }

  /** Every member belongs to the group `groupId` and none is listed twice. */
  predicate MembersOf(members: seq<GroupMember>, groupId: Guid) {
    DistinctUserIds(members) && forall i :: 0 <= i < |members| ==> members[i].groupId == groupId
  }

  /** FirstOrDefault(m => m.UserId == userId), as the index of that member. */
  function MemberIndex(members: seq<GroupMember>, userId: Guid): (r: Option<nat>)
    ensures r.Some? ==> r.value < |members| && members[r.value].userId == userId
    ensures r.Some? ==> forall j :: 0 <= j < r.value ==> members[j].userId != userId
    ensures r.None? <==> !HasMember(members, userId)
  {
    if members == [] then None
    else if members[0].userId == userId then Some(0)
    else
      var r := MemberIndex(members[1..], userId);
      assert forall j :: 1 <= j < |members| ==> members[j] == members[1..][j - 1];
      if r.Some? then Some(r.value + 1) else None
  }

  /** Appending a member whose UserId is new keeps the list free of duplicates. */
  lemma AppendKeepsDistinct(members: seq<GroupMember>, m: GroupMember)
    requires DistinctUserIds(members) && !HasMember(members, m.userId)
    ensures DistinctUserIds(members + [m])
  {
    var s := members + [m];
    forall i, j | 0 <= i < j < |s| ensures s[i].userId != s[j].userId {
      if j == |members| {
        assert s[i] == members[i];
      } else {
        assert s[i] == members[i] && s[j] == members[j];
      }
    }
  }

  /**
   * Removing the member at k from a duplicate-free list keeps it duplicate
   * free, and that member's UserId is then absent.
   */
  lemma RemoveKeepsDistinct(members: seq<GroupMember>, k: nat)
    requires k < |members| && DistinctUserIds(members)
    ensures DistinctUserIds(Seqs.RemoveAt(members, k))
    ensures !HasMember(Seqs.RemoveAt(members, k), members[k].userId)
  {
    var r := Seqs.RemoveAt(members, k);
    forall i, j | 0 <= i < j < |r| ensures r[i].userId != r[j].userId {
      var i', j' := if i < k then i else i + 1, if j < k then j else j + 1;
      assert r[i] == members[i'] && r[j] == members[j'];
    }
    forall i | 0 <= i < |r| ensures r[i].userId != members[k].userId {
      var i' := if i < k then i else i + 1;
      assert r[i] == members[i'];
    }
  }

  /**
   * AddMember(u) then RemoveMember(u) on a group without u: the lookup finds
   * the appended entry, and removing it gives back the original list.
   */
  lemma AddThenRemoveRestores(members: seq<GroupMember>, m: GroupMember)
    requires !HasMember(members, m.userId)
    ensures MemberIndex(members + [m], m.userId) == Some(|members|)
    ensures Seqs.RemoveAt(members + [m], |members|) == members
  {
    var s := members + [m];
    var r := MemberIndex(s, m.userId);
    assert s[|members|].userId == m.userId;
    assert r.Some?;
    assert forall j :: 0 <= j < |members| ==> s[j] == members[j];
    Seqs.RemoveAppended(members, m);
  }

  /**
   * The checks of ScimGroup.Create, in their order: ExternalId, then
   * DisplayName, must be non-blank; the first failure's message is the result.
   */
  function CheckCreate(externalId: string, displayName: string): (r: Result<()>)
    ensures r.Valid()
    ensures IsBlank(externalId) ==> r == Failure(ExternalIdRequired)
    ensures !IsBlank(externalId) && IsBlank(displayName) ==> r == Failure(DisplayNameRequired)
    ensures r.Success? <==> !IsBlank(externalId) && !IsBlank(displayName)
  {
    if IsBlank(externalId) then Fail(ExternalIdRequired)
    else if IsBlank(displayName) then Fail(DisplayNameRequired)
    else Ok()
  }

  class ScimGroup {
    const entity: BaseEntity
    var externalId: string
    var displayName: string
    /** _members, in insertion order. */
    var members: seq<GroupMember>

    /** Members never holds two entries for one user, and every entry names this group. */
    predicate Valid()
      reads this, entity`id
    {
      MembersOf(members, entity.id)
    }

    /** The persisted columns of this group and its member rows. */
    function Row(): (row: GroupRow)
      reads this, entity`id, entity`createdAt, entity`modifiedAt
      ensures row.id == entity.id && row.externalId == externalId && row.displayName == displayName
      ensures row.createdAt == entity.createdAt && row.modifiedAt == entity.modifiedAt
      ensures row.members == members
    {
      GroupRow(entity.id, externalId, displayName, entity.createdAt, entity.modifiedAt, members)
    }

    /** The private constructor: Id and both timestamps fresh, no members, no events. */
    constructor (externalId: string, displayName: string, id: Guid, now: DateTime)
      ensures fresh(entity) && entity.domainEvents == []
      ensures Row() == GroupRow(id, externalId, displayName, now, now, [])
      ensures Valid()
    {
      entity := new BaseEntity(id, now);
      this.externalId := externalId;
      this.displayName := displayName;
      members := [];
    }

    /** A group as the store hands it back: its columns and members, no pending events. */
    constructor FromRow(row: GroupRow)
      ensures fresh(entity) && entity.domainEvents == []
      ensures Row() == row
      ensures Valid() <==> MembersOf(row.members, row.id)
    {
      entity := new BaseEntity(row.id, row.createdAt);
      externalId := row.externalId;
      displayName := row.displayName;
      members := row.members;
      new;
      entity.modifiedAt := row.modifiedAt;
    }

    /**
     * ScimGroup.Create: on success a fresh group with the given fields, no
     * members and exactly one GroupProvisioned event carrying its Id,
     * ExternalId and DisplayName; on failure the first failed check's message.
     */
    static method Create(externalId: string, displayName: string, id: Guid, now: DateTime, eventId: Guid)
      returns (r: Result<ScimGroup>)
      ensures r.Valid()
      ensures r.Success? <==> CheckCreate(externalId, displayName).Success?
      ensures r.Failure? ==> r.error == CheckCreate(externalId, displayName).error
      ensures r.Success? ==> fresh(r.value) && fresh(r.value.entity) && r.value.Valid()
      ensures r.Success? ==> r.value.Row() == GroupRow(id, externalId, displayName, now, now, [])
      ensures r.Success? ==>
        r.value.entity.domainEvents == [GroupEvent(GroupProvisioned, eventId, now, id, externalId, displayName)]
    {
      var check := CheckCreate(externalId, displayName);
      if check.IsFailure() {
        return Failure(check.error);
      }
      var group := new ScimGroup(externalId, displayName, id, now);
      group.entity.AddDomainEvent(GroupEvent(GroupProvisioned, eventId, now, id, externalId, displayName));
      return Success(group);
    }

    /**
     * ScimGroup.Update: always succeeds; a non-blank displayName overwrites
     * DisplayName, ModifiedAt is set and one GroupUpdated event carrying the
     * DisplayName after the update is queued. Members are untouched.
     */
    method Update(displayName: Option<string>, now: DateTime, eventId: Guid) returns (r: Result<()>)
      requires Valid()
      modifies this`displayName, entity`modifiedAt, entity`domainEvents
      ensures Valid() && r == Ok()
      ensures this.displayName == if IsNullOrWhiteSpace(displayName) then old(this.displayName) else displayName.value
      ensures entity.modifiedAt == now
      ensures entity.domainEvents ==
        old(entity.domainEvents) + [GroupEvent(GroupUpdated, eventId, now, entity.id, externalId, this.displayName)]
    {
      if !IsNullOrWhiteSpace(displayName) {
        this.displayName := displayName.value;
      }
      entity.modifiedAt := now;
      entity.AddDomainEvent(GroupEvent(GroupUpdated, eventId, now, entity.id, externalId, this.displayName));
      return Ok();
    }

    /**
     * ScimGroup.Delete: never fails; only ModifiedAt changes, and one
     * GroupDeleted event is queued. The group keeps its fields and members.
     */
    method Delete(now: DateTime, eventId: Guid)
      requires Valid()
      modifies entity`modifiedAt, entity`domainEvents
      ensures Valid()
      ensures entity.modifiedAt == now
      ensures entity.domainEvents ==
        old(entity.domainEvents) + [GroupEvent(GroupDeleted, eventId, now, entity.id, externalId, displayName)]
    {
      entity.modifiedAt := now;
      entity.AddDomainEvent(GroupEvent(GroupDeleted, eventId, now, entity.id, externalId, displayName));
    }

    /**
     * ScimGroup.AddMember: a userId already listed is refused and nothing
     * changes; otherwise one member of this group is appended and ModifiedAt
     * is set. No event is queued either way.
     */
    method AddMember(userId: Guid, displayName: string, now: DateTime) returns (r: Result<()>)
      requires Valid()
      modifies this`members, entity`modifiedAt
      ensures Valid() && r.Valid()
      ensures r.Failure? <==> HasMember(old(members), userId)
      ensures r.Failure? ==> r.error == MemberExists && members == old(members) && entity.modifiedAt == old(entity.modifiedAt)
      ensures r.Success? ==>
        members == old(members) + [GroupMember(entity.id, userId, displayName, now)] && entity.modifiedAt == now
    {
      if MemberIndex(members, userId).Some? {
        return Failure(MemberExists);
      }
      AppendKeepsDistinct(members, GroupMember(entity.id, userId, displayName, now));
      members := members + [GroupMember(entity.id, userId, displayName, now)];
      entity.modifiedAt := now;
      return Ok();
    }

    /**
     * ScimGroup.RemoveMember: an absent userId is refused and nothing changes;
     * otherwise exactly the member with that UserId is taken out, the others
     * keep their order, and ModifiedAt is set. No event is queued either way.
     */
    method RemoveMember(userId: Guid, now: DateTime) returns (r: Result<()>)
      requires Valid()
      modifies this`members, entity`modifiedAt
      ensures Valid() && r.Valid()
      ensures r.Failure? <==> !HasMember(old(members), userId)
      ensures r.Failure? ==> r.error == MemberNotFound && members == old(members) && entity.modifiedAt == old(entity.modifiedAt)
      ensures r.Success? ==>
        && MemberIndex(old(members), userId).Some?
        && members == Seqs.RemoveAt(old(members), MemberIndex(old(members), userId).value)
        && !HasMember(members, userId)
        && entity.modifiedAt == now
    {
      var k := MemberIndex(members, userId);
      if k.None? {
        return Failure(MemberNotFound);
      }
      RemoveKeepsDistinct(members, k.value);
      members := Seqs.RemoveAt(members, k.value);
      entity.modifiedAt := now;
      return Ok();
    }
  }
}
