/**
 * ScimGroupRepository (ScimProvisioning.Infrastructure/Repositories/ScimGroupRepository.cs):
 * first-match lookups on the groups table, the filtered and paged listing,
 * and Add, Update and Delete, which only stage a write in the unit of work's
 * change tracker. The queries read the table the context sees
 * (`uow.current.groups`), passed in as `groups`; a group row carries its
 * members, as Include(g => g.Members) loads them.
 */
module GroupRepository {
  import opened Common
  import opened Text
  import Seqs
  import opened Groups
  import opened Store
  import opened Filters

  /** The first row satisfying p, as FirstOrDefaultAsync returns it. */
  function FirstWhere(groups: seq<GroupRow>, p: GroupRow -> bool): (r: Option<GroupRow>)
    ensures r.Some? ==> r.value in groups && p(r.value)
    ensures r.None? <==> forall i :: 0 <= i < |groups| ==> !p(groups[i])
  {
    var k := Seqs.FirstIndex(groups, p);
    if k.None? then None else Some(groups[k.value])
  }

  /** GetByIdAsync: FirstOrDefaultAsync(g => g.Id == id), members included. */
  function GetById(groups: seq<GroupRow>, id: Guid): (r: Option<GroupRow>)
    ensures r.Some? ==> r.value in groups && r.value.id == id
    ensures r.None? <==> forall i :: 0 <= i < |groups| ==> groups[i].id != id
  {
    FirstWhere(groups, (g: GroupRow) => g.id == id)
  }

  /**
   * GetByExternalIdAsync: FirstOrDefaultAsync(g => g.ExternalId == externalId), members included.
   * The model compares strings exactly; SQL Server's `=` pads trailing spaces and follows the collation.
   */
  function GetByExternalId(groups: seq<GroupRow>, externalId: string): (r: Option<GroupRow>)
    ensures r.Some? ==> r.value in groups && r.value.externalId == externalId
    ensures r.None? <==> forall i :: 0 <= i < |groups| ==> groups[i].externalId != externalId
  {
    FirstWhere(groups, (g: GroupRow) => g.externalId == externalId)
  }

  /** With the key and unique index in place, a lookup by a stored row's Id or ExternalId finds exactly that row. */
  lemma LookupsFindTheRow(groups: seq<GroupRow>, k: nat)
    requires GroupsWellFormed(groups) && k < |groups|
    ensures GetById(groups, groups[k].id) == Some(groups[k])
    ensures GetByExternalId(groups, groups[k].externalId) == Some(groups[k])
  {
    var g := GetById(groups, groups[k].id).value;
    var j :| 0 <= j < |groups| && groups[j] == g;
    assert j == k;
    g := GetByExternalId(groups, groups[k].externalId).value;
    j :| 0 <= j < |groups| && groups[j] == g;
    assert j == k;
  }

  /** Where(g => g.DisplayName.Contains(value)); the model takes an ordinal substring test for SQL LIKE. */
  function NameContains(value: string): GroupRow -> bool {
    (g: GroupRow) => Contains(g.displayName, value)
  }

  /** The rows ListAsync counts: all of them, or those whose DisplayName contains the search term. */
  function Matching(groups: seq<GroupRow>, filter: Option<string>): (r: seq<GroupRow>)
    ensures SearchTerm(filter, "displayName").None? ==> r == groups
    ensures SearchTerm(filter, "displayName").Some? ==>
      forall i :: 0 <= i < |r| ==> Contains(r[i].displayName, SearchTerm(filter, "displayName").value)
  {
    var term := SearchTerm(filter, "displayName");
    if term.None? then groups else Seqs.Filter(groups, NameContains(term.value))
  }

  /** Every row ListAsync counts is a row of the table, and every row whose DisplayName contains the term is counted. */
  lemma MatchingIsComplete(groups: seq<GroupRow>, filter: Option<string>)
    ensures multiset(Matching(groups, filter)) <= multiset(groups)
    ensures SearchTerm(filter, "displayName").Some? ==>
      forall i :: 0 <= i < |groups| && Contains(groups[i].displayName, SearchTerm(filter, "displayName").value) ==>
        groups[i] in Matching(groups, filter)
  {
    var term := SearchTerm(filter, "displayName");
    if term.Some? {
      Seqs.FilterKeepsMatches(groups, NameContains(term.value));
    }
  }

  datatype Page = Page(groups: seq<GroupRow>, totalCount: nat)

  function CreatedAt(g: GroupRow): int { g.createdAt }

  /**
   * ListAsync(startIndex, count, filter): TotalCount counts every matching
   * row whatever the window; the page is the window of the matches ordered
   * by CreatedAt.
   */
  function List(groups: seq<GroupRow>, startIndex: int, count: int, filter: Option<string>): (p: Page)
    ensures p.totalCount == |Matching(groups, filter)|
    ensures Seqs.IsWindow(p.groups, Matching(groups, filter), startIndex, count, CreatedAt)
    ensures Seqs.SortedBy(p.groups, CreatedAt)
    ensures multiset(p.groups) <= multiset(Matching(groups, filter))
    ensures var rest := if startIndex <= 0 then p.totalCount else if startIndex >= p.totalCount then 0 else p.totalCount - startIndex;
      |p.groups| == if count <= 0 then 0 else if count < rest then count else rest
    ensures startIndex <= 0 && count >= p.totalCount ==> multiset(p.groups) == multiset(Matching(groups, filter))
  {
    var matches := Matching(groups, filter);
    Page(Seqs.Paginate(matches, startIndex, count, CreatedAt), |matches|)
  }

  /** Every listed group is a row of the table, and contains the search term when there is one. */
  lemma ListedGroupsMatch(groups: seq<GroupRow>, startIndex: int, count: int, filter: Option<string>)
    ensures forall g :: g in List(groups, startIndex, count, filter).groups ==> g in groups
    ensures SearchTerm(filter, "displayName").Some? ==>
      forall g :: g in List(groups, startIndex, count, filter).groups ==>
        Contains(g.displayName, SearchTerm(filter, "displayName").value)
  {
    var page := List(groups, startIndex, count, filter).groups;
    var matches := Matching(groups, filter);
    MatchingIsComplete(groups, filter);
    forall g | g in page ensures g in matches && g in groups {
      assert g in multiset(page);
      assert g in multiset(matches);
    }
  }

  /** AddAsync: the new group, with its members, is tracked as Added; nothing is written yet. */
  method Add(uow: UnitOfWork, group: ScimGroup)
    modifies uow`staged
    ensures uow.staged == old(uow.staged) + [AddGroup(group.Row())]
  {
    uow.Stage(AddGroup(group.Row()));
  }

  /** Update: the group and its member list are tracked as Modified. */
  method Update(uow: UnitOfWork, group: ScimGroup)
    modifies uow`staged
    ensures uow.staged == old(uow.staged) + [UpdateGroup(group.Row())]
  {
    uow.Stage(UpdateGroup(group.Row()));
  }

  /** Delete: the group is tracked as Deleted; its member rows go with it. */
  method Delete(uow: UnitOfWork, group: ScimGroup)
    modifies uow`staged
    ensures uow.staged == old(uow.staged) + [RemoveGroup(group.Row())]
  {
    uow.Stage(RemoveGroup(group.Row()));
  }
}
