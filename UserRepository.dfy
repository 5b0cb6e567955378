/**
 * ScimUserRepository (ScimProvisioning.Infrastructure/Repositories/ScimUserRepository.cs):
 * first-match lookups on the users table, the filtered and paged listing,
 * and Add, Update and Delete, which only stage a write in the unit of work's
 * change tracker. The queries read the table the context sees
 * (`uow.current.users`), passed in as `users`.
 */
module UserRepository {
  import opened Common
  import opened Text
  import Seqs
  import opened Users
  import opened Store
  import opened Filters

  /** The first row satisfying p, as FirstOrDefaultAsync returns it. */
  function FirstWhere(users: seq<UserRow>, p: UserRow -> bool): (r: Option<UserRow>)
    ensures r.Some? ==> r.value in users && p(r.value)
    ensures r.None? <==> forall i :: 0 <= i < |users| ==> !p(users[i])
  {
    var k := Seqs.FirstIndex(users, p);
    if k.None? then None else Some(users[k.value])
  }

  /** GetByIdAsync: FirstOrDefaultAsync(u => u.Id == id). */
  function GetById(users: seq<UserRow>, id: Guid): (r: Option<UserRow>)
    ensures r.Some? ==> r.value in users && r.value.id == id
    ensures r.None? <==> forall i :: 0 <= i < |users| ==> users[i].id != id
  {
    FirstWhere(users, (u: UserRow) => u.id == id)
  }

  /**
   * GetByExternalIdAsync: FirstOrDefaultAsync(u => u.ExternalId == externalId). The model compares
   * strings exactly; SQL Server's `=` pads trailing spaces and follows the column collation.
   */
  function GetByExternalId(users: seq<UserRow>, externalId: string): (r: Option<UserRow>)
    ensures r.Some? ==> r.value in users && r.value.externalId == externalId
    ensures r.None? <==> forall i :: 0 <= i < |users| ==> users[i].externalId != externalId
  {
    FirstWhere(users, (u: UserRow) => u.externalId == externalId)
  }

  /**
   * GetByUserNameAsync: FirstOrDefaultAsync(u => u.UserName == userName). The model compares
   * strings exactly; SQL Server's `=` pads trailing spaces and follows the column collation.
   */
  function GetByUserName(users: seq<UserRow>, userName: string): (r: Option<UserRow>)
    ensures r.Some? ==> r.value in users && r.value.userName == userName
    ensures r.None? <==> forall i :: 0 <= i < |users| ==> users[i].userName != userName
  {
    FirstWhere(users, (u: UserRow) => u.userName == userName)
  }

  /**
   * With the key and unique indexes in place, each lookup by a stored row's
   * Id, ExternalId or UserName finds exactly that row.
   */
  lemma LookupsFindTheRow(users: seq<UserRow>, k: nat)
    requires UsersWellFormed(users) && k < |users|
    ensures GetById(users, users[k].id) == Some(users[k])
    ensures GetByExternalId(users, users[k].externalId) == Some(users[k])
    ensures GetByUserName(users, users[k].userName) == Some(users[k])
  {
    var u := GetById(users, users[k].id).value;
    var j :| 0 <= j < |users| && users[j] == u;
    assert j == k;
    u := GetByExternalId(users, users[k].externalId).value;
    j :| 0 <= j < |users| && users[j] == u;
    assert j == k;
    u := GetByUserName(users, users[k].userName).value;
    j :| 0 <= j < |users| && users[j] == u;
    assert j == k;
  }

  /** The lookup by Id agrees with the row the store updates or removes for that Id. */
  lemma GetByIdIsStoreRow(users: seq<UserRow>, id: Guid)
    requires UsersWellFormed(users)
    ensures GetById(users, id).None? <==> UserIndex(users, id).None?
    ensures UserIndex(users, id).Some? ==> GetById(users, id) == Some(users[UserIndex(users, id).value])
  {
    if UserIndex(users, id).Some? {
      LookupsFindTheRow(users, UserIndex(users, id).value);
    }
  }

  /** Where(u => u.UserName.Contains(value)); the model takes an ordinal substring test for SQL LIKE. */
  function NameContains(value: string): UserRow -> bool {
    (u: UserRow) => Contains(u.userName, value)
  }

  /** The rows ListAsync counts: all of them, or those whose UserName contains the search term. */
  function Matching(users: seq<UserRow>, filter: Option<string>): (r: seq<UserRow>)
    ensures SearchTerm(filter, "userName").None? ==> r == users
    ensures SearchTerm(filter, "userName").Some? ==>
      forall i :: 0 <= i < |r| ==> Contains(r[i].userName, SearchTerm(filter, "userName").value)
  {
    var term := SearchTerm(filter, "userName");
    if term.None? then users else Seqs.Filter(users, NameContains(term.value))
  }

  /** Every row ListAsync counts is a row of the table, and every row whose UserName contains the term is counted. */
  lemma MatchingIsComplete(users: seq<UserRow>, filter: Option<string>)
    ensures multiset(Matching(users, filter)) <= multiset(users)
    ensures SearchTerm(filter, "userName").Some? ==>
      forall i :: 0 <= i < |users| && Contains(users[i].userName, SearchTerm(filter, "userName").value) ==>
        users[i] in Matching(users, filter)
  {
    var term := SearchTerm(filter, "userName");
    if term.Some? {
      Seqs.FilterKeepsMatches(users, NameContains(term.value));
    }
  }

  datatype Page = Page(users: seq<UserRow>, totalCount: nat)

  function CreatedAt(u: UserRow): int { u.createdAt }

  /**
   * ListAsync(startIndex, count, filter): TotalCount counts every matching
   * row whatever the window; the page is the window of the matches ordered
   * by CreatedAt.
   */
  function List(users: seq<UserRow>, startIndex: int, count: int, filter: Option<string>): (p: Page)
    ensures p.totalCount == |Matching(users, filter)|
    ensures Seqs.IsWindow(p.users, Matching(users, filter), startIndex, count, CreatedAt)
    ensures Seqs.SortedBy(p.users, CreatedAt)
    ensures multiset(p.users) <= multiset(Matching(users, filter))
    ensures var rest := if startIndex <= 0 then p.totalCount else if startIndex >= p.totalCount then 0 else p.totalCount - startIndex;
      |p.users| == if count <= 0 then 0 else if count < rest then count else rest
    ensures startIndex <= 0 && count >= p.totalCount ==> multiset(p.users) == multiset(Matching(users, filter))
  {
    var matches := Matching(users, filter);
    Page(Seqs.Paginate(matches, startIndex, count, CreatedAt), |matches|)
  }

  /** Every listed user is a row of the table, and contains the search term when there is one. */
  lemma ListedUsersMatch(users: seq<UserRow>, startIndex: int, count: int, filter: Option<string>)
    ensures forall u :: u in List(users, startIndex, count, filter).users ==> u in users
    ensures SearchTerm(filter, "userName").Some? ==>
      forall u :: u in List(users, startIndex, count, filter).users ==>
        Contains(u.userName, SearchTerm(filter, "userName").value)
  {
    var page := List(users, startIndex, count, filter).users;
    var matches := Matching(users, filter);
    MatchingIsComplete(users, filter);
    forall u | u in page ensures u in matches && u in users {
      assert u in multiset(page);
      assert u in multiset(matches);
    }
  }

  /** AddAsync: the new user is tracked as Added; nothing is written yet. */
  method Add(uow: UnitOfWork, user: ScimUser)
    modifies uow`staged
    ensures uow.staged == old(uow.staged) + [AddUser(user.Row())]
  {
    uow.Stage(AddUser(user.Row()));
  }

  /** Update: the user is tracked as Modified, all columns. */
  method Update(uow: UnitOfWork, user: ScimUser)
    modifies uow`staged
    ensures uow.staged == old(uow.staged) + [UpdateUser(user.Row())]
  {
    uow.Stage(UpdateUser(user.Row()));
  }

  /** Delete: the user is tracked as Deleted. */
  method Delete(uow: UnitOfWork, user: ScimUser)
    modifies uow`staged
    ensures uow.staged == old(uow.staged) + [RemoveUser(user.Row())]
  {
    uow.Stage(RemoveUser(user.Row()));
  }
}
