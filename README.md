# SCIM provisioning core in Dafny

This project models the core of a SCIM 2.0 provisioning service and proves properties about it. The service receives users and groups from an identity provider and writes them to a relational store through Entity Framework. Every change is written in one transaction together with two other rows:

- an outbox message, which carries the domain event for later delivery;
- an audit entry, which is marked Success once the transaction has committed.

The modules follow the layers of the program:

- **Common, BaseEntities, DomainEvents.** The `Result` type, the entity base class with its list of domain events, and the six user and group events. The events come with their type name, their aggregate id and their JSON content.
- **Emails, PhoneNumbers.** The two value objects. Each has a `Create` factory (normalisation, regular-expression check, error messages) and its own notion of equality.
- **Users, Groups.** The `ScimUser` and `ScimGroup` aggregates. They are classes whose methods update their fields in place and raise domain events.
- **AuditLogs, OutboxMessages.** The audit entry and outbox message entities. Their constructors check their arguments.
- **Store.** The database as four tables (users, groups, outbox, audit), with the keys and unique indexes of the entity configuration.
  - A save applies the staged writes and fails when a key or unique index would break, or when a row to update is missing.
  - `UnitOfWork` is the transaction: staged writes, the current tables, the committed tables, begin, save, commit and rollback.
- **UserRepository, GroupRepository, Filters.** The lookups; the `ListAsync` query, with its filter, ordering and paging; and the simplified SCIM filter parser (`ExtractFilterValue`).
- **OutboxService, AuditLogService.** Publishing events as outbox rows; fetching unprocessed messages; marking an audit entry or an outbox message and saving.
- **UseCaseFlow, UserUseCases, GroupUseCases.** The create, update and delete use cases:
  - duplicate and not-found checks;
  - the aggregate's own checks;
  - then a protected region: begin, stage, save, commit, mark. Any exception in that region rolls back and yields a prefixed failure.
- **Validators.** The FluentValidation request validators.

Several things are parameters of the model:

- `Guid.NewGuid()` and `DateTime.UtcNow` values: each operation receives them as `Guid` (a `nat`, 0 being `Guid.Empty`) and `DateTime` (an `int`) arguments.
- Exceptions raised by the database: an optional `Fault` names the awaited step that throws (begin, save, commit, or marking the audit entry) and its message.
- FluentValidation's `EmailAddress()` check: the function `isEmail`.

The main results are these:

- **The protected region is all-or-nothing** (`UserUseCases.CreateUser`, `UserUseCases.UpdateUser`, `UserUseCases.DeleteUser`, `GroupUseCases.CreateGroup`). On success, the committed tables gain exactly three changes: the entity write, the outbox row of its one event, and the audit entry marked Success. When any step up to the commit fails, the committed tables are unchanged and the failure message is the use case's prefix followed by the first error. Success happens exactly when no fault strikes, the new row clashes with no unique index, and the fresh ids are unused.
- **Value objects.** Accepted emails are normalised, match the pattern and contain exactly one `@`. `Create` is idempotent on its own output, for emails and for phone numbers.
- **Group membership.** Member user ids stay distinct under `AddMember` and `RemoveMember`, and adding a member then removing it restores the list.
- **Store invariant.** The keys and unique indexes are preserved by every save that succeeds.
- **Queries.** Results are complete and sorted, and `ListAsync` returns a page of the filtered rows. `GetUnprocessedMessagesAsync` returns the oldest unprocessed messages.
- **Filter parser.** It extracts the quoted value of `attr eq 'value'` filters. A value that itself contains `eq` or `==` is cut short; the model proves that no extracted value contains either separator.
- **Serialised events.** The content of an event depends only on `EventId` and `OccurredAt`. It serialises through the `IDomainEvent` interface, so the aggregate's fields never reach the outbox content. Events with different ids have different contents.
- **Phone-number duplicates.** `ScimUser.AddPhoneNumber` detects duplicates by value only. `PhoneNumber.Equals` also compares the type, so a number refused as a duplicate need not be equal to the stored one.

## Model

| member | source | states |
|---|---|---|
| Common.Ok | ScimProvisioning.Core/Common/Result.cs:38 | `Result.Success()` is a success, not a failure, with an empty Error, and satisfies the success-iff-no-error invariant |
| Common.Succeed | ScimProvisioning.Core/Common/Result.cs:48 | `Result.Success(value)` is a success carrying exactly that value, with an empty Error |
| Common.Fail | ScimProvisioning.Core/Common/Result.cs:53 | `Result.Failure<T>(error)` is a failure whose Error is the given non-empty message |
| Common.Propagate | ScimProvisioning.Core/Entities/ScimUser.cs:84-85 | Re-wrapping a failure under another value type keeps it a failure with the same Error |
| Common.ConstructorsKeepInvariant | ScimProvisioning.Core/Common/Result.cs:16-33 | Every result the factories build satisfies the constructor's check (success exactly when Error is empty), and IsFailure is the negation of IsSuccess |
| BaseEntities.BaseEntity.constructor | ScimProvisioning.Core/Common/BaseEntity.cs:8-28 | A new entity has the given Id, CreatedAt = ModifiedAt = now, and no domain events |
| BaseEntities.BaseEntity.AddDomainEvent | ScimProvisioning.Core/Common/BaseEntity.cs:34-37 | The event is appended at the end of the list; nothing else changes |
| BaseEntities.BaseEntity.ClearDomainEvents | ScimProvisioning.Core/Common/BaseEntity.cs:42-45 | The event list becomes empty; Id and timestamps are untouched |
| DomainEvents.TypeName | ScimProvisioning.Infrastructure/Services/OutboxService.cs:29 | `GetType().Name` is non-empty; it starts with 'U' for user events and 'G' for group events |
| DomainEvents.TypeNameNotBlank | ScimProvisioning.Infrastructure/Services/OutboxService.cs:29-36 | The event type handed to the OutboxMessage constructor is never blank, so its "Event type is required" check never fires |
| DomainEvents.TypeNameIdentifiesVariant | ScimProvisioning.Core/Events/UserDomainEvents.cs:29-57 | Two events with the same type name are the same kind of event (user or group; provisioned, updated or deleted) |
| DomainEvents.AggregateId | ScimProvisioning.Infrastructure/Services/OutboxService.cs:63-77 | The aggregate id is the event's UserId for user events and its GroupId for group events |
| DomainEvents.ExactlyOneAggregateProperty | ScimProvisioning.Infrastructure/Services/OutboxService.cs:68-76 | Every event has exactly one of UserId and GroupId, so the "Could not extract aggregate ID" throw is unreachable |
| DomainEvents.Serialize | ScimProvisioning.Infrastructure/Services/OutboxService.cs:30 | The content is a JSON object: it begins with '{' and ends with '}' |
| DomainEvents.SerializeNotBlank | ScimProvisioning.Infrastructure/Services/OutboxService.cs:30-36 | The content is never blank, so the OutboxMessage constructor's "Content is required" check never fires |
| DomainEvents.SerializeSeesOnlyInterface | ScimProvisioning.Infrastructure/Services/OutboxService.cs:30 | Serialising through `IDomainEvent` sees only EventId and OccurredAt: two events that agree on those have the same content whatever their aggregate fields |
| DomainEvents.SerializeDistinguishesEvents | ScimProvisioning.Infrastructure/Services/OutboxService.cs:30 | Events with different EventIds have different contents |
| AuditLogs.CheckArguments | ScimProvisioning.Core/Entities/AuditLog.cs:72-79 | The constructor's checks in their order: "Action is required", then "Entity type is required", then "Entity ID cannot be empty"; no error exactly when all three pass |
| AuditLogs.AuditLog.constructor | ScimProvisioning.Core/Entities/AuditLog.cs:64-90 | The new entry holds the given arguments, the given time, status Pending and no error message |
| AuditLogs.AuditLog.FromRow | ScimProvisioning.Core/Entities/AuditLog.cs:59 | An entry loaded by EF holds exactly the stored row |
| AuditLogs.AuditLog.MarkAsSuccess | ScimProvisioning.Core/Entities/AuditLog.cs:95-98 | Only the status changes, to Success |
| AuditLogs.AuditLog.MarkAsFailed | ScimProvisioning.Core/Entities/AuditLog.cs:103-107 | Only the status (to Failed) and the error message (to the given one) change |
| OutboxMessages.CheckArguments | ScimProvisioning.Core/Entities/OutboxMessage.cs:56-63 | The constructor's checks in their order: empty aggregate id, blank event type, blank content; no error exactly when all pass |
| OutboxMessages.OutboxMessage.constructor | ScimProvisioning.Core/Entities/OutboxMessage.cs:54-72 | The new message holds the arguments, is unprocessed with no ProcessedAt, and its correlation id is the given one or else a fresh Guid rendered as text |
| OutboxMessages.OutboxMessage.FromRow | ScimProvisioning.Core/Entities/OutboxMessage.cs:49 | A message loaded by EF holds exactly the stored row |
| OutboxMessages.OutboxMessage.MarkAsProcessed | ScimProvisioning.Core/Entities/OutboxMessage.cs:77-81 | Only Processed (to true) and ProcessedAt (to now) change |
| Emails.FirstAt | ScimProvisioning.Core/ValueObjects/Email.cs:12 | The position of the first '@', or none when there is no '@' |
| Emails.LastDot | ScimProvisioning.Core/ValueObjects/Email.cs:12 | The position of the last '.', or none when there is no '.' |
| Emails.SplitIsUnique | ScimProvisioning.Core/ValueObjects/Email.cs:11-13 | Any way the pattern can split an address puts the '@' at its first '@' and the final dot at its last '.', so the matcher's split is the only one |
| Emails.MatchesPatternIffShape | ScimProvisioning.Core/ValueObjects/Email.cs:11-13 | The executable matcher accepts exactly the strings of the regular expression's shape: local part, '@', domain, '.', two or more letters |
| Emails.OnlyAtIsTheSplit | ScimProvisioning.Core/ValueObjects/Email.cs:12 | An address of the pattern has no '@' other than the one it splits at |
| Emails.Create | ScimProvisioning.Core/ValueObjects/Email.cs:37-51 | Blank gives "Email address is required"; over 254 characters after trimming and lower-casing gives "Email address is too long"; a success holds the normalised address and the IsPrimary flag; no other error message |
| Emails.CreateAcceptsExactly | ScimProvisioning.Core/ValueObjects/Email.cs:39-50 | Create succeeds exactly when the input is not blank and its normalised form fits and matches the pattern; a fitting form that does not match gives "Email address is not valid" |
| Emails.Accepted | ScimProvisioning.Core/ValueObjects/Email.cs:42-50 | An accepted address stores its normalised form, which fits in 254 characters and matches the pattern |
| Emails.MatchHasOneAt | ScimProvisioning.Core/ValueObjects/Email.cs:12 | A string matching the pattern contains exactly one '@' |
| Emails.AcceptedHasOneAt | ScimProvisioning.Core/ValueObjects/Email.cs:42-50 | Every accepted address contains exactly one '@' |
| Emails.MatchIsNormal | ScimProvisioning.Core/ValueObjects/Email.cs:11-13 | A string of the pattern is not blank and has no surrounding white space, so normalising it only lower-cases it |
| Emails.CreateOfNormalMatch | ScimProvisioning.Core/ValueObjects/Email.cs:37-51 | A normalised, fitting string of the pattern is accepted unchanged |
| Emails.CreateIdempotent | ScimProvisioning.Core/ValueObjects/Email.cs:42-50 | Creating an Email from an accepted address's stored value succeeds with the same value |
| Emails.NormalizeIdempotent | ScimProvisioning.Core/ValueObjects/Email.cs:42 | Trimming and lower-casing twice is the same as once |
| Emails.EqualsIgnoresPrimary | ScimProvisioning.Core/ValueObjects/Email.cs:55-61 | The primary and non-primary Email of one address differ as values, yet `Equals` holds between them: equality compares Value only |
| PhoneNumbers.Clean | ScimProvisioning.Core/ValueObjects/PhoneNumber.cs:43 | Removing white space, '-', '(' and ')' leaves none of them and never lengthens the number |
| PhoneNumbers.CleanAppend | ScimProvisioning.Core/ValueObjects/PhoneNumber.cs:43 | Cleaning distributes over concatenation |
| PhoneNumbers.CleanKeepsClean | ScimProvisioning.Core/ValueObjects/PhoneNumber.cs:43 | A number with nothing to strip is unchanged by cleaning |
| PhoneNumbers.CleanIdempotent | ScimProvisioning.Core/ValueObjects/PhoneNumber.cs:43 | Cleaning twice is the same as once |
| PhoneNumbers.CleanCounts | ScimProvisioning.Core/ValueObjects/PhoneNumber.cs:43 | Cleaning removes every stripped character and keeps every other character with its multiplicity |
| PhoneNumbers.Create | ScimProvisioning.Core/ValueObjects/PhoneNumber.cs:37-52 | Blank gives "Phone number is required"; otherwise it succeeds exactly when the cleaned number is E.164 (optional '+', a non-zero digit, 1 to 14 more digits) and stores the cleaned number; a blank type becomes "work", and any other type is lower-cased |
| PhoneNumbers.AcceptedIsDigits | ScimProvisioning.Core/ValueObjects/PhoneNumber.cs:11-13 | An accepted number is an optional '+' followed by 2 to 15 digits, the first non-zero |
| PhoneNumbers.CreateIdempotent | ScimProvisioning.Core/ValueObjects/PhoneNumber.cs:43-51 | Creating a PhoneNumber from an accepted number's value and type gives the same number back |
| PhoneNumbers.EqualsAfterCleaning | ScimProvisioning.Core/ValueObjects/PhoneNumber.cs:56-62 | Two inputs that clean to the same number with types equal after lower-casing give equal PhoneNumbers (Value and Type both compared) |
| Users.CheckCreate | ScimProvisioning.Core/Entities/ScimUser.cs:74-85 | The factory's checks in their order ("External ID is required", "Username is required", "Display name is required", then Email.Create's own message); on success, the primary Email of the normalised address |
| Users.ScimUser.constructor | ScimProvisioning.Core/Entities/ScimUser.cs:53-63 | A new user holds the given fields, is active, has CreatedAt = ModifiedAt = now, no emails, no phone numbers and no events |
| Users.ScimUser.FromRow | ScimProvisioning.Core/Entities/ScimUser.cs:51 | A user loaded by EF holds exactly the stored row, with no emails, phone numbers or events, since the configuration ignores those |
| Users.ScimUser.Create | ScimProvisioning.Core/Entities/ScimUser.cs:68-92 | Fails exactly as CheckCreate does, with its message; on success, a fresh active user whose only email is the normalised primary email and whose only event is UserProvisioned(Id, ExternalId, UserName) |
| Users.ScimUser.Update | ScimProvisioning.Core/Entities/ScimUser.cs:97-120 | A non-blank display name replaces the old one even when the email is refused; a refused non-blank email fails with Email.Create's message and changes nothing else; on success the email (its list reset to the one Email), Active, ModifiedAt change as requested and UserUpdated is appended |
| Users.ScimUser.ApplyEmail | ScimProvisioning.Core/Entities/ScimUser.cs:102-119 | The steps of Update after the display name: a refused non-blank email fails with Email.Create's message and changes nothing; otherwise the email (if given), Active and ModifiedAt change as requested and UserUpdated is appended |
| Users.ScimUser.Delete | ScimProvisioning.Core/Entities/ScimUser.cs:125-130 | Soft delete: Active becomes false, ModifiedAt becomes now, and UserDeleted is appended |
| Users.ScimUser.AddEmail | ScimProvisioning.Core/Entities/ScimUser.cs:135-144 | Fails with "Email already exists", changing nothing, exactly when an email with the same value is present; otherwise appends it and sets ModifiedAt |
| Users.ScimUser.AddPhoneNumber | ScimProvisioning.Core/Entities/ScimUser.cs:149-158 | Fails with "Phone number already exists", changing nothing, exactly when a number with the same value is present; otherwise appends it and sets ModifiedAt |
| Users.PhoneDuplicateIgnoresType | ScimProvisioning.Core/Entities/ScimUser.cs:151-152 | A number that differs from the stored one only in its type counts as a duplicate, though `PhoneNumber.Equals` holds between neither pair |
| Users.AppendKeepsDistinctEmails | ScimProvisioning.Core/Entities/ScimUser.cs:137-140 | Appending an email whose value is absent keeps the values of the user's emails distinct |
| Groups.MemberIndex | ScimProvisioning.Core/Entities/ScimGroup.cs:99 | `FirstOrDefault`: the first member with that user id, or none exactly when there is no such member |
| Groups.AppendKeepsDistinct | ScimProvisioning.Core/Entities/ScimGroup.cs:85-88 | Appending a member whose user id is absent keeps member user ids distinct |
| Groups.RemoveKeepsDistinct | ScimProvisioning.Core/Entities/ScimGroup.cs:99-103 | Removing a member keeps user ids distinct and leaves no member with the removed id |
| Groups.AddThenRemoveRestores | ScimProvisioning.Core/Entities/ScimGroup.cs:83-107 | After adding a new member, the member found for its id is the one appended, and removing it gives back the original list |
| Groups.CheckCreate | ScimProvisioning.Core/Entities/ScimGroup.cs:45-49 | "External ID is required", then "Display name is required"; success exactly when neither is blank |
| Groups.ScimGroup.constructor | ScimProvisioning.Core/Entities/ScimGroup.cs:31-38 | A new group holds the given fields, CreatedAt = ModifiedAt = now, no members and no events |
| Groups.ScimGroup.FromRow | ScimProvisioning.Core/Entities/ScimGroup.cs:29 | A group loaded by EF (members included) holds exactly the stored row, and is valid exactly when its members belong to it |
| Groups.ScimGroup.Create | ScimProvisioning.Core/Entities/ScimGroup.cs:43-55 | Fails exactly as CheckCreate does; on success, a fresh group with no members whose only event is GroupProvisioned(Id, ExternalId, DisplayName) |
| Groups.ScimGroup.Update | ScimProvisioning.Core/Entities/ScimGroup.cs:60-69 | Always succeeds; a non-blank name replaces the old one; ModifiedAt becomes now; GroupUpdated carrying the new name is appended |
| Groups.ScimGroup.Delete | ScimProvisioning.Core/Entities/ScimGroup.cs:74-78 | ModifiedAt becomes now and GroupDeleted is appended; the group is otherwise unchanged |
| Groups.ScimGroup.AddMember | ScimProvisioning.Core/Entities/ScimGroup.cs:83-92 | Fails with "Member already exists in the group", changing nothing, exactly when that user is a member; otherwise appends a member of this group and sets ModifiedAt |
| Groups.ScimGroup.RemoveMember | ScimProvisioning.Core/Entities/ScimGroup.cs:97-107 | Fails with "Member not found in the group", changing nothing, exactly when that user is not a member; otherwise removes that member and sets ModifiedAt |
| Store.Apply | ScimProvisioning.Infrastructure/Repositories/ScimUserRepository.cs:69-82 | Applying one tracked write (add, update or remove) fails only with EF Core's concurrency message for a missing row; what each kind does is stated by the three lemmas below |
| Store.ApplyUserWrite | ScimProvisioning.Infrastructure/Repositories/ScimUserRepository.cs:69-82 | Saving a staged user Add appends the row; an Update or Remove succeeds exactly when a row has that Id and then replaces or removes it, leaving the other tables alone |
| Store.ApplyGroupWrite | ScimProvisioning.Infrastructure/Repositories/ScimGroupRepository.cs:64-77 | Saving a staged group Add appends the row; an Update or Remove (with its member rows) succeeds exactly when a row has that Id and then replaces or removes it, leaving the other tables alone |
| Store.ApplyLogWrite | ScimProvisioning.Infrastructure/Services/OutboxService.cs:38 | Saving an outbox or audit Add appends the row; an Update succeeds exactly when a row has that Id and then replaces it, leaving the other tables alone |
| Store.Save | ScimProvisioning.Infrastructure/Persistence/Configurations/EntityConfigurations.cs:17-46 | SaveChanges succeeds exactly when the writes apply and the result keeps every key and unique index; the tables it produces are well formed |
| Store.AddUserWellFormed | ScimProvisioning.Infrastructure/Persistence/Configurations/EntityConfigurations.cs:45-46 | Appending a user keeps the users table well formed exactly when its Id, ExternalId and UserName are all unused |
| Store.AddGroupWellFormed | ScimProvisioning.Infrastructure/Persistence/Configurations/EntityConfigurations.cs:59-115 | Appending a group keeps the groups table well formed exactly when its Id and ExternalId are unused and its members belong to it, each user at most once |
| Store.AddOutboxWellFormed | ScimProvisioning.Infrastructure/Persistence/Configurations/EntityConfigurations.cs:121-127 | Appending an outbox row keeps its table well formed exactly when its Id is unused |
| Store.AddAuditWellFormed | ScimProvisioning.Infrastructure/Persistence/Configurations/EntityConfigurations.cs:161-167 | Appending an audit row keeps its table well formed exactly when its Id is unused |
| Store.ReplaceUserWellFormed | ScimProvisioning.Infrastructure/Persistence/Configurations/EntityConfigurations.cs:45-46 | Replacing a user row by one with the same Id, ExternalId and UserName keeps the table well formed |
| Store.ReplaceOutboxWellFormed | ScimProvisioning.Infrastructure/Persistence/Configurations/EntityConfigurations.cs:121-127 | Replacing an outbox row by one with the same Id keeps the table well formed |
| Store.ReplaceAuditWellFormed | ScimProvisioning.Infrastructure/Persistence/Configurations/EntityConfigurations.cs:161-167 | Replacing an audit row by one with the same Id keeps the table well formed |
| Store.SaveNewUser | ScimProvisioning.Application/UseCases/Users/CreateUserUseCase.cs:58-75 | Saving a new user with its outbox row and audit entry succeeds exactly when the user is admissible and both ids are free, and then appends the three rows |
| Store.SaveNewGroup | ScimProvisioning.Application/UseCases/Groups/CreateGroupUseCase.cs:51-64 | Saving a new group with its outbox row and audit entry succeeds exactly when the group is admissible and both ids are free, and then appends the three rows |
| Store.SaveChangedUser | ScimProvisioning.Application/UseCases/Users/UpdateUserUseCase.cs:49-62 | Saving a user row that keeps the stored identity, with the two new rows, succeeds exactly when both ids are free, and then replaces the row in place and appends the others |
| Store.SaveMarkedAudit | ScimProvisioning.Infrastructure/Services/AuditLogService.cs:34-42 | Saving a new version of the last audit entry always succeeds and replaces that entry only |
| Store.UnitOfWork.constructor | ScimProvisioning.Infrastructure/Persistence/ScimProvisioningDbContext.cs:10-21 | A fresh context over well-formed tables: nothing staged, no transaction, current = committed |
| Store.UnitOfWork.Stage | ScimProvisioning.Infrastructure/Repositories/ScimUserRepository.cs:69-72 | The write is appended to the change tracker |
| Store.UnitOfWork.BeginTransaction | ScimProvisioning.Application/UseCases/Users/CreateUserUseCase.cs:58 | A transaction is open; the tables are unchanged |
| Store.UnitOfWork.SaveChanges | ScimProvisioning.Application/UseCases/Users/CreateUserUseCase.cs:75 | Succeeds exactly when Save accepts the staged writes: the current tables become the saved ones and the tracker empties, visible to all when no transaction is open; a failure leaves the current tables unchanged |
| Store.UnitOfWork.Commit | ScimProvisioning.Application/UseCases/Users/CreateUserUseCase.cs:76 | The transaction closes and its tables become the committed ones |
| Store.UnitOfWork.Rollback | ScimProvisioning.Application/UseCases/Users/CreateUserUseCase.cs:88 | The tracker empties, the transaction closes, and the current tables go back to the committed ones |
| UserRepository.GetById | ScimProvisioning.Infrastructure/Repositories/ScimUserRepository.cs:20-24 | A row of the table with that Id, or none exactly when no row has it |
| UserRepository.GetByExternalId | ScimProvisioning.Infrastructure/Repositories/ScimUserRepository.cs:26-30 | A row with that ExternalId, or none exactly when no row has it |
| UserRepository.GetByUserName | ScimProvisioning.Infrastructure/Repositories/ScimUserRepository.cs:32-36 | A row with that UserName, or none exactly when no row has it |
| UserRepository.LookupsFindTheRow | ScimProvisioning.Infrastructure/Repositories/ScimUserRepository.cs:20-36 | In a well-formed table each of the three lookups finds exactly the row whose key it is given |
| UserRepository.GetByIdIsStoreRow | ScimProvisioning.Infrastructure/Repositories/ScimUserRepository.cs:20-24 | The user found by Id is the row at that Id's position in the table |
| UserRepository.Matching | ScimProvisioning.Infrastructure/Repositories/ScimUserRepository.cs:44-56 | Without a usable `userName` filter every user is kept; with one, exactly the users whose UserName contains the extracted value, in table order |
| UserRepository.MatchingIsComplete | ScimProvisioning.Infrastructure/Repositories/ScimUserRepository.cs:47-56 | The filtered rows are drawn from the table, and every user whose UserName contains the value is among them |
| Seqs.Paginate | ScimProvisioning.Infrastructure/Repositories/ScimUserRepository.cs:60-64 | OrderBy(key).Skip(k).Take(n): the window of an arrangement of the rows in key order, sorted, drawn from the rows, of the size the window leaves, and all rows when it covers them |
| Seqs.WindowBounds | ScimProvisioning.Infrastructure/Repositories/ScimUserRepository.cs:60-64 | In key order, every row Skip passes over has a key no greater than any row of the page, and every row after the page a key no smaller |
| Seqs.TakeHoldsSmallest | ScimProvisioning.Infrastructure/Services/OutboxService.cs:46-50 | Take(n) of a sorted sequence holds its smallest keys: no row left out has a smaller key |
| Seqs.SortBy | ScimProvisioning.Infrastructure/Repositories/ScimUserRepository.cs:60-62 | OrderBy: a sorted permutation of its input |
| UserRepository.List | ScimProvisioning.Infrastructure/Repositories/ScimUserRepository.cs:38-67 | TotalCount is the filtered count; the page is sorted by CreatedAt, is drawn from the filtered rows, has the size that Skip(startIndex).Take(count) leaves, and is all of them when nothing is skipped and count suffices; it is the Skip(startIndex).Take(count) window of an arrangement of the filtered rows in CreatedAt order |
| UserRepository.ListedUsersMatch | ScimProvisioning.Infrastructure/Repositories/ScimUserRepository.cs:47-64 | Every listed user is a row of the table and, under a filter, contains the value in its UserName |
| UserRepository.Add | ScimProvisioning.Infrastructure/Repositories/ScimUserRepository.cs:69-72 | Stages an insert of the user's row |
| UserRepository.Update | ScimProvisioning.Infrastructure/Repositories/ScimUserRepository.cs:74-77 | Stages an update of the user's row |
| UserRepository.Delete | ScimProvisioning.Infrastructure/Repositories/ScimUserRepository.cs:79-82 | Stages a removal of the user's row |
| GroupRepository.GetById | ScimProvisioning.Infrastructure/Repositories/ScimGroupRepository.cs:20-25 | A group with that Id, members included, or none exactly when no row has it |
| GroupRepository.GetByExternalId | ScimProvisioning.Infrastructure/Repositories/ScimGroupRepository.cs:27-32 | A group with that ExternalId, or none exactly when no row has it |
| GroupRepository.LookupsFindTheRow | ScimProvisioning.Infrastructure/Repositories/ScimGroupRepository.cs:20-32 | In a well-formed table both lookups find exactly the row whose key they are given |
| GroupRepository.Matching | ScimProvisioning.Infrastructure/Repositories/ScimGroupRepository.cs:40-51 | Without a usable `displayName` filter every group is kept; with one, exactly the groups whose DisplayName contains the value, in table order |
| GroupRepository.MatchingIsComplete | ScimProvisioning.Infrastructure/Repositories/ScimGroupRepository.cs:43-51 | The filtered rows are drawn from the table, and every group whose DisplayName contains the value is among them |
| GroupRepository.List | ScimProvisioning.Infrastructure/Repositories/ScimGroupRepository.cs:34-62 | TotalCount is the filtered count; the page is sorted by CreatedAt, drawn from the filtered rows, of the size paging leaves, and complete when nothing is skipped and count suffices; it is the Skip(startIndex).Take(count) window of an arrangement of the filtered rows in CreatedAt order |
| GroupRepository.ListedGroupsMatch | ScimProvisioning.Infrastructure/Repositories/ScimGroupRepository.cs:43-59 | Every listed group is a row of the table and, under a filter, contains the value in its DisplayName |
| GroupRepository.Add | ScimProvisioning.Infrastructure/Repositories/ScimGroupRepository.cs:64-67 | Stages an insert of the group's row |
| GroupRepository.Update | ScimProvisioning.Infrastructure/Repositories/ScimGroupRepository.cs:69-72 | Stages an update of the group's row |
| GroupRepository.Delete | ScimProvisioning.Infrastructure/Repositories/ScimGroupRepository.cs:74-77 | Stages a removal of the group's row |
| Filters.TrimQuotesStart | ScimProvisioning.Infrastructure/Repositories/ScimUserRepository.cs:90 | A suffix of the input that does not begin with a quote |
| Filters.TrimQuotesEnd | ScimProvisioning.Infrastructure/Repositories/ScimUserRepository.cs:90 | A prefix of the input that does not end with a quote |
| Filters.TrimQuotes | ScimProvisioning.Infrastructure/Repositories/ScimUserRepository.cs:90 | `Trim('\'', '"')`: neither end of the result is a quote, and it is no longer than the input |
| Filters.SplitRemoveEmpty | ScimProvisioning.Infrastructure/Repositories/ScimUserRepository.cs:87 | `Split({"eq", "=="}, RemoveEmptyEntries)` yields no empty piece |
| Filters.SplitFromHasNoSeparator | ScimProvisioning.Infrastructure/Repositories/ScimUserRepository.cs:87 | No piece of the split contains "eq" or "==" |
| Filters.ExtractFilterValue | ScimProvisioning.Infrastructure/Repositories/ScimUserRepository.cs:84-93 | When there are at least two pieces, the second, trimmed and stripped of quotes, with no quote at either end; otherwise none |
| Filters.ValueHasNoSeparator | ScimProvisioning.Infrastructure/Repositories/ScimUserRepository.cs:87-90 | An extracted value never contains "eq" or "==", so a value that does is cut short |
| Filters.NoSeparatorNoValue | ScimProvisioning.Infrastructure/Repositories/ScimUserRepository.cs:87-92 | A filter without "eq" or "==" yields no value |
| Filters.ExtractOfEquality | ScimProvisioning.Infrastructure/Repositories/ScimUserRepository.cs:84-93 | For `attr eq 'value'`, with neither containing a separator and the value not quoted at its ends, the extracted value is exactly `value` |
| Filters.TrimQuoted | ScimProvisioning.Infrastructure/Repositories/ScimUserRepository.cs:90 | Trimming " 'value'" and then its quotes gives back the value |
| Filters.SearchTerm | ScimProvisioning.Infrastructure/Repositories/ScimUserRepository.cs:47-55 | A term exactly when the filter is non-blank, names the attribute (ignoring case) and yields a non-empty value, and then the term is that value; no term for a blank filter |
| Filters.SearchTermOfEquality | ScimProvisioning.Infrastructure/Repositories/ScimUserRepository.cs:47-55 | The filter `attr eq 'value'` on attribute attr searches for exactly the non-empty `value` |
| OutboxService.StagedOne | ScimProvisioning.Infrastructure/Services/OutboxService.cs:27-39 | Publishing one event stages exactly its outbox row after what was staged before |
| OutboxService.CorrelationOfRows | ScimProvisioning.Infrastructure/Services/OutboxService.cs:32-36 | With no correlation id each message draws its own fresh one; with one, every message carries it |
| OutboxService.NewMessage | ScimProvisioning.Infrastructure/Services/OutboxService.cs:29-36 | Building the message fails, with the constructor's message, exactly when the event's aggregate id is empty; otherwise its row is the event's type name, content and aggregate id, unprocessed |
| OutboxService.Publish | ScimProvisioning.Infrastructure/Services/OutboxService.cs:22-40 | Succeeds exactly when no event has an empty aggregate id, then staging one row per event in order; otherwise fails at the first such event, having staged the rows before it |
| OutboxService.GetUnprocessed | ScimProvisioning.Infrastructure/Services/OutboxService.cs:42-51 | The first batchSize rows of an arrangement of the unprocessed rows in CreatedAt order: only unprocessed rows, sorted, at most batchSize, none when batchSize is zero (a negative batchSize is listed under Left out) |
| OutboxService.GetUnprocessedIsComplete | ScimProvisioning.Infrastructure/Services/OutboxService.cs:46-50 | The batch holds min(batchSize, unprocessed count) unprocessed rows, and all of them when the batch is large enough; no unprocessed row left out is older than a row of the batch |
| OutboxService.GetUnprocessedDrawsFromTable | ScimProvisioning.Infrastructure/Services/OutboxService.cs:46-50 | Every row of a batch is a row of the table |
| OutboxService.MarkAsProcessed | ScimProvisioning.Infrastructure/Services/OutboxService.cs:53-61 | An unknown id is a no-op; otherwise the row marked processed at now is staged and saved together with whatever else was staged. Outside a transaction a successful save is committed, inside one the committed tables stay. A failed save changes no table and leaves the update staged after the earlier writes, so the next save sends it again |
| OutboxService.MarkAsProcessedOnlyChangesThatRow | ScimProvisioning.Infrastructure/Services/OutboxService.cs:53-61 | With nothing else staged, marking an existing row succeeds and changes only that row |
| AuditLogService.CreateAuditLog | ScimProvisioning.Infrastructure/Services/AuditLogService.cs:20-32 | Fails with the constructor's message, staging nothing, exactly when an argument check fails; otherwise stages the Pending entry and returns it |
| AuditLogService.MarkAsSuccess | ScimProvisioning.Infrastructure/Services/AuditLogService.cs:34-42 | An unknown id is a no-op; otherwise the entry marked Success is staged and saved with whatever else was staged. Outside a transaction a successful save is committed, inside one the committed tables stay. A failed save changes no table and leaves the update staged |
| AuditLogService.MarkAsFailed | ScimProvisioning.Infrastructure/Services/AuditLogService.cs:44-52 | An unknown id is a no-op; otherwise the entry marked Failed with the message is staged and saved with whatever else was staged. Outside a transaction a successful save is committed, inside one the committed tables stay. A failed save changes no table and leaves the update staged |
| AuditLogService.UpdateOnlyChangesThatEntry | ScimProvisioning.Infrastructure/Services/AuditLogService.cs:34-52 | With nothing else staged, saving a new version of an existing entry succeeds and changes only that entry |
| AuditLogService.GetByOutboxMessageId | ScimProvisioning.Infrastructure/Services/AuditLogService.cs:54-59 | Only entries linked to that outbox message, in table order (the query itself promises no order) |
| AuditLogService.GetByOutboxMessageIdIsComplete | ScimProvisioning.Infrastructure/Services/AuditLogService.cs:54-59 | Every linked entry is returned, and every returned entry is drawn from the table |
| UseCaseFlow.MarkLast | ScimProvisioning.Application/UseCases/Users/CreateUserUseCase.cs:79 | Marking the last audit entry Success changes that entry's status and nothing else |
| UseCaseFlow.MarkAppended | ScimProvisioning.Application/UseCases/Users/CreateUserUseCase.cs:67-79 | Marking the entry just appended is the same as appending its Success copy |
| UseCaseFlow.FirstError | ScimProvisioning.Application/UseCases/Users/CreateUserUseCase.cs:56-90 | The first exception of the protected region, in step order; none exactly when every step up to the commit goes through and no fault strikes |
| UseCaseFlow.StageChange | ScimProvisioning.Application/UseCases/Users/CreateUserUseCase.cs:60-72 | After the entity write, stages the event's outbox row and then the Pending audit entry; fails, with the constructors' messages, exactly when the aggregate id is empty or an audit argument is blank; on failure the writes staged so far (the entity write, and the outbox row when only the audit entry is refused) stay staged |
| UseCaseFlow.RecordChange | ScimProvisioning.Application/UseCases/Users/CreateUserUseCase.cs:56-90 | Ends idle; fails exactly when FirstError reports, with the prefix; commits nothing unless the commit is reached; on success the committed tables are the three saved changes with the entry marked Success |
| UseCaseFlow.CommitChange | ScimProvisioning.Application/UseCases/Users/CreateUserUseCase.cs:75-88 | Save, commit, mark: a fault or a refused save before the commit rolls back to the committed tables; on success the saved tables with the entry marked |
| UseCaseFlow.MarkSavedEntry | ScimProvisioning.Infrastructure/Services/AuditLogService.cs:34-42 | After the commit, marking the entry saved last cannot fail, and the committed tables become those with that entry marked Success |
| UseCaseFlow.AuditedEntryIsLast | ScimProvisioning.Application/UseCases/Users/CreateUserUseCase.cs:67-75 | After a successful save the audit entry just staged is the last row of the audit table |
| UserUseCases.LiteralAuditArguments | ScimProvisioning.Application/UseCases/Users/CreateUserUseCase.cs:67-70 | With literal action and entity type ("Created", "User"), the audit constructor's checks reduce to the entity id not being Guid.Empty |
| UserUseCases.CreatePrecheck | ScimProvisioning.Application/UseCases/Users/CreateUserUseCase.cs:39-52 | "User with this external ID already exists" for a taken ExternalId, else ScimUser.Create's failure; none exactly when neither applies |
| UserUseCases.CreateUserCommits | ScimProvisioning.Application/UseCases/Users/CreateUserUseCase.cs:58-76 | The region reaches the commit exactly when no fault strikes before it, the Id is not empty, the user clashes with no Id, ExternalId or UserName, and both new ids are free; it saves exactly the three rows appended |
| UserUseCases.RecordNewUser | ScimProvisioning.Application/UseCases/Users/CreateUserUseCase.cs:56-90 | Provisioned: the user row, its UserProvisioned outbox row and its "Created" audit entry (marked Success) are committed together, or, before the commit, not at all; failures carry "Failed to create user: " and the first error |
| UserUseCases.CheckAndBuild | ScimProvisioning.Application/UseCases/Users/CreateUserUseCase.cs:39-54 | Fails exactly as CreatePrecheck says, with its message; otherwise a fresh valid user with the requested fields and one UserProvisioned event |
| UserUseCases.CreateUser | ScimProvisioning.Application/UseCases/Users/CreateUserUseCase.cs:35-91 | A precheck failure changes nothing; otherwise Provisioned holds of the committed tables; on success the returned user is the new row with its events cleared |
| UserUseCases.UpdatedRow | ScimProvisioning.Core/Entities/ScimUser.cs:97-120 | The row after a successful Update keeps Id, ExternalId, UserName and CreatedAt |
| UserUseCases.DeletedRow | ScimProvisioning.Core/Entities/ScimUser.cs:125-130 | The row after Delete keeps its identity and is inactive |
| UserUseCases.ChangeUserCommits | ScimProvisioning.Application/UseCases/Users/UpdateUserUseCase.cs:47-63 | For a row keeping the stored identity, the region reaches the commit exactly when no fault strikes before it, the Id is not empty and both new ids are free; it saves the row replaced in place and two rows appended |
| UserUseCases.RecordChangedUser | ScimProvisioning.Application/UseCases/Users/UpdateUserUseCase.cs:47-76 | Changed: the row replaces the stored one together with its outbox row and audit entry (marked Success), or, before the commit, nothing changes; failures carry the prefix and the first error |
| UserUseCases.UpdateUser | ScimProvisioning.Application/UseCases/Users/UpdateUserUseCase.cs:34-77 | "User not found" for an unknown Id and Email.Create's message for a refused email, both changing nothing; otherwise Changed holds for the updated row with "Updated", UserUpdated and "Failed to update user: " |
| UserUseCases.UpdateLoaded | ScimProvisioning.Application/UseCases/Users/UpdateUserUseCase.cs:39-45 | The loaded user, updated: fails exactly when a non-blank primary email is one Email.Create refuses, with its message; otherwise the aggregate's columns are UpdatedRow of the loaded row |
| UserUseCases.DeleteUser | ScimProvisioning.Application/UseCases/Users/DeleteUserUseCase.cs:29-65 | "User not found" for an unknown Id, changing nothing; otherwise Changed holds for the inactive row with "Deleted", UserDeleted, no change details and "Failed to delete user: " |
| GroupUseCases.CreatePrecheck | ScimProvisioning.Application/UseCases/Groups/CreateGroupUseCase.cs:39-45 | "Group with this external ID already exists" for a taken ExternalId, else ScimGroup.Create's failure; none exactly when neither applies |
| GroupUseCases.CreateGroupCommits | ScimProvisioning.Application/UseCases/Groups/CreateGroupUseCase.cs:51-65 | The region reaches the commit exactly when no fault strikes before it, the Id is not empty, the group clashes with no Id or ExternalId, and both new ids are free; it saves exactly the three rows appended |
| GroupUseCases.RecordNewGroup | ScimProvisioning.Application/UseCases/Groups/CreateGroupUseCase.cs:49-78 | Provisioned: the group row, its GroupProvisioned outbox row and its "Created" audit entry (marked Success) are committed together, or, before the commit, not at all; failures carry "Failed to create group: " |
| GroupUseCases.CreateGroup | ScimProvisioning.Application/UseCases/Groups/CreateGroupUseCase.cs:35-79 | A precheck failure changes nothing; otherwise Provisioned holds; on success the returned group is the new row with its events cleared |
| Validators.RequiredWithin | ScimProvisioning.Application/Validators/UserValidators.cs:13-15 | NotEmpty().MaximumLength(max): the required message exactly when the value is blank, the too-long message exactly when it exceeds max, both when both apply |
| Validators.EmailRule | ScimProvisioning.Application/Validators/UserValidators.cs:25-28 | Each of the three PrimaryEmail messages appears exactly when its check fails |
| Validators.EmailRuleEmpty | ScimProvisioning.Application/Validators/UserValidators.cs:25-28 | The PrimaryEmail rule reports nothing exactly when the value is present if required, an email address and at most 254 characters |
| Validators.ValidateCreateUser | ScimProvisioning.Application/Validators/UserValidators.cs:11-29 | No error exactly when the three names are non-blank and at most 255 characters and the primary email is non-blank, an email address and at most 254 characters; a blank ExternalId is reported first |
| Validators.RequiredWithinEmpty | ScimProvisioning.Application/Validators/UserValidators.cs:13-23 | A NotEmpty().MaximumLength rule reports nothing exactly when the value is non-blank and fits |
| Validators.ValidateUpdateUser | ScimProvisioning.Application/Validators/UserValidators.cs:37-51 | Each field is checked only when non-blank; no error exactly when those present fit (and the email is an address) |
| Validators.ValidateCreateGroup | ScimProvisioning.Application/Validators/GroupValidators.cs:11-20 | No error exactly when ExternalId and DisplayName are non-blank and at most 255 characters |
| Validators.ValidateUpdateGroup | ScimProvisioning.Application/Validators/GroupValidators.cs:28-35 | No error exactly when the name is absent, blank or at most 255 characters; otherwise the one too-long message |
| Validators.ValidateAddGroupMember | ScimProvisioning.Application/Validators/GroupValidators.cs:43-51 | "User ID is required" exactly for Guid.Empty; no error exactly when the id is set and the name is non-blank and fits |
| Validators.ValidCreateUserReachesEmailCheck | ScimProvisioning.Application/Validators/UserValidators.cs:13-28 | A request the validator accepts passes ScimUser.Create's three required checks, so only Email.Create can refuse it, and never as too long |
| Validators.CreateGroupValidatorRefinesAggregate | ScimProvisioning.Application/Validators/GroupValidators.cs:13-19 | The validator accepts exactly the requests ScimGroup.Create accepts whose fields are at most 255 characters |

## Left out

- HTTP endpoints, the SCIM metadata endpoints and the response DTOs are not modelled, because they only wire requests to the use cases. The same holds for dependency injection and the library extensions. The AutoMapper profiles are not modelled either: the use cases return the aggregate instead of the mapped response.
- The read-only use cases (get user by id, list users, get and list groups) are not modelled as use cases. They call one repository method and map its result, and the repository methods are modelled.
- The Azure Service Bus publisher and the outbox-processing Azure Function are not modelled. They talk to an external message broker; the outbox queries they use (`GetUnprocessed`, `MarkAsProcessed`) are modelled.
- Asynchrony, cancellation tokens and concurrent requests are not modelled. Each call runs to completion alone.
- `Guid.NewGuid()` and `DateTime.UtcNow` are parameters, and the model does not assume that fresh Guids are unused. A save that meets a used id fails like any unique-index violation.
- BaseEntities.BaseEntity.constructor, Users.ScimUser.constructor and Groups.ScimGroup.constructor: one `now` value stands for every `DateTime.UtcNow` read of an operation, so these promise CreatedAt equal to ModifiedAt. The source reads the clock separately for CreatedAt, ModifiedAt, each event's OccurredAt, each outbox row's CreatedAt and each audit entry's Timestamp, so those may differ by a few ticks. In the model the outbox rows of one OutboxService.Publish call share one CreatedAt, so their order within a GetUnprocessed batch is decided by the sort's handling of ties (arrival order), where the source has them ordered by their clock reads.
- UserRepository.List, GroupRepository.List and OutboxService.GetUnprocessed: paging follows LINQ's in-memory rules, where a negative Skip skips nothing and a non-positive Take takes nothing. The queries run against SQL Server, where Skip/Take becomes OFFSET/FETCH and Take alone becomes TOP. There a negative startIndex, a count of zero or less, or a negative batchSize is rejected with an exception, which no caller catches. For those inputs the model returns a page or an empty batch instead of failing.
- Database and connection exceptions are modelled only as a `Fault` at begin, save, commit or the post-commit mark. Faults inside `AddAsync` or during rollback are not modelled, and `RollbackTransactionAsync` is assumed to return normally, even when no transaction is open.
- UserUseCases.Provisioned, UserUseCases.Changed, GroupUseCases.Provisioned, UseCaseFlow.RecordChange, UseCaseFlow.CommitChange, UserUseCases.RecordNewUser, UserUseCases.RecordChangedUser, GroupUseCases.RecordNewGroup, UserUseCases.CreateUser, UserUseCases.UpdateUser, UserUseCases.DeleteUser and GroupUseCases.CreateGroup: after a fault while marking the audit entry, which happens once the rows are committed, the committed tables are left unstated. The source then rolls back a transaction that has already committed, with provider-defined results.
- Entity Framework's change tracker, the SQL it generates and its identity resolution are not modelled. `Store` applies staged writes in order to value tables and checks the keys and unique indexes that the entity configuration declares. Column lengths (`HasMaxLength`) are not enforced by the store.
- Users.ScimUser.FromRow: a user loaded from the store has no emails and no phone numbers, because the entity configuration ignores both collections. Domain events are not stored either.
- DomainEvents.Serialize: only the JSON shape of `EventId` and `OccurredAt` is modelled. Guid and DateTime renderings are stand-ins (decimal digits), and the change details (the serialised request) are a string parameter.
- OutboxMessages.OutboxMessage.constructor: the fresh correlation id is the decimal rendering of a Guid parameter, a stand-in for `Guid.ToString()`.
- Common.Fail: a failure with an empty message is excluded by a precondition instead of throwing `InvalidOperationException`. A failed `Result<T>`'s default `Value` is not carried.
- AuditLogs.AuditLog.constructor and OutboxMessages.OutboxMessage.constructor: an argument the constructor would throw on is excluded by a precondition. The services check the same conditions first (`CheckArguments`) and turn them into failures, as the exception would reach the use case's catch block.
- Strings are sequences of characters with ASCII case mapping and white space. Culture-specific and Unicode-wide `ToLowerInvariant`, `Trim` and `IsWhiteSpace` are not modelled.
- The database collation behind `Contains` in the list filters is modelled as an ordinal, case-sensitive substring test.
- UserRepository.GetByExternalId, UserRepository.GetByUserName, GroupRepository.GetByExternalId, UserUseCases.CreatePrecheck, GroupUseCases.CreatePrecheck, Store.UsersWellFormed, Store.AdmitsUser, Store.GroupsWellFormed and Store.AdmitsGroup: string keys are compared with ordinal, exact equality. On SQL Server the `=` of these lookups and the unique indexes on ExternalId and UserName ignore trailing spaces and follow the column collation, which is case-insensitive by default; so a stored "abc" clashes in the source with a new "abc " or "ABC" (the pre-check fails or the index rejects the save), while the model admits the second row.
- FluentValidation's `EmailAddress()` is the parameter `isEmail`, and validation of `null` request strings is not modelled: create-request fields are non-null strings.
- Group update, delete and membership use cases do not exist in the source and are not modelled. The aggregate methods they would call are modelled.
