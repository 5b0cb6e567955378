/**
 * The ScimUser aggregate (ScimProvisioning.Core/Entities/ScimUser.cs): a
 * factory that validates its input in a fixed order, and Update, Delete,
 * AddEmail and AddPhoneNumber, which change the user's fields and lists in
 * place. Guid.NewGuid() and DateTime.UtcNow are the parameters `id`,
 * `eventId` and `now`; one call reads the clock once.
 */
module Users {
  import opened Common
  import opened Text
  import Emails
  import PhoneNumbers
  import opened DomainEvents
  import opened BaseEntities

  const ExternalIdRequired := "External ID is required"
  const UserNameRequired := "Username is required"
  const DisplayNameRequired := "Display name is required"
  const EmailExists := "Email already exists"
  const PhoneNumberExists := "Phone number already exists"

  /**
   * The columns the store keeps for a user. Emails, PhoneNumbers and
   * DomainEvents are ignored by the mapping
   * (ScimProvisioning.Infrastructure/Persistence/Configurations/EntityConfigurations.cs:49-52).
   */
  datatype UserRow = UserRow(
    id: Guid, externalId: string, userName: string, displayName: string,
    primaryEmail: string, active: bool, createdAt: DateTime, modifiedAt: DateTime)

  /** Some email in the list has this Value. */
  predicate HasEmailValue(emails: seq<Emails.Email>, value: string) {
    exists i :: 0 <= i < |emails| && emails[i].value == value
  }

  /** Some phone number in the list has this Value (its Type is not compared). */
  predicate HasPhoneValue(phones: seq<PhoneNumbers.PhoneNumber>, value: string) {
    exists i :: 0 <= i < |phones| && phones[i].value == value
  }

  /** No two emails share a Value. */
  predicate DistinctEmailValues(emails: seq<Emails.Email>) {
    forall i, j :: 0 <= i < j < |emails| ==> emails[i].value != emails[j].value
  }

  /** No two phone numbers share a Value. */
  predicate DistinctPhoneValues(phones: seq<PhoneNumbers.PhoneNumber>) {
    forall i, j :: 0 <= i < j < |phones| ==> phones[i].value != phones[j].value
  }

  /**
   * The checks of ScimUser.Create, in their order: ExternalId, UserName and
   * DisplayName must be non-blank, then the primary email must pass
   * Email.Create; the first failure's message is the result.
   */
  function CheckCreate(externalId: string, userName: string, displayName: string, primaryEmail: string)
    : (r: Result<Emails.Email>)
    ensures r.Valid()
    ensures IsBlank(externalId) ==> r == Failure(ExternalIdRequired)
    ensures !IsBlank(externalId) && IsBlank(userName) ==> r == Failure(UserNameRequired)
    ensures !IsBlank(externalId) && !IsBlank(userName) && IsBlank(displayName) ==>
      r == Failure(DisplayNameRequired)
    ensures r.Success? <==>
      !IsBlank(externalId) && !IsBlank(userName) && !IsBlank(displayName) &&
      Emails.Create(primaryEmail, true).Success?
    ensures r.Success? ==> r.value == Emails.Email(Emails.Normalize(primaryEmail), true)
    ensures r.Failure? && !IsBlank(externalId) && !IsBlank(userName) && !IsBlank(displayName) ==>
      r.error == Emails.Create(primaryEmail, true).error
  {
    if IsBlank(externalId) then Fail(ExternalIdRequired)
    else if IsBlank(userName) then Fail(UserNameRequired)
    else if IsBlank(displayName) then Fail(DisplayNameRequired)
    else Emails.Create(primaryEmail, true)
  }

  class ScimUser {
    const entity: BaseEntity
    var externalId: string
    var userName: string
    var displayName: string
    /** The caller's string as given; the Emails entry holds its normalised form. */
    var primaryEmail: string
    var active: bool
    var emails: seq<Emails.Email>
    var phoneNumbers: seq<PhoneNumbers.PhoneNumber>

    /** The lists never hold two entries with the same Value. */
    ghost predicate Valid()
      reads this`emails, this`phoneNumbers
    {
      DistinctEmailValues(emails) && DistinctPhoneValues(phoneNumbers)
    }

    /** The persisted columns of this user. */
    function Row(): (row: UserRow)
      reads this, entity`id, entity`createdAt, entity`modifiedAt
      ensures row.id == entity.id && row.externalId == externalId && row.userName == userName
      ensures row.displayName == displayName && row.primaryEmail == primaryEmail && row.active == active
      ensures row.createdAt == entity.createdAt && row.modifiedAt == entity.modifiedAt
    {
      UserRow(entity.id, externalId, userName, displayName, primaryEmail, active,
              entity.createdAt, entity.modifiedAt)
    }

    /** The private constructor: Active is true, Id and both timestamps are fresh, the lists empty. */
    constructor (externalId: string, userName: string, displayName: string, primaryEmail: string,
                 id: Guid, now: DateTime)
      ensures fresh(entity) && entity.domainEvents == []
      ensures Row() == UserRow(id, externalId, userName, displayName, primaryEmail, true, now, now)
      ensures emails == [] && phoneNumbers == []
      ensures Valid()
    {
      entity := new BaseEntity(id, now);
      this.externalId := externalId;
      this.userName := userName;
      this.displayName := displayName;
      this.primaryEmail := primaryEmail;
      active := true;
      emails := [];
      phoneNumbers := [];
    }

    /**
     * A user as the store hands it back: the persisted columns, and empty
     * Emails, PhoneNumbers and DomainEvents, which the mapping does not keep.
     */
    constructor FromRow(row: UserRow)
      ensures fresh(entity) && entity.domainEvents == []
      ensures Row() == row
      ensures emails == [] && phoneNumbers == []
      ensures Valid()
    {
      entity := new BaseEntity(row.id, row.createdAt);
      externalId := row.externalId;
      userName := row.userName;
      displayName := row.displayName;
      primaryEmail := row.primaryEmail;
      active := row.active;
      emails := [];
      phoneNumbers := [];
      new;
      entity.modifiedAt := row.modifiedAt;
    }

    /**
     * ScimUser.Create: on success a fresh active user with the given fields,
     * exactly one Emails entry (the normalised primary email, marked primary)
     * and exactly one UserProvisioned event; on failure the first failed
     * check's message.
     */
    static method Create(externalId: string, userName: string, displayName: string, primaryEmail: string,
                         id: Guid, now: DateTime, eventId: Guid)
      returns (r: Result<ScimUser>)
      ensures r.Success? <==> CheckCreate(externalId, userName, displayName, primaryEmail).Success?
      ensures r.Failure? ==> r.error == CheckCreate(externalId, userName, displayName, primaryEmail).error
      ensures r.Success? ==> fresh(r.value) && fresh(r.value.entity) && r.value.Valid()
      ensures r.Success? ==>
        r.value.Row() == UserRow(id, externalId, userName, displayName, primaryEmail, true, now, now)
      ensures r.Success? ==>
        r.value.emails == [Emails.Email(Emails.Normalize(primaryEmail), true)] && r.value.phoneNumbers == []
      ensures r.Success? ==>
        r.value.entity.domainEvents == [UserEvent(UserProvisioned, eventId, now, id, externalId, userName)]
    {
      var check := CheckCreate(externalId, userName, displayName, primaryEmail);
      if check.IsFailure() {
        return Failure(check.error);
      }
      var user := new ScimUser(externalId, userName, displayName, primaryEmail, id, now);
      user.emails := user.emails + [check.value];
      user.entity.AddDomainEvent(UserEvent(UserProvisioned, eventId, now, id, externalId, userName));
      return Success(user);
    }

    /**
     * ScimUser.Update. A non-blank displayName is written first, so it stays
     * written even when the email check that follows fails. A non-blank
     * primaryEmail that Email.Create rejects returns that failure with no
     * event queued and nothing else changed; otherwise the email replaces
     * PrimaryEmail and the whole Emails list, `active` overwrites Active when
     * given, ModifiedAt is set and one UserUpdated event is queued.
     */
    method Update(displayName: Option<string>, primaryEmail: Option<string>, active: Option<bool>,
                  now: DateTime, eventId: Guid)
      returns (r: Result<()>)
      requires Valid()
      modifies this`displayName, this`primaryEmail, this`emails, this`active
      modifies entity`modifiedAt, entity`domainEvents
      ensures Valid() && r.Valid()
      ensures this.displayName == if IsNullOrWhiteSpace(displayName) then old(this.displayName) else displayName.value
      ensures r.Failure? <==>
        !IsNullOrWhiteSpace(primaryEmail) && Emails.Create(primaryEmail.value, true).Failure?
      ensures r.Failure? ==> primaryEmail.Some? && r.error == Emails.Create(primaryEmail.value, true).error
      ensures r.Failure? ==>
        && this.primaryEmail == old(this.primaryEmail) && emails == old(emails)
        && this.active == old(this.active)
        && entity.modifiedAt == old(entity.modifiedAt) && entity.domainEvents == old(entity.domainEvents)
      ensures r.Success? && IsNullOrWhiteSpace(primaryEmail) ==>
        this.primaryEmail == old(this.primaryEmail) && emails == old(emails)
      ensures r.Success? && !IsNullOrWhiteSpace(primaryEmail) ==>
        this.primaryEmail == primaryEmail.value &&
        emails == [Emails.Email(Emails.Normalize(primaryEmail.value), true)]
      ensures r.Success? ==>
        && this.active == (if active.Some? then active.value else old(this.active))
        && entity.modifiedAt == now
        && entity.domainEvents ==
           old(entity.domainEvents) + [UserEvent(UserUpdated, eventId, now, entity.id, externalId, userName)]
    {
      if !IsNullOrWhiteSpace(displayName) {
        this.displayName := displayName.value;
      }
      r := ApplyEmail(primaryEmail, active, now, eventId);
    }

    /** The steps of Update after DisplayName: the email check, then Active, ModifiedAt and the event. */
    method ApplyEmail(primaryEmail: Option<string>, active: Option<bool>, now: DateTime, eventId: Guid)
      returns (r: Result<()>)
      requires Valid()
      modifies this`primaryEmail, this`emails, this`active
      modifies entity`modifiedAt, entity`domainEvents
      ensures Valid() && r.Valid()
      ensures r.Failure? <==>
        !IsNullOrWhiteSpace(primaryEmail) && Emails.Create(primaryEmail.value, true).Failure?
      ensures r.Failure? ==> primaryEmail.Some? && r.error == Emails.Create(primaryEmail.value, true).error
      ensures r.Failure? ==>
        && this.primaryEmail == old(this.primaryEmail) && emails == old(emails)
        && this.active == old(this.active)
        && entity.modifiedAt == old(entity.modifiedAt) && entity.domainEvents == old(entity.domainEvents)
      ensures r.Success? && IsNullOrWhiteSpace(primaryEmail) ==>
        this.primaryEmail == old(this.primaryEmail) && emails == old(emails)
      ensures r.Success? && !IsNullOrWhiteSpace(primaryEmail) ==>
        this.primaryEmail == primaryEmail.value &&
        emails == [Emails.Email(Emails.Normalize(primaryEmail.value), true)]
      ensures r.Success? ==>
        && this.active == (if active.Some? then active.value else old(this.active))
        && entity.modifiedAt == now
        && entity.domainEvents ==
           old(entity.domainEvents) + [UserEvent(UserUpdated, eventId, now, entity.id, externalId, userName)]
    {
      if !IsNullOrWhiteSpace(primaryEmail) {
        r := ReplaceEmail(primaryEmail.value);
        if r.IsFailure() {
          return;
        }
      }
      Touch(active, now, eventId);
      return Ok();
    }

    /**
     * The email step of Update: an address Email.Create rejects returns its
     * failure and changes nothing; otherwise it becomes PrimaryEmail and the
     * whole Emails list is replaced by its Email.
     */
    method ReplaceEmail(value: string) returns (r: Result<()>)
      requires Valid()
      modifies this`primaryEmail, this`emails
      ensures Valid() && r.Valid()
      ensures r.Failure? <==> Emails.Create(value, true).Failure?
      ensures r.Failure? ==> r.error == Emails.Create(value, true).error
      ensures r.Failure? ==> primaryEmail == old(primaryEmail) && emails == old(emails)
      ensures r.Success? ==> primaryEmail == value && emails == [Emails.Email(Emails.Normalize(value), true)]
    {
      var emailResult := Emails.Create(value, true);
      if emailResult.IsFailure() {
        return Failure(emailResult.error);
      }
      primaryEmail := value;
      emails := [];
      emails := emails + [emailResult.value];
      return Ok();
    }

    /** The tail of a successful Update: Active when given, ModifiedAt, one UserUpdated event. */
    method Touch(active: Option<bool>, now: DateTime, eventId: Guid)
      modifies this`active, entity`modifiedAt, entity`domainEvents
      ensures this.active == if active.Some? then active.value else old(this.active)
      ensures entity.modifiedAt == now
      ensures entity.domainEvents ==
        old(entity.domainEvents) + [UserEvent(UserUpdated, eventId, now, entity.id, externalId, userName)]
    {
      if active.Some? {
        this.active := active.value;
      }
      entity.modifiedAt := now;
      entity.AddDomainEvent(UserEvent(UserUpdated, eventId, now, entity.id, externalId, userName));
    }

    /**
     * ScimUser.Delete: never fails; Active becomes false, ModifiedAt is set and
     * one UserDeleted event is queued. Identity and names are kept.
     */
    method Delete(now: DateTime, eventId: Guid)
      requires Valid()
      modifies this`active, entity`modifiedAt, entity`domainEvents
      ensures Valid()
      ensures !active && entity.modifiedAt == now
      ensures entity.domainEvents ==
        old(entity.domainEvents) + [UserEvent(UserDeleted, eventId, now, entity.id, externalId, userName)]
    {
      active := false;
      entity.modifiedAt := now;
      entity.AddDomainEvent(UserEvent(UserDeleted, eventId, now, entity.id, externalId, userName));
    }

    /**
     * ScimUser.AddEmail: an email whose Value is already listed is refused and
     * nothing changes; otherwise it is appended and ModifiedAt is set. No event
     * is queued either way.
     */
    method AddEmail(email: Emails.Email, now: DateTime) returns (r: Result<()>)
      requires Valid()
      modifies this`emails, entity`modifiedAt
      ensures Valid() && r.Valid()
      ensures r.Failure? <==> HasEmailValue(old(emails), email.value)
      ensures r.Failure? ==> r.error == EmailExists && emails == old(emails) && entity.modifiedAt == old(entity.modifiedAt)
      ensures r.Success? ==> emails == old(emails) + [email] && entity.modifiedAt == now
    {
      if exists i :: 0 <= i < |emails| && emails[i].value == email.value {
        return Failure(EmailExists);
      }
      emails := emails + [email];
      entity.modifiedAt := now;
      return Ok();
    }

    /**
     * ScimUser.AddPhoneNumber: a number whose Value is already listed is refused
     * (whatever its Type) and nothing changes; otherwise it is appended and
     * ModifiedAt is set. No event is queued either way.
     */
    method AddPhoneNumber(phone: PhoneNumbers.PhoneNumber, now: DateTime) returns (r: Result<()>)
      requires Valid()
      modifies this`phoneNumbers, entity`modifiedAt
      ensures Valid() && r.Valid()
      ensures r.Failure? <==> HasPhoneValue(old(phoneNumbers), phone.value)
      ensures r.Failure? ==>
        r.error == PhoneNumberExists && phoneNumbers == old(phoneNumbers) && entity.modifiedAt == old(entity.modifiedAt)
      ensures r.Success? ==> phoneNumbers == old(phoneNumbers) + [phone] && entity.modifiedAt == now
    {
      if exists i :: 0 <= i < |phoneNumbers| && phoneNumbers[i].value == phone.value {
        return Failure(PhoneNumberExists);
      }
      phoneNumbers := phoneNumbers + [phone];
      entity.modifiedAt := now;
      return Ok();
    }
  }

  /**
   * The duplicate check of AddPhoneNumber is by Value alone, while
   * PhoneNumber.Equals also compares Type: a number that is not Equal to any
   * listed one can still be refused.
   */
  lemma PhoneDuplicateIgnoresType(phones: seq<PhoneNumbers.PhoneNumber>, p: PhoneNumbers.PhoneNumber)
    requires |phones| == 1 && phones[0].value == p.value && phones[0].kind != p.kind
    ensures HasPhoneValue(phones, p.value)
    ensures forall i :: 0 <= i < |phones| ==> !PhoneNumbers.Equals(phones[i], p)
  {
    assert phones[0].value == p.value;
  }

  /** Appending a value not yet present keeps the lists free of duplicates. */
  lemma AppendKeepsDistinctEmails(emails: seq<Emails.Email>, e: Emails.Email)
    requires DistinctEmailValues(emails) && !HasEmailValue(emails, e.value)
    ensures DistinctEmailValues(emails + [e])
  {
    var s := emails + [e];
    forall i, j | 0 <= i < j < |s| ensures s[i].value != s[j].value {
      if j == |emails| {
        assert s[i] == emails[i];
      }
    }
  }
}
