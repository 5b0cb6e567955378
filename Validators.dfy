/**
 * The request validators (ScimProvisioning.Application/Validators): each
 * validator lists the failures of its rules, in declaration order. Within
 * a rule every check runs, even after an earlier one has failed
 * (FluentValidation's default cascade), so a blank 300-character
 * ExternalId fails with both of its messages. NotEmpty on a string
 * rejects a blank one; on a Guid it rejects Guid.Empty. MaximumLength
 * counts characters. EmailAddress is a library check and stays a
 * parameter, `isEmail`.
 */
module Validators {
  import opened Common
  import opened Text
  import Emails
  import Users
  import Groups

  const MaxNameLength: nat := 255
  const MaxEmailLength: nat := 254

  const ExternalIdRequired := "External ID is required"
  const ExternalIdTooLong := "External ID must not exceed 255 characters"
  const UserNameRequired := "Username is required"
  const UserNameTooLong := "Username must not exceed 255 characters"
  const DisplayNameRequired := "Display name is required"
  const DisplayNameTooLong := "Display name must not exceed 255 characters"
  const PrimaryEmailRequired := "Primary email is required"
  const PrimaryEmailNotValid := "Primary email must be a valid email address"
  const PrimaryEmailTooLong := "Primary email must not exceed 254 characters"
  const UserIdRequired := "User ID is required"

  /** One validation failure: the property it names and its message. */
  datatype FieldError = FieldError(property: string, message: string)

  datatype CreateUserRequest =
    CreateUserRequest(externalId: string, userName: string, displayName: string, primaryEmail: string, active: bool)

  datatype UpdateUserRequest =
    UpdateUserRequest(displayName: Option<string>, primaryEmail: Option<string>, active: Option<bool>)

  datatype CreateGroupRequest = CreateGroupRequest(externalId: string, displayName: string)

  datatype UpdateGroupRequest = UpdateGroupRequest(displayName: Option<string>)

  datatype AddGroupMemberRequest = AddGroupMemberRequest(userId: Guid, displayName: string)

  /**
   * RuleFor(property).NotEmpty().MaximumLength(max): the required message
   * for a blank value, the too-long message for one over max characters,
   * in that order, and both when both apply.
   */
  function RequiredWithin(property: string, value: string, max: nat, required: string, tooLong: string)
    : (errs: seq<FieldError>)
    requires required != tooLong
    ensures forall f :: f in errs ==> f.property == property
    ensures FieldError(property, required) in errs <==> IsBlank(value)
    ensures FieldError(property, tooLong) in errs <==> |value| > max
    ensures |errs| <= 2
  {
    (if IsBlank(value) then [FieldError(property, required)] else [])
    + (if |value| > max then [FieldError(property, tooLong)] else [])
  }

  /**
   * The PrimaryEmail rule: EmailAddress then MaximumLength(254), preceded
   * by NotEmpty when `required` (CreateUserRequestValidator).
   */
  function EmailRule(value: string, required: bool, isEmail: string -> bool): (errs: seq<FieldError>)
    ensures forall f :: f in errs ==> f.property == "PrimaryEmail"
    ensures FieldError("PrimaryEmail", PrimaryEmailRequired) in errs <==> required && IsBlank(value)
    ensures FieldError("PrimaryEmail", PrimaryEmailNotValid) in errs <==> !isEmail(value)
    ensures FieldError("PrimaryEmail", PrimaryEmailTooLong) in errs <==> |value| > MaxEmailLength
  {
    (if required && IsBlank(value) then [FieldError("PrimaryEmail", PrimaryEmailRequired)] else [])
    + (if !isEmail(value) then [FieldError("PrimaryEmail", PrimaryEmailNotValid)] else [])
    + (if |value| > MaxEmailLength then [FieldError("PrimaryEmail", PrimaryEmailTooLong)] else [])
  }

  /**
   * CreateUserRequestValidator: ExternalId, UserName and DisplayName
   * non-blank and at most 255 characters, PrimaryEmail non-blank, an email
   * address and at most 254 characters; Active is not checked.
   */
  function ValidateCreateUser(req: CreateUserRequest, isEmail: string -> bool): (errs: seq<FieldError>)
    ensures errs == [] <==>
      && !IsBlank(req.externalId) && |req.externalId| <= MaxNameLength
      && !IsBlank(req.userName) && |req.userName| <= MaxNameLength
      && !IsBlank(req.displayName) && |req.displayName| <= MaxNameLength
      && !IsBlank(req.primaryEmail) && isEmail(req.primaryEmail) && |req.primaryEmail| <= MaxEmailLength
    ensures IsBlank(req.externalId) ==> |errs| > 0 && errs[0] == FieldError("ExternalId", ExternalIdRequired)
    ensures forall f :: f in errs ==> f.property in ["ExternalId", "UserName", "DisplayName", "PrimaryEmail"]
  {
    RequiredWithinEmpty("ExternalId", req.externalId, MaxNameLength, ExternalIdRequired, ExternalIdTooLong);
    RequiredWithinEmpty("UserName", req.userName, MaxNameLength, UserNameRequired, UserNameTooLong);
    RequiredWithinEmpty("DisplayName", req.displayName, MaxNameLength, DisplayNameRequired, DisplayNameTooLong);
    EmailRuleEmpty(req.primaryEmail, true, isEmail);
    RequiredWithin("ExternalId", req.externalId, MaxNameLength, ExternalIdRequired, ExternalIdTooLong)
    + RequiredWithin("UserName", req.userName, MaxNameLength, UserNameRequired, UserNameTooLong)
    + RequiredWithin("DisplayName", req.displayName, MaxNameLength, DisplayNameRequired, DisplayNameTooLong)
    + EmailRule(req.primaryEmail, true, isEmail)
  }

  /** The email rule lists no failure exactly when the value passes all of its checks. */
  lemma EmailRuleEmpty(value: string, required: bool, isEmail: string -> bool)
    ensures EmailRule(value, required, isEmail) == [] <==>
      (!required || !IsBlank(value)) && isEmail(value) && |value| <= MaxEmailLength
  {
    var errs := EmailRule(value, required, isEmail);
    if errs != [] {
      assert errs[0] in errs;
    }
  }

  /** A rule lists no failure exactly when the value is non-blank and fits. */
  lemma RequiredWithinEmpty(property: string, value: string, max: nat, required: string, tooLong: string)
    requires required != tooLong
    ensures RequiredWithin(property, value, max, required, tooLong) == [] <==> !IsBlank(value) && |value| <= max
  {
    var errs := RequiredWithin(property, value, max, required, tooLong);
    if errs != [] {
      assert errs[0] in errs;
    }
  }

  /**
   * UpdateUserRequestValidator: DisplayName at most 255 characters and
   * PrimaryEmail an email address of at most 254 characters, each checked
   * only when the field is non-blank; Active is not checked.
   */
  function ValidateUpdateUser(req: UpdateUserRequest, isEmail: string -> bool): (errs: seq<FieldError>)
    ensures errs == [] <==>
      && (IsNullOrWhiteSpace(req.displayName) || |req.displayName.value| <= MaxNameLength)
      && (IsNullOrWhiteSpace(req.primaryEmail)
          || (isEmail(req.primaryEmail.value) && |req.primaryEmail.value| <= MaxEmailLength))
    ensures IsNullOrWhiteSpace(req.displayName) && IsNullOrWhiteSpace(req.primaryEmail) ==> errs == []
    ensures forall f :: f in errs ==> f.property in ["DisplayName", "PrimaryEmail"]
  {
    var display :=
      if IsNullOrWhiteSpace(req.displayName) || |req.displayName.value| <= MaxNameLength then []
      else [FieldError("DisplayName", DisplayNameTooLong)];
    var email := if IsNullOrWhiteSpace(req.primaryEmail) then [] else EmailRule(req.primaryEmail.value, false, isEmail);
    if req.primaryEmail.Some? then EmailRuleEmpty(req.primaryEmail.value, false, isEmail); display + email
    else display + email
  }

  /** CreateGroupRequestValidator: ExternalId and DisplayName non-blank and at most 255 characters. */
  function ValidateCreateGroup(req: CreateGroupRequest): (errs: seq<FieldError>)
    ensures errs == [] <==>
      && !IsBlank(req.externalId) && |req.externalId| <= MaxNameLength
      && !IsBlank(req.displayName) && |req.displayName| <= MaxNameLength
    ensures forall f :: f in errs ==> f.property in ["ExternalId", "DisplayName"]
  {
    RequiredWithinEmpty("ExternalId", req.externalId, MaxNameLength, ExternalIdRequired, ExternalIdTooLong);
    RequiredWithinEmpty("DisplayName", req.displayName, MaxNameLength, DisplayNameRequired, DisplayNameTooLong);
    RequiredWithin("ExternalId", req.externalId, MaxNameLength, ExternalIdRequired, ExternalIdTooLong)
    + RequiredWithin("DisplayName", req.displayName, MaxNameLength, DisplayNameRequired, DisplayNameTooLong)
  }

  /** UpdateGroupRequestValidator: DisplayName at most 255 characters, checked only when non-blank. */
  function ValidateUpdateGroup(req: UpdateGroupRequest): (errs: seq<FieldError>)
    ensures errs == [] <==> IsNullOrWhiteSpace(req.displayName) || |req.displayName.value| <= MaxNameLength
    ensures errs != [] ==> errs == [FieldError("DisplayName", DisplayNameTooLong)]
  {
    if IsNullOrWhiteSpace(req.displayName) || |req.displayName.value| <= MaxNameLength then []
    else [FieldError("DisplayName", DisplayNameTooLong)]
  }

  /** AddGroupMemberRequestValidator: UserId not Guid.Empty, DisplayName non-blank and at most 255 characters. */
  function ValidateAddGroupMember(req: AddGroupMemberRequest): (errs: seq<FieldError>)
    ensures errs == [] <==>
      req.userId != EmptyGuid && !IsBlank(req.displayName) && |req.displayName| <= MaxNameLength
    ensures FieldError("UserId", UserIdRequired) in errs <==> req.userId == EmptyGuid
    ensures forall f :: f in errs ==> f.property in ["UserId", "DisplayName"]
  {
    RequiredWithinEmpty("DisplayName", req.displayName, MaxNameLength, DisplayNameRequired, DisplayNameTooLong);
    (if req.userId == EmptyGuid then [FieldError("UserId", UserIdRequired)] else [])
    + RequiredWithin("DisplayName", req.displayName, MaxNameLength, DisplayNameRequired, DisplayNameTooLong)
  }

  /**
   * A create-user request the validator accepts gets past ScimUser.Create's
   * three required-field checks, so the aggregate can refuse it only through
   * Email.Create; and since the validator bounds the raw address by 254
   * characters, the trimmed address fits too: never "Email address is too long".
   */
  lemma ValidCreateUserReachesEmailCheck(req: CreateUserRequest, isEmail: string -> bool)
    requires ValidateCreateUser(req, isEmail) == []
    ensures Users.CheckCreate(req.externalId, req.userName, req.displayName, req.primaryEmail)
            == Emails.Create(req.primaryEmail, true)
    ensures Emails.Create(req.primaryEmail, true) != Failure(Emails.TooLongMessage)
  {
    assert |Emails.Normalize(req.primaryEmail)| <= |req.primaryEmail|;
  }

  /**
   * The create-group validator accepts exactly the requests ScimGroup.Create
   * accepts whose two fields are at most 255 characters long.
   */
  lemma CreateGroupValidatorRefinesAggregate(req: CreateGroupRequest)
    ensures ValidateCreateGroup(req) == [] <==>
      Groups.CheckCreate(req.externalId, req.displayName).Success?
      && |req.externalId| <= MaxNameLength && |req.displayName| <= MaxNameLength
  {
  }
}
