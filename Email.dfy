/**
 * The Email value object (ScimProvisioning.Core/ValueObjects/Email.cs):
 * Create trims and lower-cases its input, rejects a blank input, a value
 * over 254 characters (the 256-character path limit of section 4.5.3.1.3
 * of RFC 5321 without its angle brackets) and a value that does not match
 * ^[a-zA-Z0-9._%+-]+@[a-zA-Z0-9.-]+\.[a-zA-Z]{2,}$ (case-insensitive).
 */
module Emails {
  import opened Common
  import opened Text

  const MaxLength: nat := 254

  const RequiredMessage := "Email address is required"
  const TooLongMessage := "Email address is too long"
  const NotValidMessage := "Email address is not valid"

  /** Value is the normalised address; IsPrimary does not take part in equality. */
  datatype Email = Email(value: string, isPrimary: bool)

  /** [a-zA-Z0-9._%+-] */
  predicate IsLocalChar(c: char) {
    IsLetter(c) || IsDigit(c) || c == '.' || c == '_' || c == '%' || c == '+' || c == '-'
  }

  /** [a-zA-Z0-9.-] */
  predicate IsDomainChar(c: char) {
    IsLetter(c) || IsDigit(c) || c == '.' || c == '-'
  }

  predicate AllLocal(s: string) { forall i :: 0 <= i < |s| ==> IsLocalChar(s[i]) }

  predicate AllDomain(s: string) { forall i :: 0 <= i < |s| ==> IsDomainChar(s[i]) }

  predicate AllLetters(s: string) { forall i :: 0 <= i < |s| ==> IsLetter(s[i]) }

  /**
   * s reads as local part s[..at], '@', domain s[at+1..dot], '.', top-level
   * domain s[dot+1..], each part non-empty and the top-level domain at least
   * two letters long.
   */
  predicate SplitsAt(s: string, at: int, dot: int) {
    && 1 <= at && at + 2 <= dot && dot + 3 <= |s|
    && s[at] == '@' && s[dot] == '.'
    && AllLocal(s[..at]) && AllDomain(s[at + 1..dot]) && AllLetters(s[dot + 1..])
  }

  /** What the address pattern accepts: some way to split s into its parts. */
  ghost predicate EmailShape(s: string) {
    exists at, dot :: SplitsAt(s, at, dot)
  }

  /** IndexOf('@'): the first '@'. */
  function FirstAt(s: string): (r: Option<nat>)
    ensures r.Some? ==> r.value < |s| && s[r.value] == '@' && forall j :: 0 <= j < r.value ==> s[j] != '@'
    ensures r.None? ==> forall j :: 0 <= j < |s| ==> s[j] != '@'
  {
    if s == [] then None
    else if s[0] == '@' then Some(0)
    else
      var r := FirstAt(s[1..]);
      if r.Some? then Some(r.value + 1) else None
  }

  /** LastIndexOf('.'): the last '.'. */
  function LastDot(s: string): (r: Option<nat>)
    ensures r.Some? ==> r.value < |s| && s[r.value] == '.' && forall j :: r.value < j < |s| ==> s[j] != '.'
    ensures r.None? ==> forall j :: 0 <= j < |s| ==> s[j] != '.'
  {
    if s == [] then None
    else if s[|s| - 1] == '.' then Some(|s| - 1)
    else LastDot(s[..|s| - 1])
  }

  /**
   * The pattern matcher: the '@' can only be the first one and the final '.'
   * can only be the last one, since no part after them may contain them.
   */
  predicate MatchesPattern(s: string) {
    var at := FirstAt(s);
    var dot := LastDot(s);
    at.Some? && dot.Some? && SplitsAt(s, at.value, dot.value)
  }

  /** Any split the pattern allows is the one at the first '@' and the last '.'. */
  lemma SplitIsUnique(s: string, at: int, dot: int)
    requires SplitsAt(s, at, dot)
    ensures FirstAt(s) == Some(at)
    ensures LastDot(s) == Some(dot)
  {
    var first := FirstAt(s);
    var last := LastDot(s);
    assert first.Some? && last.Some?;
  }

  /** The matcher accepts exactly the strings the pattern describes. */
  lemma MatchesPatternIffShape(s: string)
    ensures MatchesPattern(s) <==> EmailShape(s)
  {
    if EmailShape(s) {
      var a, d :| SplitsAt(s, a, d);
      SplitIsUnique(s, a, d);
    }
  }

  /** No part of an accepted split holds an '@' other than the one at `at`. */
  lemma OnlyAtIsTheSplit(s: string, at: int, dot: int)
    requires SplitsAt(s, at, dot)
    ensures forall i :: 0 <= i < |s| && i != at ==> s[i] != '@'
  {
    forall i | 0 <= i < |s| && i != at ensures s[i] != '@' {
      if i < at {
        assert s[..at][i] == s[i];
      } else if i < dot {
        assert s[at + 1..dot][i - at - 1] == s[i];
      } else if i > dot {
        assert s[dot + 1..][i - dot - 1] == s[i];
      }
    }
  }

  /** Trim, then ToLowerInvariant. */
  function Normalize(s: string): string {
    ToLower(Trim(s))
  }

  /** Email.Create(email, isPrimary) */
  function Create(email: string, isPrimary: bool): (r: Result<Email>)
    ensures r.Valid()
    ensures IsBlank(email) ==> r == Failure(RequiredMessage)
    ensures !IsBlank(email) && |Normalize(email)| > MaxLength ==> r == Failure(TooLongMessage)
    ensures r.Success? ==> r.value == Email(Normalize(email), isPrimary)
    ensures r.Failure? ==> r.error in {RequiredMessage, TooLongMessage, NotValidMessage}
  {
    if IsBlank(email) then Fail(RequiredMessage)
    else
      var normalized := Normalize(email);
      if |normalized| > MaxLength then Fail(TooLongMessage)
      else if !MatchesPattern(normalized) then Fail(NotValidMessage)
      else Succeed(Email(normalized, isPrimary))
  }

  /** Create succeeds exactly on a non-blank input whose normalised form fits and matches. */
  lemma CreateAcceptsExactly(email: string, isPrimary: bool)
    ensures Create(email, isPrimary).Success? <==>
      !IsBlank(email) && |Normalize(email)| <= MaxLength && EmailShape(Normalize(email))
    ensures !IsBlank(email) && |Normalize(email)| <= MaxLength && !EmailShape(Normalize(email)) ==>
      Create(email, isPrimary) == Failure(NotValidMessage)
  {
    MatchesPatternIffShape(Normalize(email));
  }

  /** What a successful Create has checked about its normalised input. */
  lemma Accepted(email: string, isPrimary: bool)
    requires Create(email, isPrimary).Success?
    ensures Create(email, isPrimary).value.value == Normalize(email)
    ensures |Normalize(email)| <= MaxLength && MatchesPattern(Normalize(email))
  {
  }

  /** A string the pattern accepts holds exactly one '@'. */
  lemma MatchHasOneAt(v: string)
    requires MatchesPattern(v)
    ensures multiset(v)['@'] == 1
  {
    var at, dot := FirstAt(v).value, LastDot(v).value;
    OnlyAtIsTheSplit(v, at, dot);
    var left, right := v[..at], v[at + 1..];
    assert v == left + [v[at]] + right;
    assert '@' !in left;
    assert '@' !in right;
    assert multiset(v) == multiset(left) + multiset{v[at]} + multiset(right);
  }

  /** Every accepted value holds exactly one '@'. */
  lemma AcceptedHasOneAt(email: string, isPrimary: bool)
    requires Create(email, isPrimary).Success?
    ensures multiset(Create(email, isPrimary).value.value)['@'] == 1
  {
    Accepted(email, isPrimary);
    MatchHasOneAt(Normalize(email));
  }

  /** A string the pattern accepts is already normalised. */
  lemma MatchIsNormal(v: string)
    requires MatchesPattern(v)
    ensures !IsBlank(v)
    ensures Normalize(v) == ToLower(v)
  {
    var at, dot := FirstAt(v).value, LastDot(v).value;
    assert v[..at][0] == v[0];
    assert v[dot + 1..][|v| - dot - 2] == v[|v| - 1];
    TrimFixes(v);
  }

  /** Create accepts a normalised string the pattern matches, unchanged. */
  lemma CreateOfNormalMatch(v: string, isPrimary: bool)
    requires |v| <= MaxLength && MatchesPattern(v) && Normalize(v) == v
    ensures Create(v, isPrimary) == Success(Email(v, isPrimary))
  {
    MatchIsNormal(v);
    assert !IsBlank(v);
    var n := Normalize(v);
    assert n == v;
    assert !(|n| > MaxLength);
    assert MatchesPattern(n);
  }

  /** Creating again from an accepted value succeeds with the same value. */
  lemma CreateIdempotent(email: string, isPrimary: bool, again: bool)
    requires Create(email, isPrimary).Success?
    ensures var v := Create(email, isPrimary).value.value;
      Create(v, again) == Success(Email(v, again))
  {
    Accepted(email, isPrimary);
    var v := Create(email, isPrimary).value.value;
    NormalizeIdempotent(email);
    CreateOfNormalMatch(v, again);
  }

  /** Normalising twice is normalising once. */
  lemma NormalizeIdempotent(email: string)
    ensures Normalize(Normalize(email)) == Normalize(email)
  {
    var t := Trim(email);
    var v := ToLower(t);
    if v != [] {
      assert IsWhiteSpace(v[0]) <==> IsWhiteSpace(t[0]);
      assert IsWhiteSpace(v[|v| - 1]) <==> IsWhiteSpace(t[|t| - 1]);
    }
    TrimFixes(v);
    ToLowerIdempotent(t);
  }

  /** Email.Equals: compares Value only. */
  predicate Equals(a: Email, b: Email) {
    a.value == b.value
  }

  /** Equality ignores IsPrimary: the same input makes equal primary and non-primary emails. */
  lemma EqualsIgnoresPrimary(email: string)
    requires Create(email, true).Success?
    ensures Create(email, false).Success?
    ensures Equals(Create(email, true).value, Create(email, false).value)
    ensures Create(email, true).value != Create(email, false).value
  {
  }
}
