/**
 * The PhoneNumber value object (ScimProvisioning.Core/ValueObjects/PhoneNumber.cs):
 * Create strips whitespace, '-', '(' and ')' from the number, accepts the
 * result when it reads as ^\+?[1-9]\d{1,14}$ (the digit budget of an E.164
 * number, section 6.2.1 of ITU-T E.164), and lower-cases the type, which
 * defaults to "work" when blank.
 */
module PhoneNumbers {
  import opened Common
  import opened Text

  const DefaultType := "work"
  const RequiredMessage := "Phone number is required"
  const NotValidMessage := "Phone number is not valid (use E.164 format, e.g., +1234567890)"

  /** Value is the cleaned number, Type the lower-cased type. */
  datatype PhoneNumber = PhoneNumber(value: string, kind: string)

  /** The characters the cleaning step removes: [\s\-\(\)]. */
  predicate IsStripped(c: char) {
    IsWhiteSpace(c) || c == '-' || c == '(' || c == ')'
  }

  /** Regex.Replace(number, @"[\s\-\(\)]", ""): keeps every other character, in order. */
  function Clean(s: string): (r: string)
    ensures |r| <= |s|
    ensures forall i :: 0 <= i < |r| ==> !IsStripped(r[i])
  {
    if s == [] then []
    else if IsStripped(s[0]) then Clean(s[1..])
    else [s[0]] + Clean(s[1..])
  }

  /** Cleaning a concatenation cleans each part. */
  lemma {:induction false} CleanAppend(a: string, b: string)
    ensures Clean(a + b) == Clean(a) + Clean(b)
  {
    if a == [] {
      assert a + b == b;
    } else {
      assert (a + b)[1..] == a[1..] + b;
      CleanAppend(a[1..], b);
    }
  }

  /** A string without strippable characters is left alone by cleaning. */
  lemma {:induction false} CleanKeepsClean(s: string)
    requires forall i :: 0 <= i < |s| ==> !IsStripped(s[i])
    ensures Clean(s) == s
  {
    if s != [] {
      CleanKeepsClean(s[1..]);
    }
  }

  /** Cleaning twice is cleaning once. */
  lemma CleanIdempotent(s: string)
    ensures Clean(Clean(s)) == Clean(s)
  {
    CleanKeepsClean(Clean(s));
  }

  /** Cleaning removes every stripped character and keeps each other character as often as s holds it. */
  lemma {:induction false} CleanCounts(s: string, c: char)
    ensures multiset(Clean(s))[c] == if IsStripped(c) then 0 else multiset(s)[c]
  {
    if s != [] {
      CleanCounts(s[1..], c);
      assert s == [s[0]] + s[1..];
      if !IsStripped(s[0]) {
        assert Clean(s) == [s[0]] + Clean(s[1..]);
      }
    }
  }

  /** [1-9] */
  predicate IsNonZeroDigit(c: char) { '1' <= c <= '9' }

  predicate AllDigits(s: string) { forall i :: 0 <= i < |s| ==> IsDigit(s[i]) }

  /** ^\+?[1-9]\d{1,14}$: an optional '+', then 2 to 15 digits, the first not 0. */
  predicate IsE164(s: string) {
    var digits := if |s| > 0 && s[0] == '+' then s[1..] else s;
    && 2 <= |digits| <= 15
    && IsNonZeroDigit(digits[0])
    && AllDigits(digits)
  }

  /** PhoneNumber.Create(number, type) */
  function Create(number: string, kind: string): (r: Result<PhoneNumber>)
    ensures r.Valid()
    ensures IsBlank(number) ==> r == Failure(RequiredMessage)
    ensures !IsBlank(number) && !IsE164(Clean(number)) ==> r == Failure(NotValidMessage)
    ensures r.Success? <==> !IsBlank(number) && IsE164(Clean(number))
    ensures r.Success? ==> r.value.value == Clean(number)
    ensures r.Success? && IsBlank(kind) ==> r.value.kind == DefaultType
    ensures r.Success? && !IsBlank(kind) ==> r.value.kind == ToLower(kind)
  {
    if IsBlank(number) then Fail(RequiredMessage)
    else
      var cleaned := Clean(number);
      if !IsE164(cleaned) then Fail(NotValidMessage)
      else
        var t := if IsBlank(kind) then DefaultType else kind;
        Succeed(PhoneNumber(cleaned, ToLower(t)))
  }

  /** An accepted Value holds only digits after an optional leading '+', and 2 to 15 of them. */
  lemma AcceptedIsDigits(number: string, kind: string)
    requires Create(number, kind).Success?
    ensures var v := Create(number, kind).value.value;
      2 <= |v| <= 16 && (v[0] == '+' || IsNonZeroDigit(v[0]))
      && forall i :: 1 <= i < |v| ==> IsDigit(v[i])
  {
    var v := Create(number, kind).value.value;
    if v[0] == '+' {
      forall i | 1 <= i < |v| ensures IsDigit(v[i]) {
        assert v[1..][i - 1] == v[i];
      }
    }
  }

  /** Re-creating from an accepted Value and Type gives back the same phone number. */
  lemma CreateIdempotent(number: string, kind: string)
    requires Create(number, kind).Success?
    ensures var p := Create(number, kind).value;
      Create(p.value, p.kind) == Success(p)
  {
    var p := Create(number, kind).value;
    var t := if IsBlank(kind) then DefaultType else kind;
    assert p.value == Clean(number) && p.kind == ToLower(t);
    CleanIdempotent(number);
    assert !IsBlank(p.value) by {
      assert !IsWhiteSpace(p.value[0]);
    }
    ToLowerKeepsBlank(t);
    ToLowerIdempotent(t);
  }

  /** PhoneNumber.Equals: compares Value and Type. */
  predicate Equals(a: PhoneNumber, b: PhoneNumber) {
    a.value == b.value && a.kind == b.kind
  }

  /** Spellings that differ only in stripped characters and type case make equal phone numbers. */
  lemma EqualsAfterCleaning(number: string, other: string, kind: string, otherKind: string)
    requires Create(number, kind).Success?
    requires Clean(other) == Clean(number) && !IsBlank(other)
    requires ToLower(otherKind) == ToLower(kind)
    ensures Create(other, otherKind).Success?
    ensures Equals(Create(number, kind).value, Create(other, otherKind).value)
  {
    ToLowerKeepsBlank(kind);
    ToLowerKeepsBlank(otherKind);
  }
}
