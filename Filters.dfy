/**
 * The simplified SCIM filter handling both repositories share
 * (ExtractFilterValue in ScimProvisioning.Infrastructure/Repositories/
 * ScimUserRepository.cs and ScimGroupRepository.cs, which are identical):
 * the filter is split on every "eq" and "==", empty pieces are dropped, and
 * the second piece, trimmed of whitespace and then of quotes, is the value.
 * The attribute named in the filter is never parsed; the caller only checks
 * that it occurs somewhere in the filter.
 */
module Filters {
  import opened Common
  import opened Text
  import Seqs

  /** The characters Trim('\'', '"') removes. */
  predicate IsQuote(c: char) { c == '\'' || c == '"' }

  /** Trim('\'', '"'): drops leading and trailing quotes. */
  function TrimQuotesStart(s: string): (r: string)
    ensures |r| <= |s| && r == s[|s| - |r|..]
    ensures r == [] || !IsQuote(r[0])
  {
    if s == [] || !IsQuote(s[0]) then s else TrimQuotesStart(s[1..])
  }

  function TrimQuotesEnd(s: string): (r: string)
    ensures |r| <= |s| && r == s[..|r|]
    ensures r == [] || !IsQuote(r[|r| - 1])
  {
    if s == [] || !IsQuote(s[|s| - 1]) then s else TrimQuotesEnd(s[..|s| - 1])
  }

  function TrimQuotes(s: string): (r: string)
    ensures |r| <= |s|
    ensures r == [] || (!IsQuote(r[0]) && !IsQuote(r[|r| - 1]))
  {
    TrimQuotesEnd(TrimQuotesStart(s))
  }

  /** One of the separators "eq" or "==" starts at position i (ordinal, case-sensitive). */
  predicate SeparatorAt(s: string, i: nat) {
    i + 1 < |s| && ((s[i] == 'e' && s[i + 1] == 'q') || (s[i] == '=' && s[i + 1] == '='))
  }

  /** Neither separator occurs anywhere in s. */
  predicate NoSeparator(s: string) {
    forall i :: 0 <= i < |s| ==> !SeparatorAt(s, i)
  }

  /** The leftmost separator at or after position i. */
  function NextSeparator(s: string, i: nat): (r: Option<nat>)
    requires i <= |s|
    ensures r.Some? ==> i <= r.value && r.value + 2 <= |s| && SeparatorAt(s, r.value)
    ensures r.Some? ==> forall k :: i <= k < r.value ==> !SeparatorAt(s, k)
    ensures r.None? <==> forall k :: i <= k < |s| ==> !SeparatorAt(s, k)
    decreases |s| - i
  {
    if i + 1 >= |s| then None
    else if SeparatorAt(s, i) then Some(i)
    else NextSeparator(s, i + 1)
  }

  /** The pieces of s[i..] between separators, scanning left to right. */
  function SplitFrom(s: string, i: nat): (parts: seq<string>)
    requires i <= |s|
    ensures |parts| >= 1
    decreases |s| - i
  {
    match NextSeparator(s, i)
    case None => [s[i..]]
    case Some(j) => [s[i..j]] + SplitFrom(s, j + 2)
  }

  /** Split(new[] { "eq", "==" }, StringSplitOptions.None). */
  function Split(s: string): seq<string> {
    SplitFrom(s, 0)
  }

  predicate NonEmpty(s: string) { s != [] }

  /** Split(new[] { "eq", "==" }, StringSplitOptions.RemoveEmptyEntries). */
  function SplitRemoveEmpty(s: string): (parts: seq<string>)
    ensures forall i :: 0 <= i < |parts| ==> parts[i] != []
  {
    Seqs.Filter(Split(s), NonEmpty)
  }

  /** No piece of s[i..] contains a separator: the split cuts at every one of them. */
  lemma {:induction false} SplitFromHasNoSeparator(s: string, i: nat)
    requires i <= |s|
    ensures forall k :: 0 <= k < |SplitFrom(s, i)| ==> NoSeparator(SplitFrom(s, i)[k])
    decreases |s| - i
  {
    var parts := SplitFrom(s, i);
    match NextSeparator(s, i)
    case None =>
      SliceHasNoSeparator(s, i, |s|);
      assert s[i..] == s[i..|s|];
    case Some(j) =>
      SliceHasNoSeparator(s, i, j);
      SplitFromHasNoSeparator(s, j + 2);
      assert forall k :: 1 <= k < |parts| ==> parts[k] == SplitFrom(s, j + 2)[k - 1];
  }

  /** A slice free of separator starts, other than at its last position, holds no separator. */
  lemma SliceHasNoSeparator(s: string, lo: nat, hi: nat)
    requires lo <= hi <= |s|
    requires forall k :: lo <= k < hi ==> !SeparatorAt(s, k)
    ensures NoSeparator(s[lo..hi])
  {
    forall m | 0 <= m < hi - lo ensures !SeparatorAt(s[lo..hi], m) {
      assert !SeparatorAt(s, lo + m);
    }
  }

  /** A sub-slice of a string without separators has none either. */
  lemma SubsliceHasNoSeparator(s: string, lo: nat, hi: nat)
    requires lo <= hi <= |s| && NoSeparator(s)
    ensures NoSeparator(s[lo..hi])
  {
    forall m | 0 <= m < hi - lo ensures !SeparatorAt(s[lo..hi], m) {
      assert !SeparatorAt(s, lo + m);
    }
  }

  /**
   * ExtractFilterValue: with at least two non-empty pieces, the second one
   * trimmed of whitespace and then of quotes; otherwise null. The value never
   * starts or ends with a quote.
   */
  function ExtractFilterValue(filter: string): (r: Option<string>)
    ensures r.Some? ==> r.value == [] || (!IsQuote(r.value[0]) && !IsQuote(r.value[|r.value| - 1]))
  {
    var parts := SplitRemoveEmpty(filter);
    if |parts| >= 2 then Some(TrimQuotes(Trim(parts[1]))) else None
  }

  /** The value never contains a separator: a value holding "eq" or "==" is cut short. */
  lemma ValueHasNoSeparator(filter: string)
    ensures ExtractFilterValue(filter).Some? ==> NoSeparator(ExtractFilterValue(filter).value)
  {
    if |SplitRemoveEmpty(filter)| < 2 {
      return;
    }
    PiecesHaveNoSeparator(filter);
    var piece := SplitRemoveEmpty(filter)[1];
    TrimKeepsNoSeparator(piece);
    TrimQuotesKeepsNoSeparator(Trim(piece));
  }

  /** No non-empty piece of the split holds a separator. */
  lemma PiecesHaveNoSeparator(filter: string)
    ensures forall k :: 0 <= k < |SplitRemoveEmpty(filter)| ==> NoSeparator(SplitRemoveEmpty(filter)[k])
  {
    SplitFromHasNoSeparator(filter, 0);
    Seqs.FilterKeepsMatches(Split(filter), NonEmpty);
    Seqs.SubMultisetKeeps(Split(filter), SplitRemoveEmpty(filter), NoSeparator);
  }

  lemma TrimKeepsNoSeparator(s: string)
    requires NoSeparator(s)
    ensures NoSeparator(Trim(s))
  {
    var lo, hi := TrimIsSlice(s);
    SubsliceHasNoSeparator(s, lo, hi);
  }

  lemma TrimQuotesKeepsNoSeparator(s: string)
    requires NoSeparator(s)
    ensures NoSeparator(TrimQuotes(s))
  {
    var a := TrimQuotesStart(s);
    SubsliceHasNoSeparator(s, |s| - |a|, |s|);
    assert a == s[|s| - |a|..|s|];
    SubsliceHasNoSeparator(a, 0, |TrimQuotesEnd(a)|);
    assert TrimQuotesEnd(a) == a[0..|TrimQuotesEnd(a)|];
  }

  /** A filter without "eq" or "==" is one piece at most, so it yields no value. */
  lemma NoSeparatorNoValue(filter: string)
    requires NoSeparator(filter)
    ensures ExtractFilterValue(filter) == None
  {
    assert NextSeparator(filter, 0) == None;
    assert filter[0..] == filter;
    assert Split(filter) == [filter];
    assert |SplitRemoveEmpty(filter)| <= 1;
  }

  /**
   * The filter `attribute eq 'value'` yields the value, for an attribute and
   * a value that hold no separator and a value that neither starts nor ends
   * with a quote.
   */
  lemma ExtractOfEquality(attribute: string, value: string)
    requires NoSeparator(attribute) && NoSeparator(value)
    requires value == [] || (!IsQuote(value[0]) && !IsQuote(value[|value| - 1]))
    ensures ExtractFilterValue(attribute + " eq '" + value + "'") == Some(value)
  {
    var first, second := attribute + " ", " '" + value + "'";
    assert attribute + " eq '" + value + "'" == first + "eq" + second;
    assert NoSeparator(" ") && NoSeparator(" '") && NoSeparator("'");
    NoSeparatorAppend(attribute, " ");
    NoSeparatorAppend(" '", value);
    NoSeparatorAppend(" '" + value, "'");
    SplitAroundSeparator(first, second);
    var none: seq<string> := [];
    assert [first, second][1..] == [second] && [second][1..] == none;
    assert Seqs.Filter([second], NonEmpty) == [second];
    assert SplitRemoveEmpty(first + "eq" + second) == [first, second];
    TrimQuoted(value);
  }

  /** Joining two strings without separators makes none, unless one straddles the joint. */
  lemma NoSeparatorAppend(a: string, b: string)
    requires NoSeparator(a) && NoSeparator(b)
    requires a == [] || b == [] || (a[|a| - 1] != 'e' && a[|a| - 1] != '=') || (b[0] != 'q' && b[0] != '=')
    ensures NoSeparator(a + b)
  {
    var s := a + b;
    forall k | 0 <= k < |s| ensures !SeparatorAt(s, k) {
      if k + 1 < |a| {
        assert !SeparatorAt(a, k);
      } else if k >= |a| && k + 1 < |s| {
        assert !SeparatorAt(b, k - |a|);
      }
    }
  }

  /** A string with one "eq" and no other separator splits into the pieces around it. */
  lemma SplitAroundSeparator(first: string, second: string)
    requires NoSeparator(first) && NoSeparator(second)
    ensures Split(first + "eq" + second) == [first, second]
  {
    var s := first + "eq" + second;
    var n := |first|;
    forall k | 0 <= k < n ensures !SeparatorAt(s, k) {
      if k + 1 < n {
        assert !SeparatorAt(first, k);
      } else {
        assert s[k + 1] == 'e';
      }
    }
    assert SeparatorAt(s, n);
    assert NextSeparator(s, 0) == Some(n);
    forall k | n + 2 <= k < |s| ensures !SeparatorAt(s, k) {
      if k + 1 < |s| {
        assert !SeparatorAt(second, k - n - 2);
      }
    }
    assert s[n + 1] == 'q';
    assert NextSeparator(s, n + 2) == None;
    assert SplitFrom(s, n + 2) == [s[n + 2..]];
    assert Split(s) == [s[0..n]] + SplitFrom(s, n + 2);
    assert s[0..n] == first && s[n + 2..] == second;
  }

  /** Trim() then Trim('\'', '"') turn ` 'value'` back into the value. */
  lemma TrimQuoted(value: string)
    requires value == [] || (!IsQuote(value[0]) && !IsQuote(value[|value| - 1]))
    ensures TrimQuotes(Trim(" '" + value + "'")) == value
  {
    var quoted := "'" + value + "'";
    assert " '" + value + "'" == [' '] + quoted;
    TrimLeadingSpace(quoted);
    UnquoteQuoted(value);
  }

  /** Trim() drops one leading space before a quoted string and nothing else. */
  lemma TrimLeadingSpace(quoted: string)
    requires |quoted| >= 2 && quoted[0] == '\'' && quoted[|quoted| - 1] == '\''
    ensures Trim([' '] + quoted) == quoted
  {
    var spaced := [' '] + quoted;
    assert spaced[1..] == quoted;
    SpaceStartTrimmed(spaced);
    TrimFixes(quoted);
  }

  /** One step of TrimStart on a string that starts with whitespace. */
  lemma SpaceStartTrimmed(s: string)
    requires s != [] && IsWhiteSpace(s[0])
    ensures TrimStart(s) == TrimStart(s[1..])
  {
  }

  /** Trim('\'', '"') removes the quotes around a value that has none at its ends. */
  lemma UnquoteQuoted(value: string)
    requires value == [] || (!IsQuote(value[0]) && !IsQuote(value[|value| - 1]))
    ensures TrimQuotes("'" + value + "'") == value
  {
    var quoted := "'" + value + "'";
    var tail := value + "'";
    assert quoted[1..] == tail;
    QuoteStartsTrimmed(quoted);
    if value == [] {
      assert tail[1..] == [];
      QuoteStartsTrimmed(tail);
    } else {
      assert tail[0] == value[0];
      assert tail[..|tail| - 1] == value;
      QuoteEndsTrimmed(tail);
    }
  }

  /** One step of TrimQuotesStart on a string that starts with a quote. */
  lemma QuoteStartsTrimmed(s: string)
    requires s != [] && IsQuote(s[0])
    ensures TrimQuotesStart(s) == TrimQuotesStart(s[1..])
  {
  }

  /** One step of TrimQuotesEnd on a string that ends with a quote. */
  lemma QuoteEndsTrimmed(s: string)
    requires s != [] && IsQuote(s[|s| - 1])
    ensures TrimQuotesEnd(s) == TrimQuotesEnd(s[..|s| - 1])
  {
  }

  /**
   * The part of ListAsync that decides whether to filter: the filter must be
   * non-blank and mention the attribute (ignoring case), and the extracted
   * value must be non-empty; otherwise every row is listed.
   */
  function SearchTerm(filter: Option<string>, attribute: string): (r: Option<string>)
    ensures r.Some? ==> r.value != [] && filter.Some? && ContainsIgnoreCase(filter.value, attribute)
    ensures r.Some? ==> ExtractFilterValue(filter.value) == r
    ensures (&& !IsNullOrWhiteSpace(filter) && ContainsIgnoreCase(filter.value, attribute)
             && ExtractFilterValue(filter.value).Some? && ExtractFilterValue(filter.value).value != [])
            ==> r == ExtractFilterValue(filter.value)
    ensures IsNullOrWhiteSpace(filter) ==> r.None?
  {
    if IsNullOrWhiteSpace(filter) || !ContainsIgnoreCase(filter.value, attribute) then None
    else
      var v := ExtractFilterValue(filter.value);
      if v.Some? && v.value != [] then v else None
  }

  /** A string mentions its own prefix, ignoring case. */
  lemma PrefixIsContained(prefix: string, rest: string)
    ensures ContainsIgnoreCase(prefix + rest, prefix)
  {
    var s := prefix + rest;
    assert ToLower(s)[0..|prefix|] == ToLower(prefix) by {
      forall i | 0 <= i < |prefix| ensures ToLower(s)[i] == ToLower(prefix)[i] {
        assert s[i] == prefix[i];
      }
    }
    assert OccursAt(ToLower(s), ToLower(prefix), 0);
  }

  /**
   * `attribute eq 'value'` filters on the value, when the value is non-empty
   * and, as for ExtractOfEquality, holds no separator and no quote at
   * either end.
   */
  lemma SearchTermOfEquality(attribute: string, value: string)
    requires NoSeparator(attribute) && NoSeparator(value) && value != []
    requires !IsQuote(value[0]) && !IsQuote(value[|value| - 1])
    ensures SearchTerm(Some(attribute + " eq '" + value + "'"), attribute) == Some(value)
  {
    var filter := attribute + " eq '" + value + "'";
    var rest := " eq '" + value + "'";
    assert filter == attribute + rest;
    PrefixIsContained(attribute, rest);
    assert ContainsIgnoreCase(filter, attribute);
    assert !IsWhiteSpace(filter[|attribute| + 1]);
    assert !IsNullOrWhiteSpace(Some(filter));
    ExtractOfEquality(attribute, value);
    assert ExtractFilterValue(filter) == Some(value);
  }
}
