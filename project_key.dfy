/**
 * The constraints `Project` puts on its `pkey`: `@NotNull`, `@NotBlank`, `@LowerCase`,
 * `@Size(max = 100)` and `@Pattern(regexp = PKEY_PATTERN)` with
 * `PKEY_PATTERN = ^([a-z]|[0-9]+-?[a-z])[a-z0-9\-]*$`.
 */
module ProjectKey {
  import opened Wrappers
  import opened Strings

  const MaxLength: nat := 100

  /** `[a-z0-9\-]` */
  predicate IsPkeyChar(c: char) { IsLowerAlnum(c) || c == '-' }

  // ---------------------------------------------------------------- the regular expression

  /** `[a-z0-9\-]*` against `s[i..]`. */
  function MatchRest(s: string, i: nat): bool
    requires i <= |s|
    decreases |s| - i
  {
    i == |s| || (IsPkeyChar(s[i]) && MatchRest(s, i + 1))
  }

  /** After at least one digit: more digits, an optional `-`, one letter, then `[a-z0-9\-]*`. */
  function MatchAfterDigits(s: string, i: nat): bool
    requires i <= |s|
    decreases |s| - i
  {
    i < |s| &&
    if IsDigit(s[i]) then MatchAfterDigits(s, i + 1)
    else if IsLowerLetter(s[i]) then MatchRest(s, i + 1)
    else s[i] == '-' && i + 1 < |s| && IsLowerLetter(s[i + 1]) && MatchRest(s, i + 2)
  }

  /** `PKEY_PATTERN` matched against the whole string. */
  predicate MatchesPattern(s: string)
  {
    |s| > 0 &&
    ((IsLowerLetter(s[0]) && MatchRest(s, 1)) || (IsDigit(s[0]) && MatchAfterDigits(s, 1)))
  }

  // ---------------------------------------------------------------- bean validation

  /** Hibernate's `@NotBlank`: something is left after trimming the characters up to the space. */
  predicate NotBlank(s: string) { exists i :: 0 <= i < |s| && s[i] > ' ' }

  /** `@LowerCase`: lower-casing changes nothing. */
  predicate IsLowerCase(s: string) { ToLower(s) == s }

  /** All constraints on `Project.pkey`; `null` is `None`. */
  predicate IsValidPkey(pkey: Option<string>)
  {
    pkey.Some? && NotBlank(pkey.value) && IsLowerCase(pkey.value) && |pkey.value| <= MaxLength
    && MatchesPattern(pkey.value)
  }

  // ---------------------------------------------------------------- character-level reading

  /** The first index at or after `i` that does not hold a digit. */
  function DigitsEnd(s: string, i: nat): (n: nat)
    requires i <= |s|
    ensures i <= n <= |s|
    ensures forall j :: i <= j < n ==> IsDigit(s[j])
    ensures n < |s| ==> !IsDigit(s[n])
    decreases |s| - i
  {
    if i < |s| && IsDigit(s[i]) then DigitsEnd(s, i + 1) else i
  }

  /**
   * The pattern read as a property of the characters: only `[a-z0-9-]`, and the first
   * non-digit is a letter, or a `-` that follows at least one digit and precedes a letter.
   */
  ghost predicate WellFormedPkey(s: string)
  {
    && (forall i :: 0 <= i < |s| ==> IsPkeyChar(s[i]))
    && var n := DigitsEnd(s, 0);
       n < |s| && (IsLowerLetter(s[n]) || (n > 0 && s[n] == '-' && n + 1 < |s| && IsLowerLetter(s[n + 1])))
  }

  lemma {:induction false} MatchRestMeaning(s: string, i: nat)
    requires i <= |s|
    ensures MatchRest(s, i) <==> forall j :: i <= j < |s| ==> IsPkeyChar(s[j])
    decreases |s| - i
  {
    if i < |s| { MatchRestMeaning(s, i + 1); }
  }

  lemma {:induction false} MatchAfterDigitsMeaning(s: string, i: nat)
    requires i <= |s|
    ensures MatchAfterDigits(s, i) <==>
      && (forall j :: i <= j < |s| ==> IsPkeyChar(s[j]))
      && var n := DigitsEnd(s, i);
         n < |s| && (IsLowerLetter(s[n]) || (s[n] == '-' && n + 1 < |s| && IsLowerLetter(s[n + 1])))
    decreases |s| - i
  {
    if i < |s| {
      if IsDigit(s[i]) {
        MatchAfterDigitsMeaning(s, i + 1);
      } else if IsLowerLetter(s[i]) {
        MatchRestMeaning(s, i + 1);
      } else if s[i] == '-' && i + 1 < |s| && IsLowerLetter(s[i + 1]) {
        MatchRestMeaning(s, i + 2);
      }
    }
  }

  /** The pattern accepts exactly the well-formed keys. */
  lemma PatternMeaning(s: string)
    ensures MatchesPattern(s) <==> WellFormedPkey(s)
  {
    if |s| > 0 {
      if IsLowerLetter(s[0]) {
        MatchRestMeaning(s, 1);
      } else if IsDigit(s[0]) {
        MatchAfterDigitsMeaning(s, 1);
        assert DigitsEnd(s, 0) == DigitsEnd(s, 1);
      }
    }
  }

  /** A key matching the pattern is never blank and already lower case, so only the length adds a constraint. */
  lemma PatternSubsumesCase(s: string)
    ensures IsValidPkey(Some(s)) <==> MatchesPattern(s) && |s| <= MaxLength
  {
    if MatchesPattern(s) {
      PatternMeaning(s);
      assert s[0] > ' ';
      assert ToLower(s) == s by {
        forall i | 0 <= i < |s| ensures ToLower(s)[i] == s[i] { assert IsPkeyChar(s[i]); }
      }
    }
  }

  /** Digits alone, or digits followed by one hyphen, never form a key. */
  lemma DigitsOnlyInvalid(s: string)
    requires AllDigits(s)
    ensures !MatchesPattern(s) && !MatchesPattern(s + "-")
  {
    PatternMeaning(s);
    PatternMeaning(s + "-");
    var t := s + "-";
    assert DigitsEnd(s, 0) == |s|;
    assert DigitsEnd(t, 0) == |s| by {
      assert forall j :: 0 <= j < |s| ==> t[j] == s[j];
      assert t[|s|] == '-';
    }
  }

  /** After the prefix anything from `[a-z0-9-]` may follow, trailing and repeated hyphens included. */
  lemma SuffixKeepsMatch(s: string, t: string)
    requires MatchesPattern(s)
    requires forall i :: 0 <= i < |t| ==> IsPkeyChar(t[i])
    ensures MatchesPattern(s + t)
  {
    PatternMeaning(s);
    var u := s + t;
    var n := DigitsEnd(s, 0);
    assert forall j :: 0 <= j < |s| ==> u[j] == s[j];
    assert DigitsEnd(u, 0) == n by {
      assert forall j :: 0 <= j < n ==> IsDigit(u[j]);
      assert !IsDigit(u[n]);
      DigitsEndAt(u, 0, n);
    }
    forall i | 0 <= i < |u| ensures IsPkeyChar(u[i]) {
      if i >= |s| { assert u[i] == t[i - |s|]; }
    }
    PatternMeaning(u);
  }

  lemma {:induction false} DigitsEndAt(s: string, i: nat, n: nat)
    requires i <= n < |s|
    requires forall j :: i <= j < n ==> IsDigit(s[j])
    requires !IsDigit(s[n])
    ensures DigitsEnd(s, i) == n
    decreases n - i
  {
    if i < n { DigitsEndAt(s, i + 1, n); }
  }

  // ---------------------------------------------------------------- examples

  lemma ValidExamples()
    ensures IsValidPkey(Some("ligoj")) && IsValidPkey(Some("1a")) && IsValidPkey(Some("12-b"))
    ensures IsValidPkey(Some("a--")) && IsValidPkey(Some("gfi-gstack"))
  {
    PatternSubsumesCase("ligoj");
    PatternSubsumesCase("1a");
    PatternSubsumesCase("12-b");
    PatternSubsumesCase("a--");
    PatternSubsumesCase("gfi-gstack");
  }

  lemma InvalidExamples()
    ensures !IsValidPkey(None) && !IsValidPkey(Some("")) && !IsValidPkey(Some("123"))
    ensures !IsValidPkey(Some("1-")) && !IsValidPkey(Some("-a")) && !IsValidPkey(Some("Ligoj"))
    ensures !IsValidPkey(Some("a_b")) && !IsValidPkey(Some("1--a"))
  {
    DigitsOnlyInvalid("123");
    DigitsOnlyInvalid("1");
    assert "1" + "-" == "1-";
  }
}
