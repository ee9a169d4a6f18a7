/**
 * Request and response models (backend/app/models/user.py): the `User`
 * validators for name and registration number, with their field length
 * bounds, and the bounds `UserSearchResult` enforces on construction.
 */
module UserModel {
  import opened Wrappers

  // ---------------------------------------------------------------------------
  // Whitespace stripping (Python's str.strip() without arguments)
  // ---------------------------------------------------------------------------

  /** The characters for which Python's `str.isspace()` holds. */
  predicate IsSpace(c: char) {
    var n := c as int;
    9 <= n <= 13 || 28 <= n <= 32 || n == 0x85 || n == 0xA0 || n == 0x1680 ||
    0x2000 <= n <= 0x200A || n == 0x2028 || n == 0x2029 || n == 0x202F || n == 0x205F || n == 0x3000
  }

  predicate AllSpace(s: string) {
    forall i :: 0 <= i < |s| ==> IsSpace(s[i])
  }

  /** The number of whitespace characters at the start of `s`. */
  function LeadingSpaces(s: string): (n: nat)
    ensures n <= |s|
    ensures forall i :: 0 <= i < n ==> IsSpace(s[i])
    ensures n < |s| ==> !IsSpace(s[n])
  {
    if s != [] && IsSpace(s[0]) then 1 + LeadingSpaces(s[1..]) else 0
  }

  /** The number of whitespace characters at the end of `s`. */
  function TrailingSpaces(s: string): (n: nat)
    ensures n <= |s|
    ensures forall i :: |s| - n <= i < |s| ==> IsSpace(s[i])
    ensures n < |s| ==> !IsSpace(s[|s| - n - 1])
  {
    if s != [] && IsSpace(s[|s| - 1]) then 1 + TrailingSpaces(s[..|s| - 1]) else 0
  }

  /** Drops leading whitespace: the result is the suffix that starts at the first non-space character. */
  function StripStart(s: string): (r: string)
    ensures |r| <= |s| && r == s[|s| - |r|..]
    ensures r == [] || !IsSpace(r[0])
    ensures AllSpace(s[..|s| - |r|])
  {
    s[LeadingSpaces(s)..]
  }

  /** Drops trailing whitespace: the result is the prefix that ends at the last non-space character. */
  function StripEnd(s: string): (r: string)
    ensures |r| <= |s| && r == s[..|r|]
    ensures r == [] || !IsSpace(r[|r| - 1])
    ensures AllSpace(s[|r|..])
  {
    s[..|s| - TrailingSpaces(s)]
  }

  /** `str.strip()`: no whitespace at either end, and only whitespace removed. */
  function Strip(s: string): (r: string)
    ensures |r| <= |s|
    ensures r == [] || (!IsSpace(r[0]) && !IsSpace(r[|r| - 1]))
  {
    StripEnd(StripStart(s))
  }

  /** Strip removes a whitespace-only prefix and a whitespace-only suffix and keeps the middle. */
  lemma StripIsMiddle(s: string)
    ensures var k := |s| - |StripStart(s)|;
      k + |Strip(s)| <= |s| &&
      s[k..k + |Strip(s)|] == Strip(s) &&
      AllSpace(s[..k]) && AllSpace(s[k + |Strip(s)|..])
  {
    var t := StripStart(s);
    var r := StripEnd(t);
    assert Strip(s) == r;
    SliceOfSuffix(s, |s| - |t|, |r|);
  }

  lemma SliceOfSuffix(s: string, k: nat, n: nat)
    requires k + n <= |s|
    ensures s[k..][..n] == s[k..k + n] && s[k..][n..] == s[k + n..]
  {
  }

  /** The stripped string is empty exactly when the input is all whitespace. */
  lemma StripEmptyIff(s: string)
    ensures Strip(s) == [] <==> AllSpace(s)
  {
    StripIsMiddle(s);
    var k := |s| - |StripStart(s)|;
    if Strip(s) == [] {
      var t := StripStart(s);
      assert AllSpace(t[0..]);
      assert t[0..] == t;
      assert s[..k] == s;
    } else {
      assert !IsSpace(s[k]) by { assert s[k] == Strip(s)[0]; }
    }
  }

  /** Stripping twice is stripping once. */
  lemma StripIdempotent(s: string)
    ensures Strip(Strip(s)) == Strip(s)
  {
    var r := Strip(s);
    assert StripStart(r) == r;
    assert StripEnd(r) == r;
  }

  // ---------------------------------------------------------------------------
  // Name: Field(min_length=2, max_length=100), then validate_name
  // ---------------------------------------------------------------------------

  datatype UserError =
    | NameTooShort | NameTooLong | NameBlank
    | RegistrationTooShort | RegistrationTooLong | RegistrationBadCharacters

  /** `validate_name`: rejects a name that strips to nothing, otherwise keeps the stripped name. */
  function ValidateName(v: string): (r: Result<string, UserError>)
    ensures r.Ok? <==> !AllSpace(v)
    ensures r.Err? ==> r.error == NameBlank
    ensures r.Ok? ==> r.value != [] && !IsSpace(r.value[0]) && !IsSpace(r.value[|r.value| - 1])
  {
    StripEmptyIff(v);
    if Strip(v) == [] then Err(NameBlank) else Ok(Strip(v))
  }

  /** The name field: the length bounds apply to the submitted string, and the validator runs afterwards. */
  function ParseName(v: string): (r: Result<string, UserError>)
    ensures r.Ok? <==> 2 <= |v| <= 100 && !AllSpace(v)
    ensures r.Ok? ==> 1 <= |r.value| <= 100 && r.value == Strip(v)
  {
    if |v| < 2 then Err(NameTooShort)
    else if |v| > 100 then Err(NameTooLong)
    else ValidateName(v)
  }

  /** Validating an already validated name returns it unchanged. */
  lemma ValidateNameIdempotent(v: string)
    requires ValidateName(v).Ok?
    ensures ValidateName(ValidateName(v).value) == ValidateName(v)
  {
    StripIdempotent(v);
    StripEmptyIff(Strip(v));
  }

  /** Because trimming follows the length check, a padded one-letter name is stored, though "a" itself is refused. */
  lemma PaddedOneLetterName()
    ensures ParseName("  a ") == Ok("a")
    ensures ParseName("a") == Err(NameTooShort)
  {
    assert StripStart("  a ") == "a ";
    assert StripEnd("a ") == "a" by {
      assert "a "[..1] == "a";
    }
  }

  // ---------------------------------------------------------------------------
  // Registration number: Field(min_length=3, max_length=50), then
  // re.match(r'^[A-Za-z0-9\-_]+$', v) and v.upper()
  // ---------------------------------------------------------------------------

  /** The character class `[A-Za-z0-9\-_]`. */
  predicate IsRegistrationChar(c: char) {
    'A' <= c <= 'Z' || 'a' <= c <= 'z' || '0' <= c <= '9' || c == '-' || c == '_'
  }

  predicate AllRegistrationChars(s: string) {
    forall i :: 0 <= i < |s| ==> IsRegistrationChar(s[i])
  }

  /** The length of the longest prefix made of class characters: what the greedy `+` consumes. */
  function ClassRun(v: string): (n: nat)
    ensures n <= |v|
    ensures AllRegistrationChars(v[..n])
    ensures n < |v| ==> !IsRegistrationChar(v[n])
  {
    if v != [] && IsRegistrationChar(v[0]) then 1 + ClassRun(v[1..]) else 0
  }

  /**
   * `re.match` of the anchored pattern, as the regular-expression engine runs it:
   * the greedy run must be non-empty, then `$` matches at the end of the string or
   * just before a final newline. Backtracking cannot help, as "\n" is not in the class.
   */
  predicate MatchesRegistrationPattern(v: string)
    ensures MatchesRegistrationPattern(v) ==> |v| >= 1 && IsRegistrationChar(v[0])
  {
    var n := ClassRun(v);
    n >= 1 && (n == |v| || (n == |v| - 1 && v[n] == '\n'))
  }

  /** The pattern matches exactly the non-empty class strings, optionally followed by one newline. */
  lemma {:induction false} MatchesRegistrationPatternIff(v: string)
    ensures MatchesRegistrationPattern(v) <==>
      (|v| >= 1 && AllRegistrationChars(v)) ||
      (|v| >= 2 && v[|v| - 1] == '\n' && AllRegistrationChars(v[..|v| - 1]))
  {
    var n := ClassRun(v);
    if |v| >= 1 && AllRegistrationChars(v) {
      assert v[..|v|] == v;
      ClassRunCovers(v, |v|);
    }
    if |v| >= 2 && v[|v| - 1] == '\n' && AllRegistrationChars(v[..|v| - 1]) {
      ClassRunCovers(v, |v| - 1);
    }
    if MatchesRegistrationPattern(v) && n == |v| - 1 {
      assert v[..|v| - 1] == v[..n];
    }
    if MatchesRegistrationPattern(v) && n == |v| {
      assert v == v[..n];
    }
  }

  /** The greedy run reaches at least as far as any all-class prefix. */
  lemma {:induction false} ClassRunCovers(v: string, m: nat)
    requires m <= |v| && AllRegistrationChars(v[..m])
    ensures ClassRun(v) >= m
  {
    if m > 0 {
      assert IsRegistrationChar(v[..m][0]);
      assert v[1..][..m - 1] == v[..m][1..];
      ClassRunCovers(v[1..], m - 1);
    }
  }

  /** ASCII upper-casing of one character. */
  function UpperChar(c: char): (r: char)
    ensures 'a' <= c <= 'z' ==> 'A' <= r <= 'Z' && c as int - r as int == 32
    ensures !('a' <= c <= 'z') ==> r == c
  {
    if 'a' <= c <= 'z' then (c as int - 32) as char else c
  }

  /** `str.upper()` on the characters a matching registration number can hold. */
  function Upper(s: string): (r: string)
    ensures |r| == |s|
    ensures forall i :: 0 <= i < |s| ==> r[i] == UpperChar(s[i])
  {
    if s == [] then [] else [UpperChar(s[0])] + Upper(s[1..])
  }

  /** `validate_registration_number`: the pattern check, then upper-casing. */
  function ValidateRegistrationNumber(v: string): (r: Result<string, UserError>)
    ensures r.Ok? <==> MatchesRegistrationPattern(v)
    ensures r.Err? ==> r.error == RegistrationBadCharacters
    ensures r.Ok? ==> |r.value| == |v| && forall i :: 0 <= i < |v| ==> !('a' <= r.value[i] <= 'z')
  {
    if !MatchesRegistrationPattern(v) then Err(RegistrationBadCharacters) else Ok(Upper(v))
  }

  /** The registration field: length bounds on the submitted string, then the validator. */
  function ParseRegistrationNumber(v: string): (r: Result<string, UserError>)
    ensures r.Ok? <==> 3 <= |v| <= 50 && MatchesRegistrationPattern(v)
    ensures r.Ok? ==> |r.value| == |v|
  {
    if |v| < 3 then Err(RegistrationTooShort)
    else if |v| > 50 then Err(RegistrationTooLong)
    else ValidateRegistrationNumber(v)
  }

  /** Upper-casing keeps a string inside the character class and keeps a final newline. */
  lemma {:induction false} UpperKeepsPattern(v: string)
    requires MatchesRegistrationPattern(v)
    ensures MatchesRegistrationPattern(Upper(v))
  {
    MatchesRegistrationPatternIff(v);
    MatchesRegistrationPatternIff(Upper(v));
    var u := Upper(v);
    forall i | 0 <= i < |v| && IsRegistrationChar(v[i]) ensures IsRegistrationChar(u[i]) { }
    if |v| >= 2 && v[|v| - 1] == '\n' && AllRegistrationChars(v[..|v| - 1]) {
      var w, x := u[..|u| - 1], v[..|v| - 1];
      forall i | 0 <= i < |w| ensures IsRegistrationChar(w[i]) {
        assert IsRegistrationChar(x[i]);
      }
    }
  }

  /** A stored registration number is as long as the submitted one, upper-case, and still matches. */
  lemma StoredRegistrationMatches(v: string)
    requires ParseRegistrationNumber(v).Ok?
    ensures var r := ParseRegistrationNumber(v).value;
      |r| == |v| && MatchesRegistrationPattern(r) && r == Upper(v)
  {
    UpperKeepsPattern(v);
  }

  /** Submitting a stored registration number again stores the same string. */
  lemma ParseRegistrationIdempotent(v: string)
    requires ParseRegistrationNumber(v).Ok?
    ensures ParseRegistrationNumber(ParseRegistrationNumber(v).value) == ParseRegistrationNumber(v)
  {
    var r := Upper(v);
    UpperKeepsPattern(v);
    assert Upper(r) == r;
  }

  /** Validating an already validated registration number returns it unchanged. */
  lemma ValidateRegistrationIdempotent(v: string)
    requires ValidateRegistrationNumber(v).Ok?
    ensures ValidateRegistrationNumber(ValidateRegistrationNumber(v).value) == ValidateRegistrationNumber(v)
  {
    var r := Upper(v);
    UpperKeepsPattern(v);
    assert Upper(r) == r;
  }

  /** `$` also matches before a final newline, so "ab1\n" is accepted and stored as "AB1\n". */
  lemma TrailingNewlineAccepted()
    ensures ParseRegistrationNumber("ab1\n") == Ok("AB1\n")
    ensures ParseRegistrationNumber("ab1\n\n").Err?
    ensures ParseRegistrationNumber("ab 1").Err?
  {
    assert ClassRun("ab1\n") == 3 by {
      assert "ab1\n"[1..] == "b1\n" && "b1\n"[1..] == "1\n" && "1\n"[1..] == "\n";
    }
    assert ClassRun("ab1\n\n") == 3 by {
      assert "ab1\n\n"[1..] == "b1\n\n" && "b1\n\n"[1..] == "1\n\n" && "1\n\n"[1..] == "\n\n";
    }
    assert ClassRun("ab 1") == 2 by {
      assert "ab 1"[1..] == "b 1" && "b 1"[1..] == " 1";
    }
    assert Upper("ab1\n") == "AB1\n";
  }

  /**
   * What the error message promises: only letters, digits, hyphen and underscore.
   * This is `re.fullmatch` of the same pattern.
   */
  function ValidateRegistrationNumberStrict(v: string): (r: Result<string, UserError>)
    ensures r.Ok? <==> |v| >= 1 && AllRegistrationChars(v)
    ensures r.Ok? ==> |r.value| == |v| && AllRegistrationChars(r.value)
    ensures r.Ok? ==> forall i :: 0 <= i < |v| ==> !('a' <= r.value[i] <= 'z')
  {
    if |v| >= 1 && AllRegistrationChars(v) then Ok(Upper(v)) else Err(RegistrationBadCharacters)
  }

  /** The strict check refuses the trailing newline that the as-written check lets through. */
  lemma StrictRefusesTrailingNewline()
    ensures ValidateRegistrationNumber("ab1\n").Ok?
    ensures ValidateRegistrationNumberStrict("ab1\n").Err?
  {
    TrailingNewlineAccepted();
    assert !IsRegistrationChar("ab1\n"[3]);
  }

  // ---------------------------------------------------------------------------
  // UserSearchResult: similarity_score in [0, 1], distance >= 0
  // ---------------------------------------------------------------------------

  datatype SearchResult = SearchResult(
    name: string,
    registrationNumber: string,
    similarityScore: real,
    distance: real
  )

  /** The field bounds of a search result; there is no upper bound on the distance. */
  predicate InBounds(r: SearchResult) {
    0.0 <= r.similarityScore <= 1.0 && 0.0 <= r.distance
  }

  /**
   * Constructing a `UserSearchResult`: a missing name or registration number, a
   * similarity outside [0, 1] or a negative distance makes construction fail.
   */
  function NewSearchResult(name: Option<string>, registrationNumber: Option<string>,
                           similarityScore: real, distance: real): (r: Option<SearchResult>)
    ensures r.Some? ==> InBounds(r.value)
    ensures r.Some? ==>
      name.Some? && registrationNumber.Some? &&
      r.value == SearchResult(name.value, registrationNumber.value, similarityScore, distance)
    ensures r.None? <==>
      name.None? || registrationNumber.None? ||
      similarityScore < 0.0 || similarityScore > 1.0 || distance < 0.0
  {
    match (name, registrationNumber)
    case (Some(n), Some(reg)) =>
      var result := SearchResult(n, reg, similarityScore, distance);
      if InBounds(result) then Some(result) else None
    case _ => None
  }
}
