/** The sign-up request body and its validation rules
    (src/users/dto/create-user.dto.ts): `name` and `email` must be non-empty
    strings, `password` a string of at least 8 characters that matches the
    unanchored pattern
    `(?=.*[a-zA-Z])(?=.*\d)(?=.*[@$!%*?&])[A-Za-z\d@$!%*?&]`. */
module UserDto {
  import opened Outcomes
  import opened Chars

  const MIN_PASSWORD_LENGTH := 8
  const SPECIALS := "@$!%*?&"

  /** The character classes the pattern uses. `Allowed` is the class the
      pattern finally consumes: `[A-Za-z\d@$!%*?&]`. */
  datatype CharClass = Letter | Digit | Special | Allowed

  predicate IsLetter(c: char) { ('a' <= c <= 'z') || ('A' <= c <= 'Z') }

  predicate IsSpecial(c: char) { c in SPECIALS }

  predicate InClass(c: char, cls: CharClass)
  {
    match cls
    case Letter => IsLetter(c)
    case Digit => IsDigit(c)
    case Special => IsSpecial(c)
    case Allowed => IsLetter(c) || IsDigit(c) || IsSpecial(c)
  }

  /** The characters `.` does not match in a JavaScript pattern without the
      `s` flag. */
  predicate IsLineTerminator(c: char)
  {
    c == '\n' || c == '\r' || c == '\U{2028}' || c == '\U{2029}'
  }

  predicate NoLineTerminator(s: string, i: int, j: int)
    requires 0 <= i <= j <= |s|
  {
    forall k :: i <= k < j ==> !IsLineTerminator(s[k])
  }

  /** What the lookahead `(?=.*[cls])` demands at position `i`: a character
      of the class at or after `i`, with no line terminator before it. */
  ghost predicate LookaheadHolds(s: string, i: int, cls: CharClass)
    requires 0 <= i <= |s|
  {
    exists j :: i <= j < |s| && InClass(s[j], cls) && NoLineTerminator(s, i, j)
  }

  /** The lookahead as a scan from `i`. */
  function Lookahead(s: string, i: int, cls: CharClass): (r: bool)
    requires 0 <= i <= |s|
    ensures r <==> LookaheadHolds(s, i, cls)
    decreases |s| - i
  {
    if i == |s| then false
    else if InClass(s[i], cls) then (assert NoLineTerminator(s, i, i); true)
    else if IsLineTerminator(s[i]) then false
    else
      var r := Lookahead(s, i + 1, cls);
      assert r ==> LookaheadHolds(s, i, cls) by {
        if r {
          var j :| i + 1 <= j < |s| && InClass(s[j], cls) && NoLineTerminator(s, i + 1, j);
          assert NoLineTerminator(s, i, j);
        }
      }
      assert LookaheadHolds(s, i, cls) ==> r by {
        if LookaheadHolds(s, i, cls) {
          var j :| i <= j < |s| && InClass(s[j], cls) && NoLineTerminator(s, i, j);
          assert j != i && NoLineTerminator(s, i + 1, j);
        }
      }
      r
  }

  /** The pattern matches starting at position `i`. */
  predicate MatchesAt(s: string, i: int)
    requires 0 <= i < |s|
  {
    && Lookahead(s, i, Letter)
    && Lookahead(s, i, Digit)
    && Lookahead(s, i, Special)
    && InClass(s[i], Allowed)
  }

  /** The pattern matches somewhere in `s`: it is not anchored. */
  ghost predicate PatternMatches(s: string)
  {
    exists i :: 0 <= i < |s| && MatchesAt(s, i)
  }

  /** `regex.test(s)` from position `i` on: try each start in turn. */
  function Search(s: string, i: int): (r: bool)
    requires 0 <= i <= |s|
    ensures r <==> exists k :: i <= k < |s| && MatchesAt(s, k)
    decreases |s| - i
  {
    if i == |s| then false else MatchesAt(s, i) || Search(s, i + 1)
  }

  /** `@Matches(...)` on the password. */
  function TestPassword(s: string): (r: bool)
    ensures r <==> PatternMatches(s)
  {
    Search(s, 0)
  }

  /** A body as it arrives: a field is `None` when it is absent or not a
      string. */
  datatype SignUpBody = SignUpBody(name: Option<string>, email: Option<string>, password: Option<string>)

  /** The validated body handed to the controller. */
  datatype CreateUserDto = CreateUserDto(name: string, email: string, password: string)

  /** `@IsNotEmpty()` together with `@IsString()`. */
  predicate IsNonEmptyString(field: Option<string>)
  {
    field.Some? && field.value != ""
  }

  /** The validation pipe on a sign-up body: a typed body when every rule
      holds, BadRequest otherwise. */
  function Validate(body: SignUpBody): (r: Result<CreateUserDto>)
    ensures r.Ok? <==>
              && IsNonEmptyString(body.name)
              && IsNonEmptyString(body.email)
              && body.password.Some?
              && |body.password.value| >= MIN_PASSWORD_LENGTH
              && PatternMatches(body.password.value)
    ensures r.Ok? ==> r.value == CreateUserDto(body.name.value, body.email.value, body.password.value)
    ensures r.Err? ==> r.error == BadRequest
  {
    if && IsNonEmptyString(body.name)
       && IsNonEmptyString(body.email)
       && IsNonEmptyString(body.password)
       && |body.password.value| >= MIN_PASSWORD_LENGTH
       && TestPassword(body.password.value)
    then Ok(CreateUserDto(body.name.value, body.email.value, body.password.value))
    else Err(BadRequest)
  }

  /** A lookahead that holds in `s` still holds at the same place once text
      is put around `s`. */
  lemma LookaheadInContext(p: string, s: string, q: string, i: int, cls: CharClass)
    requires 0 <= i <= |s| && LookaheadHolds(s, i, cls)
    ensures LookaheadHolds(p + s + q, |p| + i, cls)
  {
    var t := p + s + q;
    var j :| i <= j < |s| && InClass(s[j], cls) && NoLineTerminator(s, i, j);
    assert t[|p| + j] == s[j];
    assert forall k :: |p| + i <= k < |p| + j ==> t[k] == s[k - |p|];
    assert NoLineTerminator(t, |p| + i, |p| + j);
  }

  /** Because the pattern is unanchored, a matching password still matches
      with any text, allowed characters or not, around it. */
  lemma PatternInContext(p: string, s: string, q: string)
    requires PatternMatches(s)
    ensures PatternMatches(p + s + q)
  {
    var t := p + s + q;
    var i :| 0 <= i < |s| && MatchesAt(s, i);
    LookaheadInContext(p, s, q, i, Letter);
    LookaheadInContext(p, s, q, i, Digit);
    LookaheadInContext(p, s, q, i, Special);
    assert t[|p| + i] == s[i];
    assert MatchesAt(t, |p| + i);
  }

  /** The password of the end-to-end tests matches the pattern at its first
      character. */
  lemma ExamplePasswordMatches()
    ensures PatternMatches("Password1@")
  {
    var s := "Password1@";
    assert InClass(s[0], Letter) && NoLineTerminator(s, 0, 0);
    assert InClass(s[8], Digit) && NoLineTerminator(s, 0, 8);
    assert InClass(s[9], Special) && NoLineTerminator(s, 0, 9);
    assert MatchesAt(s, 0);
  }

  /** That password is accepted, with any non-empty name and email. */
  lemma AcceptsExamplePassword(name: string, email: string)
    requires name != "" && email != ""
    ensures Validate(SignUpBody(Some(name), Some(email), Some("Password1@")))
         == Ok(CreateUserDto(name, email, "Password1@"))
  {
    ExamplePasswordMatches();
  }

  /** `"Password"` has the length but neither a digit nor a special
      character, so it is refused. */
  lemma RejectsPasswordWithoutDigit(name: string, email: string)
    ensures !PatternMatches("Password")
    ensures Validate(SignUpBody(Some(name), Some(email), Some("Password"))) == Err(BadRequest)
  {
    var s := "Password";
    forall i | 0 <= i <= |s|
      ensures !LookaheadHolds(s, i, Digit)
    {
      assert forall j :: 0 <= j < |s| ==> !InClass(s[j], Digit);
    }
  }

  /** Characters outside the allowed set around the example password, a
      space or a line break say, do not by themselves refuse it. */
  lemma ExamplePasswordInAnyContext(p: string, q: string)
    ensures PatternMatches(p + "Password1@" + q)
  {
    ExamplePasswordMatches();
    PatternInContext(p, "Password1@", q);
  }

  /** A line terminator at `m` hides everything after it from a lookahead
      started at or before `m`. */
  lemma LineTerminatorBlocks(s: string, i: int, m: int, cls: CharClass)
    requires 0 <= i <= m < |s| && IsLineTerminator(s[m])
    requires forall k :: i <= k < m ==> !InClass(s[k], cls)
    ensures !LookaheadHolds(s, i, cls)
  {
  }

  /** A line break cuts the lookaheads off: no start before it sees the digit
      after it, and no start after it sees a letter. */
  lemma RejectsDigitBehindLineBreak()
    ensures !PatternMatches("Password!\n1")
  {
    var s := "Password!\n1";
    assert IsLineTerminator(s[9]);
    assert forall k :: 0 <= k < 9 ==> !IsDigit(s[k]);
    forall i | 0 <= i < |s|
      ensures !MatchesAt(s, i)
    {
      if i <= 9 {
        LineTerminatorBlocks(s, i, 9, Digit);
      } else {
        assert !LookaheadHolds(s, i, Letter);
      }
    }
  }
}
