/**
 Request validation of the `/api/followers` handler.

 Both fields must be present and truthy (non-empty). The cookie blob may be at
 most 1000 characters long, and the username at most 30 characters long, made
 only of ASCII letters, digits, `_` and `.` (the anchored pattern
 `^[a-zA-Z0-9_.]+$`). A request that fails is answered with 400 before any
 upstream call.
 */
module Validation {
  import opened Outcomes

  const MaxCookiesLength: nat := 1000
  const MaxUsernameLength: nat := 30

  /** The two 400 answers: required fields missing, or malformed fields. */
  datatype Rejection = MissingFields | InvalidFormat

  /** The validated fields, passed on to the upstream client. */
  datatype Credentials = Credentials(cookies: string, username: string)

  /**
   JavaScript truthiness of a string field: an absent field and the empty
   string are falsy, and those are the only falsy values.
   */
  function Truthy(field: Option<string>): (b: bool)
    ensures !b <==> field.None? || field == Some("")
  {
    field.Some? && |field.value| > 0
  }

  /** The character class `[a-zA-Z0-9_.]`. */
  predicate IsHandleChar(c: char) {
    ('a' <= c <= 'z') || ('A' <= c <= 'Z') || ('0' <= c <= '9') || c == '_' || c == '.'
  }

  /**
   A matcher for the anchored pattern `^[a-zA-Z0-9_.]+$`: one class character,
   then either the end of input or another match of the same pattern.
   */
  function MatchesHandlePattern(s: string): (b: bool)
    ensures b <==> |s| > 0 && forall i :: 0 <= i < |s| ==> IsHandleChar(s[i])
    decreases |s|
  {
    |s| > 0 && IsHandleChar(s[0]) && (|s| == 1 || MatchesHandlePattern(s[1..]))
  }

  /** The two validation checks, in the order the handler makes them. */
  function Validate(cookies: Option<string>, username: Option<string>)
    : (r: Result<Credentials, Rejection>)
    ensures r.Success? <==>
              && cookies.Some? && username.Some?
              && 0 < |cookies.value| <= MaxCookiesLength
              && 0 < |username.value| <= MaxUsernameLength
              && forall i :: 0 <= i < |username.value| ==> IsHandleChar(username.value[i])
    ensures r.Success? ==> r.value == Credentials(cookies.value, username.value)
    ensures r == Failure(MissingFields) <==>
              cookies.None? || username.None? || cookies.value == "" || username.value == ""
    ensures r == Failure(InvalidFormat) <==>
              && cookies.Some? && username.Some?
              && cookies.value != "" && username.value != ""
              && (|cookies.value| > MaxCookiesLength || |username.value| > MaxUsernameLength ||
                  exists i :: 0 <= i < |username.value| && !IsHandleChar(username.value[i]))
  {
    if !Truthy(cookies) || !Truthy(username) then Failure(MissingFields)
    else if |cookies.value| > MaxCookiesLength
         || |username.value| > MaxUsernameLength
         || !MatchesHandlePattern(username.value)
    then Failure(InvalidFormat)
    else Success(Credentials(cookies.value, username.value))
  }

  /** The length bounds are inclusive: 1000 and 30 characters are accepted, one more is not. */
  lemma LengthBoundsAreInclusive(cookies: string, username: string)
    requires |cookies| == MaxCookiesLength && |username| == MaxUsernameLength
    requires forall i :: 0 <= i < |username| ==> IsHandleChar(username[i])
    ensures Validate(Some(cookies), Some(username)).Success?
    ensures Validate(Some(cookies + "x"), Some(username)) == Failure(InvalidFormat)
    ensures Validate(Some(cookies), Some(username + "x")) == Failure(InvalidFormat)
  {
  }

  /** A username with a character outside the class, such as `-` or `@`, is malformed. */
  lemma RejectsForeignCharacter()
    ensures Validate(Some("c"), Some("a-b")) == Failure(InvalidFormat)
    ensures Validate(Some("c"), Some("@a")) == Failure(InvalidFormat)
  {
    assert !IsHandleChar("a-b"[1]);
    assert !IsHandleChar("@a"[0]);
  }

  /** Letters of either case, digits, `_` and `.` are all accepted. */
  lemma AcceptsHandleCharacters()
    ensures Validate(Some("c"), Some("Az_9.")).Success?
  {
    var u := "Az_9.";
    assert forall i :: 0 <= i < |u| ==> IsHandleChar(u[i]) by {
      forall i | 0 <= i < |u| ensures IsHandleChar(u[i]) {
        assert i == 0 || i == 1 || i == 2 || i == 3 || i == 4;
      }
    }
  }
}
