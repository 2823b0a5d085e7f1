/**
 * The request interceptor's decision on the HTTP method, the request URI and
 * the X-User-Id header. Writing the JSON reply is output and is not modelled;
 * only the verdict is.
 */
module Authentication {
  import opened Wrappers
  import opened JavaText

  datatype Verdict =
    | Exempt                                   // registration: passes with no header
    | Authenticated                            // the header holds a 64-bit decimal id
    | Rejected(status: int, message: string)   // the request stops here

  const Unauthorized: Verdict := Rejected(401, "Authentication required")
  const BadUserId: Verdict := Rejected(400, "Invalid user ID format")

  /** The characters that the regular expression '.' does not match. */
  predicate IsLineTerminator(c: char) {
    c == '\n' || c == '\r' || c == '\U{85}' || c == '\U{2028}' || c == '\U{2029}'
  }

  predicate NoLineTerminator(s: string) {
    forall i :: 0 <= i < |s| ==> !IsLineTerminator(s[i])
  }

  predicate EndsWith(s: string, suffix: string) {
    |suffix| <= |s| && s[|s| - |suffix|..] == suffix
  }

  const UsersPath: string := "/v1/users"
  const UsersPathSlash: string := "/v1/users/"

  /**
   * Whether the whole URI matches the pattern `.*` followed by `/v1/users/?$`:
   * no line terminator anywhere, ending in "/v1/users" or "/v1/users/".
   */
  predicate IsRegistrationPath(uri: string) {
    NoLineTerminator(uri) && (EndsWith(uri, UsersPath) || EndsWith(uri, UsersPathSlash))
  }

  /** The same test read as the regular expression does: a split into any run of non-terminators and the path. */
  lemma RegistrationPathMatchesPattern(uri: string)
    ensures IsRegistrationPath(uri) <==>
      exists k :: 0 <= k <= |uri| && NoLineTerminator(uri[..k]) && uri[k..] in {UsersPath, UsersPathSlash}
  {
    assert NoLineTerminator(UsersPath) && NoLineTerminator(UsersPathSlash);
    if IsRegistrationPath(uri) {
      var k := if EndsWith(uri, UsersPath) then |uri| - |UsersPath| else |uri| - |UsersPathSlash|;
      assert forall i :: 0 <= i < k ==> uri[..k][i] == uri[i];
      assert NoLineTerminator(uri[..k]) && uri[k..] in {UsersPath, UsersPathSlash};
    }
    forall k | 0 <= k <= |uri| && NoLineTerminator(uri[..k]) && uri[k..] in {UsersPath, UsersPathSlash}
      ensures IsRegistrationPath(uri)
    {
      var tail := uri[k..];
      forall i | 0 <= i < |uri| ensures !IsLineTerminator(uri[i]) {
        if i < k {
          assert uri[i] == uri[..k][i];
        } else {
          assert uri[i] == tail[i - k];
        }
      }
      assert EndsWith(uri, tail);
    }
  }

  /** preHandle: registration is exempt; otherwise a missing or blank header is 401, an unparsable one 400. */
  function PreHandle(httpMethod: string, uri: string, header: Option<string>): (v: Verdict)
    ensures v == Exempt <==> httpMethod == "POST" && IsRegistrationPath(uri)
    ensures v == Unauthorized <==>
      !(httpMethod == "POST" && IsRegistrationPath(uri)) && (header.None? || forall i :: 0 <= i < |header.value| ==> header.value[i] <= ' ')
    ensures v == BadUserId <==>
      !(httpMethod == "POST" && IsRegistrationPath(uri)) && header.Some? && Trim(header.value) != [] && ParseLong(header.value).None?
    ensures v == Authenticated <==>
      !(httpMethod == "POST" && IsRegistrationPath(uri)) && header.Some? && ParseLong(header.value).Some?
    ensures v in {Exempt, Authenticated, Unauthorized, BadUserId}
  {
    if httpMethod == "POST" && IsRegistrationPath(uri) then Exempt
    else if header.None? then Unauthorized
    else
      TrimEmptyIffBlank(header.value);
      ParsableIsNotBlank(header.value);
      if Trim(header.value) == [] then Unauthorized
      else if ParseLong(header.value).None? then BadUserId
      else Authenticated
  }

  /** Registration is exempt only for POST, with or without the trailing slash. */
  lemma RegistrationExamples()
    ensures PreHandle("POST", "/v1/users", None) == Exempt
    ensures PreHandle("POST", "/api/v1/users/", None) == Exempt
    ensures PreHandle("GET", "/v1/users/1", None) == Unauthorized
    ensures PreHandle("POST", "/v1/users/1", None) == Unauthorized
  {
    assert NoLineTerminator("/v1/users");
    assert "/v1/users"[0..] == UsersPath;
    assert NoLineTerminator("/api/v1/users/");
    assert "/api/v1/users/"[4..] == UsersPathSlash;
    assert "/v1/users/1"[|"/v1/users/1"| - 1] == '1';
  }

  /** The accounts listing is never the registration path. */
  lemma AccountsPathNotExempt()
    ensures !IsRegistrationPath("/v1/accounts")
  {
    var uri := "/v1/accounts";
    assert uri[|uri| - |UsersPath|..][1] == 'a' != UsersPath[1];
    assert uri[|uri| - 1] == 's' != UsersPathSlash[|UsersPathSlash| - 1];
  }

  /** A blank header is 401, even though Long.parseLong would reject it too. */
  lemma BlankHeaderExample()
    ensures PreHandle("GET", "/v1/accounts", Some("   ")) == Unauthorized
  {
    AccountsPathNotExempt();
    TrimEmptyIffBlank("   ");
  }

  /** A header with a letter is not an id: 400. */
  lemma LetterHeaderExample()
    ensures PreHandle("GET", "/v1/accounts", Some("abc")) == BadUserId
  {
    var h := "abc";
    AccountsPathNotExempt();
    assert h[0] > ' ' && !IsDigit(h[0]);
    TrimEmptyIffBlank(h);
    assert ParseLong(h) == None;
  }

  /** " 1 " is not blank after trimming, but Long.parseLong rejects its spaces: 400. */
  lemma PaddedHeaderExample()
    ensures PreHandle("GET", "/v1/accounts", Some(" 1 ")) == BadUserId
  {
    var h := " 1 ";
    AccountsPathNotExempt();
    assert h[1] > ' ' && !IsDigit(h[0]);
    TrimEmptyIffBlank(h);
    assert ParseLong(h) == None;
  }

  /** A signed decimal id passes. */
  lemma NumericHeaderExample()
    ensures PreHandle("GET", "/v1/accounts", Some("-42")) == Authenticated
  {
    AccountsPathNotExempt();
    var h := "-42";
    assert h[1..] == "42" && AllDigits("42");
    assert "42"[..1] == "4" && "4"[..0] == "";
    assert DigitsValue("4") == 4;
    assert DigitsValue("42") == 42;
    assert ParseLong(h) == Some(-42);
  }
}
