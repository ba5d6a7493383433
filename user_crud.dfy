/** The user side of the service (crud/user.py): the users collection, password
    checking, access-token issuing, and `get_current_user`, the request gate that
    turns an `Authorization`-style header into a stored user or a rejection. */
module UserCrud {
  import opened Wrappers
  import opened Lookup
  import opened PyStr
  import opened Externals
  import opened Http
  import opened UserSchemas

  /** `ALGORITHM`: tokens are signed and checked with HMAC-SHA256 only. */
  const Algorithm: string := "HS256"

  /** `timedelta(minutes=15)` in seconds: the lifetime of a token whose caller
      gives no lifetime, or a zero one. */
  const DefaultExpiry: int := 15 * 60

  /** `credentials_exception`: the one rejection every failed check ends in. */
  const CredentialsException: Failure :=
    HttpException(401, "Could not validate credentials", "Bearer")

  /** The rejection of a header that holds no space at all. */
  const MalformedHeaderException: Failure :=
    HttpException(401, "Invalid Authorization header expected format 'SCHEME VALUE'", "Bearer")

  /** The in-memory stand-in for the `users` collection of the database. */
  class UserCollection {
    var users: seq<UserInDB>

    constructor ()
      ensures users == []
    {
      users := [];
    }

    /** `insert_user`: `insert_one` adds the document after all others. */
    method InsertUser(user: UserInDB)
      modifies this
      ensures users == old(users) + [user]
    {
      users := users + [user];
    }
  }

  /** The `email` field of every document, in collection order. */
  function Emails(users: seq<UserInDB>): (r: seq<string>)
    ensures |r| == |users|
    ensures forall i :: 0 <= i < |users| ==> r[i] == users[i].email
  {
    seq(|users|, i requires 0 <= i < |users| => users[i].email)
  }

  ghost predicate HasEmail(users: seq<UserInDB>, email: string) {
    exists i :: 0 <= i < |users| && users[i].email == email
  }

  /** Document `i` is the one `find_one({"email": email})` returns. */
  ghost predicate IsFirstWithEmail(users: seq<UserInDB>, email: string, i: int) {
    && 0 <= i < |users|
    && users[i].email == email
    && forall j :: 0 <= j < i ==> users[j].email != email
  }

  /** No two documents share an email: what registering through `create_user` keeps. */
  ghost predicate UniqueEmails(users: seq<UserInDB>) {
    forall i, j :: 0 <= i < j < |users| ==> users[i].email != users[j].email
  }

  /** `get_user`: the first document with that email, if any. */
  function GetUser(users: seq<UserInDB>, email: string): (r: Option<UserInDB>)
    ensures r.None? <==> !HasEmail(users, email)
    ensures r.Some? ==> r.value.email == email
    ensures r.Some? ==> exists i :: IsFirstWithEmail(users, email, i) && r.value == users[i]
  {
    match FirstIndex(Emails(users), email)
    case None => None
    case Some(i) =>
      assert IsFirstWithEmail(users, email, i);
      Some(users[i])
  }

  /** `authenticate_user`: the stored user when the password verifies against the
      hash of the first document with that email; `None` stands for `False`. */
  function AuthenticateUser(users: seq<UserInDB>, libs: Libs, email: string, password: string)
    : (r: Option<UserInDB>)
    ensures r.Some? <==>
      exists i :: IsFirstWithEmail(users, email, i) && libs.verify(password, users[i].hashedPassword)
    ensures r.Some? ==> r == GetUser(users, email)
  {
    match GetUser(users, email)
    case None => None
    case Some(user) => if libs.verify(password, user.hashedPassword) then Some(user) else None
  }

  /** The `exp` of a token issued at `now`: a lifetime of `None` or zero (both falsy
      in Python) falls back to 15 minutes. */
  function Expiry(now: int, delta: Option<int>): int {
    if delta.Some? && delta.value != 0 then now + delta.value else now + DefaultExpiry
  }

  /** The copy of `data` that `create_access_token` signs: every claim kept, `exp` set. */
  function TokenClaims(data: Claims, now: int, delta: Option<int>): (r: Claims)
    ensures r.Keys == data.Keys + {"exp"}
    ensures forall k :: k in data && k != "exp" ==> r[k] == data[k]
    ensures delta.Some? && delta.value != 0 ==> r["exp"] == Number(now + delta.value)
    ensures delta.None? || delta == Some(0) ==> r["exp"] == Number(now + DefaultExpiry)
  {
    data["exp" := Number(Expiry(now, delta))]
  }

  /** `create_access_token`: a token signed with the secret key and HS256 over the
      caller's claims plus an expiry; the caller's map is a value and stays as it was. */
  function CreateAccessToken(libs: Libs, now: int, data: Claims, delta: Option<int>): (r: string)
    ensures exists c: Claims ::
      && r == libs.jwtEncode(c, libs.secretKey, Algorithm)
      && c.Keys == data.Keys + {"exp"}
      && (forall k :: k in data && k != "exp" ==> c[k] == data[k])
      && c["exp"] == Number(Expiry(now, delta))
  {
    var c := TokenClaims(data, now, delta);
    libs.jwtEncode(c, libs.secretKey, Algorithm)
  }

  /** Lines 80-87: the header must contain a space; then its stripped form must split
      on single spaces into exactly two fields, or unpacking raises a `ValueError`
      outside the `try`. */
  function ParseHeader(authHeader: string): (r: Result<(string, string), Failure>)
    ensures r == Err(MalformedHeaderException) <==> ' ' !in authHeader
    ensures r == Err(UncaughtValueError) <==> ' ' in authHeader && Count(Strip(authHeader), ' ') != 1
    ensures r.Ok? <==> ' ' in authHeader && Count(Strip(authHeader), ' ') == 1
    ensures r.Ok? ==> Strip(authHeader) == r.value.0 + " " + r.value.1
    ensures r.Ok? ==> ' ' !in r.value.0 && ' ' !in r.value.1
  {
    if ' ' !in authHeader then Err(MalformedHeaderException)
    else
      var fields := Split(Strip(authHeader), ' ');
      if |fields| != 2 then Err(UncaughtValueError)
      else
        assert Join(fields, ' ') == fields[0] + " " + fields[1];
        Ok((fields[0], fields[1]))
  }

  predicate NoWhitespace(s: string) {
    forall i :: 0 <= i < |s| ==> !IsSpace(s[i])
  }

  /** A scheme and a value, both non-empty and free of whitespace, joined by one
      space parse back into that scheme and that value. */
  lemma ParseHeaderOfFields(scheme: string, value: string)
    requires |scheme| > 0 && |value| > 0
    requires NoWhitespace(scheme) && NoWhitespace(value)
    ensures ParseHeader(scheme + " " + value) == Ok((scheme, value))
  {
    var h := scheme + " " + value;
    assert ' ' in h by { assert h[|scheme|] == ' '; }
    assert Strip(h) == h by {
      assert h[0] == scheme[0] && h[|h| - 1] == value[|value| - 1];
      StripTrimmed(h);
    }
    assert Split(h, ' ') == [scheme, value] by {
      assert ' ' !in scheme by { assert forall i :: 0 <= i < |scheme| ==> !IsSpace(scheme[i]); }
      assert ' ' !in value by { assert forall i :: 0 <= i < |value| ==> !IsSpace(value[i]); }
      assert Join([scheme, value], ' ') == h;
      SplitJoin([scheme, value], ' ');
    }
  }

  /** The scheme dispatch of lines 90, 96 and 102, compared after `lower()`. */
  datatype Credential = Bearer(token: string) | Basic(encoded: string) | OtherScheme(scheme: string)

  function Classify(scheme: string, value: string): Credential {
    if Lower(scheme) == "bearer" then Bearer(value)
    else if Lower(scheme) == "basic" then Basic(value)
    else OtherScheme(scheme)
  }

  /** The `sub` claim of a decoded payload when it is a string (python-jose rejects
      a non-string `sub` while decoding, which ends in the same exception). */
  function Subject(payload: Claims): Option<string> {
    if "sub" in payload && payload["sub"].Text? then Some(payload["sub"].text) else None
  }

  /** The `try` block of lines 89-110: the email the credential claims. A bearer
      token must decode and carry a subject; a basic value must decode to exactly
      one `email:password` pair that `authenticate_user` accepts. */
  function ClaimedEmail(users: seq<UserInDB>, libs: Libs, now: int, cred: Credential)
    : (r: Result<string, Failure>)
    ensures r.Err? ==> r.error == CredentialsException
    ensures cred.OtherScheme? ==> r.Err?
  {
    match cred
    case Bearer(token) =>
      (match libs.jwtDecode(token, libs.secretKey, [Algorithm], now)
       case None => Err(CredentialsException)
       case Some(payload) =>
         if Subject(payload).None? then Err(CredentialsException) else Ok(Subject(payload).value))
    case Basic(encoded) =>
      (match libs.b64Decode(encoded)
       case None => Err(CredentialsException)
       case Some(decoded) =>
         var parts := Split(decoded, ':');
         if |parts| != 2 then Err(CredentialsException)
         else if AuthenticateUser(users, libs, parts[0], parts[1]).None? then Err(CredentialsException)
         else Ok(parts[0]))
    case OtherScheme(_) => Err(CredentialsException)
  }

  /** Lines 89-117 once the header is split: the claimed email must still name a
      stored user. Every failure is the same credentials exception. */
  function Resolve(users: seq<UserInDB>, libs: Libs, now: int, cred: Credential)
    : (r: Result<UserInDB, Failure>)
    ensures r.Err? ==> r.error == CredentialsException
    ensures r.Ok? ==> exists i :: IsFirstWithEmail(users, r.value.email, i) && users[i] == r.value
  {
    match ClaimedEmail(users, libs, now, cred)
    case Err(e) => Err(e)
    case Ok(email) =>
      match GetUser(users, email)
      case None => Err(CredentialsException)
      case Some(user) => Ok(user)
  }

  /** `get_current_user`: the stored user the header proves to be, or one of three
      failures: the malformed-header 401, the credentials 401, or the `ValueError`
      of a header that does not split into two fields. */
  function GetCurrentUser(users: seq<UserInDB>, libs: Libs, now: int, authHeader: string)
    : (r: Result<UserInDB, Failure>)
    ensures ' ' !in authHeader ==> r == Err(MalformedHeaderException)
    ensures r == Err(UncaughtValueError) <==> ' ' in authHeader && Count(Strip(authHeader), ' ') != 1
    ensures r.Err? ==> r.error in {MalformedHeaderException, CredentialsException, UncaughtValueError}
    ensures r.Ok? ==> exists i :: IsFirstWithEmail(users, r.value.email, i) && users[i] == r.value
  {
    match ParseHeader(authHeader)
    case Err(e) => Err(e)
    case Ok((scheme, value)) => Resolve(users, libs, now, Classify(scheme, value))
  }

  /** Bearer: the header is accepted exactly when the token decodes, under the secret
      key and at time `now`, to a payload whose string `sub` names a stored user,
      and that user is the result. */
  lemma BearerHeader(users: seq<UserInDB>, libs: Libs, now: int, h: string, scheme: string, token: string)
    requires ParseHeader(h) == Ok((scheme, token))
    requires Lower(scheme) == "bearer"
    ensures
      var r := GetCurrentUser(users, libs, now, h);
      var d := libs.jwtDecode(token, libs.secretKey, [Algorithm], now);
      && (r.Ok? <==> d.Some? && Subject(d.value).Some? && HasEmail(users, Subject(d.value).value))
      && (r.Ok? ==> Some(r.value) == GetUser(users, Subject(d.value).value))
      && (r.Err? ==> r.error == CredentialsException)
  {
  }

  /** Basic: the header is accepted with user `u` exactly when the value decodes to
      `email:password` with no other colon and `authenticate_user` returns `u` for
      that pair. */
  lemma BasicHeader(users: seq<UserInDB>, libs: Libs, now: int, h: string, scheme: string, value: string, u: UserInDB)
    requires ParseHeader(h) == Ok((scheme, value))
    requires Lower(scheme) == "basic"
    ensures GetCurrentUser(users, libs, now, h) == Ok(u) <==>
      exists email, password ::
        && libs.b64Decode(value) == Some(email + ":" + password)
        && ':' !in email && ':' !in password
        && AuthenticateUser(users, libs, email, password) == Some(u)
  {
    var r := GetCurrentUser(users, libs, now, h);
    if r == Ok(u) {
      var decoded := libs.b64Decode(value).value;
      var parts := Split(decoded, ':');
      assert Join(parts, ':') == parts[0] + ":" + parts[1];
      assert AuthenticateUser(users, libs, parts[0], parts[1]) == Some(u);
    }
    if exists email, password ::
        && libs.b64Decode(value) == Some(email + ":" + password)
        && ':' !in email && ':' !in password
        && AuthenticateUser(users, libs, email, password) == Some(u)
    {
      var email, password :|
        && libs.b64Decode(value) == Some(email + ":" + password)
        && ':' !in email && ':' !in password
        && AuthenticateUser(users, libs, email, password) == Some(u);
      assert Join([email, password], ':') == email + ":" + password;
      SplitJoin([email, password], ':');
    }
  }

  /** Any scheme other than bearer and basic, in any letter case, is rejected. */
  lemma OtherSchemeHeader(users: seq<UserInDB>, libs: Libs, now: int, h: string, scheme: string, value: string)
    requires ParseHeader(h) == Ok((scheme, value))
    requires Lower(scheme) != "bearer" && Lower(scheme) != "basic"
    ensures GetCurrentUser(users, libs, now, h) == Err(CredentialsException)
  {
  }

  /** Once the header has the `SCHEME VALUE` shape, every rejection is the same
      credentials exception: a wrong password, an unknown user, a bad token and an
      unknown scheme cannot be told apart. */
  lemma WellFormedRejectionIsUniform(users: seq<UserInDB>, libs: Libs, now: int, h: string)
    requires ParseHeader(h).Ok?
    ensures GetCurrentUser(users, libs, now, h).Err? ==>
      GetCurrentUser(users, libs, now, h).error == CredentialsException
  {
  }
}
