/** The `/users` router (routers/users/endpoint.py): login, the current user, and
    registration. */
module UserEndpoints {
  import opened Wrappers
  import opened PyStr
  import opened Externals
  import opened Http
  import opened UserSchemas
  import opened UserCrud

  /** `timedelta(minutes=60)` in seconds: the lifetime of a login token. */
  const LoginExpiry: int := 60 * 60

  /** The default of the `auth_header` parameter, used when the request has no such
      header. It holds no space, so such a request is rejected as malformed. */
  const HeaderDefault: string := "Authorization"

  const IncorrectLogin: Failure := HttpException(401, "Incorrect email or password", NoChallenge)

  const EmailTaken: Failure := HttpException(400, "User with email already registered", NoChallenge)

  /** The claims a login token carries before its expiry is added. */
  function LoginClaims(email: string): Claims {
    map["sub" := Text(email)]
  }

  /** `login_for_access_token`: a bearer token for the email when the password checks
      out, otherwise a 401 and no token. */
  function LoginForAccessToken(users: seq<UserInDB>, libs: Libs, now: int, req: LoginUserRequest)
    : (r: Result<Token, Failure>)
    ensures r.Err? <==> AuthenticateUser(users, libs, req.email, req.password).None?
    ensures r.Err? ==> r.error == IncorrectLogin
    ensures r.Ok? ==> r.value.tokenType == "bearer"
    ensures r.Ok? ==> r.value.accessToken == CreateAccessToken(libs, now, LoginClaims(req.email), Some(LoginExpiry))
  {
    match AuthenticateUser(users, libs, req.email, req.password)
    case None => Err(IncorrectLogin)
    case Some(user) =>
      Ok(Token(CreateAccessToken(libs, now, LoginClaims(user.email), Some(LoginExpiry)), "bearer"))
  }

  /** `read_users_me`: the user `get_current_user` resolves, restricted to the `User`
      fields; the request's header, or its default when it sent none. */
  function ReadUsersMe(users: seq<UserInDB>, libs: Libs, now: int, sentHeader: Option<string>)
    : (r: Result<User, Failure>)
    ensures r.Ok? <==> GetCurrentUser(users, libs, now, sentHeader.GetOr(HeaderDefault)).Ok?
    ensures r.Ok? ==>
      var u := GetCurrentUser(users, libs, now, sentHeader.GetOr(HeaderDefault)).value;
      r.value.email == u.email && r.value.fullName == u.fullName
    ensures r.Err? ==> r.error == GetCurrentUser(users, libs, now, sentHeader.GetOr(HeaderDefault)).error
  {
    match GetCurrentUser(users, libs, now, sentHeader.GetOr(HeaderDefault))
    case Err(e) => Err(e)
    case Ok(user) => Ok(user.AsUser())
  }

  /** A request without the header is answered with the malformed-header 401. */
  lemma MissingHeaderRejected(users: seq<UserInDB>, libs: Libs, now: int)
    ensures ReadUsersMe(users, libs, now, None) == Err(MalformedHeaderException)
  {
    assert ' ' !in HeaderDefault;
    assert GetCurrentUser(users, libs, now, HeaderDefault) == Err(MalformedHeaderException);
  }

  /** `create_user`: a 400 and no change when the email is already registered;
      otherwise exactly one new document, holding the bcrypt hash and not the
      password, and the request echoed back without its password. */
  method CreateUser(coll: UserCollection, libs: Libs, req: CreateUserRequest) returns (r: Result<User, Failure>)
    modifies coll
    ensures old(HasEmail(coll.users, req.email)) ==>
      r == Err(EmailTaken) && coll.users == old(coll.users)
    ensures !old(HasEmail(coll.users, req.email)) ==>
      && r == Ok(User(req.email, req.fullName))
      && coll.users == old(coll.users) + [UserInDB(req.email, req.fullName, libs.hash(req.password))]
    ensures UniqueEmails(old(coll.users)) ==> UniqueEmails(coll.users)
  {
    if GetUser(coll.users, req.email).Some? {
      return Err(EmailTaken);
    }
    var hashed := libs.hash(req.password);
    coll.InsertUser(UserInDB(req.email, req.fullName, hashed));
    r := Ok(User(req.email, req.fullName));
  }

  /** After registering a fresh email, logging in with the same password succeeds,
      provided bcrypt verifies a password against its own hash. */
  lemma RegisterThenLogin(users: seq<UserInDB>, libs: Libs, now: int, req: CreateUserRequest)
    requires !HasEmail(users, req.email)
    requires libs.verify(req.password, libs.hash(req.password))
    ensures
      var after := users + [UserInDB(req.email, req.fullName, libs.hash(req.password))];
      LoginForAccessToken(after, libs, now, LoginUserRequest(req.email, req.password)).Ok?
  {
    var added := UserInDB(req.email, req.fullName, libs.hash(req.password));
    var after := users + [added];
    assert IsFirstWithEmail(after, req.email, |users|) by {
      forall j | 0 <= j < |users| ensures after[j].email != req.email {
        assert after[j] == users[j];
      }
    }
  }

  /** A token from a successful login, presented as `Bearer <token>` to `/me`,
      resolves to the user who logged in, provided the JWT library decodes it at
      that later time into exactly the claims that were signed (the signature holds
      and `exp` has not passed). */
  lemma LoginThenBearer(users: seq<UserInDB>, libs: Libs, issuedAt: int, later: int, req: LoginUserRequest)
    requires LoginForAccessToken(users, libs, issuedAt, req).Ok?
    requires
      var token := LoginForAccessToken(users, libs, issuedAt, req).value.accessToken;
      && |token| > 0 && NoWhitespace(token)
      && libs.jwtDecode(token, libs.secretKey, [Algorithm], later)
         == Some(TokenClaims(LoginClaims(req.email), issuedAt, Some(LoginExpiry)))
    ensures
      var token := LoginForAccessToken(users, libs, issuedAt, req).value.accessToken;
      && GetUser(users, req.email).Some?
      && ReadUsersMe(users, libs, later, Some("Bearer " + token)) == Ok(GetUser(users, req.email).value.AsUser())
  {
    var token := LoginForAccessToken(users, libs, issuedAt, req).value.accessToken;
    assert GetUser(users, req.email).Some?;
    assert Lower("Bearer") == "bearer";
    assert NoWhitespace("Bearer");
    var claims := TokenClaims(LoginClaims(req.email), issuedAt, Some(LoginExpiry));
    assert "sub" in claims && claims["sub"] == Text(req.email);
    assert Subject(claims) == Some(req.email);
    assert "Bearer" + " " + token == "Bearer " + token;
    ParseHeaderOfFields("Bearer", token);
    BearerHeader(users, libs, later, "Bearer " + token, "Bearer", token);
  }
}
