/** app/api/auth/login/route.ts, POST: a read-only credential check. An
    unknown username and a wrong password get the same 401 reply; success
    returns the public view of the user and sets the session cookie. */
module LoginRoute {
  import opened Common
  import opened Auth
  import opened Users

  /** The JSON body's two fields; None stands for a missing or null field. */
  datatype LoginRequest = LoginRequest(username: Option<string>, password: Option<string>)

  /** The `user` object of the success reply: id, username and role, and
      nothing else (in particular no password hash). */
  datatype PublicUser = PublicUser(id: int, username: string, role: string)

  /** The options passed to response.cookies.set. */
  datatype CookieOptions = CookieOptions(httpOnly: bool, secure: bool, sameSite: string, maxAge: int)

  /** The cookie the success reply sets. */
  datatype SessionCookie = SessionCookie(name: string, value: string, options: CookieOptions)

  /** The distinct outcomes of the handler. */
  datatype LoginReply =
    | MissingCredentials
    | InvalidCredentials
    | LoggedIn(user: PublicUser, cookie: SessionCookie)
  {
    /** The HTTP status of the response. */
    function Status(): int
    {
      match this
      case MissingCredentials => 400
      case InvalidCredentials => 401
      case LoggedIn(_, _) => 200
    }

    /** The `error` field of a failure, or the `message` field of success. */
    function Text(): string
    {
      match this
      case MissingCredentials => "Username and password required"
      case InvalidCredentials => "Invalid credentials"
      case LoggedIn(_, _) => "Login successful"
    }
  }

  /** maxAge: 7 * 24 * 60 * 60 seconds. */
  const CookieMaxAge: int := 7 * 24 * 60 * 60

  /** The session cookie for a signed token. `production` is
      `process.env.NODE_ENV === "production"`. */
  function SessionCookieFor(token: string, production: bool): SessionCookie
  {
    SessionCookie(AuthCookieName, token, CookieOptions(true, production, "lax", CookieMaxAge))
  }

  /** The handler, request by request. It reads the `id`, `username`,
      `password` and `role` columns of the first row with that username. */
  function LoginStep(rows: seq<User>, req: LoginRequest, b: Bcrypt, jwt: Jwt, production: bool): LoginReply
  {
    if Falsy(req.username) || Falsy(req.password) then MissingCredentials
    else
      var results := ByUsername(rows, req.username.value);
      if results == [] then InvalidCredentials
      else
        var user := results[0];
        if !ComparePassword(b, req.password.value, user.passwordHash) then InvalidCredentials
        else
          var token := CreateToken(jwt, user.id, user.role);
          LoggedIn(PublicUser(user.id, user.username, user.role), SessionCookieFor(token, production))
  }

  // ---------------------------------------------------------------------
  // Properties

  /** A missing username or password answers 400. An unknown username and a
      wrong password both answer 401 with the same body "Invalid
      credentials", so a caller cannot tell which it was. */
  lemma LoginFailures(rows: seq<User>, req: LoginRequest, b: Bcrypt, jwt: Jwt, production: bool)
    ensures var r := LoginStep(rows, req, b, jwt, production);
      (r == MissingCredentials <==> Falsy(req.username) || Falsy(req.password)) &&
      (r == MissingCredentials ==> r.Status() == 400 && r.Text() == "Username and password required")
    ensures !Falsy(req.username) && !Falsy(req.password) ==>
      ((forall i :: 0 <= i < |rows| ==> rows[i].username != req.username.value) ==>
         LoginStep(rows, req, b, jwt, production) == InvalidCredentials) &&
      (ByUsername(rows, req.username.value) != [] &&
       !b.compare(req.password.value, rows[FirstWithUsername(rows, req.username.value)].passwordHash) ==>
         LoginStep(rows, req, b, jwt, production) == InvalidCredentials)
    ensures InvalidCredentials.Status() == 401 && InvalidCredentials.Text() == "Invalid credentials"
  {
  }

  /** On success the reply is the public view of the first row with that
      username, whose stored hash matches the password; the cookie is
      `auth_token`, httpOnly, sameSite "lax", secure only in production, and
      holds createToken(id, role) of that row; its maxAge is 604800 seconds,
      the seven days the token is signed for. */
  lemma LoginSuccess(rows: seq<User>, req: LoginRequest, b: Bcrypt, jwt: Jwt, production: bool)
    ensures var r := LoginStep(rows, req, b, jwt, production);
      r.LoggedIn? ==>
        !Falsy(req.username) && !Falsy(req.password) && ByUsername(rows, req.username.value) != [] &&
        var row := rows[FirstWithUsername(rows, req.username.value)];
        b.compare(req.password.value, row.passwordHash) &&
        r.user == PublicUser(row.id, row.username, row.role) &&
        r.cookie.name == "auth_token" && r.cookie.value == jwt.sign(Claims(row.id, row.role), "7d") &&
        r.cookie.options.httpOnly && r.cookie.options.sameSite == "lax" &&
        r.cookie.options.secure == production &&
        r.cookie.options.maxAge == 604800 == TokenLifetimeSeconds
  {
  }

  /** Two tables that agree on every row's id, username, password hash and
      role; they may differ in e-mails and in verification state. */
  predicate SameCredentials(a: seq<User>, b: seq<User>)
  {
    |a| == |b| &&
    forall i :: 0 <= i < |a| ==>
      a[i].id == b[i].id && a[i].username == b[i].username &&
      a[i].passwordHash == b[i].passwordHash && a[i].role == b[i].role
  }

  /** The first row with a username sits at the same place, with the same
      credentials, in two tables that agree on credentials. */
  lemma {:induction false} FirstWithUsernameAgrees(a: seq<User>, c: seq<User>, u: string)
    requires SameCredentials(a, c)
    ensures ByUsername(a, u) == [] <==> ByUsername(c, u) == []
    ensures ByUsername(a, u) != [] ==> FirstWithUsername(a, u) == FirstWithUsername(c, u)
  {
    if ByUsername(a, u) != [] {
      var i, j := FirstWithUsername(a, u), FirstWithUsername(c, u);
      assert a[j].username == u;
      assert c[i].username == u;
    }
  }

  /** Login does not read is_verified (nor the token or the e-mail): an
      unverified user with the right password logs in exactly as a verified
      one would. */
  lemma LoginIgnoresVerification(a: seq<User>, c: seq<User>, req: LoginRequest,
                                 b: Bcrypt, jwt: Jwt, production: bool)
    requires SameCredentials(a, c)
    ensures LoginStep(a, req, b, jwt, production) == LoginStep(c, req, b, jwt, production)
  {
    if !Falsy(req.username) {
      FirstWithUsernameAgrees(a, c, req.username.value);
    }
  }
}
