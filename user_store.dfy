/** The `users` table as mutable state, with the three authentication
    handlers written as the sequences of guarded early returns the routes
    are. Each method is proved to agree with the route's step function, so
    every property proved there holds of the state the methods leave. */
module UserStore {
  import opened Common
  import opened Auth
  import opened Users
  import opened SignupRoute
  import opened VerifyRoute
  import opened LoginRoute

  class UserStore {
    /** The rows of `users`, in table order. */
    var rows: seq<User>
    /** The next AUTO_INCREMENT id. */
    var nextId: int

    /** The table as a value. */
    function Snapshot(): Table
      reads this
    {
      Table(rows, nextId)
    }

    /** The invariants the routes keep. */
    predicate Valid()
      reads this
    {
      Consistent(Snapshot())
    }

    /** The invariants that hold whatever tokens are drawn. */
    predicate KeysValid()
      reads this
    {
      KeysConsistent(Snapshot())
    }

    /** An empty table whose first id is 1. */
    constructor ()
      ensures rows == [] && nextId == 1
      ensures Valid()
    {
      rows := [];
      nextId := 1;
    }

    /** POST /api/auth/signup. Returns the reply and the e-mail handed to
        sendVerificationEmail, if any. */
    method Signup(req: SignupRequest, b: Bcrypt, saltRandom: string, randomBytes: seq<byte>,
                  insertError: Option<DbError>, appUrlEnv: Option<string>)
      returns (reply: SignupReply, mail: Option<VerificationMail>)
      modifies this
      ensures var o := SignupStep(old(Snapshot()), req, b, saltRandom, randomBytes, insertError, appUrlEnv);
        reply == o.reply && mail == o.mail && Snapshot() == o.table
      ensures reply != Created ==> rows == old(rows) && nextId == old(nextId) && mail.None?
      ensures reply == Created ==> |rows| == |old(rows)| + 1 && rows[..|old(rows)|] == old(rows)
      ensures old(KeysValid()) ==> KeysValid()
      ensures old(Valid()) && ByToken(old(rows), VerificationToken(randomBytes)) == [] ==> Valid()
    {
      if KeysValid() {
        SignupKeepsKeys(Snapshot(), req, b, saltRandom, randomBytes, insertError, appUrlEnv);
      }
      if Valid() && ByToken(rows, VerificationToken(randomBytes)) == [] {
        SignupKeepsConsistent(Snapshot(), req, b, saltRandom, randomBytes, insertError, appUrlEnv);
      }
      mail := None;
      if Falsy(req.username) || Falsy(req.email) || Falsy(req.password) || Falsy(req.confirmPassword) {
        return MissingFields, mail;
      }
      var username, email, password := req.username.value, req.email.value, req.password.value;
      if password != req.confirmPassword.value {
        return PasswordMismatch, mail;
      }
      if |password| < MinPasswordLength {
        return PasswordTooShort, mail;
      }
      if !Contains(email, "@") {
        return InvalidEmail, mail;
      }
      var usernameExists := ByUsername(rows, username);
      if |usernameExists| > 0 {
        return UsernameTaken, mail;
      }
      var emailExists := ByEmail(rows, email);
      if |emailExists| > 0 {
        return EmailRegistered, mail;
      }
      var hashedPassword := HashPassword(b, password, saltRandom);
      var verificationToken := VerificationToken(randomBytes);
      if insertError.Some? {
        return InsertFailed(DbErrorText(insertError.value)), mail;
      }
      var row := NewUser(Snapshot(), username, email, hashedPassword, verificationToken);
      rows := rows + [row];
      nextId := nextId + 1;
      var appUrl := AppUrl(appUrlEnv);
      mail := Some(VerificationMail(email, username, VerificationLink(appUrl, verificationToken)));
      reply := Created;
      assert rows[..|old(rows)|] == old(rows);
    }

    /** GET /api/auth/verify?token=... */
    method Verify(token: Option<string>) returns (reply: VerifyReply)
      modifies this
      ensures (reply, Snapshot()) == VerifyStep(old(Snapshot()), token)
      ensures !reply.VerifiedUser? ==> rows == old(rows) && nextId == old(nextId)
      ensures nextId == old(nextId) && NeverUnverifies(old(rows), rows)
      ensures old(Valid()) ==> Valid()
    {
      VerifyNeverUnverifies(Snapshot(), token);
      if Valid() {
        VerifyKeepsConsistent(Snapshot(), token);
      }
      if Falsy(token) {
        return InvalidLink;
      }
      var results := ByToken(rows, token.value);
      if |results| == 0 {
        return InvalidOrExpired;
      }
      var user := results[0];
      if user.isVerified {
        return AlreadyVerified;
      }
      rows := MarkVerified(rows, user.id);
      reply := VerifiedUser(user.username);
    }

    /** POST /api/auth/login: reads the table and changes nothing. */
    method Login(req: LoginRequest, b: Bcrypt, jwt: Jwt, production: bool) returns (reply: LoginReply)
      ensures reply == LoginStep(rows, req, b, jwt, production)
      ensures reply.LoggedIn? ==>
        (exists i :: 0 <= i < |rows| && rows[i].username == req.username.value &&
                     reply.user == PublicUser(rows[i].id, rows[i].username, rows[i].role))
    {
      if Falsy(req.username) || Falsy(req.password) {
        return MissingCredentials;
      }
      var results := ByUsername(rows, req.username.value);
      if |results| == 0 {
        return InvalidCredentials;
      }
      var user := results[0];
      var isPasswordValid := ComparePassword(b, req.password.value, user.passwordHash);
      if !isPasswordValid {
        return InvalidCredentials;
      }
      var token := CreateToken(jwt, user.id, user.role);
      reply := LoggedIn(PublicUser(user.id, user.username, user.role), SessionCookieFor(token, production));
      ghost var k := FirstWithUsername(rows, req.username.value);
      assert rows[k] == user;
    }
  }

  // ---------------------------------------------------------------------
  // A whole account life cycle

  /** The first signup on an empty table, valid and without an INSERT
      failure, creates user 1. */
  lemma SignupOnEmptyTable(b: Bcrypt, salt: string, rnd: seq<byte>, name: string, email: string, pw: string)
    requires name != "" && Contains(email, "@") && |pw| >= MinPasswordLength
    ensures SignupStep(Table([], 1), SignupRequest(Some(name), Some(email), Some(pw), Some(pw)),
                       b, salt, rnd, None, None) ==
      SignupOutcome(Created,
        Table([User(1, name, email, HashPassword(b, pw, salt), "user", false, Some(VerificationToken(rnd)))], 2),
        Some(VerificationMail(email, name, VerificationLink(DefaultAppUrl, VerificationToken(rnd)))))
  {
    assert email != "" by {
      var k :| 0 <= k <= |email| && OccursAt(email, "@", k);
    }
  }

  /** Verifying the only row by its token. */
  lemma VerifySingleRow(row: User, token: string, n: int)
    requires row.verificationToken == Some(token) && token != "" && !row.isVerified
    ensures VerifyStep(Table([row], n), Some(token)) == (VerifiedUser(row.username), Table([Verified(row)], n))
  {
    assert ByToken([row], token) == [row];
    assert MarkVerified([row], row.id) == [Verified(row)];
  }

  /** Logging in as the only row. */
  lemma LoginSingleRow(row: User, pw: string, b: Bcrypt, jwt: Jwt)
    requires row.username != "" && pw != ""
    ensures LoginStep([row], LoginRequest(Some(row.username), Some(pw)), b, jwt, false) ==
      if b.compare(pw, row.passwordHash)
      then LoggedIn(PublicUser(row.id, row.username, row.role),
                    SessionCookieFor(CreateToken(jwt, row.id, row.role), false))
      else InvalidCredentials
  {
    assert ByUsername([row], row.username) == [row];
  }

  /** Sign up on an empty table, follow the e-mailed link, then log in.
      Before the link is followed login already succeeds, since it does not
      read is_verified; following the link a second time reports "Invalid or
      expired token"; a different password is turned away with the same 401
      as an unknown user. */
  lemma AccountLifeCycle(b: Bcrypt, jwt: Jwt, salt: string, rnd: seq<byte>,
                         name: string, email: string, pw: string, other: string)
    requires BcryptSound(b) && BcryptRejectsOthers(b) && |rnd| == 32
    requires name != "" && Contains(email, "@") && |pw| >= MinPasswordLength && other != "" && other != pw
    ensures var o := SignupStep(Table([], 1), SignupRequest(Some(name), Some(email), Some(pw), Some(pw)),
                                b, salt, rnd, None, None);
      var link := Some(VerificationToken(rnd));
      var (v, t1) := VerifyStep(o.table, link);
      o.reply == Created &&
      o.mail == Some(VerificationMail(email, name, VerificationLink(DefaultAppUrl, VerificationToken(rnd)))) &&
      LoginStep(o.table.rows, LoginRequest(Some(name), Some(pw)), b, jwt, false).LoggedIn? &&
      v == VerifiedUser(name) &&
      t1.rows == [User(1, name, email, HashPassword(b, pw, salt), "user", true, None)] &&
      VerifyStep(t1, link).0 == InvalidOrExpired &&
      LoginStep(t1.rows, LoginRequest(Some(name), Some(pw)), b, jwt, false) ==
        LoggedIn(PublicUser(1, name, "user"), SessionCookieFor(CreateToken(jwt, 1, "user"), false)) &&
      LoginStep(t1.rows, LoginRequest(Some(name), Some(other)), b, jwt, false) == InvalidCredentials
  {
    var token := VerificationToken(rnd);
    TokenIsSixtyFourHexDigits(rnd);
    SignupOnEmptyTable(b, salt, rnd, name, email, pw);
    var row := User(1, name, email, HashPassword(b, pw, salt), "user", false, Some(token));
    VerifySingleRow(row, token, 2);
    LoginSingleRow(row, pw, b, jwt);
    LoginSingleRow(Verified(row), pw, b, jwt);
    LoginSingleRow(Verified(row), other, b, jwt);
    assert ByToken([Verified(row)], token) == [];
  }
}
