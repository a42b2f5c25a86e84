/** app/api/auth/signup/route.ts, POST: the validation chain, the two
    duplicate checks, hashing and token generation, and the INSERT of one
    unverified user, as a function of the table before the request. The
    imperative form of the handler is UserStore.UserStore.Signup, which is
    proved to agree with SignupStep. */
module SignupRoute {
  import opened Common
  import opened Auth
  import opened Users

  // ---------------------------------------------------------------------
  // The verification token: crypto.randomBytes(32).toString("hex")

  newtype byte = x: int | 0 <= x < 256

  /** A lower-case hexadecimal digit. */
  predicate IsHexDigit(c: char)
  {
    '0' <= c <= '9' || 'a' <= c <= 'f'
  }

  /** The digit for a value below 16. */
  function HexChar(v: nat): (c: char)
    requires v < 16
    ensures IsHexDigit(c)
  {
    if v < 10 then ('0' as int + v) as char else ('a' as int + v - 10) as char
  }

  /** Buffer.toString("hex") of one byte: two lower-case digits, high nibble
      first. */
  function HexByte(b: byte): string
  {
    [HexChar((b as int) / 16), HexChar((b as int) % 16)]
  }

  /** Buffer.toString("hex"). */
  function ToHex(bs: seq<byte>): (h: string)
    ensures |h| == 2 * |bs|
    ensures forall i :: 0 <= i < |h| ==> IsHexDigit(h[i])
  {
    if bs == [] then "" else HexByte(bs[0]) + ToHex(bs[1..])
  }

  /** The value of a lower-case hex digit; the inverse of HexChar. */
  function DigitValue(c: char): (v: nat)
    requires IsHexDigit(c)
    ensures v < 16 && HexChar(v) == c
  {
    if '0' <= c <= '9' then (c as int - '0' as int) else (c as int - 'a' as int) + 10
  }

  /** Reading a lower-case hex string back into bytes. */
  function FromHex(h: string): seq<byte>
    requires |h| % 2 == 0
    requires forall i :: 0 <= i < |h| ==> IsHexDigit(h[i])
  {
    if h == [] then []
    else [(DigitValue(h[0]) * 16 + DigitValue(h[1])) as byte] + FromHex(h[2..])
  }

  /** Hex encoding loses nothing: distinct random byte strings give distinct
      tokens. */
  lemma {:induction false} HexRoundTrip(bs: seq<byte>)
    ensures FromHex(ToHex(bs)) == bs
  {
    if bs != [] {
      var b := bs[0] as int;
      var h := ToHex(bs);
      assert h == HexByte(bs[0]) + ToHex(bs[1..]);
      assert h[0] == HexChar(b / 16) && h[1] == HexChar(b % 16);
      assert h[2..] == ToHex(bs[1..]);
      assert DigitValue(h[0]) == b / 16 by {
        assert HexChar(DigitValue(h[0])) == HexChar(b / 16);
      }
      assert DigitValue(h[1]) == b % 16 by {
        assert HexChar(DigitValue(h[1])) == HexChar(b % 16);
      }
      HexRoundTrip(bs[1..]);
    }
  }

  /** The token the handler stores: 32 random bytes in hex. */
  function VerificationToken(randomBytes: seq<byte>): string
  {
    ToHex(randomBytes)
  }

  /** The stored token is 64 lower-case hex characters. */
  lemma TokenIsSixtyFourHexDigits(randomBytes: seq<byte>)
    requires |randomBytes| == 32
    ensures |VerificationToken(randomBytes)| == 64
    ensures forall i :: 0 <= i < 64 ==> IsHexDigit(VerificationToken(randomBytes)[i])
  {
  }

  // ---------------------------------------------------------------------
  // Requests and replies

  /** The JSON body's four fields; None stands for a missing or null field. */
  datatype SignupRequest = SignupRequest(
    username: Option<string>, email: Option<string>,
    password: Option<string>, confirmPassword: Option<string>)

  /** What the failed INSERT throws: the driver's sqlMessage and the error's
      message, either of which may be absent. */
  datatype DbError = DbError(sqlMessage: Option<string>, message: Option<string>)

  /** `(dbError && dbError.sqlMessage) || dbError.message || "Database error"` */
  function DbErrorText(e: DbError): string
  {
    if !Falsy(e.sqlMessage) then e.sqlMessage.value
    else if !Falsy(e.message) then e.message.value
    else "Database error"
  }

  /** The distinct outcomes of the handler. */
  datatype SignupReply =
    | MissingFields
    | PasswordMismatch
    | PasswordTooShort
    | InvalidEmail
    | UsernameTaken
    | EmailRegistered
    | InsertFailed(detail: string)
    | Created
  {
    /** The HTTP status of the response. */
    function Status(): int
    {
      match this
      case InsertFailed(_) => 500
      case Created => 201
      case _ => 400
    }

    /** The `error` field of a failure, or the `message` field of success. */
    function Text(): string
    {
      match this
      case MissingFields => "All fields are required"
      case PasswordMismatch => "Passwords do not match"
      case PasswordTooShort => "Password must be at least 6 characters"
      case InvalidEmail => "Invalid email address"
      case UsernameTaken => "Username already taken"
      case EmailRegistered => "Email already registered"
      case InsertFailed(detail) => "Signup failed: " + detail
      case Created => "Signup successful! Check your email to verify your account."
    }
  }

  /** The `redirect` field of the 201 response. */
  const SignupRedirect: string := "/login"

  /** The shortest password accepted. */
  const MinPasswordLength: nat := 6

  /** The default application URL used in the verification link. */
  const DefaultAppUrl: string := "http://localhost:3000"

  /** The verification e-mail the handler asks lib/email.ts to send. */
  datatype VerificationMail = VerificationMail(to: string, username: string, link: string)

  /** `process.env.NEXT_PUBLIC_APP_URL || "http://localhost:3000"` */
  function AppUrl(env: Option<string>): string
  {
    if Falsy(env) then DefaultAppUrl else env.value
  }

  /** The link sendVerificationEmail builds. */
  function VerificationLink(appUrl: string, token: string): string
  {
    appUrl + "/verify-email?token=" + token
  }

  /** The reply, the table afterwards and the e-mail handed to the sender. */
  datatype SignupOutcome = SignupOutcome(reply: SignupReply, table: Table, mail: Option<VerificationMail>)

  /** The row the INSERT adds. */
  function NewUser(t: Table, username: string, email: string, hashed: string, token: string): User
  {
    User(t.nextId, username, email, hashed, "user", false, Some(token))
  }

  /** The handler, request by request. `saltRandom` and `randomBytes` are what
      bcrypt.genSalt and crypto.randomBytes(32) draw; `insertError` is the
      exception the INSERT throws, if it does. Delivery of the e-mail is not
      an input: the handler ignores what the sender returns and catches what
      it throws. */
  function SignupStep(t: Table, req: SignupRequest, b: Bcrypt, saltRandom: string,
                      randomBytes: seq<byte>, insertError: Option<DbError>,
                      appUrlEnv: Option<string>): SignupOutcome
  {
    if Falsy(req.username) || Falsy(req.email) || Falsy(req.password) || Falsy(req.confirmPassword) then
      SignupOutcome(MissingFields, t, None)
    else if req.password.value != req.confirmPassword.value then
      SignupOutcome(PasswordMismatch, t, None)
    else if |req.password.value| < MinPasswordLength then
      SignupOutcome(PasswordTooShort, t, None)
    else if !Contains(req.email.value, "@") then
      SignupOutcome(InvalidEmail, t, None)
    else if ByUsername(t.rows, req.username.value) != [] then
      SignupOutcome(UsernameTaken, t, None)
    else if ByEmail(t.rows, req.email.value) != [] then
      SignupOutcome(EmailRegistered, t, None)
    else
      var hashed := HashPassword(b, req.password.value, saltRandom);
      var token := VerificationToken(randomBytes);
      if insertError.Some? then
        SignupOutcome(InsertFailed(DbErrorText(insertError.value)), t, None)
      else
        var row := NewUser(t, req.username.value, req.email.value, hashed, token);
        SignupOutcome(Created, Table(t.rows + [row], t.nextId + 1),
          Some(VerificationMail(req.email.value, req.username.value,
                                VerificationLink(AppUrl(appUrlEnv), token))))
  }

  // ---------------------------------------------------------------------
  // Properties

  /** The validation chain runs in a fixed order, each failure answering 400
      with its own message: a missing field first, then a password mismatch,
      then a password shorter than 6 characters, then an e-mail without "@". */
  lemma ValidationOrder(t: Table, req: SignupRequest, b: Bcrypt, salt: string,
                        rnd: seq<byte>, ie: Option<DbError>, env: Option<string>)
    ensures var r := SignupStep(t, req, b, salt, rnd, ie, env).reply;
      r == MissingFields <==>
        Falsy(req.username) || Falsy(req.email) || Falsy(req.password) || Falsy(req.confirmPassword)
    ensures var r := SignupStep(t, req, b, salt, rnd, ie, env).reply;
      !Falsy(req.username) && !Falsy(req.email) && !Falsy(req.password) && !Falsy(req.confirmPassword) ==>
        (r == PasswordMismatch <==> req.password.value != req.confirmPassword.value)
    ensures var r := SignupStep(t, req, b, salt, rnd, ie, env).reply;
      !Falsy(req.username) && !Falsy(req.email) && !Falsy(req.password) && req.confirmPassword == req.password ==>
        (r == PasswordTooShort <==> |req.password.value| < 6)
    ensures var r := SignupStep(t, req, b, salt, rnd, ie, env).reply;
      !Falsy(req.username) && !Falsy(req.email) && !Falsy(req.password) && req.confirmPassword == req.password &&
      |req.password.value| >= 6 ==>
        (r == InvalidEmail <==> !Contains(req.email.value, "@"))
  {
  }

  /** The request passes every check before the INSERT. */
  predicate PassesChecks(t: Table, req: SignupRequest)
  {
    !Falsy(req.username) && !Falsy(req.email) && !Falsy(req.password) && !Falsy(req.confirmPassword) &&
    req.password.value == req.confirmPassword.value && |req.password.value| >= MinPasswordLength &&
    Contains(req.email.value, "@") &&
    ByUsername(t.rows, req.username.value) == [] && ByEmail(t.rows, req.email.value) == []
  }

  /** The status codes: 400 exactly when a check fails, 500 exactly when
      every check passes and the INSERT throws, and 201 otherwise. */
  lemma SignupStatusCodes(t: Table, req: SignupRequest, b: Bcrypt, salt: string,
                          rnd: seq<byte>, ie: Option<DbError>, env: Option<string>)
    ensures var r := SignupStep(t, req, b, salt, rnd, ie, env).reply;
      (r.Status() == 400 <==> !PassesChecks(t, req)) &&
      (r.Status() == 500 <==> PassesChecks(t, req) && ie.Some?) &&
      (r.Status() == 201 <==> PassesChecks(t, req) && ie.None?)
  {
  }

  /** An existing username is reported before the e-mail is looked at, so a
      request that duplicates both is told the username is taken. An existing
      e-mail with a fresh username is reported as already registered. */
  lemma DuplicateChecks(t: Table, req: SignupRequest, b: Bcrypt, salt: string,
                        rnd: seq<byte>, ie: Option<DbError>, env: Option<string>, i: nat)
    requires !Falsy(req.username) && !Falsy(req.email) && !Falsy(req.password)
    requires req.confirmPassword == req.password && |req.password.value| >= 6
    requires Contains(req.email.value, "@")
    requires i < |t.rows|
    ensures t.rows[i].username == req.username.value ==>
      SignupStep(t, req, b, salt, rnd, ie, env).reply == UsernameTaken
    ensures t.rows[i].email == req.email.value &&
            (forall j :: 0 <= j < |t.rows| ==> t.rows[j].username != req.username.value) ==>
      SignupStep(t, req, b, salt, rnd, ie, env).reply == EmailRegistered
  {
  }

  /** Every rejected request returns before the INSERT: the table is
      unchanged and no e-mail is sent. */
  lemma RejectedSignupKeepsTable(t: Table, req: SignupRequest, b: Bcrypt, salt: string,
                                 rnd: seq<byte>, ie: Option<DbError>, env: Option<string>)
    ensures var o := SignupStep(t, req, b, salt, rnd, ie, env);
      o.reply != Created ==> o.table == t && o.mail.None?
  {
  }

  /** A successful signup answers 201 and adds exactly one row at the end:
      the next id, the given username and e-mail, the bcrypt hash of the
      password (cost 10), role "user", not verified, and the hex token, which
      is also the one in the e-mailed link. */
  lemma SuccessfulSignupAddsOneRow(t: Table, req: SignupRequest, b: Bcrypt, salt: string,
                                   rnd: seq<byte>, ie: Option<DbError>, env: Option<string>)
    requires |rnd| == 32
    ensures var o := SignupStep(t, req, b, salt, rnd, ie, env);
      o.reply == Created ==>
        o.reply.Status() == 201 &&
        ie.None? && !Falsy(req.username) && !Falsy(req.email) && !Falsy(req.password) &&
        |o.table.rows| == |t.rows| + 1 && o.table.rows[..|t.rows|] == t.rows &&
        o.table.nextId == t.nextId + 1 &&
        var row := o.table.rows[|t.rows|];
        row.id == t.nextId && row.username == req.username.value && row.email == req.email.value &&
        row.passwordHash == b.hash(req.password.value, Salt(10, salt)) &&
        row.role == "user" && !row.isVerified &&
        row.verificationToken.Some? && |row.verificationToken.value| == 64 &&
        o.mail == Some(VerificationMail(row.email, row.username,
                                        AppUrl(env) + "/verify-email?token=" + row.verificationToken.value))
  {
    var o := SignupStep(t, req, b, salt, rnd, ie, env);
    if o.reply == Created {
      assert (t.rows + [o.table.rows[|t.rows|]])[..|t.rows|] == t.rows;
    }
  }

  /** Appending an unverified row under the next id whose username and
      e-mail are new keeps the token-independent invariants. */
  lemma {:induction false} AppendKeepsKeys(t: Table, row: User)
    requires KeysConsistent(t)
    requires forall i :: 0 <= i < |t.rows| ==> t.rows[i].username != row.username
    requires forall i :: 0 <= i < |t.rows| ==> t.rows[i].email != row.email
    requires row.id == t.nextId && !row.isVerified
    ensures KeysConsistent(Table(t.rows + [row], t.nextId + 1))
  {
    var rows := t.rows + [row];
    assert forall i :: 0 <= i < |t.rows| ==> rows[i] == t.rows[i];
    assert rows[|t.rows|] == row;
  }

  /** Appending a row whose token is also new keeps the tokens unique. */
  lemma {:induction false} AppendKeepsTokensUnique(rows: seq<User>, row: User)
    requires TokensUnique(rows)
    requires forall i :: 0 <= i < |rows| ==> rows[i].verificationToken != row.verificationToken
    ensures TokensUnique(rows + [row])
  {
    var after := rows + [row];
    assert forall i :: 0 <= i < |rows| ==> after[i] == rows[i];
    assert after[|rows|] == row;
  }

  /** For requests handled one after another, whatever the random bytes:
      if usernames, e-mails and ids are unique before a signup, they are
      unique after it, every id stays below the counter, and a verified row
      still has no token. */
  lemma SignupKeepsKeys(t: Table, req: SignupRequest, b: Bcrypt, salt: string,
                        rnd: seq<byte>, ie: Option<DbError>, env: Option<string>)
    requires KeysConsistent(t)
    ensures KeysConsistent(SignupStep(t, req, b, salt, rnd, ie, env).table)
  {
    var o := SignupStep(t, req, b, salt, rnd, ie, env);
    if o.reply == Created {
      var row := NewUser(t, req.username.value, req.email.value,
                         HashPassword(b, req.password.value, salt), VerificationToken(rnd));
      assert o.table == Table(t.rows + [row], t.nextId + 1);
      AppendKeepsKeys(t, row);
    }
  }

  /** In addition, tokens stay unique when the fresh token is not already in
      the table: the whole invariant is kept. */
  lemma SignupKeepsConsistent(t: Table, req: SignupRequest, b: Bcrypt, salt: string,
                              rnd: seq<byte>, ie: Option<DbError>, env: Option<string>)
    requires Consistent(t)
    requires ByToken(t.rows, VerificationToken(rnd)) == []
    ensures Consistent(SignupStep(t, req, b, salt, rnd, ie, env).table)
  {
    SignupKeepsKeys(t, req, b, salt, rnd, ie, env);
    var o := SignupStep(t, req, b, salt, rnd, ie, env);
    if o.reply == Created {
      var row := NewUser(t, req.username.value, req.email.value,
                         HashPassword(b, req.password.value, salt), VerificationToken(rnd));
      assert o.table == Table(t.rows + [row], t.nextId + 1);
      AppendKeepsTokensUnique(t.rows, row);
    }
  }

  /** Signup never changes an existing row. */
  lemma SignupNeverUnverifies(t: Table, req: SignupRequest, b: Bcrypt, salt: string,
                              rnd: seq<byte>, ie: Option<DbError>, env: Option<string>)
    ensures NeverUnverifies(t.rows, SignupStep(t, req, b, salt, rnd, ie, env).table.rows)
  {
  }
}
