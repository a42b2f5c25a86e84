/** app/api/auth/verify/route.ts, GET: look the user up by verification
    token, answer "already verified" for a verified row, and otherwise mark
    the row verified and clear its token in one UPDATE. The imperative form is
    UserStore.UserStore.Verify, proved to agree with VerifyStep. */
module VerifyRoute {
  import opened Common
  import opened Users

  /** The distinct outcomes of the handler. */
  datatype VerifyReply =
    | InvalidLink
    | InvalidOrExpired
    | AlreadyVerified
    | VerifiedUser(username: string)
  {
    /** The HTTP status of the response. */
    function Status(): int
    {
      match this
      case InvalidLink => 400
      case InvalidOrExpired => 400
      case AlreadyVerified => 200
      case VerifiedUser(_) => 200
    }

    /** The `error` field of a failure, or the `message` field of success. */
    function Text(): string
    {
      match this
      case InvalidLink => "Invalid verification link"
      case InvalidOrExpired => "Invalid or expired token"
      case AlreadyVerified => "Email already verified"
      case VerifiedUser(_) => "Email verified successfully! You can now log in."
    }
  }

  /** A row after `SET is_verified = true, verification_token = NULL`. */
  function Verified(u: User): User
  {
    u.(isVerified := true, verificationToken := None)
  }

  /** UPDATE users SET is_verified = true, verification_token = NULL
      WHERE id = ?: every row with that id is marked verified and loses its
      token; every other row is left exactly as it was. */
  function MarkVerified(rows: seq<User>, id: int): (r: seq<User>)
    ensures |r| == |rows|
    ensures forall i :: 0 <= i < |rows| ==> r[i] == if rows[i].id == id then Verified(rows[i]) else rows[i]
  {
    if rows == [] then []
    else [if rows[0].id == id then Verified(rows[0]) else rows[0]] + MarkVerified(rows[1..], id)
  }

  /** The handler, request by request. `token` is the `token` search
      parameter, None when it is missing. */
  function VerifyStep(t: Table, token: Option<string>): (VerifyReply, Table)
  {
    if Falsy(token) then (InvalidLink, t)
    else
      var results := ByToken(t.rows, token.value);
      if results == [] then (InvalidOrExpired, t)
      else
        var user := results[0];
        if user.isVerified then (AlreadyVerified, t)
        else (VerifiedUser(user.username), t.(rows := MarkVerified(t.rows, user.id)))
  }

  // ---------------------------------------------------------------------
  // Properties

  /** A missing or empty token answers 400 "Invalid verification link"; a
      token no row carries answers 400 "Invalid or expired token"; a matching
      row that is already verified answers 200 "Email already verified". In
      all three cases the table is unchanged. */
  lemma RejectedVerifyKeepsTable(t: Table, token: Option<string>)
    ensures var (reply, t') := VerifyStep(t, token);
      (reply == InvalidLink <==> Falsy(token)) &&
      (reply == InvalidOrExpired <==> !Falsy(token) && ByToken(t.rows, token.value) == []) &&
      (!reply.VerifiedUser? ==> t' == t)
  {
  }

  /** A successful verification changes exactly the row the token matched
      (the first such row): its is_verified becomes true and its token NULL,
      in one update. Every other row, and every other field, is unchanged,
      and the reply is 200 with that row's username. */
  lemma VerifyChangesOnlyTheMatchedRow(t: Table, token: Option<string>)
    requires IdsUnique(t.rows)
    ensures var (reply, t') := VerifyStep(t, token);
      reply.VerifiedUser? ==>
        !Falsy(token) && ByToken(t.rows, token.value) != [] &&
        var k := FirstWithToken(t.rows, token.value);
        !t.rows[k].isVerified &&
        reply == VerifiedUser(t.rows[k].username) && reply.Status() == 200 &&
        t'.nextId == t.nextId && |t'.rows| == |t.rows| &&
        t'.rows[k] == t.rows[k].(isVerified := true, verificationToken := None) &&
        forall i :: 0 <= i < |t.rows| && i != k ==> t'.rows[i] == t.rows[i]
  {
    var (reply, t') := VerifyStep(t, token);
    if reply.VerifiedUser? {
      var k := FirstWithToken(t.rows, token.value);
      forall i | 0 <= i < |t.rows| && i != k
        ensures t'.rows[i] == t.rows[i]
      {
        assert t.rows[i].id != t.rows[k].id;
      }
    }
  }

  /** The token is consumed: once verify(t) has succeeded, a second verify(t)
      finds no row and answers "Invalid or expired token", not "Email already
      verified". */
  lemma {:induction false} TokenIsSingleUse(t: Table, token: Option<string>)
    requires TokensUnique(t.rows)
    ensures var (reply, t') := VerifyStep(t, token);
      reply.VerifiedUser? ==> VerifyStep(t', token).0 == InvalidOrExpired
  {
    var (reply, t') := VerifyStep(t, token);
    if reply.VerifiedUser? {
      var k := FirstWithToken(t.rows, token.value);
      var id := t.rows[k].id;
      forall i | 0 <= i < |t'.rows|
        ensures t'.rows[i].verificationToken != Some(token.value)
      {
        if i != k && t.rows[i].id != id {
          assert t'.rows[i] == t.rows[i];
          if i < k {
            assert t.rows[i].verificationToken != Some(token.value);
          } else {
            assert t.rows[k].verificationToken.Some?;
          }
        }
      }
    }
  }

  /** The "Email already verified" branch cannot be reached while every
      verified row has no token, which signup and verify both keep: a token
      lookup only ever finds unverified rows. */
  lemma AlreadyVerifiedIsUnreachable(t: Table, token: Option<string>)
    requires VerifiedHaveNoToken(t.rows)
    ensures VerifyStep(t, token).0 != AlreadyVerified
  {
    if !Falsy(token) && ByToken(t.rows, token.value) != [] {
      var k := FirstWithToken(t.rows, token.value);
      assert t.rows[k].verificationToken.Some?;
    }
  }

  /** Verification only moves forward: no row is turned back to unverified,
      none is removed, and no identity or credential field changes. */
  lemma VerifyNeverUnverifies(t: Table, token: Option<string>)
    ensures NeverUnverifies(t.rows, VerifyStep(t, token).1.rows)
  {
    var (reply, t') := VerifyStep(t, token);
    if reply.VerifiedUser? {
      var k := FirstWithToken(t.rows, token.value);
      var after := MarkVerified(t.rows, t.rows[k].id);
      assert t'.rows == after;
      forall i | 0 <= i < |t.rows|
        ensures after[i].id == t.rows[i].id && after[i].username == t.rows[i].username
        ensures after[i].email == t.rows[i].email && after[i].passwordHash == t.rows[i].passwordHash
        ensures after[i].role == t.rows[i].role && (t.rows[i].isVerified ==> after[i].isVerified)
      {
        assert after[i] == if t.rows[i].id == t.rows[k].id then Verified(t.rows[i]) else t.rows[i];
      }
    }
  }

  /** The update keeps the table consistent. */
  lemma VerifyKeepsConsistent(t: Table, token: Option<string>)
    requires Consistent(t)
    ensures Consistent(VerifyStep(t, token).1)
  {
    var (reply, t') := VerifyStep(t, token);
    if reply.VerifiedUser? {
      var k := FirstWithToken(t.rows, token.value);
      MarkVerifiedKeepsConsistent(t, t.rows[k].id);
    }
  }

  /** Marking rows verified keeps every key and only clears tokens, so the
      invariant survives. */
  lemma MarkVerifiedKeepsConsistent(t: Table, id: int)
    requires Consistent(t)
    ensures Consistent(t.(rows := MarkVerified(t.rows, id)))
  {
    var a, b := t.rows, MarkVerified(t.rows, id);
    forall i | 0 <= i < |a|
      ensures b[i].id == a[i].id && b[i].username == a[i].username && b[i].email == a[i].email
      ensures b[i].verificationToken.None? || b[i].verificationToken == a[i].verificationToken
      ensures b[i].isVerified ==> b[i].verificationToken.None?
    {
      assert b[i] == if a[i].id == id then Verified(a[i]) else a[i];
    }
    assert UsernamesUnique(b) && EmailsUnique(b) && IdsUnique(b);
    assert TokensUnique(b);
  }
}
