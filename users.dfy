/** The `users` table the authentication routes read and write, the SELECT
    queries they run against it, and the invariants the routes keep. Rows are
    kept in table order; a query's results are the matching rows in that
    order, and `results[0]` is the first of them. */
module Users {
  import opened Common

  /** One row of `users`. `passwordHash` is the `password` column, which holds
      a bcrypt hash. */
  datatype User = User(
    id: int,
    username: string,
    email: string,
    passwordHash: string,
    role: string,
    isVerified: bool,
    verificationToken: Option<string>)

  /** The table: its rows and the next AUTO_INCREMENT id. */
  datatype Table = Table(rows: seq<User>, nextId: int)

  /** The WHERE conditions, as row predicates. */
  function UsernameIs(u: string): User -> bool { (r: User) => r.username == u }
  function EmailIs(e: string): User -> bool { (r: User) => r.email == e }
  function TokenIs(t: string): User -> bool { (r: User) => r.verificationToken == Some(t) }

  /** SELECT ... FROM users WHERE username = ? */
  function ByUsername(rows: seq<User>, u: string): (r: seq<User>)
    ensures r == [] <==> forall i :: 0 <= i < |rows| ==> rows[i].username != u
    ensures forall i :: 0 <= i < |r| ==> r[i].username == u
  {
    Filter(rows, UsernameIs(u))
  }

  /** SELECT ... FROM users WHERE email = ? */
  function ByEmail(rows: seq<User>, e: string): (r: seq<User>)
    ensures r == [] <==> forall i :: 0 <= i < |rows| ==> rows[i].email != e
    ensures forall i :: 0 <= i < |r| ==> r[i].email == e
  {
    Filter(rows, EmailIs(e))
  }

  /** SELECT ... FROM users WHERE verification_token = ?. A NULL column
      matches no string. */
  function ByToken(rows: seq<User>, t: string): (r: seq<User>)
    ensures r == [] <==> forall i :: 0 <= i < |rows| ==> rows[i].verificationToken != Some(t)
    ensures forall i :: 0 <= i < |r| ==> r[i] in rows && r[i].verificationToken == Some(t)
  {
    FilterMembers(rows, TokenIs(t));
    Filter(rows, TokenIs(t))
  }

  /** The index of the first row satisfying the token query: the row that
      `results[0]` is. */
  function FirstWithToken(rows: seq<User>, t: string): (k: nat)
    requires ByToken(rows, t) != []
    ensures k < |rows| && rows[k].verificationToken == Some(t)
    ensures forall j :: 0 <= j < k ==> rows[j].verificationToken != Some(t)
    ensures ByToken(rows, t)[0] == rows[k]
  {
    FirstIndex(rows, TokenIs(t))
  }

  /** The index of the first row with this username: the row that the login
      route takes as `results[0]`. */
  function FirstWithUsername(rows: seq<User>, u: string): (k: nat)
    requires ByUsername(rows, u) != []
    ensures k < |rows| && rows[k].username == u
    ensures forall j :: 0 <= j < k ==> rows[j].username != u
    ensures ByUsername(rows, u)[0] == rows[k]
  {
    FirstIndex(rows, UsernameIs(u))
  }

  predicate UsernamesUnique(rows: seq<User>)
  {
    forall i, j :: 0 <= i < j < |rows| ==> rows[i].username != rows[j].username
  }

  predicate EmailsUnique(rows: seq<User>)
  {
    forall i, j :: 0 <= i < j < |rows| ==> rows[i].email != rows[j].email
  }

  predicate IdsUnique(rows: seq<User>)
  {
    forall i, j :: 0 <= i < j < |rows| ==> rows[i].id != rows[j].id
  }

  /** Every id is below the next AUTO_INCREMENT value. */
  predicate IdsBelow(t: Table)
  {
    forall i :: 0 <= i < |t.rows| ==> t.rows[i].id < t.nextId
  }

  /** No two rows carry the same (non-NULL) verification token. */
  predicate TokensUnique(rows: seq<User>)
  {
    forall i, j :: 0 <= i < j < |rows| && rows[i].verificationToken.Some? ==>
      rows[i].verificationToken != rows[j].verificationToken
  }

  /** A verified row has no verification token left. */
  predicate VerifiedHaveNoToken(rows: seq<User>)
  {
    forall i :: 0 <= i < |rows| ==> rows[i].isVerified ==> rows[i].verificationToken.None?
  }

  /** The invariants that do not depend on the random tokens: unique
      usernames, e-mails and ids, ids below the counter, and no token left
      on a verified row. */
  predicate KeysConsistent(t: Table)
  {
    UsernamesUnique(t.rows) && EmailsUnique(t.rows) && IdsUnique(t.rows) && IdsBelow(t) &&
    VerifiedHaveNoToken(t.rows)
  }

  /** The invariants the signup and verify routes keep together. */
  predicate Consistent(t: Table)
  {
    KeysConsistent(t) && TokensUnique(t.rows)
  }

  /** `after` keeps every row of `before` in place, with the same identity and
      credentials, and never turns a verified row back to unverified. */
  predicate NeverUnverifies(before: seq<User>, after: seq<User>)
  {
    |before| <= |after| &&
    forall i :: 0 <= i < |before| ==>
      after[i].id == before[i].id && after[i].username == before[i].username &&
      after[i].email == before[i].email && after[i].passwordHash == before[i].passwordHash &&
      after[i].role == before[i].role &&
      (before[i].isVerified ==> after[i].isVerified)
  }
}
