/** The `/auth/signup` and `/auth/signin` routes. Each request is taken on its
    own: `Signup` looks the email up and, if it is free, commits a new row and
    issues a token; `Signin` looks the email up, checks the password and
    issues a token. Both are specified by pure functions of the table
    (`SignupOutcome`, `SigninOutcome`) about which the lemmas below state
    what the routes promise. */
module Routes {
  import opened Wrappers
  import opened Models
  import opened Table

  /** `ACCESS_TOKEN_EXPIRE_MINUTES`: the expiry window of every token. */
  const AccessTokenExpireMinutes: nat := 60

  /** The claims put into a token: `{"id": str(id), "role": role.value}`. */
  datatype TokenData = TokenData(id: string, role: string)

  /** The password and token helpers the routes import. Their internals are
      not part of this model, so they are passed in as plain functions:
      `hashPassword(password)`, `verifyPassword(password, digest)` and
      `createAccessToken(data, expiresMinutes)`. */
  datatype Crypto = Crypto(
    hashPassword: string -> string,
    verifyPassword: (string, string) -> bool,
    createAccessToken: (TokenData, nat) -> string)

  /** The hashing contract: a digest verifies against the password it was
      made from. Only the end-to-end lemma relies on it. */
  ghost predicate HashRoundTrip(crypto: Crypto) {
    forall p :: crypto.verifyPassword(p, crypto.hashPassword(p))
  }

  /** The JSON body both routes return on success. */
  datatype AuthResponse = AuthResponse(token: string, id: string, role: string)

  /** How a request can end other than with a response. */
  datatype AuthError =
    | EmailAlreadyRegistered   // HTTPException(400, "Email already registered")
    | InvalidCredentials       // HTTPException(401, "Invalid credentials")
    | Unhandled(cause: DbError) // a database exception the route does not catch
  {
    /** The `detail` text of the two HTTP exceptions the routes raise. */
    function Detail(): (d: string)
      requires !Unhandled?
      ensures d == "Email already registered" <==> EmailAlreadyRegistered?
      ensures d == "Invalid credentials" <==> InvalidCredentials?
    {
      if EmailAlreadyRegistered? then "Email already registered" else "Invalid credentials"
    }
  }

  /** The token and body issued for a stored account: the claims are exactly
      the row's id and role value, the window is `AccessTokenExpireMinutes`. */
  function IssueResponse(a: Auth, crypto: Crypto): (r: AuthResponse)
    ensures r.id == a.id && RoleFromValue(r.role) == Some(a.role)
    ensures r.token == crypto.createAccessToken(TokenData(r.id, r.role), AccessTokenExpireMinutes)
  {
    var data := TokenData(a.id, a.role.Value());
    AuthResponse(crypto.createAccessToken(data, AccessTokenExpireMinutes), a.id, a.role.Value())
  }

  /** What `signup` answers and what the table holds afterwards, given the
      table before, the request, and the id and time the default factories
      produce. */
  function SignupOutcome(rows: seq<Auth>, email: string, password: string, crypto: Crypto,
                         newId: Uuid, now: Timestamp, role: Role := Role.User)
    : (o: (Result<AuthResponse, AuthError>, seq<Auth>))
    ensures o.0.Failure? ==> o.1 == rows
    ensures o.0.Failure? ==> o.0.error != InvalidCredentials
    ensures o.0.Success? ==>
              exists a :: && o.1 == rows + [a] && Admits(rows, a)
                          && a.email == email && a.role == role && a.id == newId
                          && a.hashedPassword == crypto.hashPassword(password)
                          && o.0.value == IssueResponse(a, crypto)
  {
    match LookupEmail(rows, email)
    case Failure(e) => (Failure(Unhandled(e)), rows)
    case Success(Some(_)) => (Failure(EmailAlreadyRegistered), rows)
    case Success(None) =>
      var newAuth := NewAuth(email, crypto.hashPassword(password), newId, now, role);
      if !Admits(rows, newAuth) then (Failure(Unhandled(IntegrityError)), rows)
      else (Success(IssueResponse(newAuth, crypto)), rows + [newAuth])
  }

  /** What `signin` answers for a table. */
  function SigninOutcome(rows: seq<Auth>, email: string, password: string, crypto: Crypto)
    : (r: Result<AuthResponse, AuthError>)
    ensures r.Failure? ==> r.error == InvalidCredentials || r.error == Unhandled(MultipleResultsFound)
    ensures r.Success? ==>
              exists a :: && a in rows && a.email == email
                          && crypto.verifyPassword(password, a.hashedPassword)
                          && r.value == IssueResponse(a, crypto)
  {
    match LookupEmail(rows, email)
    case Failure(e) => Failure(Unhandled(e))
    case Success(found) =>
      if found.None? || !crypto.verifyPassword(password, found.value.hashedPassword)
      then Failure(InvalidCredentials)
      else Success(IssueResponse(found.value, crypto))
  }

  /** `POST /auth/signup`. */
  method Signup(table: AuthTable, email: string, password: string, crypto: Crypto,
                newId: Uuid, now: Timestamp, role: Role := Role.User)
    returns (r: Result<AuthResponse, AuthError>)
    requires table.Valid()
    modifies table
    ensures table.Valid()
    ensures (r, table.rows) == SignupOutcome(old(table.rows), email, password, crypto, newId, now, role)
  {
    var existing := LookupEmail(table.rows, email);
    if existing.Failure? {
      return Failure(Unhandled(existing.error));
    }
    if existing.value.Some? {
      return Failure(EmailAlreadyRegistered);
    }
    var newAuth := NewAuth(email, crypto.hashPassword(password), newId, now, role);
    var committed := table.Commit(newAuth);
    if !committed {
      return Failure(Unhandled(IntegrityError));
    }
    // `session.refresh(new_auth)` reloads the row just committed, which holds
    // exactly `newAuth`'s columns (GetByIdAfterSignup).
    r := Success(IssueResponse(newAuth, crypto));
  }

  /** `POST /auth/signin`. It only reads the table. */
  method Signin(table: AuthTable, email: string, password: string, crypto: Crypto)
    returns (r: Result<AuthResponse, AuthError>)
    ensures r == SigninOutcome(table.rows, email, password, crypto)
    ensures r.Failure? && !r.error.Unhandled? ==> r.error == InvalidCredentials
  {
    var found := LookupEmail(table.rows, email);
    if found.Failure? {
      return Failure(Unhandled(found.error));
    }
    var auth := found.value;
    if auth.None? || !crypto.verifyPassword(password, auth.value.hashedPassword) {
      return Failure(InvalidCredentials);
    }
    r := Success(IssueResponse(auth.value, crypto));
  }

  // ---------------------------------------------------------------------
  // What signup promises
  // ---------------------------------------------------------------------

  /** An email already on record is refused and the table is left as it was. */
  lemma SignupDuplicateEmail(rows: seq<Auth>, email: string, password: string, crypto: Crypto,
                             newId: Uuid, now: Timestamp, role: Role)
    requires TableInvariant(rows) && email in Emails(rows)
    ensures SignupOutcome(rows, email, password, crypto, newId, now, role)
              == (Failure(EmailAlreadyRegistered), rows)
  {
    LookupEmailUnderInvariant(rows, email);
  }

  /** A fresh email (with a fresh id) adds exactly one row, at the end, holding
      the email, the digest of the password, the role and the given id and
      time; every earlier row is untouched. The response carries that row's id
      and role value and a token whose claims are exactly those, issued for
      `AccessTokenExpireMinutes` minutes. */
  lemma SignupFreshEmail(rows: seq<Auth>, email: string, password: string, crypto: Crypto,
                         newId: Uuid, now: Timestamp, role: Role)
    requires TableInvariant(rows) && email !in Emails(rows) && newId !in Ids(rows)
    ensures var (r, rows') := SignupOutcome(rows, email, password, crypto, newId, now, role);
            && rows' == rows + [Auth(newId, now, crypto.hashPassword(password), email, role)]
            && r == Success(AuthResponse(
                 crypto.createAccessToken(TokenData(newId, role.Value()), 60),
                 newId, role.Value()))
            && TableInvariant(rows')
  {
    LookupEmailUnderInvariant(rows, email);
    InsertPreservesInvariant(rows, NewAuth(email, crypto.hashPassword(password), newId, now, role));
  }

  /** When the default factory repeats a stored id, the commit fails and
      nothing is stored; the route does not turn this into a signup error. */
  lemma SignupIdCollision(rows: seq<Auth>, email: string, password: string, crypto: Crypto,
                          newId: Uuid, now: Timestamp, role: Role)
    requires TableInvariant(rows) && email !in Emails(rows) && newId in Ids(rows)
    ensures SignupOutcome(rows, email, password, crypto, newId, now, role)
              == (Failure(Unhandled(IntegrityError)), rows)
  {
    LookupEmailUnderInvariant(rows, email);
  }

  /** Without a role, a signup stores and answers the `user` role. */
  lemma SignupDefaultRole(rows: seq<Auth>, email: string, password: string, crypto: Crypto,
                          newId: Uuid, now: Timestamp)
    requires TableInvariant(rows)
    ensures var (r, rows') := SignupOutcome(rows, email, password, crypto, newId, now);
            r.Success? ==> |rows'| == |rows| + 1 && rows'[|rows|].role == User && r.value.role == "user"
  {
    LookupEmailUnderInvariant(rows, email);
  }

  /** Whatever the request, signup keeps the table's constraints, never
      raises the lookup's multiple-rows error, and either adds one row or
      leaves the table unchanged. */
  lemma SignupPreservesInvariant(rows: seq<Auth>, email: string, password: string, crypto: Crypto,
                                 newId: Uuid, now: Timestamp, role: Role)
    requires TableInvariant(rows)
    ensures var (r, rows') := SignupOutcome(rows, email, password, crypto, newId, now, role);
            && TableInvariant(rows')
            && r != Failure(Unhandled(MultipleResultsFound))
            && (r.Success? ==> |rows'| == |rows| + 1 && rows'[..|rows|] == rows)
            && (r.Failure? ==> rows' == rows)
  {
    LookupEmailUnderInvariant(rows, email);
    var a := NewAuth(email, crypto.hashPassword(password), newId, now, role);
    if Admits(rows, a) {
      InsertPreservesInvariant(rows, a);
    }
  }

  /** After a successful signup, the row with the returned id is the new
      account, which is what `session.refresh` reloads. */
  lemma GetByIdAfterSignup(rows: seq<Auth>, email: string, password: string, crypto: Crypto,
                           newId: Uuid, now: Timestamp, role: Role)
    requires TableInvariant(rows)
    ensures var (r, rows') := SignupOutcome(rows, email, password, crypto, newId, now, role);
            r.Success? ==>
              GetById(rows', r.value.id) == Some(Auth(newId, now, crypto.hashPassword(password), email, role))
  {
    LookupEmailUnderInvariant(rows, email);
    var a := NewAuth(email, crypto.hashPassword(password), newId, now, role);
    if Admits(rows, a) && LookupEmail(rows, email) == Success(None) {
      InsertPreservesInvariant(rows, a);
      assert a in rows + [a];
      GetByIdFindsRow(rows + [a], a);
    }
  }

  /** Two signups with the same email: the first succeeds, the second is
      refused, and exactly one row holds that email afterwards. */
  lemma SignupTwiceSameEmail(rows: seq<Auth>, email: string, password1: string, password2: string,
                             crypto: Crypto, id1: Uuid, id2: Uuid, now1: Timestamp, now2: Timestamp,
                             role1: Role, role2: Role)
    requires TableInvariant(rows) && email !in Emails(rows) && id1 !in Ids(rows)
    ensures var (r1, rows1) := SignupOutcome(rows, email, password1, crypto, id1, now1, role1);
            var (r2, rows2) := SignupOutcome(rows1, email, password2, crypto, id2, now2, role2);
            && r1.Success?
            && r2 == Failure(EmailAlreadyRegistered)
            && rows2 == rows1
            && |SelectByEmail(rows2, email)| == 1
  {
    SignupFreshEmail(rows, email, password1, crypto, id1, now1, role1);
    var rows1 := SignupOutcome(rows, email, password1, crypto, id1, now1, role1).1;
    var a := Auth(id1, now1, crypto.hashPassword(password1), email, role1);
    assert a in rows1;
    SignupDuplicateEmail(rows1, email, password2, crypto, id2, now2, role2);
    SelectByEmailAtMostOne(rows1, email);
  }

  // ---------------------------------------------------------------------
  // What signin promises
  // ---------------------------------------------------------------------

  /** Signin succeeds exactly when some stored row has the email and its
      digest verifies against the password; it then answers with that row's
      id, role value and a token for exactly those claims. Every other
      request, whether the email is unknown or the password wrong, gets the
      one `InvalidCredentials` outcome. */
  lemma SigninSucceedsIff(rows: seq<Auth>, email: string, password: string, crypto: Crypto)
    requires TableInvariant(rows)
    ensures SigninOutcome(rows, email, password, crypto).Success? <==>
              exists a :: a in rows && a.email == email && crypto.verifyPassword(password, a.hashedPassword)
    ensures forall a :: a in rows && a.email == email && crypto.verifyPassword(password, a.hashedPassword) ==>
              SigninOutcome(rows, email, password, crypto) == Success(AuthResponse(
                crypto.createAccessToken(TokenData(a.id, a.role.Value()), 60), a.id, a.role.Value()))
    ensures SigninOutcome(rows, email, password, crypto).Failure? ==>
              SigninOutcome(rows, email, password, crypto) == Failure(InvalidCredentials)
  {
    LookupEmailUnderInvariant(rows, email);
    forall a | a in rows && a.email == email
      ensures LookupEmail(rows, email) == Success(Some(a))
    {
      SameEmailSameRow(rows, a, LookupEmail(rows, email).value.value);
    }
  }

  /** An unknown email and a wrong password for a known email are answered
      identically. */
  lemma SigninFailuresIndistinguishable(rows: seq<Auth>, unknown: string, known: Auth,
                                        password1: string, password2: string, crypto: Crypto)
    requires TableInvariant(rows)
    requires unknown !in Emails(rows)
    requires known in rows && !crypto.verifyPassword(password2, known.hashedPassword)
    ensures SigninOutcome(rows, unknown, password1, crypto)
              == SigninOutcome(rows, known.email, password2, crypto)
              == Failure(InvalidCredentials)
  {
    SigninSucceedsIff(rows, unknown, password1, crypto);
    SigninSucceedsIff(rows, known.email, password2, crypto);
    forall a | a in rows && a.email == known.email ensures a == known {
      SameEmailSameRow(rows, a, known);
    }
  }

  /** End to end: after signing up a fresh email, signing in with the same
      password succeeds with the same id and role and a token for the same
      claims and window, while a password the stored digest does not verify
      is refused. */
  lemma SignupThenSignin(rows: seq<Auth>, email: string, password: string, other: string,
                         crypto: Crypto, newId: Uuid, now: Timestamp, role: Role)
    requires TableInvariant(rows) && email !in Emails(rows) && newId !in Ids(rows)
    requires HashRoundTrip(crypto)
    ensures var (r, rows') := SignupOutcome(rows, email, password, crypto, newId, now, role);
            var s := SigninOutcome(rows', email, password, crypto);
            && r.Success? && r.value.id == newId && r.value.role == role.Value()
            && s.Success? && s.value.id == r.value.id && s.value.role == r.value.role
            && s.value.token == crypto.createAccessToken(TokenData(r.value.id, r.value.role), 60)
            && (!crypto.verifyPassword(other, crypto.hashPassword(password)) ==>
                  SigninOutcome(rows', email, other, crypto) == Failure(InvalidCredentials))
  {
    SignupFreshEmail(rows, email, password, crypto, newId, now, role);
    var a := Auth(newId, now, crypto.hashPassword(password), email, role);
    var rows' := rows + [a];
    assert a in rows';
    SigninSucceedsIff(rows', email, password, crypto);
    SigninSucceedsIff(rows', email, other, crypto);
    forall b | b in rows' && b.email == email ensures b == a {
      SameEmailSameRow(rows', a, b);
    }
  }
}
