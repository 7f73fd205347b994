/**
 * The authentication and authorisation decisions. Token signing and
 * verification and password hashing are outside the model: a decoded token
 * arrives as `Option<TokenPayload>` (`None` when decoding fails, an expired
 * token included), and password checking is the parameter `verify`.
 */
module Auth {
  import opened Wrappers
  import opened Errors

  /** A row of the `users` table. */
  datatype UserRow = UserRow(passwordHash: string, role: string)

  /** The claims read from a decoded token (`payload.get("sub")`, `payload.get("role")`). */
  datatype TokenPayload = TokenPayload(sub: Option<string>, role: Option<string>)

  /** The caller as the protected routes see it. */
  datatype Identity = Identity(username: string, role: Option<string>)

  /** What a successful login returns: the claims signed into the token, its type and the role. */
  datatype LoginOk = LoginOk(claims: TokenPayload, tokenType: string, role: string)

  const AdminRole := "admin"
  const UserRole := "user"
  const TokenType := "bearer"

  /** The claims `create_access_token` signs, apart from the expiry. */
  function IssuedClaims(username: string, role: string): TokenPayload
  {
    TokenPayload(Some(username), Some(role))
  }

  /**
   * `require_user`: the token must decode, carry a non-empty subject, and the
   * subject must still be a user. The role comes from the token, not the table.
   */
  function RequireUser(decoded: Option<TokenPayload>, users: map<string, UserRow>): (r: Result<Identity, Error>)
    ensures r.Success? <==>
      decoded.Some? && decoded.value.sub.Some? && decoded.value.sub.value != "" && decoded.value.sub.value in users
    ensures r.Success? ==> r.value == Identity(decoded.value.sub.value, decoded.value.role)
    ensures r.Failure? ==> Status(r.error) == 401
    ensures decoded.None? ==> r == Failure(TokenRejected)
  {
    match decoded
    case None => Failure(TokenRejected)
    case Some(payload) =>
      if payload.sub.None? || payload.sub.value == "" then Failure(InvalidToken)
      else if payload.sub.value !in users then Failure(UserNotFound)
      else Success(Identity(payload.sub.value, payload.role))
  }

  /** `require_admin`: a failure of `require_user` passes through; otherwise the role must be "admin". */
  function RequireAdmin(user: Result<Identity, Error>): (r: Result<Identity, Error>)
    ensures r.Success? <==> user.Success? && user.value.role == Some(AdminRole)
    ensures r.Success? ==> r == user
    ensures user.Failure? ==> r == user
    ensures user.Success? && r.Failure? ==> r.error == AdminOnly && Status(r.error) == 403
  {
    match user
    case Failure(e) => Failure(e)
    case Success(id) => if id.role != Some(AdminRole) then Failure(AdminOnly) else Success(id)
  }

  /**
   * The dependency of the admin routes: a valid token of an existing user
   * whose token role is "admin". A caller without a valid token gets 401, a
   * valid caller with another role 403.
   */
  function AdminCaller(decoded: Option<TokenPayload>, users: map<string, UserRow>): (r: Result<Identity, Error>)
    ensures r.Success? <==> RequireUser(decoded, users).Success? && decoded.value.role == Some(AdminRole)
    ensures r.Success? ==> r.value == Identity(decoded.value.sub.value, Some(AdminRole))
    ensures r.Failure? ==> (Status(r.error) == 403 <==> RequireUser(decoded, users).Success?)
    ensures r.Failure? ==> Status(r.error) == 401 || Status(r.error) == 403
  {
    RequireAdmin(RequireUser(decoded, users))
  }

  /**
   * `login`: an unknown user and a wrong password fail alike with 401; on
   * success the role returned and signed is the one stored for the user.
   */
  function Login(users: map<string, UserRow>, username: string, password: string,
                 verify: (string, string) -> bool): (r: Result<LoginOk, Error>)
    ensures r.Success? <==> username in users && verify(password, users[username].passwordHash)
    ensures r.Failure? ==> r.error == WrongCredentials && Status(r.error) == 401
    ensures r.Success? ==> r.value.role == users[username].role && r.value.tokenType == TokenType
    ensures r.Success? ==> r.value.claims == IssuedClaims(username, users[username].role)
  {
    if username !in users then Failure(WrongCredentials)
    else if !verify(password, users[username].passwordHash) then Failure(WrongCredentials)
    else Success(LoginOk(IssuedClaims(username, users[username].role), TokenType, users[username].role))
  }

  /** `register_user`'s check: a taken username fails with 400. */
  function CheckRegister(users: map<string, UserRow>, username: string): (r: Result<(), Error>)
    ensures r.Failure? <==> username in users
    ensures r.Failure? ==> r.error == UserExists && Status(r.error) == 400
  {
    if username in users then Failure(UserExists) else Success(())
  }

  /** The user table after a successful registration: one new row, always with role "user". */
  function AddUser(users: map<string, UserRow>, username: string, hashed: string): (u: map<string, UserRow>)
    ensures u.Keys == users.Keys + {username}
    ensures u[username] == UserRow(hashed, UserRole)
    ensures forall n :: n in users && n != username ==> u[n] == users[n]
  {
    users[username := UserRow(hashed, UserRole)]
  }

  /** Registering the same name twice: the first succeeds, the second fails with 400. */
  lemma RegisterTwice(users: map<string, UserRow>, username: string, hashed1: string, hashed2: string)
    requires username !in users
    ensures CheckRegister(users, username).Success?
    ensures CheckRegister(AddUser(users, username, hashed1), username) == Failure(UserExists)
  {
  }

  /** A registered user can log in with the password that was hashed, and gets role "user". */
  lemma RegisterThenLogin(users: map<string, UserRow>, username: string, password: string, hashed: string,
                          verify: (string, string) -> bool)
    requires verify(password, hashed)
    ensures Login(AddUser(users, username, hashed), username, password, verify)
      == Success(LoginOk(IssuedClaims(username, UserRole), TokenType, UserRole))
  {
  }

  /**
   * A token issued at login, once decoded, admits its holder for as long as
   * the user exists, with the role that was stored at login time.
   */
  lemma IssuedTokenAdmits(users: map<string, UserRow>, username: string, password: string,
                          verify: (string, string) -> bool, later: map<string, UserRow>)
    requires Login(users, username, password, verify).Success?
    requires username != "" && username in later
    ensures RequireUser(Some(Login(users, username, password, verify).value.claims), later)
      == Success(Identity(username, Some(users[username].role)))
  {
  }

  /** `require_user` never reads the stored role: tables with the same users give the same answer. */
  lemma RequireUserIgnoresStoredRole(decoded: Option<TokenPayload>, users1: map<string, UserRow>,
                                     users2: map<string, UserRow>)
    requires users1.Keys == users2.Keys
    ensures RequireUser(decoded, users1) == RequireUser(decoded, users2)
  {
  }

  /** A valid token whose role is not "admin" is refused by the admin routes with 403. */
  lemma NonAdminForbidden(decoded: Option<TokenPayload>, users: map<string, UserRow>)
    requires RequireUser(decoded, users).Success?
    requires decoded.value.role != Some(AdminRole)
    ensures AdminCaller(decoded, users) == Failure(AdminOnly)
  {
  }
}
