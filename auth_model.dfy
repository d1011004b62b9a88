/** The authentication service's data: users with their refresh-token
    columns, the requests it accepts, what it returns, and the pure steps
    of the refresh-token lifecycle (issue, rotate, clear). */
module AuthModel {
  import opened Wrappers
  import opened Text
  import opened Claims

  /** A row of the `Users` table. The password is kept only as a hash. */
  datatype User = User(
    name: string,
    email: string,
    passwordHash: string,
    role: string,
    refreshToken: Option<string>,
    refreshTokenExpiry: Option<Instant>)

  datatype LoginQuery = LoginQuery(email: Option<string>, password: Option<string>)

  datatype RegisterCommand = RegisterCommand(name: Option<string>, email: Option<string>, password: Option<string>)

  datatype RefreshTokenCommand = RefreshTokenCommand(refreshToken: Option<string>)

  /** `UserInfo`: the user part of an `AuthResult`, its id as text. */
  datatype UserInfo = UserInfo(id: Option<string>, name: Option<string>, email: Option<string>)

  /** `AuthResult`. The access token is shown by the claims it carries; its
      written (signed, serialised) form is never empty. */
  datatype AuthResult = AuthResult(token: Option<AccessToken>, refreshToken: Option<string>, user: Option<UserInfo>)

  datatype UserDto = UserDto(id: int, name: Option<string>, email: Option<string>)

  /** The role every registration assigns. */
  const DefaultRole: string := "User"

  /** How long an access token lives, and how long a refresh token does. */
  const AccessTokenLifetime: int := Hour
  const RefreshTokenLifetime: int := 7 * Day

  /** The claims both the login and the refresh handler put in an access
      token for user `id`, issued at `now`. */
  function AccessTokenFor(id: int, u: User, now: Instant): (t: AccessToken)
    ensures t.email == u.email && t.role == u.role && t.expires == now + AccessTokenLifetime
  {
    AccessToken(IntToString(id), u.email, u.role, now + AccessTokenLifetime)
  }

  /** The access token names the user it was issued for. */
  lemma AccessTokenNamesUser(id: int, u: User, now: Instant)
    requires IsInt32(id)
    ensures ClaimedId(PrincipalOf(AccessTokenFor(id, u, now))) == Some(id)
  {
    IssuedClaimNamesUser(id, u.email, u.role, now + AccessTokenLifetime);
  }

  /** What login and refresh write to the user's row: a new refresh token
      valid for seven days; every other column is kept. */
  function WithRefreshToken(u: User, newToken: string, now: Instant): (v: User)
    ensures v.refreshToken == Some(newToken) && v.refreshTokenExpiry == Some(now + RefreshTokenLifetime)
    ensures v.(refreshToken := u.refreshToken, refreshTokenExpiry := u.refreshTokenExpiry) == u
  {
    u.(refreshToken := Some(newToken), refreshTokenExpiry := Some(now + RefreshTokenLifetime))
  }

  /** What logout writes to the user's row: no refresh token and no expiry;
      every other column is kept. */
  function WithoutRefreshToken(u: User): (v: User)
    ensures v.refreshToken.None? && v.refreshTokenExpiry.None?
    ensures v.(refreshToken := u.refreshToken, refreshTokenExpiry := u.refreshTokenExpiry) == u
  {
    u.(refreshToken := None, refreshTokenExpiry := None)
  }

  /** The result login and refresh return: the access token and the new
      refresh token. `User` is left unset. */
  function IssuedResult(id: int, u: User, newToken: string, now: Instant): AuthResult {
    AuthResult(Some(AccessTokenFor(id, u, now)), Some(newToken), None)
  }

  /** The refresh handler's match: the stored token equals the presented one
      (a null compares equal to null) and the expiry lies strictly after `now`. */
  predicate HoldsLiveToken(u: User, token: Option<string>, now: Instant) {
    u.refreshToken == token && u.refreshTokenExpiry.Some? && u.refreshTokenExpiry.value > now
  }

  /** A freshly issued refresh token is live until its seventh day is over. */
  lemma {:induction false} IssuedTokenIsLive(u: User, newToken: string, issued: Instant, now: Instant)
    ensures HoldsLiveToken(WithRefreshToken(u, newToken, issued), Some(newToken), now) <==> now < issued + RefreshTokenLifetime
  {
  }

  /** After logout the row matches no refresh request, whatever the token
      presented and whatever the time; clearing twice is clearing once. */
  lemma {:induction false} LoggedOutHoldsNoToken(u: User, token: Option<string>, now: Instant)
    ensures !HoldsLiveToken(WithoutRefreshToken(u), token, now)
    ensures WithoutRefreshToken(WithoutRefreshToken(u)) == WithoutRefreshToken(u)
  {
  }

  /** Rotation: once a row holds a newToken token, the token presented before no
      longer matches it. */
  lemma {:induction false} RotatedTokenRetires(u: User, presented: Option<string>, newToken: string, now: Instant, later: Instant)
    requires presented != Some(newToken)
    ensures !HoldsLiveToken(WithRefreshToken(u, newToken, now), presented, later)
  {
  }

  /** The user registration creates: the hash of the password, role "User",
      no refresh token. */
  function NewUser(name: string, email: string, hash: string): User {
    User(name, email, hash, DefaultRole, None, None)
  }
}
