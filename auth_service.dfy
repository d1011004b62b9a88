/** The authentication service's handlers over its `Users` table: login,
    refresh, logout and registration. Time, the generated refresh token, the
    password check and the hash are given to each handler. */
module AuthService {
  import opened Wrappers
  import opened Text
  import opened Claims
  import opened AuthModel

  /** How a handler fails: the exception it throws, by kind. */
  datatype AuthError =
    | InvalidCredentials    // "Invalid credentials": unknown email or wrong password
    | NullPassword          // BCrypt is given a null password
    | InvalidRefreshToken   // no live row holds the presented refresh token
    | NoHttpContext         // InvalidOperationException: no HttpContext
    | Unauthorized          // UnauthorizedAccessException: no user id claim
    | MalformedUserClaim    // the user id claim is not an Int32
    | UserNotFound          // "User not found"
    | UserExists            // "User already exist"
    | SaveFailed            // SaveChanges rejects a null name or email

  /** The `Users` table. */
  class UserTable {
    var users: map<int, User>

    /** Ids are those of the identity column; e-mail addresses are unique, so
        the e-mail lookup of login finds at most one row; stored refresh tokens
        are unique, so the refresh lookup does too; and a row has a refresh
        token exactly when it has an expiry. */
    ghost predicate Valid()
      reads this
    {
      (forall id :: id in users ==> 1 <= id <= Int32Max)
      && (forall a, b :: a in users && b in users && a != b ==> users[a].email != users[b].email)
      && (forall a, b :: a in users && b in users && a != b && users[a].refreshToken.Some?
            ==> users[a].refreshToken != users[b].refreshToken)
      && (forall id :: id in users ==> (users[id].refreshToken.None? <==> users[id].refreshTokenExpiry.None?))
    }

    /** No row holds the token: what `Guid.NewGuid()` is trusted to give. */
    predicate Unused(token: string)
      reads this
    {
      forall id :: id in users ==> users[id].refreshToken != Some(token)
    }

    constructor ()
      ensures Valid() && users == map[]
    {
      users := map[];
    }

    /** `LoginQueryHandler`: the row with the e-mail, if the password verifies
        against its hash, gets a new refresh token valid for seven days, and
        an access token valid for an hour is returned with it. */
    method Login(q: LoginQuery, now: Instant, newToken: string, verify: (string, string) -> bool) returns (r: Result<AuthResult, AuthError>)
      requires Valid() && Unused(newToken)
      modifies this
      ensures Valid()
      ensures r.Failure? ==> users == old(users)
      ensures (forall id :: id in old(users) ==> Some(old(users)[id].email) != q.email) ==> r == Failure(InvalidCredentials)
      ensures forall id :: id in old(users) && Some(old(users)[id].email) == q.email ==>
        (if q.password.None? then r == Failure(NullPassword)
         else if !verify(q.password.value, old(users)[id].passwordHash) then r == Failure(InvalidCredentials)
         else (users == old(users)[id := WithRefreshToken(old(users)[id], newToken, now)]
           && r == Success(IssuedResult(id, old(users)[id], newToken, now))))
    {
      if !exists id :: id in users && Some(users[id].email) == q.email {
        return Failure(InvalidCredentials);
      }
      var id :| id in users && Some(users[id].email) == q.email;
      if q.password.None? {
        return Failure(NullPassword);
      }
      var u := users[id];
      if !verify(q.password.value, u.passwordHash) {
        return Failure(InvalidCredentials);
      }
      users := users[id := WithRefreshToken(u, newToken, now)];
      r := Success(IssuedResult(id, u, newToken, now));
    }

    /** `RefreshTokenCommandHandler`: the row holding the presented token,
        while it is live, gets a new refresh token, and a new access token is
        returned with it. The presented token then matches no row. */
    method Refresh(cmd: RefreshTokenCommand, now: Instant, newToken: string) returns (r: Result<AuthResult, AuthError>)
      requires Valid() && Unused(newToken)
      modifies this
      ensures Valid()
      ensures r.Failure? ==> users == old(users) && r.error == InvalidRefreshToken
      ensures r.Success? <==> exists id :: id in old(users) && HoldsLiveToken(old(users)[id], cmd.refreshToken, now)
      ensures forall id :: id in old(users) && HoldsLiveToken(old(users)[id], cmd.refreshToken, now) ==>
        users == old(users)[id := WithRefreshToken(old(users)[id], newToken, now)]
        && r == Success(IssuedResult(id, old(users)[id], newToken, now))
      ensures r.Success? ==> forall id :: id in users ==> !HoldsLiveToken(users[id], cmd.refreshToken, now)
    {
      if !exists id :: id in users && HoldsLiveToken(users[id], cmd.refreshToken, now) {
        return Failure(InvalidRefreshToken);
      }
      var id :| id in users && HoldsLiveToken(users[id], cmd.refreshToken, now);
      var u := users[id];
      users := users[id := WithRefreshToken(u, newToken, now)];
      r := Success(IssuedResult(id, u, newToken, now));
    }

    /** `LogoutCommandHandler`: the caller's row loses its refresh token and
        expiry. Authentication is not checked, only the id claim. */
    method Logout(ctx: HttpContext) returns (r: Outcome<AuthError>)
      requires Valid()
      modifies this
      ensures Valid()
      ensures r.Fail? ==> users == old(users)
      ensures ctx.None? ==> r == Fail(NoHttpContext)
      ensures ctx.Some? && ctx.value.nameIdentifier.None? ==> r == Fail(Unauthorized)
      ensures ctx.Some? && ctx.value.nameIdentifier.Some? && ClaimedId(ctx.value).None? ==> r == Fail(MalformedUserClaim)
      ensures ctx.Some? && ClaimedId(ctx.value).Some? ==>
        var id := ClaimedId(ctx.value).value;
        if id !in old(users) then r == Fail(UserNotFound)
        else r == Pass && users == old(users)[id := WithoutRefreshToken(old(users)[id])]
    {
      if ctx.None? {
        return Fail(NoHttpContext);
      }
      if ctx.value.nameIdentifier.None? {
        return Fail(Unauthorized);
      }
      var claimed := ClaimedId(ctx.value);
      if claimed.None? {
        return Fail(MalformedUserClaim);
      }
      var id := claimed.value;
      if id !in users {
        return Fail(UserNotFound);
      }
      users := users[id := WithoutRefreshToken(users[id])];
      r := Pass;
    }

    /** `RegisterCommandHandler`, both copies: a new row with the name, the
        e-mail, the hash of the password and role "User", unless the e-mail is
        taken; the new row's id, name and e-mail are returned. */
    method Register(cmd: RegisterCommand, hash: string -> string, newId: int) returns (r: Result<UserDto, AuthError>)
      requires Valid()
      requires 1 <= newId <= Int32Max && newId !in users
      modifies this
      ensures Valid()
      ensures r.Failure? ==> users == old(users)
      ensures (exists id :: id in old(users) && Some(old(users)[id].email) == cmd.email) ==> r == Failure(UserExists)
      ensures (forall id :: id in old(users) ==> Some(old(users)[id].email) != cmd.email) ==>
        (if cmd.password.None? then r == Failure(NullPassword)
         else if cmd.name.None? || cmd.email.None? then r == Failure(SaveFailed)
         else (users == old(users)[newId := NewUser(cmd.name.value, cmd.email.value, hash(cmd.password.value))]
           && r == Success(UserDto(newId, cmd.name, cmd.email))))
    {
      if exists id :: id in users && Some(users[id].email) == cmd.email {
        return Failure(UserExists);
      }
      if cmd.password.None? {
        return Failure(NullPassword);
      }
      if cmd.name.None? || cmd.email.None? {
        return Failure(SaveFailed);
      }
      users := users[newId := NewUser(cmd.name.value, cmd.email.value, hash(cmd.password.value))];
      r := Success(UserDto(newId, cmd.name, cmd.email));
    }
  }
}
