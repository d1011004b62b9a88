/** The FluentValidation validators of the authentication service, and the
    one of the storage service's download request. */
module AuthValidators {
  import opened Wrappers
  import opened Text
  import opened Rules
  import opened Claims
  import opened AuthModel

  /** The password rules of `RegisterCommandValidator`: present, at least
      eight characters (no upper bound), an A-Z letter, a digit and one of
      `!@#$%^&*`. */
  predicate RegisterPasswordValid(p: Option<string>) {
    NotEmpty(p) && MinimumLength(p, 8) && HasUpper(p) && HasDigit(p) && HasSpecial(p)
  }

  /** `RegisterCommandValidator`. */
  predicate RegisterCommandValid(c: RegisterCommand) {
    NotEmpty(c.name) && MaximumLength(c.name, 50)
    && NotEmpty(c.email) && IsEmailAddress(c.email)
    && RegisterPasswordValid(c.password)
  }

  /** `LoginQueryValidator`: e-mail present and well formed, password present. */
  predicate LoginQueryValid(q: LoginQuery) {
    NotEmpty(q.email) && IsEmailAddress(q.email) && NotEmpty(q.password)
  }

  /** `RefreshTokenCommandValidator`. */
  predicate RefreshTokenCommandValid(c: RefreshTokenCommand) {
    NotEmpty(c.refreshToken)
  }

  /** `UserInfoValidator`; its role rule is commented out, so the role is not checked. */
  predicate UserInfoValid(u: UserInfo) {
    NotEmpty(u.id)
    && NotEmpty(u.name) && MaximumLength(u.name, 50)
    && NotEmpty(u.email) && IsEmailAddress(u.email)
  }

  /** `AuthResultValidator`: both tokens present and a valid `User`. */
  predicate AuthResultValid(r: AuthResult) {
    r.token.Some? && NotEmpty(r.refreshToken) && r.user.Some? && UserInfoValid(r.user.value)
  }

  /** `UserDTOValidator`. */
  predicate UserDtoValid(d: UserDto) {
    d.id > 0 && NotEmpty(d.name) && MaximumLength(d.name, 50) && NotEmpty(d.email) && IsEmailAddress(d.email)
  }

  /** `DownloadFileRequestValidator`: `NotEmpty` and not null or white space. */
  predicate DownloadFileRequestValid(filePath: Option<string>) {
    NotEmpty(filePath) && !IsNullOrWhiteSpace(filePath)
  }

  /** The result login and refresh build leaves `User` unset, so
      `AuthResultValidator` would reject every one of them. */
  lemma IssuedResultFailsAuthResultValidator(id: int, u: User, newToken: string, now: Instant)
    ensures !AuthResultValid(IssuedResult(id, u, newToken, now))
  {
  }

  /** Whatever registration accepts and stores, the DTO it returns passes
      `UserDTOValidator`: the name, e-mail and positive id rules agree. */
  lemma {:induction false} RegisteredDtoValid(c: RegisterCommand, id: int)
    requires RegisterCommandValid(c) && id > 0
    ensures UserDtoValid(UserDto(id, c.name, c.email))
  {
  }

  /** Login asks for no password strength: a one-character password passes
      login validation but not registration. */
  lemma LoginPasswordUnconstrained()
    ensures LoginQueryValid(LoginQuery(Some("a@b"), Some("x")))
    ensures !RegisterPasswordValid(Some("x"))
  {
    assert !IsWhiteSpace("x"[0]) && !IsWhiteSpace("a@b"[0]);
    assert IndexOf("a@b", '@') == Some(1) by {
      assert "a@b"[1] == '@' && "a@b"[0] != '@';
      assert "a@b"[1..] == "@b";
    }
    assert LastIndexOf("a@b", '@') == Some(1) by {
      assert "a@b"[..2] == "a@";
    }
  }

  /** A refresh token passes exactly when it holds a character that is not
      white space; null, "" and blanks fail. */
  lemma RefreshTokenValidMeans(c: RefreshTokenCommand)
    ensures RefreshTokenCommandValid(c) <==>
      c.refreshToken.Some? && exists i :: 0 <= i < |c.refreshToken.value| && !IsWhiteSpace(c.refreshToken.value[i])
  {
    NotEmptyMeans(c.refreshToken);
  }

  /** The download rule's second check adds nothing to its first: a path
      passes exactly when it holds a character that is not white space. */
  lemma DownloadFilePathMeans(filePath: Option<string>)
    ensures DownloadFileRequestValid(filePath) <==>
      filePath.Some? && exists i :: 0 <= i < |filePath.value| && !IsWhiteSpace(filePath.value[i])
  {
    NotEmptyMeans(filePath);
  }
}
