/** The caller's identity as the services see it, and the claims an access
    token carries. The backends never see an HttpContext here: the handlers
    receive the context as an explicit value, `None` when there is none. */
module Claims {
  import opened Wrappers
  import opened Text

  /** The parts of `HttpContext.User` the handlers consult: whether it is
      authenticated, the first `NameIdentifier` claim and the first `Role` claim. */
  datatype Principal = Principal(authenticated: bool, nameIdentifier: Option<string>, role: Option<string>)

  /** `IHttpContextAccessor.HttpContext`, which may be null. */
  type HttpContext = Option<Principal>

  /** Seconds on an integer clock; 0 is `default(DateTime)`. */
  type Instant = int

  const Hour: int := 3600
  const Day: int := 24 * Hour

  /** What the authentication service puts in a JWT (its signing and
      serialisation are not modelled): the user's id as text, email, role and
      the expiry instant. */
  datatype AccessToken = AccessToken(nameIdentifier: string, email: string, role: string, expires: Instant)

  /** The principal `ValidateToken` builds from a token's claims: an
      authenticated identity, `nameid` read as NameIdentifier and `role` as
      Role. */
  function PrincipalOf(t: AccessToken): Principal {
    Principal(true, Some(t.nameIdentifier), Some(t.role))
  }

  /** The user id a principal names, read with `int.Parse` (failure is none). */
  function ClaimedId(p: Principal): Option<int> {
    if p.nameIdentifier.None? then None else ParseInt32(p.nameIdentifier.value)
  }

  /** A token issued for user `id` names that user again when its claim is parsed. */
  lemma {:induction false} IssuedClaimNamesUser(id: int, email: string, role: string, expires: Instant)
    requires IsInt32(id)
    ensures ClaimedId(PrincipalOf(AccessToken(IntToString(id), email, role, expires))) == Some(id)
  {
    ParseIntToString(id);
  }
}
