/** The gateway's JWT middleware: the anonymous-path bypass, the `Bearer`
    scheme of section 2.1 of RFC 6750 (its scheme name compared without
    regard to case, as section 2.1 of RFC 7235 has it), and the status a
    rejected request gets. Signature, issuer and audience checks of the JWT
    library are an oracle; its lifetime check, with zero clock skew, is
    modelled. */
module Gateway {
  import opened Wrappers
  import opened Text
  import opened Claims
  import opened AuthModel

  /** What the JWT library makes of a token before its lifetime check. */
  datatype TokenCheck =
    | Signed(claims: AccessToken)  // signature, issuer and audience accepted
    | Rejected                     // a `SecurityTokenException`
    | Faulted                      // any other exception

  /** The middleware's decision for one request. */
  datatype Admission =
    | PassThrough                                        // anonymous path: next stage, nothing checked
    | Forward(authorization: string, user: Principal)    // next stage with this header and principal
    | Deny(status: int)                                  // the request ends with this status

  const Unauthorized401: int := 401
  const Forbidden403: int := 403
  const ServerError500: int := 500

  const LoginPath: string := "/api/auth/login"
  const RegisterPath: string := "/api/auth/register"

  /** The scheme prefix, its trailing space included. */
  const BearerPrefix: string := "Bearer "

  /** Paths the middleware lets through untouched: the lower-cased path starts
      with the lower-cased login or register path. */
  predicate IsAnonymous(path: string) {
    StartsWith(ToLowerInvariant(path), ToLowerInvariant(LoginPath))
    || StartsWith(ToLowerInvariant(path), ToLowerInvariant(RegisterPath))
  }

  /** `Request.Headers["Authorization"].ToString()`: `StringValues` joins its
      values with commas, skipping the null and empty ones; "" when none is
      left. */
  function HeaderText(values: seq<string>): string {
    if RemoveEmptyEntries(values) == [] then "" else Join(RemoveEmptyEntries(values), ',')
  }

  /** JWT lifetime validation with zero clock skew: expired once `exp` lies
      before the current instant. */
  predicate Expired(t: AccessToken, now: Instant) {
    t.expires < now
  }

  /** The bearer token of a header that carries the scheme: the text after
      the seven-character prefix, trimmed. */
  function BearerToken(header: string): string
    requires |header| >= |BearerPrefix|
  {
    Trim(header[|BearerPrefix|..])
  }

  /** `JwtAuthenticationMiddleware.InvokeAsync` as a decision. */
  function Decide(path: Option<string>, authorization: seq<string>, now: Instant, validate: string -> TokenCheck): (r: Admission)
    ensures r.PassThrough? <==> IsAnonymous(if path.None? then "" else path.value)
    ensures r.Deny? ==> r.status == Unauthorized401 || r.status == Forbidden403 || r.status == ServerError500
    ensures r == Deny(ServerError500) ==>
      (|HeaderText(authorization)| >= |BearerPrefix| && validate(BearerToken(HeaderText(authorization))).Faulted?)
  {
    var p := if path.None? then "" else path.value;
    if IsAnonymous(p) then PassThrough
    else
      var header := HeaderText(authorization);
      if header == "" || !StartsWithIgnoreCase(header, BearerPrefix) then Deny(Unauthorized401)
      else
        var token := BearerToken(header);
        match validate(token)
        case Rejected => Deny(Forbidden403)
        case Faulted => Deny(ServerError500)
        case Signed(claims) =>
          if Expired(claims, now) then Deny(Forbidden403)
          else Forward(BearerPrefix + token, PrincipalOf(claims))
  }

  /** The anonymous paths are exactly those that start with the login or the
      register path in any mix of case. */
  lemma {:induction false} AnonymousIgnoresCase(path: string)
    ensures IsAnonymous(path) <==> StartsWithIgnoreCase(path, LoginPath) || StartsWithIgnoreCase(path, RegisterPath)
  {
    assert ToLowerInvariant(LoginPath) == LoginPath;
    assert ToLowerInvariant(RegisterPath) == RegisterPath;
    LowerStartsWith(path, LoginPath);
    LowerStartsWith(path, RegisterPath);
  }

  /** An anonymous path passes whatever its headers; another path with no
      header, or one whose text does not start with "Bearer " in some case,
      ends with 401. */
  lemma {:induction false} HeaderGate(path: Option<string>, authorization: seq<string>, now: Instant, validate: string -> TokenCheck)
    ensures path.Some? && IsAnonymous(path.value) ==> Decide(path, authorization, now, validate) == PassThrough
    ensures !IsAnonymous(if path.None? then "" else path.value)
        && (authorization == [] || !StartsWithIgnoreCase(HeaderText(authorization), BearerPrefix))
      ==> Decide(path, authorization, now, validate) == Deny(Unauthorized401)
  {
  }

  /** Nothing but an anonymous path reaches the next stage without a token
      the library accepts and whose lifetime has not run out; a forwarded
      request carries that token, re-prefixed, and the principal of its claims. */
  lemma {:induction false} NoForwardWithoutValidToken(path: Option<string>, authorization: seq<string>, now: Instant, validate: string -> TokenCheck)
    ensures Decide(path, authorization, now, validate).Forward? ==>
      var header := HeaderText(authorization);
      |header| >= |BearerPrefix| && StartsWithIgnoreCase(header, BearerPrefix)
      && validate(BearerToken(header)).Signed? && !Expired(validate(BearerToken(header)).claims, now)
      && Decide(path, authorization, now, validate)
        == Forward(BearerPrefix + BearerToken(header), PrincipalOf(validate(BearerToken(header)).claims))
    ensures Decide(path, authorization, now, validate).PassThrough? ==> IsAnonymous(if path.None? then "" else path.value)
  {
  }

  /** A header written as "Bearer " and a trimmed token carries the scheme
      and gives that token back. */
  lemma {:induction false} BearerHeaderOf(token: string)
    requires Trim(token) == token
    ensures HeaderText([BearerPrefix + token]) == BearerPrefix + token
    ensures StartsWithIgnoreCase(BearerPrefix + token, BearerPrefix)
    ensures BearerToken(BearerPrefix + token) == token
  {
    var a := BearerPrefix + token;
    RemoveEmptyEntriesOfNonEmpty([a]);
    assert a[..|BearerPrefix|] == BearerPrefix;
    StartsWithIgnoringCase(a, BearerPrefix);
    assert a[|BearerPrefix|..] == token;
  }

  /** Off the anonymous paths, a header written as "Bearer " and a trimmed
      token that the library accepts and whose lifetime has not run out is
      forwarded with that header and the principal of its claims. */
  lemma {:induction false} ValidBearerForwarded(path: Option<string>, token: string, now: Instant, validate: string -> TokenCheck)
    requires !IsAnonymous(if path.None? then "" else path.value)
    requires Trim(token) == token
    requires validate(token).Signed? && !Expired(validate(token).claims, now)
    ensures Decide(path, [BearerPrefix + token], now, validate)
      == Forward(BearerPrefix + token, PrincipalOf(validate(token).claims))
  {
    BearerHeaderOf(token);
  }

  /** An empty `Authorization` value anywhere among the others changes
      nothing the middleware reads. */
  lemma {:induction false} EmptyHeaderValueSkipped(before: seq<string>, after: seq<string>)
    ensures HeaderText(before + [""] + after) == HeaderText(before + after)
  {
    RemoveEmptyEntriesAppend(before + [""], after);
    RemoveEmptyEntriesAppend(before, [""]);
    RemoveEmptyEntriesAppend(before, after);
    assert RemoveEmptyEntries([""]) == [];
    assert RemoveEmptyEntries(before) + [] == RemoveEmptyEntries(before);
  }

  /** So an empty value before a "Bearer " header does not stop a valid token
      from being forwarded. */
  lemma {:induction false} EmptyValueBeforeBearerForwarded(path: Option<string>, token: string, now: Instant, validate: string -> TokenCheck)
    requires !IsAnonymous(if path.None? then "" else path.value)
    requires Trim(token) == token
    requires validate(token).Signed? && !Expired(validate(token).claims, now)
    ensures Decide(path, ["", BearerPrefix + token], now, validate)
      == Forward(BearerPrefix + token, PrincipalOf(validate(token).claims))
  {
    EmptyHeaderValueSkipped([], [BearerPrefix + token]);
    assert [] + [""] + [BearerPrefix + token] == ["", BearerPrefix + token];
    assert [] + [BearerPrefix + token] == [BearerPrefix + token];
    ValidBearerForwarded(path, token, now, validate);
  }

  /** The header the middleware forwards is the one it would forward again:
      it starts with "Bearer " and the token after it is already trimmed. */
  lemma {:induction false} ForwardedHeaderIsStable(path: Option<string>, authorization: seq<string>, now: Instant, validate: string -> TokenCheck)
    requires Decide(path, authorization, now, validate).Forward?
    ensures Decide(path, [Decide(path, authorization, now, validate).authorization], now, validate)
      == Decide(path, authorization, now, validate)
  {
    var d := Decide(path, authorization, now, validate);
    var header := HeaderText(authorization);
    NoForwardWithoutValidToken(path, authorization, now, validate);
    var token := BearerToken(header);
    assert d == Forward(BearerPrefix + token, PrincipalOf(validate(token).claims));
    TrimIdempotent(header[|BearerPrefix|..]);
    ValidBearerForwarded(path, token, now, validate);
  }

  /** An access token the authentication service issued is forwarded, as a
      principal naming its user, for exactly one hour after issue; after
      that the gateway answers 403. */
  lemma {:induction false} IssuedTokenAdmittedForAnHour(
    path: Option<string>, token: string, id: int, u: User, issued: Instant, now: Instant, validate: string -> TokenCheck)
    requires IsInt32(id)
    requires !IsAnonymous(if path.None? then "" else path.value)
    requires Trim(token) == token
    requires validate(token) == Signed(AccessTokenFor(id, u, issued))
    ensures now <= issued + AccessTokenLifetime ==>
      Decide(path, [BearerPrefix + token], now, validate).Forward?
      && ClaimedId(Decide(path, [BearerPrefix + token], now, validate).user) == Some(id)
    ensures now > issued + AccessTokenLifetime ==> Decide(path, [BearerPrefix + token], now, validate) == Deny(Forbidden403)
  {
    BearerHeaderOf(token);
    AccessTokenNamesUser(id, u, issued);
  }

  /** The request state the middleware reads and writes. */
  class RequestContext {
    var path: Option<string>
    var authorization: seq<string>
    /** `HttpContext.User` as far as the backends read it; none is the anonymous principal. */
    var user: Option<Principal>
    var statusCode: int
    /** How many times the next stage of the pipeline has been invoked. */
    var nextCalls: nat

    constructor (path: Option<string>, authorization: seq<string>)
      ensures this.path == path && this.authorization == authorization
      ensures user.None? && statusCode == 200 && nextCalls == 0
    {
      this.path := path;
      this.authorization := authorization;
      user := None;
      statusCode := 200;
      nextCalls := 0;
    }

    /** `InvokeAsync`: following the decision, either the next stage runs
        once (after the principal and the header are set, when a token was
        checked) or the status is set and nothing else happens. */
    method Invoke(now: Instant, validate: string -> TokenCheck)
      modifies this
      ensures path == old(path)
      ensures match Decide(old(path), old(authorization), now, validate)
        case PassThrough =>
          nextCalls == old(nextCalls) + 1 && user == old(user)
          && authorization == old(authorization) && statusCode == old(statusCode)
        case Forward(a, p) =>
          nextCalls == old(nextCalls) + 1 && user == Some(p)
          && authorization == [a] && statusCode == old(statusCode)
        case Deny(s) =>
          nextCalls == old(nextCalls) && user == old(user)
          && authorization == old(authorization) && statusCode == s
    {
      var decision := Decide(path, authorization, now, validate);
      match decision {
        case PassThrough =>
          nextCalls := nextCalls + 1;
        case Forward(a, p) =>
          user := Some(p);
          authorization := [a];
          nextCalls := nextCalls + 1;
        case Deny(s) =>
          statusCode := s;
      }
    }
  }
}
