/** The two bearer-token middlewares. Both parse `Authorization: Bearer
    <token>` the same way and collapse every verification failure into one
    answer; they differ only in which slot of the decoded payload they
    attach to the request (`req.user` or `req.employee`). */
module Middleware {
  import opened Common
  import opened Tokens

  /** Outcome of a middleware: call the next handler with what it attached,
      or answer the request directly. */
  datatype Gate<+C> = Next(claim: C) | Deny(status: int, message: string)

  const BEARER_PREFIX: string := "Bearer "
  const TOKEN_REQUIRED: string := "Authorization token is required."
  const INVALID_TOKEN: string := "Invalid or expired token."

  /** The token of a well-formed header: `authHeader.split(' ')[1]`, present
      only when the header exists and starts with `"Bearer "`. */
  function BearerToken(header: Option<string>): (token: Option<string>)
    ensures token.Some? <==> header.Some? && StartsWith(header.value, BEARER_PREFIX)
    ensures token.Some? ==> token.value == TakeUntil(header.value[|BEARER_PREFIX|..], ' ')
  {
    if header.None? || !StartsWith(header.value, BEARER_PREFIX) then None
    else
      var h := header.value;
      SecondSegment(h);
      Some(Split(h, ' ')[1])
  }

  /** After the `"Bearer "` prefix, the second space-separated segment is
      the text up to the next space. */
  lemma SecondSegment(h: string)
    requires StartsWith(h, BEARER_PREFIX)
    ensures |Split(h, ' ')| >= 2
    ensures Split(h, ' ')[1] == TakeUntil(h[7..], ' ')
  {
    assert h == "Bearer" + h[6..];
    PrefixWithoutSep("Bearer", h[6..], ' ');
    SplitHead(h, ' ');
    SplitHead(h[7..], ' ');
    assert h[6 + 1..] == h[7..];
  }

  /** A header built from a token without spaces yields that token back. */
  lemma BearerRoundTrip(token: string)
    requires ' ' !in token
    ensures BearerToken(Some(BEARER_PREFIX + token)) == Some(token)
  {
    var h := BEARER_PREFIX + token;
    assert h[..7] == BEARER_PREFIX;
    assert h[7..] == token;
    PrefixWithoutSep(token, [], ' ');
    assert token + [] == token;
  }

  /** `authMiddleware`: on success exactly `decoded.user` is attached (it
      is absent when the token is an employee token). */
  function AuthenticateCitizen(header: Option<string>, verify: Verifier): (g: Gate<Option<UserClaim>>)
    ensures g.Deny? ==> g.status == 401
    ensures BearerToken(header).None? ==> g == Deny(401, TOKEN_REQUIRED)
    ensures BearerToken(header).Some? && verify(BearerToken(header).value).None? ==>
      g == Deny(401, INVALID_TOKEN)
    ensures g.Next? <==> BearerToken(header).Some? && verify(BearerToken(header).value).Some?
    ensures g.Next? ==> g.claim == verify(BearerToken(header).value).value.user
  {
    match BearerToken(header)
    case None => Deny(UNAUTHORIZED, TOKEN_REQUIRED)
    case Some(token) =>
      match verify(token)
      case None => Deny(UNAUTHORIZED, INVALID_TOKEN)
      case Some(decoded) => Next(decoded.user)
  }

  /** `adminAuthMiddleware`: identical checks; on success exactly
      `decoded.employee` is attached, and the citizen slot is not read. */
  function AuthenticateEmployee(header: Option<string>, verify: Verifier): (g: Gate<Option<EmployeeClaim>>)
    ensures g.Deny? ==> g.status == 401
    ensures BearerToken(header).None? ==> g == Deny(401, TOKEN_REQUIRED)
    ensures BearerToken(header).Some? && verify(BearerToken(header).value).None? ==>
      g == Deny(401, INVALID_TOKEN)
    ensures g.Next? <==> BearerToken(header).Some? && verify(BearerToken(header).value).Some?
    ensures g.Next? ==> g.claim == verify(BearerToken(header).value).value.employee
  {
    match BearerToken(header)
    case None => Deny(UNAUTHORIZED, TOKEN_REQUIRED)
    case Some(token) =>
      match verify(token)
      case None => Deny(UNAUTHORIZED, INVALID_TOKEN)
      case Some(decoded) => Next(decoded.employee)
  }

  /** Both middlewares accept and reject the same headers; only the
      attached slot differs. */
  lemma SameAcceptance(header: Option<string>, verify: Verifier)
    ensures AuthenticateCitizen(header, verify).Next? <==> AuthenticateEmployee(header, verify).Next?
    ensures AuthenticateCitizen(header, verify).Deny? ==>
      AuthenticateCitizen(header, verify).message == AuthenticateEmployee(header, verify).message
  {
  }
}

/** `isSuperAdmin`: the role gate behind the employee middleware. */
module Permissions {
  import opened Common
  import opened Tokens
  import opened Middleware
  import opened Employees

  const SUPER_ADMIN_REQUIRED: string := "Access denied. Super Admin privileges required."

  /** Proceeds exactly when an employee claim is attached and its role is
      the exact string `"Super Admin"`, passing the claim on untouched;
      anything else is answered with 403. */
  function IsSuperAdmin(employee: Option<EmployeeClaim>): (g: Gate<EmployeeClaim>)
    ensures g.Next? <==> employee.Some? && employee.value.role == "Super Admin"
    ensures g.Next? ==> g.claim == employee.value
    ensures g.Deny? ==> g == Deny(403, SUPER_ADMIN_REQUIRED)
  {
    if employee.Some? && employee.value.role == SUPER_ADMIN then Next(employee.value)
    else Deny(FORBIDDEN, SUPER_ADMIN_REQUIRED)
  }
}
