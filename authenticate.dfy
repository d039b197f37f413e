/**
 * The authentication gate in front of every `/tasks` route: reads the
 * `Authorization` header, verifies the token it carries and either rejects
 * the request (401 or 403) or passes it on with the decoded claims attached.
 * Token verification itself (signature, expiry, secret) is jsonwebtoken's and
 * is a parameter here.
 */
module AuthGate {
  import opened Wrappers
  import opened Text

  /** A decoded token payload; `userId` is the only claim the backend reads. */
  datatype Claims = Claims(userId: Option<string>)

  /** Verification with the server secret: the payload of a valid token, or nothing. */
  type Verifier = string -> Option<Claims>

  /** Why a present header was refused; it is logged and never sent to the client. */
  datatype Cause = NoTokenInHeader | VerificationFailed | NoUserIdClaim

  /** The gate's decision: reject for a missing header, reject an invalid token, or accept the claims. */
  datatype Decision = TokenRequired | InvalidToken(cause: Cause) | Accept(user: Claims)

  /** The status and `error` body of a rejection. */
  datatype Rejection = Rejection(status: nat, error: string)

  const TokenRequiredError := "Access denied. Token is required."
  const InvalidTokenError := "Invalid token."

  /** `header.split(" ")[1]`: the second space-separated piece of the header, if there is one. */
  function TokenOf(header: string): (t: Option<string>)
    ensures t.Some? ==> ' ' !in t.value && ' ' in header
  {
    var parts := Split(header, ' ');
    SplitPiecesAvoidSep(header, ' ');
    SplitManyIffSep(header, ' ');
    if |parts| >= 2 then Some(parts[1]) else None
  }

  /**
   * `authenticate`. The scheme word before the first space is not looked at;
   * a header without a space has no token, which verification refuses.
   */
  function Authenticate(header: Option<string>, verify: Verifier): (d: Decision)
    ensures d.Accept? ==> Truthy(header) && Truthy(d.user.userId)
  {
    if !Truthy(header) then TokenRequired
    else match TokenOf(header.value)
      case None => InvalidToken(NoTokenInHeader)
      case Some(token) =>
        match verify(token)
        case None => InvalidToken(VerificationFailed)
        case Some(claims) =>
          if !Truthy(claims.userId) then InvalidToken(NoUserIdClaim) else Accept(claims)
  }

  /** What the client receives: a rejection, or `None` when the next handler runs. */
  function ClientRejection(d: Decision): (r: Option<Rejection>)
    ensures r.None? <==> d.Accept?
    ensures r.Some? ==> (r.value.status == 401 <==> d.TokenRequired?) && (r.value.status == 403 <==> d.InvalidToken?)
    ensures r.Some? ==> r.value.error == if d.TokenRequired? then TokenRequiredError else InvalidTokenError
  {
    match d
    case TokenRequired => Some(Rejection(401, TokenRequiredError))
    case InvalidToken(_) => Some(Rejection(403, InvalidTokenError))
    case Accept(_) => None
  }

  /** The token is whatever follows the first space, up to the next one. */
  lemma TokenAfterFirstSpace(scheme: string, rest: string)
    requires ' ' !in scheme
    ensures TokenOf(scheme + " " + rest) == Some(Split(rest, ' ')[0])
  {
    SplitWord(scheme, ' ');
    SplitAround(scheme, rest, ' ');
  }

  /** There is a token exactly when the header has a space. */
  lemma TokenIffSpace(header: string)
    ensures TokenOf(header).Some? <==> ' ' in header
  {
    SplitManyIffSep(header, ' ');
  }

  /** An absent or empty header is refused with 401, whatever the verifier. */
  lemma MissingHeaderRejected(header: Option<string>, verify: Verifier)
    requires !Truthy(header)
    ensures ClientRejection(Authenticate(header, verify)) == Some(Rejection(401, TokenRequiredError))
  {
  }

  /** A non-empty header without a space is refused with 403: it carries no token. */
  lemma HeaderWithoutSpaceRejected(header: string, verify: Verifier)
    requires header != "" && ' ' !in header
    ensures Authenticate(Some(header), verify) == InvalidToken(NoTokenInHeader)
    ensures ClientRejection(Authenticate(Some(header), verify)) == Some(Rejection(403, InvalidTokenError))
  {
    TokenIffSpace(header);
  }

  /**
   * For a header `scheme token` with no further space, the gate accepts exactly
   * when `token` verifies to claims with a truthy `userId`, and then attaches
   * those claims unchanged; otherwise it answers 403.
   */
  lemma SchemeTokenHeader(scheme: string, token: string, verify: Verifier)
    requires ' ' !in scheme && ' ' !in token
    ensures var d := Authenticate(Some(scheme + " " + token), verify);
      && (d.Accept? <==> verify(token).Some? && Truthy(verify(token).value.userId))
      && (d.Accept? ==> d.user == verify(token).value)
      && (!d.Accept? ==> ClientRejection(d) == Some(Rejection(403, InvalidTokenError)))
  {
    TokenAfterFirstSpace(scheme, token);
    SplitWord(token, ' ');
  }

  /** Any scheme word is accepted: only what follows the first space matters. */
  lemma SchemeIgnored(scheme1: string, scheme2: string, rest: string, verify: Verifier)
    requires ' ' !in scheme1 && ' ' !in scheme2
    ensures Authenticate(Some(scheme1 + " " + rest), verify) == Authenticate(Some(scheme2 + " " + rest), verify)
  {
    TokenAfterFirstSpace(scheme1, rest);
    TokenAfterFirstSpace(scheme2, rest);
  }

  /**
   * The gate accepts exactly when the header is present, the token in it
   * verifies, and the claims carry a truthy `userId`; the claims it attaches
   * are the verified ones.
   */
  lemma AcceptExactly(header: Option<string>, verify: Verifier, claims: Claims)
    ensures Authenticate(header, verify) == Accept(claims) <==>
      && Truthy(header)
      && TokenOf(header.value).Some?
      && verify(TokenOf(header.value).value) == Some(claims)
      && Truthy(claims.userId)
  {
  }

  /**
   * The client cannot tell rejection causes apart once a header is present:
   * every refusal of a present header is the same 403 body, and only
   * acceptance lets the request through.
   */
  lemma RejectionHidesCause(h1: string, h2: string, v1: Verifier, v2: Verifier)
    requires h1 != "" && h2 != ""
    requires !Authenticate(Some(h1), v1).Accept? && !Authenticate(Some(h2), v2).Accept?
    ensures ClientRejection(Authenticate(Some(h1), v1)) == ClientRejection(Authenticate(Some(h2), v2))
    ensures ClientRejection(Authenticate(Some(h1), v1)) == Some(Rejection(403, InvalidTokenError))
  {
  }
}
