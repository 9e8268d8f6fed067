/**
 * Bearer-token authentication (app/auth/jwt_backend.py, app/auth/base.py).
 * The token comes from the `token` query parameter or, failing that, from an
 * `Authorization: Bearer <token>` header (the header form of section 2.1 of
 * RFC 6750; the query form is this service's own). Signature and claim
 * checking by `jwt.decode` is an input: a decoder that gives the claims of
 * a token it accepts and `None` for one it rejects.
 */
module JwtAuth {
  import opened Wrappers
  import opened PyStr
  import opened JsonValues
  import Config

  /** `AuthContext(user_id, scopes)`; `scopes` is whatever the token carried. */
  datatype AuthContext = AuthContext(userId: Option<string>, scopes: Json)

  /** An `HTTPException(status_code, detail)`. */
  datatype HttpError = HttpError(status: nat, detail: string)

  const Unauthorized: nat := 401
  const BearerPrefix: string := "Bearer "
  const ScopesClaim: string := "scopes"
  const MissingToken: string := "Missing token"
  const InvalidToken: string := "Invalid token"
  const InvalidUserClaim: string := "Invalid user claim"

  /** The claims of a decoded token. */
  type Claims = map<string, Json>

  /** `jwt.decode(token, secret, algorithms=[alg])`: the claims, or `None` where it raises `PyJWTError`. */
  type Decoder = (string, string, string) -> Option<Claims>

  /** The token an `Authorization` header carries: what follows `"Bearer "`, stripped (`""` for any other header). */
  function HeaderToken(header: string): string {
    if StartsWith(header, BearerPrefix) then Strip(RemovePrefix(header, BearerPrefix)) else ""
  }

  /**
   * The token `authenticate` settles on: a non-empty `token` query
   * parameter, else the header's bearer token; `""` when there is neither.
   * A header that is not sent reads as `""`.
   */
  function TokenOf(query: Option<string>, header: string): string {
    if query.Some? && query.value != "" then query.value else HeaderToken(header)
  }

  /** Whether the claims name a user: the claim is there and truthy. */
  predicate HasUser(p: Claims, userClaim: string) {
    userClaim in p && Truthy(p[userClaim])
  }

  /** The context built from accepted claims: `str()` of the user claim, and `scopes` defaulting to `[]`. */
  function ContextOf(p: Claims, userClaim: string): AuthContext
    requires userClaim in p
  {
    AuthContext(Some(Text(p[userClaim])), if ScopesClaim in p then p[ScopesClaim] else EmptyList)
  }

  /** The outcome of `authenticate`: the checks in the order the code makes them. */
  function AuthOutcome(query: Option<string>, header: string, decode: Decoder,
                       secret: string, alg: string, userClaim: string): Result<AuthContext, HttpError> {
    var token := TokenOf(query, header);
    if token == "" then Err(HttpError(Unauthorized, MissingToken))
    else match decode(token, secret, alg)
      case None => Err(HttpError(Unauthorized, InvalidToken))
      case Some(p) =>
        if !HasUser(p, userClaim) then Err(HttpError(Unauthorized, InvalidUserClaim))
        else Ok(ContextOf(p, userClaim))
  }

  /** `JWTAuthBackend`: the algorithm, secret and user-id claim, copied from the settings when it is made. */
  class JWTAuthBackend {
    var alg: string
    var secret: string
    var userClaim: string

    constructor (settings: Config.Settings)
      ensures alg == settings.jwtAlg && secret == settings.jwtSecret && userClaim == settings.jwtUserIdClaim
    {
      alg := settings.jwtAlg;
      secret := settings.jwtSecret;
      userClaim := settings.jwtUserIdClaim;
    }

    /**
     * `authenticate(request)` for a request whose `token` query parameter is
     * `query` and whose `Authorization` header is `header` (`""` if absent).
     */
    method Authenticate(query: Option<string>, header: string, decode: Decoder)
      returns (r: Result<AuthContext, HttpError>)
      ensures r == AuthOutcome(query, header, decode, secret, alg, userClaim)
    {
      var token := if query.Some? then query.value else "";
      if token == "" {
        var auth := header;
        if StartsWith(auth, BearerPrefix) {
          token := Strip(RemovePrefix(auth, BearerPrefix));
        }
      }
      if token == "" {
        return Err(HttpError(Unauthorized, MissingToken));
      }
      var payload := decode(token, secret, alg);
      if payload.None? {
        return Err(HttpError(Unauthorized, InvalidToken));
      }
      var p := payload.value;
      if !(userClaim in p) || !Truthy(p[userClaim]) {
        return Err(HttpError(Unauthorized, InvalidUserClaim));
      }
      var scopes := if ScopesClaim in p then p[ScopesClaim] else EmptyList;
      r := Ok(AuthContext(Some(Text(p[userClaim])), scopes));
    }
  }

  /** A non-empty query token is used as it is, whatever the header says. */
  lemma QueryTokenWins(t: string, header: string)
    requires t != ""
    ensures TokenOf(Some(t), header) == t
  {
  }

  /** Without a query token the header decides: its bearer token, stripped, or nothing. */
  lemma HeaderTokenRule(query: Option<string>, header: string, t: string)
    requires query == None || query == Some("")
    ensures StartsWith(header, BearerPrefix) ==> BearerPrefix + RemovePrefix(header, BearerPrefix) == header
    ensures TokenOf(query, header) == (if StartsWith(header, BearerPrefix) then Strip(header[|BearerPrefix|..]) else "")
    ensures TokenOf(query, BearerPrefix + t) == Strip(t)
  {
    assert (BearerPrefix + t)[..|BearerPrefix|] == BearerPrefix;
    assert (BearerPrefix + t)[|BearerPrefix|..] == t;
  }

  /** The scheme is matched case-sensitively: `bearer x` gives no token. */
  lemma LowercaseSchemeIgnored()
    ensures TokenOf(None, "bearer abc") == ""
  {
    assert "bearer abc"[0] != BearerPrefix[0];
  }

  /** The scheme needs its space: `Bearerx` gives no token. */
  lemma SchemeNeedsSpace()
    ensures TokenOf(None, "Bearerabc") == ""
  {
    assert "Bearerabc"[6] != BearerPrefix[6];
  }

  /** Extra spaces after the scheme are dropped: `Bearer  t` gives `t`. */
  lemma ExtraSpaceDropped(t: string)
    requires IsStripped(t)
    ensures TokenOf(None, BearerPrefix + " " + t) == t
    ensures TokenOf(None, BearerPrefix + t) == t
  {
    assert BearerPrefix + " " + t == BearerPrefix + (" " + t);
    HeaderTokenRule(None, BearerPrefix + (" " + t), " " + t);
    HeaderTokenRule(None, BearerPrefix + t, t);
    StripAfterSpace(t);
    StrippedIsFixpoint(t);
  }

  /** Every token that reaches the decoder is non-empty, and a header token has no surrounding whitespace. */
  lemma TokenShape(query: Option<string>, header: string)
    ensures TokenOf(query, header) != "" && !(query.Some? && query.value != "") ==> IsStripped(TokenOf(query, header))
  {
    if StartsWith(header, BearerPrefix) {
      StripResultIsStripped(RemovePrefix(header, BearerPrefix));
    }
  }

  /**
   * The three 401 answers and success, each exactly when its condition
   * holds; the missing-token answer does not depend on the decoder, so no
   * decoding is attempted without a token.
   */
  lemma ErrorChain(query: Option<string>, header: string, decode: Decoder, decode2: Decoder,
                   secret: string, alg: string, userClaim: string)
    ensures var token := TokenOf(query, header);
      var r := AuthOutcome(query, header, decode, secret, alg, userClaim);
      && (r == Err(HttpError(Unauthorized, MissingToken)) <==> token == "")
      && (token == "" ==> AuthOutcome(query, header, decode2, secret, alg, userClaim) == r)
      && (r == Err(HttpError(Unauthorized, InvalidToken)) <==> token != "" && decode(token, secret, alg).None?)
      && (r == Err(HttpError(Unauthorized, InvalidUserClaim)) <==>
            token != "" && decode(token, secret, alg).Some? && !HasUser(decode(token, secret, alg).value, userClaim))
      && (r.Ok? <==> token != "" && decode(token, secret, alg).Some? && HasUser(decode(token, secret, alg).value, userClaim))
      && (r.Err? ==> r.error.status == Unauthorized)
  {
  }

  /** On success the context carries the user claim's text and the token's scopes (`[]` when it has none). */
  lemma SuccessContext(query: Option<string>, header: string, decode: Decoder,
                       secret: string, alg: string, userClaim: string)
    requires AuthOutcome(query, header, decode, secret, alg, userClaim).Ok?
    ensures var p := decode(TokenOf(query, header), secret, alg).value;
      var ctx := AuthOutcome(query, header, decode, secret, alg, userClaim).value;
      && ctx.userId == Some(Text(p[userClaim]))
      && ctx.scopes == (if ScopesClaim in p then p[ScopesClaim] else EmptyList)
      && ctx.userId.Some?
  {
  }

  /** A string user claim is passed through as it is; a number becomes its decimal text. */
  lemma UserClaimText(p: Claims, userClaim: string, n: int)
    requires userClaim in p
    ensures p[userClaim].Str? ==> ContextOf(p, userClaim).userId == Some(p[userClaim].s)
    ensures p[userClaim] == Int(n) ==> ContextOf(p, userClaim).userId == Some(IntToString(n))
  {
  }
}
