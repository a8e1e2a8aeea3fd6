/** The JWT middleware of the HTTP routes (`authenticateToken` and
    `optionalAuth`) and of the socket handshake (`socketAuthMiddleware`).
    Token verification is an oracle: a `Verifier` lists the (secret, token)
    pairs `jwt.verify` accepts, each with the user id its payload carries. */
module HttpAuth {
  import opened Ids
  import opened Wrappers
  import opened Strings

  /** The (secret, token) pairs that verify, with the payload's user id. */
  type Verifier = map<(string, string), UserId>

  const BearerPrefix := "Bearer "

  /** The token of an `Authorization` header: what follows "Bearer " when
      the header starts with it, and no token otherwise. */
  function BearerToken(header: Option<string>): (r: Option<string>)
    ensures r.Some? <==> header.Some? && StartsWith(header.value, BearerPrefix)
    ensures r.Some? ==> header.value == BearerPrefix + r.value
  {
    if header.Some? && StartsWith(header.value, BearerPrefix) then
      assert header.value == header.value[..7] + header.value[7..];
      Some(header.value[7..])
    else None
  }

  /** A header built from a token gives that token back. */
  lemma BearerTokenRoundTrip(t: string)
    ensures BearerToken(Some(BearerPrefix + t)) == Some(t)
  {
    assert (BearerPrefix + t)[..7] == BearerPrefix;
  }

  /** The user a token proves, when the secret is configured, the token
      verifies under it and the user it names exists. */
  predicate Proves(token: Option<string>, secret: Option<string>, verifier: Verifier,
                   users: set<UserId>, u: UserId)
  {
    && Truthy(token) && Truthy(secret)
    && (secret.value, token.value) in verifier
    && verifier[(secret.value, token.value)] == u
    && u in users
  }

  /** What the middleware does: answer the request itself, or pass it on
      with the identity it attached (if any). */
  datatype AuthResult = Respond(status: int, message: string) | Next(userId: Option<UserId>)

  /** `authenticateToken`: checks in order the token, the secret, the
      signature and the user; only a request that passes all four goes on,
      and it goes on with the payload's user id. */
  function AuthenticateToken(header: Option<string>, secret: Option<string>,
                             verifier: Verifier, users: set<UserId>): (r: AuthResult)
    ensures !Truthy(BearerToken(header)) ==> r == Respond(401, "Access token is required")
    ensures Truthy(BearerToken(header)) && !Truthy(secret) ==>
              r == Respond(500, "JWT secret not configured")
    ensures Truthy(BearerToken(header)) && Truthy(secret)
              && (secret.value, BearerToken(header).value) !in verifier ==>
              r == Respond(403, "Invalid or expired token")
    ensures Truthy(BearerToken(header)) && Truthy(secret)
              && (secret.value, BearerToken(header).value) in verifier
              && verifier[(secret.value, BearerToken(header).value)] !in users ==>
              r == Respond(401, "User not found")
    ensures r.Next? ==> r.userId.Some? && Proves(BearerToken(header), secret, verifier, users, r.userId.value)
  {
    var token := BearerToken(header);
    if !Truthy(token) then Respond(401, "Access token is required")
    else if !Truthy(secret) then Respond(500, "JWT secret not configured")
    else if (secret.value, token.value) !in verifier then Respond(403, "Invalid or expired token")
    else
      var u := verifier[(secret.value, token.value)];
      if u !in users then Respond(401, "User not found")
      else Next(Some(u))
  }

  /** A request goes on as `u` exactly when its bearer token proves `u`. */
  lemma AuthenticateIffProves(header: Option<string>, secret: Option<string>,
                              verifier: Verifier, users: set<UserId>, u: UserId)
    ensures AuthenticateToken(header, secret, verifier, users) == Next(Some(u))
            <==> Proves(BearerToken(header), secret, verifier, users, u)
  {
  }

  /** `optionalAuth`: always passes the request on, attaching the user only
      when the token proves one. */
  function OptionalAuth(header: Option<string>, secret: Option<string>,
                        verifier: Verifier, users: set<UserId>): (r: AuthResult)
    ensures r.Next?
    ensures r.userId.Some? ==> Proves(BearerToken(header), secret, verifier, users, r.userId.value)
  {
    var token := BearerToken(header);
    if !Truthy(token) || !Truthy(secret) || (secret.value, token.value) !in verifier then Next(None)
    else
      var u := verifier[(secret.value, token.value)];
      if u in users then Next(Some(u)) else Next(None)
  }

  /** The lenient chain attaches a user exactly when the strict chain would
      let the request through, and the same user. */
  lemma OptionalAgreesWithStrict(header: Option<string>, secret: Option<string>,
                                 verifier: Verifier, users: set<UserId>)
    ensures OptionalAuth(header, secret, verifier, users).userId.Some?
            <==> AuthenticateToken(header, secret, verifier, users).Next?
    ensures AuthenticateToken(header, secret, verifier, users).Next? ==>
              OptionalAuth(header, secret, verifier, users) == AuthenticateToken(header, secret, verifier, users)
  {
  }
}

module SocketAuth {
  import opened Ids
  import opened Wrappers
  import opened Strings
  import opened HttpAuth

  /** The token fields of a socket handshake: `auth.token` and
      `query.token`. */
  datatype Handshake = Handshake(auth: Option<string>, query: Option<string>)

  /** `auth?.token || query?.token`. */
  function HandshakeToken(h: Handshake): (r: Option<string>)
    ensures Truthy(r) <==> Truthy(h.auth) || Truthy(h.query)
    ensures Truthy(h.auth) ==> r == h.auth
    ensures !Truthy(h.auth) ==> r == h.query
  {
    if Truthy(h.auth) then h.auth else h.query
  }

  /** The handshake is accepted as a user, or refused with the error passed
      to `next`. */
  datatype SocketResult = Accept(userId: UserId) | Reject(error: string)

  /** `socketAuthMiddleware`: the same four checks as the HTTP chain, in the
      same order. */
  function SocketAuthenticate(h: Handshake, secret: Option<string>,
                              verifier: Verifier, users: set<UserId>): (r: SocketResult)
    ensures !Truthy(HandshakeToken(h)) ==> r == Reject("Authentication token required")
    ensures Truthy(HandshakeToken(h)) && !Truthy(secret) ==> r == Reject("JWT secret not configured")
    ensures Truthy(HandshakeToken(h)) && Truthy(secret)
              && (secret.value, HandshakeToken(h).value) !in verifier ==>
              r == Reject("Invalid or expired token")
    ensures Truthy(HandshakeToken(h)) && Truthy(secret)
              && (secret.value, HandshakeToken(h).value) in verifier
              && verifier[(secret.value, HandshakeToken(h).value)] !in users ==>
              r == Reject("User not found")
    ensures r.Accept? ==> Proves(HandshakeToken(h), secret, verifier, users, r.userId)
  {
    var token := HandshakeToken(h);
    if !Truthy(token) then Reject("Authentication token required")
    else if !Truthy(secret) then Reject("JWT secret not configured")
    else if (secret.value, token.value) !in verifier then Reject("Invalid or expired token")
    else
      var u := verifier[(secret.value, token.value)];
      if u !in users then Reject("User not found")
      else Accept(u)
  }

  /** The auth token wins over the query token whenever it is non-empty. */
  lemma AuthTokenTakesPrecedence(t: string, q: Option<string>, secret: Option<string>,
                                 verifier: Verifier, users: set<UserId>)
    requires t != []
    ensures SocketAuthenticate(Handshake(Some(t), q), secret, verifier, users)
            == SocketAuthenticate(Handshake(Some(t), None), secret, verifier, users)
  {
  }

  /** A socket presenting a token is treated as an HTTP request bearing
      it: accepted as the same user, or refused with the same message. */
  lemma SocketAgreesWithHttp(t: string, secret: Option<string>, verifier: Verifier, users: set<UserId>)
    requires t != []
    ensures SocketAuthenticate(Handshake(Some(t), None), secret, verifier, users).Accept?
            <==> AuthenticateToken(Some(BearerPrefix + t), secret, verifier, users).Next?
    ensures SocketAuthenticate(Handshake(Some(t), None), secret, verifier, users).Accept? ==>
              AuthenticateToken(Some(BearerPrefix + t), secret, verifier, users)
              == Next(Some(SocketAuthenticate(Handshake(Some(t), None), secret, verifier, users).userId))
    ensures SocketAuthenticate(Handshake(Some(t), None), secret, verifier, users).Reject? ==>
              AuthenticateToken(Some(BearerPrefix + t), secret, verifier, users).message
              == SocketAuthenticate(Handshake(Some(t), None), secret, verifier, users).error
  {
    BearerTokenRoundTrip(t);
  }
}
