/**
  The OAuth token endpoint: authorization codes, refresh tokens and access tokens
  (sections 4.1.2 and 6 of RFC 6749), introspection and revocation.
 */
module OAuthTokens {
  import opened Wrappers

  datatype OAuthError = InvalidGrant | InvalidTarget | InvalidScope

  datatype AuthCode = AuthCode(
    clientId: string, userId: string, redirectUri: string, scopes: seq<string>,
    codeChallenge: string, codeChallengeMethod: string, resource: string,
    expiresAt: int, usedAt: Option<int>)

  datatype RefreshToken = RefreshToken(
    id: string, clientId: string, userId: string, scopes: seq<string>, audience: string,
    expiresAt: int, revokedAt: Option<int>)

  datatype AccessToken = AccessToken(
    clientId: string, userId: string, scopes: seq<string>, audience: string,
    expiresAt: int, revokedAt: Option<int>, refreshTokenId: string)

  /** Codes by code; tokens by the hash of the token. */
  datatype Store = Store(
    codes: map<string, AuthCode>,
    refreshTokens: map<string, RefreshToken>,
    accessTokens: map<string, AccessToken>)

  /** `hashToken`, `verifyCodeChallenge` and `parseAndValidateScopes`. */
  datatype Library = Library(
    hashToken: string -> string,
    verifyCodeChallenge: (string, string, string) -> bool,
    parseScopes: string -> seq<string>)

  const AUTHORIZATION_CODE_EXPIRES_IN := 10 * 60 * 1000
  const ACCESS_TOKEN_EXPIRES_IN := 60 * 60 * 1000
  const REFRESH_TOKEN_EXPIRES_IN := 30 * 24 * 60 * 60 * 1000

  datatype CodeRequest = CodeRequest(
    code: string, redirectUri: string, clientId: string, codeVerifier: string, resource: Option<string>)

  datatype RefreshRequest = RefreshRequest(refreshToken: string, clientId: string, scope: Option<string>)

  /** The random values the service would draw for one request. */
  datatype Drawn = Drawn(refreshToken: string, refreshId: string, accessToken: string)

  datatype Response = Issued(accessToken: string, scopes: seq<string>) | Refused(error: OAuthError)

  datatype Introspection =
    | Inactive
    | Active(clientId: string, userId: string, scopes: seq<string>, audience: string, expiresAt: int)

  predicate Given(s: Option<string>) {
    s.Some? && s.value != ""
  }

  predicate SubScopes(a: seq<string>, b: seq<string>) {
    forall s :: s in a ==> s in b
  }

  // ----- what each request does to the store -----

  function RevokeAccess(t: map<string, AccessToken>, userId: string, clientId: string, now: int): (r: map<string, AccessToken>)
  {
    map h | h in t ::
      if t[h].userId == userId && t[h].clientId == clientId && t[h].revokedAt.None?
      then t[h].(revokedAt := Some(now)) else t[h]
  }

  function RevokeRefresh(t: map<string, RefreshToken>, userId: string, clientId: string, now: int): (r: map<string, RefreshToken>)
  {
    map h | h in t ::
      if t[h].userId == userId && t[h].clientId == clientId && t[h].revokedAt.None?
      then t[h].(revokedAt := Some(now)) else t[h]
  }

  /** Why a code request is refused; None when it is granted. */
  function CodeRefusal(lib: Library, s: Store, input: CodeRequest, now: int): Option<OAuthError> {
    if input.code !in s.codes then Some(InvalidGrant)
    else
      var c := s.codes[input.code];
      if c.expiresAt < now || c.usedAt.Some? || c.clientId != input.clientId || c.redirectUri != input.redirectUri
        || !lib.verifyCodeChallenge(input.codeVerifier, c.codeChallenge, c.codeChallengeMethod)
      then Some(InvalidGrant)
      else if Given(input.resource) && input.resource.value != c.resource then Some(InvalidTarget)
      else None
  }

  /** A used code presented again before it expires. */
  predicate IsReplay(s: Store, input: CodeRequest, now: int) {
    input.code in s.codes && now <= s.codes[input.code].expiresAt && s.codes[input.code].usedAt.Some?
  }

  function AfterCodeRequest(lib: Library, s: Store, input: CodeRequest, now: int, drawn: Drawn): Store {
    if CodeRefusal(lib, s, input, now).None? then
      var c := s.codes[input.code];
      Store(
        s.codes[input.code := c.(usedAt := Some(now))],
        s.refreshTokens[lib.hashToken(drawn.refreshToken) := RefreshToken(drawn.refreshId, c.clientId, c.userId,
          c.scopes, c.resource, now + REFRESH_TOKEN_EXPIRES_IN, None)],
        s.accessTokens[lib.hashToken(drawn.accessToken) := AccessToken(c.clientId, c.userId, c.scopes,
          c.resource, now + ACCESS_TOKEN_EXPIRES_IN, None, drawn.refreshId)])
    else if IsReplay(s, input, now) then
      var c := s.codes[input.code];
      Store(s.codes, RevokeRefresh(s.refreshTokens, c.userId, c.clientId, now),
            RevokeAccess(s.accessTokens, c.userId, c.clientId, now))
    else s
  }

  function RefreshRefusal(lib: Library, s: Store, input: RefreshRequest, now: int): Option<OAuthError> {
    var h := lib.hashToken(input.refreshToken);
    if h !in s.refreshTokens then Some(InvalidGrant)
    else
      var t := s.refreshTokens[h];
      if t.expiresAt < now || t.revokedAt.Some? || t.clientId != input.clientId then Some(InvalidGrant)
      else if Given(input.scope) && !SubScopes(lib.parseScopes(input.scope.value), t.scopes) then Some(InvalidScope)
      else None
  }

  function GrantedScopes(lib: Library, t: RefreshToken, scope: Option<string>): seq<string> {
    if Given(scope) then lib.parseScopes(scope.value) else t.scopes
  }

  function AfterRefreshRequest(lib: Library, s: Store, input: RefreshRequest, now: int, drawn: Drawn): Store {
    if RefreshRefusal(lib, s, input, now).Some? then s
    else
      var t := s.refreshTokens[lib.hashToken(input.refreshToken)];
      s.(accessTokens := s.accessTokens[lib.hashToken(drawn.accessToken) := AccessToken(t.clientId, t.userId,
        GrantedScopes(lib, t, input.scope), t.audience, now + ACCESS_TOKEN_EXPIRES_IN, None, t.id)])
  }

  /** A client that names itself can only revoke its own tokens. */
  predicate MayRevoke(clientId: Option<string>, owner: string) {
    Given(clientId) ==> clientId.value == owner
  }

  function AfterRevoke(lib: Library, s: Store, token: string, clientId: Option<string>, now: int): Store {
    var h := lib.hashToken(token);
    if h in s.accessTokens then
      if MayRevoke(clientId, s.accessTokens[h].clientId) then
        s.(accessTokens := s.accessTokens[h := s.accessTokens[h].(revokedAt := Some(now))])
      else s
    else if h in s.refreshTokens && MayRevoke(clientId, s.refreshTokens[h].clientId) then
      s.(refreshTokens := s.refreshTokens[h := s.refreshTokens[h].(revokedAt := Some(now))])
    else s
  }

  /** Why ending the session of the access token in row `h` is refused; None when it is ended. */
  function EndRefusal(s: Store, h: string, userId: string): Option<Error> {
    if h !in s.accessTokens then Some(NotFound)
    else if s.accessTokens[h].userId != userId then Some(NotAuthorized)
    else if s.accessTokens[h].revokedAt.Some? then Some(BadRequest)
    else None
  }

  function AfterEndSession(s: Store, h: string, userId: string, now: int): Store {
    if EndRefusal(s, h, userId).Some? then s
    else s.(accessTokens := s.accessTokens[h := s.accessTokens[h].(revokedAt := Some(now))])
  }

  function Introspect(lib: Library, s: Store, token: string, now: int): Introspection {
    var h := lib.hashToken(token);
    if h !in s.accessTokens || s.accessTokens[h].revokedAt.Some? || s.accessTokens[h].expiresAt < now then Inactive
    else
      var t := s.accessTokens[h];
      Active(t.clientId, t.userId, t.scopes, t.audience, t.expiresAt)
  }

  // ----- who is granted what, in the columns of the rows -----

  /** The code is stored, unused and unexpired, and was issued for this client, redirect URI and verifier. */
  predicate CodeIsGood(lib: Library, codes: map<string, AuthCode>, input: CodeRequest, now: int) {
    && input.code in codes && codes[input.code].usedAt == None && now <= codes[input.code].expiresAt
    && codes[input.code].clientId == input.clientId && codes[input.code].redirectUri == input.redirectUri
    && lib.verifyCodeChallenge(input.codeVerifier, codes[input.code].codeChallenge, codes[input.code].codeChallengeMethod)
  }

  /** The request names no resource, or the one the code was issued for. */
  predicate ResourceIsGood(codes: map<string, AuthCode>, input: CodeRequest) {
    input.code in codes && (input.resource == None || input.resource.value in {"", codes[input.code].resource})
  }

  /** The token is stored, unrevoked and unexpired, and of this client. */
  predicate TokenIsGood(lib: Library, tokens: map<string, RefreshToken>, input: RefreshRequest, now: int) {
    var h := lib.hashToken(input.refreshToken);
    h in tokens && tokens[h].revokedAt == None && now <= tokens[h].expiresAt && tokens[h].clientId == input.clientId
  }

  /** The request asks for no scope but those of the token. */
  predicate ScopeIsGood(lib: Library, tokens: map<string, RefreshToken>, input: RefreshRequest) {
    var h := lib.hashToken(input.refreshToken);
    h in tokens && (input.scope == None || input.scope.value == ""
                    || forall s :: s in lib.parseScopes(input.scope.value) ==> s in tokens[h].scopes)
  }

  /** Of the user's tokens for the client the unrevoked ones are revoked, and no other changes. */
  predicate AccessEnded(t: map<string, AccessToken>, t': map<string, AccessToken>, userId: string, clientId: string, now: int) {
    t'.Keys == t.Keys && forall h :: h in t ==>
      t'[h] == if t[h].userId == userId && t[h].clientId == clientId && t[h].revokedAt == None
               then t[h].(revokedAt := Some(now)) else t[h]
  }

  predicate RefreshEnded(t: map<string, RefreshToken>, t': map<string, RefreshToken>, userId: string, clientId: string, now: int) {
    t'.Keys == t.Keys && forall h :: h in t ==>
      t'[h] == if t[h].userId == userId && t[h].clientId == clientId && t[h].revokedAt == None
               then t[h].(revokedAt := Some(now)) else t[h]
  }

  // ----- the service -----

  class OAuthService {
    const lib: Library
    var codes: map<string, AuthCode>
    var refreshTokens: map<string, RefreshToken>
    var accessTokens: map<string, AccessToken>

    constructor (lib: Library)
      ensures this.lib == lib && State() == Store(map[], map[], map[])
    {
      this.lib := lib;
      codes, refreshTokens, accessTokens := map[], map[], map[];
    }

    function State(): Store
      reads this
    {
      Store(codes, refreshTokens, accessTokens)
    }

    method IssueAuthorizationCode(code: string, clientId: string, userId: string, redirectUri: string,
      scopes: seq<string>, codeChallenge: string, codeChallengeMethod: string, resource: string, now: int)
      requires code !in codes
      modifies this`codes
      ensures codes == old(codes)[code := AuthCode(clientId, userId, redirectUri, scopes, codeChallenge,
        codeChallengeMethod, resource, now + 10 * 60 * 1000, None)]
    {
      var expiresAt := now + AUTHORIZATION_CODE_EXPIRES_IN;
      codes := codes[code := AuthCode(clientId, userId, redirectUri, scopes, codeChallenge,
        codeChallengeMethod, resource, expiresAt, None)];
    }

    method ExchangeCodeForToken(input: CodeRequest, now: int, drawn: Drawn) returns (r: Response)
      modifies this
      ensures State() == AfterCodeRequest(lib, old(State()), input, now, drawn)
      ensures r.Refused? <==> CodeRefusal(lib, old(State()), input, now).Some?
      ensures r.Refused? ==> Some(r.error) == CodeRefusal(lib, old(State()), input, now)
      ensures r.Issued? <==> CodeIsGood(lib, old(codes), input, now) && ResourceIsGood(old(codes), input)
      ensures r.Refused? ==> r.error == if CodeIsGood(lib, old(codes), input, now) then InvalidTarget else InvalidGrant
      ensures r.Issued? ==>
        var c := old(codes)[input.code];
        && r == Issued(drawn.accessToken, c.scopes)
        && codes == old(codes)[input.code := c.(usedAt := Some(now))]
        && refreshTokens == old(refreshTokens)[lib.hashToken(drawn.refreshToken) := RefreshToken(
             drawn.refreshId, c.clientId, c.userId, c.scopes, c.resource, now + 30 * 24 * 60 * 60 * 1000, None)]
        && accessTokens == old(accessTokens)[lib.hashToken(drawn.accessToken) := AccessToken(
             c.clientId, c.userId, c.scopes, c.resource, now + 60 * 60 * 1000, None, drawn.refreshId)]
      ensures r.Refused? ==> codes == old(codes)
      ensures input.code in old(codes) && old(codes)[input.code].usedAt.Some? && now <= old(codes)[input.code].expiresAt ==>
        var c := old(codes)[input.code];
        && AccessEnded(old(accessTokens), accessTokens, c.userId, c.clientId, now)
        && RefreshEnded(old(refreshTokens), refreshTokens, c.userId, c.clientId, now)
      ensures r.Refused? && !(input.code in old(codes) && old(codes)[input.code].usedAt.Some?
                              && now <= old(codes)[input.code].expiresAt) ==>
        accessTokens == old(accessTokens) && refreshTokens == old(refreshTokens)
    {
      if input.code !in codes {
        return Refused(InvalidGrant);
      }
      var authCode := codes[input.code];
      if authCode.expiresAt < now {
        return Refused(InvalidGrant);
      }
      if authCode.usedAt.Some? {
        accessTokens := RevokeAccess(accessTokens, authCode.userId, authCode.clientId, now);
        refreshTokens := RevokeRefresh(refreshTokens, authCode.userId, authCode.clientId, now);
        return Refused(InvalidGrant);
      }
      if authCode.clientId != input.clientId {
        return Refused(InvalidGrant);
      }
      if authCode.redirectUri != input.redirectUri {
        return Refused(InvalidGrant);
      }
      if !lib.verifyCodeChallenge(input.codeVerifier, authCode.codeChallenge, authCode.codeChallengeMethod) {
        return Refused(InvalidGrant);
      }
      if Given(input.resource) && input.resource.value != authCode.resource {
        return Refused(InvalidTarget);
      }
      codes := codes[input.code := codes[input.code].(usedAt := Some(now))];
      refreshTokens := refreshTokens[lib.hashToken(drawn.refreshToken) := RefreshToken(drawn.refreshId,
        authCode.clientId, authCode.userId, authCode.scopes, authCode.resource, now + REFRESH_TOKEN_EXPIRES_IN, None)];
      accessTokens := accessTokens[lib.hashToken(drawn.accessToken) := AccessToken(authCode.clientId,
        authCode.userId, authCode.scopes, authCode.resource, now + ACCESS_TOKEN_EXPIRES_IN, None, drawn.refreshId)];
      r := Issued(drawn.accessToken, authCode.scopes);
    }

    method RefreshAccessToken(input: RefreshRequest, now: int, drawn: Drawn) returns (r: Response)
      modifies this`accessTokens
      ensures State() == AfterRefreshRequest(lib, old(State()), input, now, drawn)
      ensures r.Refused? <==> RefreshRefusal(lib, old(State()), input, now).Some?
      ensures r.Refused? ==> Some(r.error) == RefreshRefusal(lib, old(State()), input, now)
      ensures r.Issued? ==>
                var t := refreshTokens[lib.hashToken(input.refreshToken)];
                r == Issued(drawn.accessToken, GrantedScopes(lib, t, input.scope)) && SubScopes(r.scopes, t.scopes)
      ensures r.Issued? <==> TokenIsGood(lib, refreshTokens, input, now) && ScopeIsGood(lib, refreshTokens, input)
      ensures r.Refused? ==> r.error == if TokenIsGood(lib, refreshTokens, input, now) then InvalidScope else InvalidGrant
      ensures r.Refused? ==> accessTokens == old(accessTokens)
      ensures r.Issued? ==>
        var t := refreshTokens[lib.hashToken(input.refreshToken)];
        && r.accessToken == drawn.accessToken
        && r.scopes == (if input.scope == None || input.scope.value == "" then t.scopes else lib.parseScopes(input.scope.value))
        && accessTokens == old(accessTokens)[lib.hashToken(drawn.accessToken) := AccessToken(
             t.clientId, t.userId, r.scopes, t.audience, now + 60 * 60 * 1000, None, t.id)]
    {
      var refreshTokenHash := lib.hashToken(input.refreshToken);
      if refreshTokenHash !in refreshTokens {
        return Refused(InvalidGrant);
      }
      var refreshToken := refreshTokens[refreshTokenHash];
      if refreshToken.expiresAt < now {
        return Refused(InvalidGrant);
      }
      if refreshToken.revokedAt.Some? {
        return Refused(InvalidGrant);
      }
      if refreshToken.clientId != input.clientId {
        return Refused(InvalidGrant);
      }
      var scopes := refreshToken.scopes;
      if Given(input.scope) {
        var requestedScopes := lib.parseScopes(input.scope.value);
        if !SubScopes(requestedScopes, refreshToken.scopes) {
          return Refused(InvalidScope);
        }
        scopes := requestedScopes;
      }
      accessTokens := accessTokens[lib.hashToken(drawn.accessToken) := AccessToken(refreshToken.clientId,
        refreshToken.userId, scopes, refreshToken.audience, now + ACCESS_TOKEN_EXPIRES_IN, None, refreshToken.id)];
      r := Issued(drawn.accessToken, scopes);
    }

    method IntrospectToken(token: string, now: int) returns (r: Introspection)
      ensures r == Introspect(lib, State(), token, now)
      ensures var h := lib.hashToken(token);
        && (r.Active? <==> h in accessTokens && accessTokens[h].revokedAt == None && now <= accessTokens[h].expiresAt)
        && (r.Active? ==>
              && h in accessTokens && r.clientId == accessTokens[h].clientId && r.userId == accessTokens[h].userId
              && r.scopes == accessTokens[h].scopes && r.audience == accessTokens[h].audience
              && r.expiresAt == accessTokens[h].expiresAt)
    {
      var tokenHash := lib.hashToken(token);
      if tokenHash !in accessTokens {
        return Inactive;
      }
      var t := accessTokens[tokenHash];
      if t.revokedAt.Some? || t.expiresAt < now {
        return Inactive;
      }
      r := Active(t.clientId, t.userId, t.scopes, t.audience, t.expiresAt);
    }

    method RevokeToken(token: string, clientId: Option<string>, now: int)
      modifies this
      ensures State() == AfterRevoke(lib, old(State()), token, clientId, now)
      ensures codes == old(codes)
      ensures var h := lib.hashToken(token);
        && (forall k :: k in accessTokens <==> k in old(accessTokens))
        && (forall k :: k in accessTokens && k != h ==> accessTokens[k] == old(accessTokens)[k])
        && (h in old(accessTokens) ==>
              accessTokens[h] ==
                if clientId.Some? && clientId.value != "" && clientId.value != old(accessTokens)[h].clientId
                then old(accessTokens)[h] else old(accessTokens)[h].(revokedAt := Some(now)))
      ensures var h := lib.hashToken(token);
        && (forall k :: k in refreshTokens <==> k in old(refreshTokens))
        && (forall k :: k in refreshTokens && (k != h || h in old(accessTokens)) ==> refreshTokens[k] == old(refreshTokens)[k])
        && (h in old(refreshTokens) && h !in old(accessTokens) ==>
              refreshTokens[h] ==
                if clientId.Some? && clientId.value != "" && clientId.value != old(refreshTokens)[h].clientId
                then old(refreshTokens)[h] else old(refreshTokens)[h].(revokedAt := Some(now)))
    {
      var tokenHash := lib.hashToken(token);
      if tokenHash in accessTokens {
        if Given(clientId) && accessTokens[tokenHash].clientId != clientId.value {
          return;
        }
        accessTokens := accessTokens[tokenHash := accessTokens[tokenHash].(revokedAt := Some(now))];
        return;
      }
      if tokenHash in refreshTokens {
        if Given(clientId) && refreshTokens[tokenHash].clientId != clientId.value {
          return;
        }
        refreshTokens := refreshTokens[tokenHash := refreshTokens[tokenHash].(revokedAt := Some(now))];
      }
    }

    /** `endOAuthSession`: ends the session of the user's own access token, here named by its row. */
    method EndOAuthSession(userId: string, h: string, now: int) returns (r: Result<()>)
      modifies this`accessTokens
      ensures State() == AfterEndSession(old(State()), h, userId, now)
      ensures r.Ok? <==> EndRefusal(old(State()), h, userId).None?
      ensures r.Err? ==> Some(r.error) == EndRefusal(old(State()), h, userId)
      ensures r.Ok? <==> h in old(accessTokens) && old(accessTokens)[h].userId == userId && old(accessTokens)[h].revokedAt == None
      ensures r.Ok? ==> accessTokens == old(accessTokens)[h := old(accessTokens)[h].(revokedAt := Some(now))]
      ensures r.Err? ==> accessTokens == old(accessTokens)
      ensures r.Err? ==> r.error == if h !in old(accessTokens) then NotFound
                                    else if old(accessTokens)[h].userId != userId then NotAuthorized else BadRequest
    {
      if h !in accessTokens {
        return Err(NotFound);
      }
      if accessTokens[h].userId != userId {
        return Err(NotAuthorized);
      }
      if accessTokens[h].revokedAt.Some? {
        return Err(BadRequest);
      }
      accessTokens := accessTokens[h := accessTokens[h].(revokedAt := Some(now))];
      r := Ok(());
    }
  }
}
