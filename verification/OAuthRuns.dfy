/**
  What holds over every run of the OAuth endpoints: where each token comes from, and what a replayed
  authorization code does to the tokens of its user and client.
 */
module OAuthRuns {
  import opened Wrappers
  import opened OAuthTokens

  datatype Op =
    | Issue(code: string, entry: AuthCode)
    | Exchange(codeRequest: CodeRequest, at: int, drawn: Drawn)
    | Refresh(refreshRequest: RefreshRequest, at: int, drawn: Drawn)
    | Revoke(token: string, clientId: Option<string>, at: int)
    | EndSession(row: string, userId: string, at: int)

  function Step(lib: Library, s: Store, op: Op): Store {
    match op
    case Issue(code, entry) => s.(codes := s.codes[code := entry])
    case Exchange(input, now, drawn) => AfterCodeRequest(lib, s, input, now, drawn)
    case Refresh(input, now, drawn) => AfterRefreshRequest(lib, s, input, now, drawn)
    case Revoke(token, clientId, now) => AfterRevoke(lib, s, token, clientId, now)
    case EndSession(row, userId, now) => AfterEndSession(s, row, userId, now)
  }

  /** Random codes, ids and tokens are new. */
  predicate DrawsAreNew(lib: Library, s: Store, op: Op) {
    match op
    case Issue(code, entry) => code !in s.codes && entry.usedAt.None?
    case Exchange(_, _, drawn) =>
      && lib.hashToken(drawn.refreshToken) !in s.refreshTokens
      && lib.hashToken(drawn.accessToken) !in s.accessTokens
      && forall h :: h in s.refreshTokens ==> s.refreshTokens[h].id != drawn.refreshId
    case Refresh(_, _, drawn) => lib.hashToken(drawn.accessToken) !in s.accessTokens
    case Revoke(_, _, _) => true
    case EndSession(_, _, _) => true
  }

  predicate Next(lib: Library, s: Store, op: Op, s': Store) {
    s' == Step(lib, s, op) && DrawsAreNew(lib, s, op)
  }

  ghost predicate IsRun(lib: Library, stores: seq<Store>, ops: seq<Op>) {
    && |stores| == |ops| + 1
    && forall i {:trigger Next(lib, stores[i], ops[i], stores[i + 1])} :: 0 <= i < |ops| ==>
         Next(lib, stores[i], ops[i], stores[i + 1])
  }

  lemma StepOfRun(lib: Library, stores: seq<Store>, ops: seq<Op>, i: nat)
    requires IsRun(lib, stores, ops) && i < |ops|
    ensures stores[i + 1] == Step(lib, stores[i], ops[i]) && DrawsAreNew(lib, stores[i], ops[i])
  {
    assert Next(lib, stores[i], ops[i], stores[i + 1]);
  }

  lemma RunPrefix(lib: Library, stores: seq<Store>, ops: seq<Op>, n: nat)
    requires IsRun(lib, stores, ops) && n <= |ops|
    ensures IsRun(lib, stores[..n + 1], ops[..n])
  {
    forall i | 0 <= i < n ensures Next(lib, stores[..n + 1][i], ops[..n][i], stores[..n + 1][i + 1]) {
      assert Next(lib, stores[i], ops[i], stores[i + 1]);
    }
  }

  /** The step exchanges a code. */
  predicate Grants(lib: Library, s: Store, op: Op) {
    op.Exchange? && CodeRefusal(lib, s, op.codeRequest, op.at).None?
  }

  // ----- lineage -----

  /** The code each refresh token was issued for, read off the steps that exchanged codes. */
  function Origins(lib: Library, stores: seq<Store>, ops: seq<Op>): map<string, string>
    requires |stores| == |ops| + 1
  {
    if ops == [] then map[]
    else
      var n := |ops| - 1;
      var before := Origins(lib, stores[..n + 1], ops[..n]);
      if Grants(lib, stores[n], ops[n])
      then before[lib.hashToken(ops[n].drawn.refreshToken) := ops[n].codeRequest.code]
      else before
  }

  /** A refresh token carries its code's user, client, scopes and resource, and the code is spent. */
  predicate CarriesCode(t: RefreshToken, c: AuthCode) {
    t.userId == c.userId && t.clientId == c.clientId && t.scopes == c.scopes && t.audience == c.resource
    && c.usedAt.Some?
  }

  predicate DerivesFrom(a: AccessToken, t: RefreshToken) {
    a.refreshTokenId == t.id && a.userId == t.userId && a.clientId == t.clientId && a.audience == t.audience
    && SubScopes(a.scopes, t.scopes)
  }

  ghost predicate HasParent(s: Store, a: AccessToken) {
    exists h :: h in s.refreshTokens && DerivesFrom(a, s.refreshTokens[h])
  }

  /** Each refresh token carries the code it was issued for, and no code has two. */
  ghost predicate CodesBack(codes: map<string, AuthCode>, refreshTokens: map<string, RefreshToken>,
                            origin: map<string, string>)
  {
    && origin.Keys == refreshTokens.Keys
    && (forall h :: h in refreshTokens ==> origin[h] in codes && CarriesCode(refreshTokens[h], codes[origin[h]]))
    && (forall h, h' :: h in origin && h' in origin && origin[h] == origin[h'] ==> h == h')
  }

  ghost predicate LineageValid(s: Store, origin: map<string, string>) {
    && CodesBack(s.codes, s.refreshTokens, origin)
    && (forall a :: a in s.accessTokens ==> HasParent(s, s.accessTokens[a]))
  }

  /** The same refresh token, but for its revocation. */
  predicate SameRefresh(t: RefreshToken, t': RefreshToken) {
    t' == t.(revokedAt := t'.revokedAt)
  }

  predicate SameAccess(a: AccessToken, a': AccessToken) {
    a' == a.(revokedAt := a'.revokedAt)
  }

  lemma ParentKept(s: Store, s': Store, a: AccessToken, a': AccessToken)
    requires HasParent(s, a) && SameAccess(a, a')
    requires forall h :: h in s.refreshTokens ==> h in s'.refreshTokens && SameRefresh(s.refreshTokens[h], s'.refreshTokens[h])
    ensures HasParent(s', a')
  {
    var h :| h in s.refreshTokens && DerivesFrom(a, s.refreshTokens[h]);
    assert SameRefresh(s.refreshTokens[h], s'.refreshTokens[h]);
    assert DerivesFrom(a', s'.refreshTokens[h]);
  }

  /** Revocations, of whatever tokens, leave every token's lineage as it was. */
  lemma RevocationsKeepLineage(s: Store, s': Store, origin: map<string, string>)
    requires LineageValid(s, origin)
    requires s'.codes == s.codes
    requires s'.refreshTokens.Keys == s.refreshTokens.Keys && s'.accessTokens.Keys == s.accessTokens.Keys
    requires forall h :: h in s.refreshTokens ==> SameRefresh(s.refreshTokens[h], s'.refreshTokens[h])
    requires forall h :: h in s.accessTokens ==> SameAccess(s.accessTokens[h], s'.accessTokens[h])
    ensures LineageValid(s', origin)
  {
    forall a | a in s'.accessTokens ensures HasParent(s', s'.accessTokens[a]) {
      ParentKept(s, s', s.accessTokens[a], s'.accessTokens[a]);
    }
    forall h | h in s'.refreshTokens
      ensures origin[h] in s'.codes && CarriesCode(s'.refreshTokens[h], s'.codes[origin[h]])
    {
      assert SameRefresh(s.refreshTokens[h], s'.refreshTokens[h]);
    }
  }

  lemma GrantedParents(s: Store, s': Store, h: string, a: string)
    requires h !in s.refreshTokens && h in s'.refreshTokens && a in s'.accessTokens
    requires forall k :: k in s.refreshTokens ==> k in s'.refreshTokens && s'.refreshTokens[k] == s.refreshTokens[k]
    requires forall k :: k in s'.accessTokens && k != a ==> k in s.accessTokens && s'.accessTokens[k] == s.accessTokens[k]
    requires forall k :: k in s.accessTokens ==> HasParent(s, s.accessTokens[k])
    requires DerivesFrom(s'.accessTokens[a], s'.refreshTokens[h])
    ensures forall k :: k in s'.accessTokens ==> HasParent(s', s'.accessTokens[k])
  {
    forall k | k in s'.accessTokens && k != a ensures HasParent(s', s'.accessTokens[k]) {
      ParentKept(s, s', s.accessTokens[k], s'.accessTokens[k]);
    }
  }

  lemma GrantedBacked(codes: map<string, AuthCode>, refreshTokens: map<string, RefreshToken>,
                      origin: map<string, string>, code: string, now: int, h: string, t: RefreshToken)
    requires CodesBack(codes, refreshTokens, origin) && code in codes && codes[code].usedAt.None?
    requires h !in refreshTokens && CarriesCode(t, codes[code].(usedAt := Some(now)))
    ensures CodesBack(codes[code := codes[code].(usedAt := Some(now))], refreshTokens[h := t], origin[h := code])
  {
    forall k | k in refreshTokens ensures origin[k] != code {
      assert CarriesCode(refreshTokens[k], codes[origin[k]]);
    }
  }

  lemma GrantKeepsLineage(lib: Library, s: Store, op: Op, origin: map<string, string>)
    requires LineageValid(s, origin) && DrawsAreNew(lib, s, op) && Grants(lib, s, op)
    ensures LineageValid(Step(lib, s, op), origin[lib.hashToken(op.drawn.refreshToken) := op.codeRequest.code])
  {
    var s', h := Step(lib, s, op), lib.hashToken(op.drawn.refreshToken);
    GrantedBacked(s.codes, s.refreshTokens, origin, op.codeRequest.code, op.at, h, s'.refreshTokens[h]);
    GrantedParents(s, s', h, lib.hashToken(op.drawn.accessToken));
  }

  lemma IssueKeepsLineage(s: Store, code: string, entry: AuthCode, origin: map<string, string>)
    requires LineageValid(s, origin) && code !in s.codes
    ensures LineageValid(s.(codes := s.codes[code := entry]), origin)
  {
    var s' := s.(codes := s.codes[code := entry]);
    forall a | a in s'.accessTokens ensures HasParent(s', s'.accessTokens[a]) {
      ParentKept(s, s', s.accessTokens[a], s'.accessTokens[a]);
    }
  }

  lemma RefreshKeepsLineage(lib: Library, s: Store, input: RefreshRequest, now: int, drawn: Drawn,
                            origin: map<string, string>)
    requires LineageValid(s, origin) && lib.hashToken(drawn.accessToken) !in s.accessTokens
    ensures LineageValid(AfterRefreshRequest(lib, s, input, now, drawn), origin)
  {
    var s' := AfterRefreshRequest(lib, s, input, now, drawn);
    if RefreshRefusal(lib, s, input, now).None? {
      var h, h' := lib.hashToken(input.refreshToken), lib.hashToken(drawn.accessToken);
      forall a | a in s'.accessTokens ensures HasParent(s', s'.accessTokens[a]) {
        if a == h' {
          assert DerivesFrom(s'.accessTokens[h'], s'.refreshTokens[h]);
        } else {
          ParentKept(s, s', s.accessTokens[a], s'.accessTokens[a]);
        }
      }
    }
  }

  lemma ReplayKeepsLineage(lib: Library, s: Store, input: CodeRequest, now: int, drawn: Drawn,
                           origin: map<string, string>)
    requires LineageValid(s, origin) && CodeRefusal(lib, s, input, now).Some?
    ensures LineageValid(AfterCodeRequest(lib, s, input, now, drawn), origin)
  {
    RevocationsKeepLineage(s, AfterCodeRequest(lib, s, input, now, drawn), origin);
  }

  lemma RevokeKeepsLineage(lib: Library, s: Store, token: string, clientId: Option<string>, now: int,
                           origin: map<string, string>)
    requires LineageValid(s, origin)
    ensures LineageValid(AfterRevoke(lib, s, token, clientId, now), origin)
  {
    var s' := AfterRevoke(lib, s, token, clientId, now);
    var h := lib.hashToken(token);
    if s' != s {
      if h in s.accessTokens {
        AccessRevoked(s.accessTokens, h, now);
      } else {
        RefreshRevoked(s.refreshTokens, h, now);
      }
      RevocationsKeepLineage(s, s', origin);
    }
  }

  lemma EndKeepsLineage(s: Store, row: string, userId: string, now: int, origin: map<string, string>)
    requires LineageValid(s, origin)
    ensures LineageValid(AfterEndSession(s, row, userId, now), origin)
  {
    if EndRefusal(s, row, userId).None? {
      AccessRevoked(s.accessTokens, row, now);
      RevocationsKeepLineage(s, AfterEndSession(s, row, userId, now), origin);
    }
  }

  lemma AccessRevoked(t: map<string, AccessToken>, h: string, now: int)
    requires h in t
    ensures var t' := t[h := t[h].(revokedAt := Some(now))];
            t'.Keys == t.Keys && forall k :: k in t ==> SameAccess(t[k], t'[k])
  {
    assert t[h := t[h].(revokedAt := Some(now))].Keys == t.Keys;
  }

  lemma RefreshRevoked(t: map<string, RefreshToken>, h: string, now: int)
    requires h in t
    ensures var t' := t[h := t[h].(revokedAt := Some(now))];
            t'.Keys == t.Keys && forall k :: k in t ==> SameRefresh(t[k], t'[k])
  {
    assert t[h := t[h].(revokedAt := Some(now))].Keys == t.Keys;
  }

  lemma OtherStepKeepsLineage(lib: Library, s: Store, op: Op, origin: map<string, string>)
    requires LineageValid(s, origin) && DrawsAreNew(lib, s, op) && !Grants(lib, s, op)
    ensures LineageValid(Step(lib, s, op), origin)
  {
    match op
    case Issue(code, entry) => IssueKeepsLineage(s, code, entry, origin);
    case Exchange(input, now, drawn) => ReplayKeepsLineage(lib, s, input, now, drawn, origin);
    case Refresh(input, now, drawn) => RefreshKeepsLineage(lib, s, input, now, drawn, origin);
    case Revoke(token, clientId, now) => RevokeKeepsLineage(lib, s, token, clientId, now, origin);
    case EndSession(row, userId, now) => EndKeepsLineage(s, row, userId, now, origin);
  }

  /**
    Over every run from empty tables: each code yields at most one refresh token, which carries the
    code's user, client, scopes and resource; each access token points to a stored refresh token
    with the same user, client and audience and at least its scopes.
   */
  lemma {:induction false} Lineage(lib: Library, stores: seq<Store>, ops: seq<Op>)
    requires IsRun(lib, stores, ops) && stores[0] == Store(map[], map[], map[])
    ensures LineageValid(stores[|ops|], Origins(lib, stores, ops))
    decreases |ops|
  {
    if ops != [] {
      var n := |ops| - 1;
      RunPrefix(lib, stores, ops, n);
      StepOfRun(lib, stores, ops, n);
      Lineage(lib, stores[..n + 1], ops[..n]);
      var before := Origins(lib, stores[..n + 1], ops[..n]);
      assert stores[..n + 1][n] == stores[n];
      if Grants(lib, stores[n], ops[n]) {
        GrantKeepsLineage(lib, stores[n], ops[n], before);
      } else {
        OtherStepKeepsLineage(lib, stores[n], ops[n], before);
      }
    }
  }

  // ----- replay -----

  /** Every token of the user and client is revoked. */
  ghost predicate AllRevoked(s: Store, userId: string, clientId: string) {
    && (forall h :: h in s.accessTokens && s.accessTokens[h].userId == userId && s.accessTokens[h].clientId == clientId
          ==> s.accessTokens[h].revokedAt.Some?)
    && (forall h :: h in s.refreshTokens && s.refreshTokens[h].userId == userId && s.refreshTokens[h].clientId == clientId
          ==> s.refreshTokens[h].revokedAt.Some?)
  }

  /** A used code presented again revokes its user's and client's tokens, unless it has expired by then. */
  lemma UsedCodePresented(lib: Library, s: Store, input: CodeRequest, now: int, drawn: Drawn)
    requires input.code in s.codes && s.codes[input.code].usedAt.Some?
    ensures var c, s' := s.codes[input.code], AfterCodeRequest(lib, s, input, now, drawn);
            && CodeRefusal(lib, s, input, now) == Some(InvalidGrant)
            && (AllRevoked(s', c.userId, c.clientId) <==>
                  (now <= c.expiresAt || AllRevoked(s, c.userId, c.clientId)))
  {
  }

  predicate GrantsTo(lib: Library, s: Store, op: Op, userId: string, clientId: string) {
    Grants(lib, s, op) && op.codeRequest.code in s.codes
    && s.codes[op.codeRequest.code].userId == userId && s.codes[op.codeRequest.code].clientId == clientId
  }

  lemma StepStaysRevoked(lib: Library, s: Store, op: Op, userId: string, clientId: string)
    requires AllRevoked(s, userId, clientId) && DrawsAreNew(lib, s, op)
    requires !GrantsTo(lib, s, op, userId, clientId)
    ensures AllRevoked(Step(lib, s, op), userId, clientId)
  {
    match op
    case Issue(_, _) =>
    case Exchange(_, _, _) =>
    case Refresh(_, _, _) =>
    case Revoke(_, _, _) =>
    case EndSession(_, _, _) =>
  }

  lemma {:induction false} CodeStaysUsed(lib: Library, stores: seq<Store>, ops: seq<Op>, k: nat, n: nat, code: string)
    requires IsRun(lib, stores, ops) && k <= n < |stores|
    requires code in stores[k].codes && stores[k].codes[code].usedAt.Some?
    ensures code in stores[n].codes && stores[n].codes[code].usedAt.Some?
    decreases n
  {
    if k < n {
      CodeStaysUsed(lib, stores, ops, k, n - 1, code);
      StepOfRun(lib, stores, ops, n - 1);
    }
  }

  lemma {:induction false} StaysRevoked(lib: Library, stores: seq<Store>, ops: seq<Op>, k: nat, n: nat,
                                        userId: string, clientId: string)
    requires IsRun(lib, stores, ops) && k <= n < |stores|
    requires AllRevoked(stores[k], userId, clientId)
    requires forall i :: k <= i < n ==> !GrantsTo(lib, stores[i], ops[i], userId, clientId)
    ensures AllRevoked(stores[n], userId, clientId)
    decreases n
  {
    if k < n {
      StaysRevoked(lib, stores, ops, k, n - 1, userId, clientId);
      StepOfRun(lib, stores, ops, n - 1);
      StepStaysRevoked(lib, stores[n - 1], ops[n - 1], userId, clientId);
    }
  }

  /**
    After a used, unexpired code is presented again, a token of its user and client can only be
    active if a different, unused code of theirs was exchanged in between.
   */
  lemma ReplayRevokes(lib: Library, stores: seq<Store>, ops: seq<Op>, k: nat, n: nat, token: string, now: int)
    requires IsRun(lib, stores, ops) && k < n < |stores|
    requires ops[k].Exchange? && IsReplay(stores[k], ops[k].codeRequest, ops[k].at)
    ensures var c, r := stores[k].codes[ops[k].codeRequest.code], Introspect(lib, stores[n], token, now);
            r.Active? && r.userId == c.userId && r.clientId == c.clientId ==>
              exists i :: k < i < n && GrantsTo(lib, stores[i], ops[i], c.userId, c.clientId)
                && ops[i].codeRequest.code != ops[k].codeRequest.code
                && stores[i].codes[ops[i].codeRequest.code].usedAt.None?
  {
    var code := ops[k].codeRequest.code;
    var c := stores[k].codes[code];
    UsedCodePresented(lib, stores[k], ops[k].codeRequest, ops[k].at, ops[k].drawn);
    StepOfRun(lib, stores, ops, k);
    if forall i :: k < i < n ==> !GrantsTo(lib, stores[i], ops[i], c.userId, c.clientId) {
      StaysRevoked(lib, stores, ops, k + 1, n, c.userId, c.clientId);
    } else {
      var i :| k < i < n && GrantsTo(lib, stores[i], ops[i], c.userId, c.clientId);
      CodeStaysUsed(lib, stores, ops, k, i, code);
    }
  }

  // ----- who was granted a token -----

  /** The operation exchanges a code for the refresh token in row `h`, and the code was good for it. */
  predicate GrantedBy(lib: Library, s: Store, op: Op, h: string, t: RefreshToken) {
    && op.Exchange? && lib.hashToken(op.drawn.refreshToken) == h
    && CodeIsGood(lib, s.codes, op.codeRequest, op.at) && ResourceIsGood(s.codes, op.codeRequest)
    && t.id == op.drawn.refreshId && t.expiresAt == op.at + 30 * 24 * 60 * 60 * 1000
    && t.userId == s.codes[op.codeRequest.code].userId && t.clientId == s.codes[op.codeRequest.code].clientId
    && t.scopes == s.codes[op.codeRequest.code].scopes && t.audience == s.codes[op.codeRequest.code].resource
  }

  lemma StepGrants(lib: Library, s: Store, op: Op, h: string)
    requires h in Step(lib, s, op).refreshTokens
    ensures var t := Step(lib, s, op).refreshTokens[h];
            GrantedBy(lib, s, op, h, t) || (h in s.refreshTokens && SameRefresh(s.refreshTokens[h], t))
  {
  }

  /** In every run a stored refresh token was granted by an exchange of a code that was good for it. */
  lemma {:induction false} RefreshTokenGranted(lib: Library, stores: seq<Store>, ops: seq<Op>, n: nat, h: string)
    returns (i: nat)
    requires IsRun(lib, stores, ops) && stores[0] == Store(map[], map[], map[])
    requires n < |stores| && h in stores[n].refreshTokens
    ensures i < n && GrantedBy(lib, stores[i], ops[i], h, stores[n].refreshTokens[h])
    decreases n
  {
    StepOfRun(lib, stores, ops, n - 1);
    StepGrants(lib, stores[n - 1], ops[n - 1], h);
    if GrantedBy(lib, stores[n - 1], ops[n - 1], h, stores[n].refreshTokens[h]) {
      i := n - 1;
    } else {
      i := RefreshTokenGranted(lib, stores, ops, n - 1, h);
    }
  }

  /** The operation exchanges a good code, or a good refresh token, for the access token in row `h`. */
  predicate AccessGrantedBy(lib: Library, s: Store, op: Op, h: string, a: AccessToken) {
    || (op.Exchange? && lib.hashToken(op.drawn.accessToken) == h
        && CodeIsGood(lib, s.codes, op.codeRequest, op.at) && ResourceIsGood(s.codes, op.codeRequest)
        && a.userId == s.codes[op.codeRequest.code].userId && a.clientId == op.codeRequest.clientId
        && a.scopes == s.codes[op.codeRequest.code].scopes && a.expiresAt == op.at + 60 * 60 * 1000)
    || (op.Refresh? && lib.hashToken(op.drawn.accessToken) == h
        && TokenIsGood(lib, s.refreshTokens, op.refreshRequest, op.at) && ScopeIsGood(lib, s.refreshTokens, op.refreshRequest)
        && a.userId == s.refreshTokens[lib.hashToken(op.refreshRequest.refreshToken)].userId
        && a.clientId == op.refreshRequest.clientId
        && (forall c :: c in a.scopes ==> c in s.refreshTokens[lib.hashToken(op.refreshRequest.refreshToken)].scopes)
        && a.expiresAt == op.at + 60 * 60 * 1000)
  }

  lemma StepGrantsAccess(lib: Library, s: Store, op: Op, h: string)
    requires h in Step(lib, s, op).accessTokens
    ensures var a := Step(lib, s, op).accessTokens[h];
            AccessGrantedBy(lib, s, op, h, a) || (h in s.accessTokens && SameAccess(s.accessTokens[h], a))
  {
  }

  /** In every run a stored access token was granted for a code or refresh token that was good for it. */
  lemma {:induction false} AccessTokenGranted(lib: Library, stores: seq<Store>, ops: seq<Op>, n: nat, h: string)
    returns (i: nat)
    requires IsRun(lib, stores, ops) && stores[0] == Store(map[], map[], map[])
    requires n < |stores| && h in stores[n].accessTokens
    ensures i < n && AccessGrantedBy(lib, stores[i], ops[i], h, stores[n].accessTokens[h])
    decreases n
  {
    StepOfRun(lib, stores, ops, n - 1);
    StepGrantsAccess(lib, stores[n - 1], ops[n - 1], h);
    if AccessGrantedBy(lib, stores[n - 1], ops[n - 1], h, stores[n].accessTokens[h]) {
      i := n - 1;
    } else {
      i := AccessTokenGranted(lib, stores, ops, n - 1, h);
    }
  }
}
