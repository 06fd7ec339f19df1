/**
  The steps of refresh-token rotation under interleaving, and the invariant each of them keeps.
  Refreshes and the revocation of a user's tokens by a password reset or change are transactions
  that run statement by statement; their writes stay their own, and lock the rows they touch, until
  they commit.  A logout is two separate statements.  Logins, session revocation and cleanup are
  single steps.
 */
module RotationSteps {
  import opened Wrappers
  import opened AuthTables

  datatype Phase = Begun | OldTokenDone | OldSessionDone | TokenCreated | SessionCreated

  /** `tokens` and `sessions` are the transaction's uncommitted writes. */
  datatype Tx = Tx(
    userId: string, presented: string, drawn: string, at: int, expiresAt: int, phase: Phase,
    tokens: map<string, Token>, sessions: map<string, Session>)

  datatype ResetPhase = ResetBegun | TokensSeen | TokensDone | SessionsSeen | SessionsDone

  /**
    A password reset (`keep` None) or change.  Each of its two updates selects from the rows committed
    when it starts (`seen`), waits for the locks on them, and then writes those that still match.
    `before` is no part of the transaction: it records the tokens stored when the first update started.
   */
  datatype Reset = Reset(
    userId: string, keep: Option<string>, phase: ResetPhase, before: set<string>, seen: set<string>,
    tokens: map<string, Token>, sessions: map<string, Session>)

  datatype Logout = Logout(presented: string, tokenDone: bool, sessionDone: bool)

  /** `login` is no table: it records which login each token descends from. */
  datatype State = State(
    db: Tables, txs: map<nat, Tx>, resets: map<nat, Reset>, logouts: map<nat, Logout>, login: map<string, string>)

  datatype Event =
    | Login(userId: string, drawn: string, expiresAt: int)
    | Begin(id: nat, userId: string, presented: string, drawn: string, at: int, expiresAt: int)
    | RevokeOldToken(id: nat)
    | RevokeOldSession(id: nat)
    | CreateToken(id: nat)
    | CreateSession(id: nat)
    | Commit(id: nat)
    | Abort(id: nat)
    | LogoutBegin(id: nat, presented: string)
    | LogoutToken(id: nat, at: int)
    | LogoutSession(id: nat, at: int)
    | LogoutEnd(id: nat)
    | ResetBegin(id: nat, userId: string, keep: Option<string>)
    | SeeTokens(id: nat)
    | RevokeTokens(id: nat, at: int)
    | SeeSessions(id: nat)
    | RevokeSessions(id: nat, at: int)
    | ResetCommit(id: nat)
    | ResetAbort(id: nat)
    | RevokeSession(hash: string, at: int)
    | Cleanup(gone: set<string>, at: int)

  /** No transaction holds a lock on the row. */
  ghost predicate TokenFree(s: State, hash: string) {
    && (forall i :: i in s.txs ==> hash !in s.txs[i].tokens)
    && (forall r :: r in s.resets ==> hash !in s.resets[r].tokens)
  }

  ghost predicate SessionFree(s: State, hash: string) {
    && (forall i :: i in s.txs ==> hash !in s.txs[i].sessions)
    && (forall r :: r in s.resets ==> hash !in s.resets[r].sessions)
  }

  /** A newly drawn random token is nobody's. */
  ghost predicate Unknown(s: State, hash: string) {
    && hash !in s.db.tokens && hash !in s.db.sessions
    && (forall i :: i in s.txs ==> s.txs[i].drawn != hash && s.txs[i].presented != hash)
    && (forall l :: l in s.logouts ==> s.logouts[l].presented != hash)
  }

  /** A client can present only what some call answered: never a token that is still uncommitted. */
  ghost predicate Presentable(s: State, hash: string) {
    forall i :: i in s.txs ==> s.txs[i].drawn != hash
  }

  predicate InPhase(s: State, id: nat, phase: Phase) {
    id in s.txs && s.txs[id].phase == phase
  }

  predicate InResetPhase(s: State, id: nat, phase: ResetPhase) {
    id in s.resets && s.resets[id].phase == phase
  }

  predicate TokenCovered(db: Tables, r: Reset, h: string) {
    h in db.tokens && Covered(db.tokens[h].userId, db.tokens[h].revokedAt, h, r.userId, r.keep)
  }

  predicate SessionCovered(db: Tables, r: Reset, h: string) {
    h in db.sessions && Covered(db.sessions[h].userId, db.sessions[h].revokedAt, h, r.userId, r.keep)
  }

  ghost predicate Enabled(s: State, e: Event) {
    match e
    case Login(_, drawn, _) => Unknown(s, drawn)
    case Begin(id, _, presented, drawn, _, _) =>
      id !in s.txs && Unknown(s, drawn) && Presentable(s, presented) && drawn != presented
    case RevokeOldToken(id) => InPhase(s, id, Begun) && TokenFree(s, s.txs[id].presented)
    case RevokeOldSession(id) => InPhase(s, id, OldTokenDone) && SessionFree(s, s.txs[id].presented)
    case CreateToken(id) => InPhase(s, id, OldSessionDone)
    case CreateSession(id) => InPhase(s, id, TokenCreated)
    case Commit(id) => InPhase(s, id, SessionCreated)
    case Abort(id) => id in s.txs
    case LogoutBegin(id, presented) => id !in s.logouts && Presentable(s, presented)
    case LogoutToken(id, _) => id in s.logouts && !s.logouts[id].tokenDone && TokenFree(s, s.logouts[id].presented)
    case LogoutSession(id, _) => id in s.logouts && !s.logouts[id].sessionDone && SessionFree(s, s.logouts[id].presented)
    case LogoutEnd(id) => id in s.logouts && s.logouts[id].tokenDone && s.logouts[id].sessionDone
    case ResetBegin(id, _, _) => id !in s.resets
    case SeeTokens(id) => InResetPhase(s, id, ResetBegun)
    case RevokeTokens(id, _) =>
      InResetPhase(s, id, TokensSeen)
      && forall h :: h in s.resets[id].seen && TokenCovered(s.db, s.resets[id], h) ==> TokenFree(s, h)
    case SeeSessions(id) => InResetPhase(s, id, TokensDone)
    case RevokeSessions(id, _) =>
      InResetPhase(s, id, SessionsSeen)
      && forall h :: h in s.resets[id].seen && SessionCovered(s.db, s.resets[id], h) ==> SessionFree(s, h)
    case ResetCommit(id) => InResetPhase(s, id, SessionsDone)
    case ResetAbort(id) => id in s.resets
    case RevokeSession(hash, _) => SessionFree(s, hash)
    case Cleanup(gone, at) =>
      forall h :: h in gone ==> h in s.db.sessions && Disposable(s.db.sessions[h], at) && SessionFree(s, h)
  }

  /** The conditional update: it sees the committed row, and without a match the transaction throws. */
  function AfterRevokeOldToken(s: State, id: nat): State
    requires id in s.txs
  {
    var tx := s.txs[id];
    if Usable(s.db, tx.presented, tx.at) then
      var row := s.db.tokens[tx.presented].(revokedAt := Some(tx.at));
      s.(txs := s.txs[id := tx.(phase := OldTokenDone, tokens := map[tx.presented := row])])
    else s.(txs := s.txs - {id})
  }

  function AfterRevokeOldSession(s: State, id: nat): State
    requires id in s.txs
  {
    var tx := s.txs[id];
    var sessions := if tx.presented in s.db.sessions
      then map[tx.presented := s.db.sessions[tx.presented].(revokedAt := Some(tx.at))] else map[];
    s.(txs := s.txs[id := tx.(phase := OldSessionDone, sessions := sessions)])
  }

  function AfterCommit(s: State, id: nat): State
    requires id in s.txs
  {
    var tx := s.txs[id];
    var login := if tx.presented in s.login then s.login[tx.presented] else tx.drawn;
    State(Tables(s.db.tokens + tx.tokens, s.db.sessions + tx.sessions), s.txs - {id}, s.resets, s.logouts,
          s.login[tx.drawn := login])
  }

  /** What an update of a reset leaves the transaction with. */
  function AfterUpdate(db: Tables, r: Reset, e: Event): Reset {
    match e
    case SeeTokens(_) =>
      r.(phase := TokensSeen, before := db.tokens.Keys, seen := set h | h in db.tokens && TokenCovered(db, r, h))
    case RevokeTokens(_, at) =>
      r.(phase := TokensDone,
         tokens := map h | h in r.seen && TokenCovered(db, r, h) :: db.tokens[h].(revokedAt := Some(at)))
    case SeeSessions(_) =>
      r.(phase := SessionsSeen, seen := set h | h in db.sessions && SessionCovered(db, r, h))
    case RevokeSessions(_, at) =>
      r.(phase := SessionsDone,
         sessions := map h | h in r.seen && SessionCovered(db, r, h) :: db.sessions[h].(revokedAt := Some(at)))
    case _ => r
  }

  function ResetApplied(db: Tables, r: Reset): Tables {
    Tables(db.tokens + r.tokens, db.sessions + r.sessions)
  }

  ghost function Apply(s: State, e: Event): State
    requires Enabled(s, e)
  {
    match e
    case Login(userId, drawn, expiresAt) =>
      s.(db := Persisted(s.db, userId, drawn, expiresAt), login := s.login[drawn := drawn])
    case Begin(id, userId, presented, drawn, at, expiresAt) =>
      s.(txs := s.txs[id := Tx(userId, presented, drawn, at, expiresAt, Begun, map[], map[])])
    case RevokeOldToken(id) => AfterRevokeOldToken(s, id)
    case RevokeOldSession(id) => AfterRevokeOldSession(s, id)
    case CreateToken(id) =>
      var tx := s.txs[id];
      s.(txs := s.txs[id := tx.(phase := TokenCreated,
                                tokens := tx.tokens[tx.drawn := Token(tx.userId, tx.expiresAt, None)])])
    case CreateSession(id) =>
      var tx := s.txs[id];
      s.(txs := s.txs[id := tx.(phase := SessionCreated,
                                sessions := tx.sessions[tx.drawn := Session(tx.userId, tx.expiresAt, None)])])
    case Commit(id) => AfterCommit(s, id)
    case Abort(id) => s.(txs := s.txs - {id})
    case LogoutBegin(id, presented) => s.(logouts := s.logouts[id := Logout(presented, false, false)])
    case LogoutToken(id, at) =>
      s.(db := s.db.(tokens := TokenRevoked(s.db.tokens, s.logouts[id].presented, at)),
         logouts := s.logouts[id := s.logouts[id].(tokenDone := true)])
    case LogoutSession(id, at) =>
      s.(db := s.db.(sessions := SessionRevoked(s.db.sessions, s.logouts[id].presented, at)),
         logouts := s.logouts[id := s.logouts[id].(sessionDone := true)])
    case LogoutEnd(id) => s.(logouts := s.logouts - {id})
    case ResetBegin(id, userId, keep) =>
      s.(resets := s.resets[id := Reset(userId, keep, ResetBegun, {}, {}, map[], map[])])
    case SeeTokens(id) => s.(resets := s.resets[id := AfterUpdate(s.db, s.resets[id], e)])
    case RevokeTokens(id, _) => s.(resets := s.resets[id := AfterUpdate(s.db, s.resets[id], e)])
    case SeeSessions(id) => s.(resets := s.resets[id := AfterUpdate(s.db, s.resets[id], e)])
    case RevokeSessions(id, _) => s.(resets := s.resets[id := AfterUpdate(s.db, s.resets[id], e)])
    case ResetCommit(id) => s.(db := ResetApplied(s.db, s.resets[id]), resets := s.resets - {id})
    case ResetAbort(id) => s.(resets := s.resets - {id})
    case RevokeSession(hash, at) => s.(db := s.db.(sessions := SessionRevoked(s.db.sessions, hash, at)))
    case Cleanup(gone, _) => s.(db := s.db.(sessions := s.db.sessions - gone))
  }

  // ----- the invariant -----

  predicate HasRevoked(tx: Tx) {
    !tx.phase.Begun?
  }

  /** What a transaction has written so far, by phase. */
  predicate Written(tx: Tx) {
    && tx.drawn != tx.presented
    && tx.tokens.Keys == (match tx.phase
         case Begun => {}
         case OldTokenDone | OldSessionDone => {tx.presented}
         case _ => {tx.presented, tx.drawn})
    && (HasRevoked(tx) ==> tx.tokens[tx.presented].revokedAt == Some(tx.at))
    && (tx.drawn in tx.tokens ==> tx.tokens[tx.drawn] == Token(tx.userId, tx.expiresAt, None))
    && tx.sessions.Keys <= {tx.presented, tx.drawn}
    && (tx.presented in tx.sessions ==> tx.sessions[tx.presented].revokedAt == Some(tx.at))
    && (tx.drawn in tx.sessions <==> tx.phase.SessionCreated?)
    && (tx.drawn in tx.sessions ==> tx.sessions[tx.drawn] == Session(tx.userId, tx.expiresAt, None))
    && (tx.phase.Begun? || tx.phase.OldTokenDone? ==> tx.sessions == map[])
  }

  /** The committed rows under its writes: the old token unrevoked, the new one nowhere. */
  predicate Based(db: Tables, tx: Tx) {
    && tx.drawn !in db.tokens && tx.drawn !in db.sessions
    && (HasRevoked(tx) ==>
          && Usable(db, tx.presented, tx.at)
          && tx.presented in tx.tokens
          && tx.tokens[tx.presented] == db.tokens[tx.presented].(revokedAt := Some(tx.at)))
    && (tx.phase.OldSessionDone? || tx.phase.TokenCreated? || tx.phase.SessionCreated? ==>
          (tx.presented in db.sessions <==> tx.presented in tx.sessions))
    && (tx.presented in tx.sessions && tx.presented in db.sessions ==>
          tx.sessions[tx.presented] == db.sessions[tx.presented].(revokedAt := Some(tx.at)))
  }

  predicate TxValid(db: Tables, tx: Tx) {
    Written(tx) && Based(db, tx)
  }

  /** Two transactions never write the same row, nor draw the same token. */
  predicate Apart(a: Tx, b: Tx) {
    && a.drawn != b.drawn && a.drawn != b.presented && b.drawn != a.presented
    && (HasRevoked(a) && HasRevoked(b) ==> a.presented != b.presented)
  }

  ghost predicate TxsValid(db: Tables, txs: map<nat, Tx>) {
    && (forall i {:trigger TxValid(db, txs[i])} :: i in txs ==> TxValid(db, txs[i]))
    && (forall i, j {:trigger Apart(txs[i], txs[j])} :: i in txs && j in txs && i != j ==> Apart(txs[i], txs[j]))
  }

  /** Its writes revoke rows that were still covered when they were locked, and are locked since. */
  predicate Overwrites(db: Tables, r: Reset) {
    && (forall h :: h in r.tokens ==>
          TokenCovered(db, r, h) && r.tokens[h].revokedAt.Some?
          && r.tokens[h] == db.tokens[h].(revokedAt := r.tokens[h].revokedAt))
    && (forall h :: h in r.sessions ==>
          SessionCovered(db, r, h) && r.sessions[h].revokedAt.Some?
          && r.sessions[h] == db.sessions[h].(revokedAt := r.sessions[h].revokedAt))
  }

  predicate OpenSession(db: Tables, h: string) {
    h in db.sessions && db.sessions[h].revokedAt.None?
  }

  /** What the reset has got hold of, by phase. */
  predicate Reached(db: Tables, r: Reset) {
    match r.phase
    case ResetBegun => r.tokens == map[] && r.sessions == map[]
    case TokensSeen => r.tokens == map[] && r.sessions == map[] && r.seen <= r.before
      && forall h :: h in r.before && TokenCovered(db, r, h) ==> h in r.seen
    case TokensDone => r.sessions == map[]
      && forall h :: h in r.before && TokenCovered(db, r, h) ==> h in r.tokens
    case SessionsSeen => r.sessions == map[]
      && (forall h :: h in r.before && TokenCovered(db, r, h) ==> h in r.tokens)
      && (forall h :: h in r.tokens && OpenSession(db, h) ==> h in r.seen)
    case SessionsDone =>
      && (forall h :: h in r.before && TokenCovered(db, r, h) ==> h in r.tokens)
      && (forall h :: h in r.tokens && OpenSession(db, h) ==> h in r.sessions)
  }

  predicate Bounded(db: Tables, r: Reset) {
    r.before <= db.tokens.Keys && r.tokens.Keys <= r.before
  }

  predicate ResetValid(db: Tables, r: Reset) {
    Overwrites(db, r) && Reached(db, r) && Bounded(db, r)
  }

  predicate ResetsApart(a: Reset, b: Reset) {
    a.tokens.Keys !! b.tokens.Keys && a.sessions.Keys !! b.sessions.Keys
  }

  ghost predicate ResetsValid(db: Tables, resets: map<nat, Reset>) {
    && (forall i {:trigger ResetValid(db, resets[i])} :: i in resets ==> ResetValid(db, resets[i]))
    && (forall i, j {:trigger ResetsApart(resets[i], resets[j])} :: i in resets && j in resets && i != j ==>
          ResetsApart(resets[i], resets[j]))
  }

  predicate LocksApart(tx: Tx, r: Reset) {
    tx.tokens.Keys !! r.tokens.Keys && tx.sessions.Keys !! r.sessions.Keys
  }

  ghost predicate AllApart(txs: map<nat, Tx>, resets: map<nat, Reset>) {
    forall i, j {:trigger LocksApart(txs[i], resets[j])} :: i in txs && j in resets ==> LocksApart(txs[i], resets[j])
  }

  predicate Live(tokens: map<string, Token>, h: string) {
    h in tokens && tokens[h].revokedAt.None?
  }

  /** At most one unrevoked token descends from each login. */
  ghost predicate OneLivePerLogin(tokens: map<string, Token>, login: map<string, string>) {
    && login.Keys == tokens.Keys
    && login.Values <= tokens.Keys
    && (forall h, k :: Live(tokens, h) && Live(tokens, k) && login[h] == login[k] ==> h == k)
  }

  predicate HalfDone(l: Logout, hash: string) {
    l.presented == hash && l.tokenDone && !l.sessionDone
  }

  ghost predicate LoggingOut(logouts: map<nat, Logout>, hash: string) {
    exists l :: l in logouts && HalfDone(logouts[l], hash)
  }

  /** A revoked token's stored session is revoked, but for a logout between its two statements. */
  ghost predicate SessionsFollow(db: Tables, logouts: map<nat, Logout>) {
    forall h :: h in db.tokens && h in db.sessions ==>
      && db.tokens[h].userId == db.sessions[h].userId
      && (db.tokens[h].revokedAt.Some? && db.sessions[h].revokedAt.None? ==> LoggingOut(logouts, h))
  }

  /** A logout that has run its session statement left no unrevoked session behind. */
  predicate SessionEnded(db: Tables, l: Logout) {
    l.sessionDone && l.presented in db.sessions ==> db.sessions[l.presented].revokedAt.Some?
  }

  /** And after its token statement, no unrevoked token. */
  predicate TokenEnded(db: Tables, l: Logout) {
    l.tokenDone && l.presented in db.tokens ==> db.tokens[l.presented].revokedAt.Some?
  }

  predicate Ended(db: Tables, l: Logout) {
    TokenEnded(db, l) && SessionEnded(db, l)
  }

  ghost predicate LogoutsValid(s: State) {
    && (forall l :: l in s.logouts ==> Presentable(s, s.logouts[l].presented) && Ended(s.db, s.logouts[l]))
    && s.db.sessions.Keys <= s.db.tokens.Keys
  }

  ghost predicate Inv(s: State) {
    && TxsValid(s.db, s.txs)
    && ResetsValid(s.db, s.resets)
    && AllApart(s.txs, s.resets)
    && OneLivePerLogin(s.db.tokens, s.login)
    && SessionsFollow(s.db, s.logouts)
    && LogoutsValid(s)
  }

  // ----- every step keeps it -----

  lemma TxChanged(s: State, id: nat, tx: Tx)
    requires Inv(s) && TxValid(s.db, tx)
    requires forall j :: j in s.txs && j != id ==> Apart(tx, s.txs[j])
    requires forall r :: r in s.resets ==> LocksApart(tx, s.resets[r])
    requires forall l :: l in s.logouts ==> s.logouts[l].presented != tx.drawn
    ensures Inv(s.(txs := s.txs[id := tx]))
  {
  }

  lemma TxOf(s: State, id: nat)
    requires Inv(s) && id in s.txs
    ensures TxValid(s.db, s.txs[id])
    ensures forall j :: j in s.txs && j != id ==> Apart(s.txs[id], s.txs[j])
  {
  }

  lemma TxGone(s: State, id: nat)
    requires Inv(s)
    ensures Inv(s.(txs := s.txs - {id}))
  {
  }

  /** Changing unlocked rows, and deleting unlocked sessions, leaves the transactions valid. */
  lemma TxsKept(db: Tables, db': Tables, txs: map<nat, Tx>)
    requires TxsValid(db, txs)
    requires db'.tokens.Keys == db.tokens.Keys && db'.sessions.Keys <= db.sessions.Keys
    requires forall i, h :: i in txs && h in txs[i].tokens && h in db.tokens ==> db'.tokens[h] == db.tokens[h]
    requires forall i, h :: i in txs && h in txs[i].sessions && h in db.sessions ==>
               h in db'.sessions && db'.sessions[h] == db.sessions[h]
    ensures TxsValid(db', txs)
  {
    forall i | i in txs ensures TxValid(db', txs[i]) {
      assert TxValid(db, txs[i]);
    }
  }

  lemma FreeTokenRevoked(s: State, hash: string, at: int)
    requires TxsValid(s.db, s.txs) && ResetsValid(s.db, s.resets) && TokenFree(s, hash)
    ensures TxsValid(s.db.(tokens := TokenRevoked(s.db.tokens, hash, at)), s.txs)
    ensures ResetsValid(s.db.(tokens := TokenRevoked(s.db.tokens, hash, at)), s.resets)
  {
    TxsKept(s.db, s.db.(tokens := TokenRevoked(s.db.tokens, hash, at)), s.txs);
    ResetsKept(s.db, s.db.(tokens := TokenRevoked(s.db.tokens, hash, at)), s.resets);
  }

  lemma FreeSessionRevoked(s: State, hash: string, at: int)
    requires TxsValid(s.db, s.txs) && ResetsValid(s.db, s.resets) && SessionFree(s, hash)
    ensures TxsValid(s.db.(sessions := SessionRevoked(s.db.sessions, hash, at)), s.txs)
    ensures ResetsValid(s.db.(sessions := SessionRevoked(s.db.sessions, hash, at)), s.resets)
  {
    TxsKept(s.db, s.db.(sessions := SessionRevoked(s.db.sessions, hash, at)), s.txs);
    ResetsKept(s.db, s.db.(sessions := SessionRevoked(s.db.sessions, hash, at)), s.resets);
  }

  /** No row of a known token is renewed, and no token is deleted. */
  predicate Aged(db: Tables, db': Tables) {
    && (forall h :: h in db.tokens ==>
          && h in db'.tokens && db'.tokens[h].userId == db.tokens[h].userId
          && (db.tokens[h].revokedAt.Some? ==> db'.tokens[h].revokedAt.Some?))
    && (forall h :: h in db.tokens && OpenSession(db', h) ==> OpenSession(db, h))
  }

  predicate RowsHeld(db: Tables, db': Tables, r: Reset) {
    && (forall h :: h in r.tokens && h in db.tokens ==> h in db'.tokens && db'.tokens[h] == db.tokens[h])
    && (forall h :: h in r.sessions && h in db.sessions ==> h in db'.sessions && db'.sessions[h] == db.sessions[h])
  }

  lemma ResetKept(db: Tables, db': Tables, r: Reset)
    requires ResetValid(db, r) && Aged(db, db') && RowsHeld(db, db', r)
    ensures ResetValid(db', r)
  {
    assert forall h :: h in r.before && TokenCovered(db', r, h) ==> TokenCovered(db, r, h);
  }

  lemma ResetsKept(db: Tables, db': Tables, resets: map<nat, Reset>)
    requires ResetsValid(db, resets) && Aged(db, db')
    requires forall i :: i in resets ==> RowsHeld(db, db', resets[i])
    ensures ResetsValid(db', resets)
  {
    forall i | i in resets ensures ResetValid(db', resets[i]) {
      ResetKept(db, db', resets[i]);
    }
  }

  /** Rows are only ever revoked. */
  predicate OnlyRevoked(t: map<string, Token>, t': map<string, Token>) {
    && t'.Keys == t.Keys
    && forall h :: h in t ==> t'[h].userId == t[h].userId && (t[h].revokedAt.Some? ==> t'[h].revokedAt.Some?)
  }

  lemma StillOneLive(t: map<string, Token>, t': map<string, Token>, login: map<string, string>)
    requires OneLivePerLogin(t, login) && OnlyRevoked(t, t')
    ensures OneLivePerLogin(t', login)
  {
    forall h, k | Live(t', h) && Live(t', k) && login[h] == login[k] ensures h == k {
      assert Live(t, h) && Live(t, k);
    }
  }

  lemma LoginKeepsTxs(s: State, userId: string, drawn: string, expiresAt: int)
    requires TxsValid(s.db, s.txs) && Unknown(s, drawn)
    ensures TxsValid(Persisted(s.db, userId, drawn, expiresAt), s.txs)
  {
    forall i | i in s.txs ensures TxValid(Persisted(s.db, userId, drawn, expiresAt), s.txs[i]) {
      assert TxValid(s.db, s.txs[i]);
    }
  }

  lemma LoginKeepsOneLive(tokens: map<string, Token>, login: map<string, string>, drawn: string, token: Token)
    requires OneLivePerLogin(tokens, login) && drawn !in tokens
    ensures OneLivePerLogin(tokens[drawn := token], login[drawn := drawn])
  {
    var tokens', login' := tokens[drawn := token], login[drawn := drawn];
    forall h, k | Live(tokens', h) && Live(tokens', k) && login'[h] == login'[k] ensures h == k {
      if h != drawn {
        assert login[h] in login.Values;
      }
      if k != drawn {
        assert login[k] in login.Values;
      }
      if h != drawn && k != drawn {
        assert Live(tokens, h) && Live(tokens, k);
      }
    }
  }

  lemma LoginKeepsResets(s: State, userId: string, drawn: string, expiresAt: int)
    requires ResetsValid(s.db, s.resets) && Unknown(s, drawn)
    ensures ResetsValid(Persisted(s.db, userId, drawn, expiresAt), s.resets)
  {
    var db' := Persisted(s.db, userId, drawn, expiresAt);
    assert Aged(s.db, db');
    forall r | r in s.resets ensures RowsHeld(s.db, db', s.resets[r]) {
    }
    ResetsKept(s.db, db', s.resets);
  }

  lemma LoginKeeps(s: State, e: Event)
    requires Inv(s) && Enabled(s, e) && e.Login?
    ensures Inv(Apply(s, e))
  {
    LoginKeepsTxs(s, e.userId, e.drawn, e.expiresAt);
    LoginKeepsResets(s, e.userId, e.drawn, e.expiresAt);
    LoginKeepsOneLive(s.db.tokens, s.login, e.drawn, Token(e.userId, e.expiresAt, None));
  }

  lemma BeginKeeps(s: State, e: Event)
    requires Inv(s) && Enabled(s, e) && e.Begin?
    ensures Inv(Apply(s, e))
  {
    TxChanged(s, e.id, Tx(e.userId, e.presented, e.drawn, e.at, e.expiresAt, Begun, map[], map[]));
  }

  lemma RevokeOldTokenKeeps(s: State, e: Event)
    requires Inv(s) && Enabled(s, e) && e.RevokeOldToken?
    ensures Inv(Apply(s, e))
  {
    var tx := s.txs[e.id];
    TxOf(s, e.id);
    if Usable(s.db, tx.presented, tx.at) {
      var row := s.db.tokens[tx.presented].(revokedAt := Some(tx.at));
      var tx' := tx.(phase := OldTokenDone, tokens := map[tx.presented := row]);
      forall j | j in s.txs && j != e.id ensures Apart(tx', s.txs[j]) {
        assert Apart(tx, s.txs[j]) && TxValid(s.db, s.txs[j]);
        assert tx.presented !in s.txs[j].tokens;
      }
      TxChanged(s, e.id, tx');
    } else {
      TxGone(s, e.id);
    }
  }

  lemma RevokeOldSessionKeeps(s: State, e: Event)
    requires Inv(s) && Enabled(s, e) && e.RevokeOldSession?
    ensures Inv(Apply(s, e))
  {
    var tx := s.txs[e.id];
    TxOf(s, e.id);
    LocksStayApart(s, e.id);
    TxChanged(s, e.id, Apply(s, e).txs[e.id]);
  }

  /** Rows a reset has written are stored, so they are none that a refresh will create. */
  lemma LocksStayApart(s: State, id: nat)
    requires Inv(s) && id in s.txs
    ensures forall r :: r in s.resets ==> LocksApart(s.txs[id], s.resets[r])
    ensures forall r :: r in s.resets ==>
              s.txs[id].drawn !in s.resets[r].tokens && s.txs[id].drawn !in s.resets[r].sessions
  {
    forall r | r in s.resets
      ensures LocksApart(s.txs[id], s.resets[r])
      ensures s.txs[id].drawn !in s.resets[r].tokens && s.txs[id].drawn !in s.resets[r].sessions
    {
      assert TxValid(s.db, s.txs[id]) && ResetValid(s.db, s.resets[r]);
    }
  }

  lemma CreateKeeps(s: State, e: Event)
    requires Inv(s) && Enabled(s, e) && (e.CreateToken? || e.CreateSession?)
    ensures Inv(Apply(s, e))
  {
    var tx := s.txs[e.id];
    TxOf(s, e.id);
    LocksStayApart(s, e.id);
    TxChanged(s, e.id, Apply(s, e).txs[e.id]);
  }

  lemma CommitKeepsOneLive(s: State, tx: Tx)
    requires OneLivePerLogin(s.db.tokens, s.login) && TxValid(s.db, tx) && tx.phase.SessionCreated?
    requires tx.presented in s.login
    ensures OneLivePerLogin(s.db.tokens + tx.tokens, s.login[tx.drawn := s.login[tx.presented]])
  {
    var t, login := s.db.tokens + tx.tokens, s.login[tx.drawn := s.login[tx.presented]];
    assert s.login[tx.presented] in s.login.Values;
    forall h, k | Live(t, h) && Live(t, k) && login[h] == login[k] ensures h == k {
      assert Live(s.db.tokens, tx.presented);
      if h != tx.drawn {
        assert Live(s.db.tokens, h);
      }
      if k != tx.drawn {
        assert Live(s.db.tokens, k);
      }
    }
  }

  lemma CommitKeepsOthers(s: State, id: nat)
    requires Inv(s) && InPhase(s, id, SessionCreated)
    ensures TxsValid(Tables(s.db.tokens + s.txs[id].tokens, s.db.sessions + s.txs[id].sessions), s.txs - {id})
  {
    var tx := s.txs[id];
    var db' := Tables(s.db.tokens + tx.tokens, s.db.sessions + tx.sessions);
    TxOf(s, id);
    forall i | i in s.txs && i != id ensures TxValid(db', s.txs[i]) {
      assert TxValid(s.db, s.txs[i]) && Apart(tx, s.txs[i]);
    }
  }

  lemma CommitKeepsSessions(s: State, tx: Tx)
    requires SessionsFollow(s.db, s.logouts) && TxValid(s.db, tx) && tx.phase.SessionCreated?
    ensures SessionsFollow(Tables(s.db.tokens + tx.tokens, s.db.sessions + tx.sessions), s.logouts)
  {
  }

  lemma CommitKeepsLogouts(s: State, id: nat)
    requires Inv(s) && InPhase(s, id, SessionCreated)
    ensures s.txs[id].presented in s.login && LogoutsValid(AfterCommit(s, id))
  {
    var tx, s' := s.txs[id], AfterCommit(s, id);
    assert TxValid(s.db, tx);
    forall l | l in s.logouts ensures Presentable(s', s.logouts[l].presented) && Ended(s'.db, s.logouts[l]) {
      assert Presentable(s, s.logouts[l].presented) && Ended(s.db, s.logouts[l]);
    }
  }

  lemma CommitAges(db: Tables, tx: Tx)
    requires TxValid(db, tx) && tx.phase.SessionCreated?
    ensures Aged(db, Tables(db.tokens + tx.tokens, db.sessions + tx.sessions))
  {
  }

  lemma CommitKeepsResets(s: State, id: nat)
    requires Inv(s) && InPhase(s, id, SessionCreated)
    ensures ResetsValid(AfterCommit(s, id).db, s.resets)
  {
    TxOf(s, id);
    CommitAges(s.db, s.txs[id]);
    forall r | r in s.resets ensures RowsHeld(s.db, AfterCommit(s, id).db, s.resets[r]) {
      assert LocksApart(s.txs[id], s.resets[r]);
    }
    ResetsKept(s.db, AfterCommit(s, id).db, s.resets);
  }

  lemma CommitKeeps(s: State, id: nat)
    requires Inv(s) && InPhase(s, id, SessionCreated)
    ensures s.txs[id].presented in s.login && Inv(AfterCommit(s, id))
  {
    CommitKeepsOthers(s, id);
    CommitKeepsLogouts(s, id);
    CommitKeepsResets(s, id);
    CommitKeepsOneLive(s, s.txs[id]);
    CommitKeepsSessions(s, s.txs[id]);
  }

  lemma LogoutTokenFollows(db: Tables, logouts: map<nat, Logout>, id: nat, at: int)
    requires SessionsFollow(db, logouts) && id in logouts && SessionEnded(db, logouts[id])
    ensures SessionsFollow(db.(tokens := TokenRevoked(db.tokens, logouts[id].presented, at)),
                           logouts[id := logouts[id].(tokenDone := true)])
  {
    var db' := db.(tokens := TokenRevoked(db.tokens, logouts[id].presented, at));
    var logouts' := logouts[id := logouts[id].(tokenDone := true)];
    forall h | h in db'.tokens && h in db'.sessions && db'.tokens[h].revokedAt.Some? && db'.sessions[h].revokedAt.None?
      ensures LoggingOut(logouts', h)
    {
      if h == logouts[id].presented {
        assert HalfDone(logouts'[id], h);
      } else {
        var l :| l in logouts && HalfDone(logouts[l], h);
        assert HalfDone(logouts'[l], h);
      }
    }
  }

  lemma LogoutStepEnds(s: State, e: Event)
    requires LogoutsValid(s) && Enabled(s, e) && (e.LogoutToken? || e.LogoutSession?)
    ensures LogoutsValid(Apply(s, e))
  {
    forall l | l in s.logouts
      ensures Presentable(Apply(s, e), s.logouts[l].presented) && Ended(Apply(s, e).db, Apply(s, e).logouts[l])
    {
      assert Presentable(s, s.logouts[l].presented) && Ended(s.db, s.logouts[l]);
    }
  }

  lemma LogoutTokenKeeps(s: State, e: Event)
    requires Inv(s) && Enabled(s, e) && e.LogoutToken?
    ensures Inv(Apply(s, e))
  {
    FreeTokenRevoked(s, s.logouts[e.id].presented, e.at);
    StillOneLive(s.db.tokens, TokenRevoked(s.db.tokens, s.logouts[e.id].presented, e.at), s.login);
    LogoutStepEnds(s, e);
    LogoutTokenFollows(s.db, s.logouts, e.id, e.at);
  }

  lemma LogoutSessionFollows(db: Tables, logouts: map<nat, Logout>, id: nat, at: int)
    requires SessionsFollow(db, logouts) && id in logouts
    ensures SessionsFollow(db.(sessions := SessionRevoked(db.sessions, logouts[id].presented, at)),
                           logouts[id := logouts[id].(sessionDone := true)])
  {
    var db' := db.(sessions := SessionRevoked(db.sessions, logouts[id].presented, at));
    var logouts' := logouts[id := logouts[id].(sessionDone := true)];
    forall h | h in db'.tokens && h in db'.sessions && db'.tokens[h].revokedAt.Some? && db'.sessions[h].revokedAt.None?
      ensures LoggingOut(logouts', h)
    {
      var l :| l in logouts && HalfDone(logouts[l], h);
      assert HalfDone(logouts'[l], h);
    }
  }

  lemma LogoutSessionKeeps(s: State, e: Event)
    requires Inv(s) && Enabled(s, e) && e.LogoutSession?
    ensures Inv(Apply(s, e))
  {
    FreeSessionRevoked(s, s.logouts[e.id].presented, e.at);
    LogoutStepEnds(s, e);
    LogoutSessionFollows(s.db, s.logouts, e.id, e.at);
  }

  lemma LogoutBeginKeeps(s: State, e: Event)
    requires Inv(s) && Enabled(s, e) && e.LogoutBegin?
    ensures Inv(Apply(s, e))
  {
    LogoutsChanged(s, s.logouts[e.id := Logout(e.presented, false, false)]);
  }

  lemma LogoutEndKeeps(s: State, e: Event)
    requires Inv(s) && Enabled(s, e) && e.LogoutEnd?
    ensures Inv(Apply(s, e))
  {
    LogoutsChanged(s, s.logouts - {e.id});
  }

  lemma LogoutsChanged(s: State, logouts: map<nat, Logout>)
    requires Inv(s)
    requires forall l, h :: l in s.logouts && HalfDone(s.logouts[l], h) ==> l in logouts && HalfDone(logouts[l], h)
    requires forall l :: l in logouts ==>
               Presentable(s, logouts[l].presented) && Ended(s.db, logouts[l])
    ensures Inv(s.(logouts := logouts))
  {
    forall h | LoggingOut(s.logouts, h) ensures LoggingOut(logouts, h) {
      var l :| l in s.logouts && HalfDone(s.logouts[l], h);
      assert HalfDone(logouts[l], h);
    }
  }

  // ----- the steps of a reset -----

  lemma ResetChanged(s: State, id: nat, r: Reset)
    requires Inv(s) && ResetValid(s.db, r)
    requires forall j :: j in s.resets && j != id ==> ResetsApart(r, s.resets[j])
    requires forall i :: i in s.txs ==> LocksApart(s.txs[i], r)
    ensures Inv(s.(resets := s.resets[id := r]))
  {
  }

  lemma ResetGone(s: State, id: nat)
    requires Inv(s)
    ensures Inv(s.(resets := s.resets - {id}))
  {
  }

  lemma ResetBeginKeeps(s: State, e: Event)
    requires Inv(s) && Enabled(s, e) && e.ResetBegin?
    ensures Inv(Apply(s, e))
  {
    ResetChanged(s, e.id, Reset(e.userId, e.keep, ResetBegun, {}, {}, map[], map[]));
  }

  /** The session of a token about to be revoked is covered with it. */
  lemma SessionsCovered(s: State, r: Reset, h: string)
    requires SessionsFollow(s.db, s.logouts) && TokenCovered(s.db, r, h) && OpenSession(s.db, h)
    ensures SessionCovered(s.db, r, h)
  {
  }

  lemma UpdateIsValid(s: State, e: Event, r: Reset)
    requires SessionsFollow(s.db, s.logouts) && ResetValid(s.db, r)
    requires (e.SeeTokens? && r.phase.ResetBegun?) || (e.RevokeTokens? && r.phase.TokensSeen?)
             || (e.SeeSessions? && r.phase.TokensDone?) || (e.RevokeSessions? && r.phase.SessionsSeen?)
    ensures ResetValid(s.db, AfterUpdate(s.db, r, e))
  {
    forall h | TokenCovered(s.db, r, h) && OpenSession(s.db, h) ensures SessionCovered(s.db, r, h) {
      SessionsCovered(s, r, h);
    }
  }

  lemma UpdateStaysApart(s: State, e: Event)
    requires Inv(s) && Enabled(s, e) && (e.SeeTokens? || e.RevokeTokens? || e.SeeSessions? || e.RevokeSessions?)
    ensures var r := AfterUpdate(s.db, s.resets[e.id], e);
            && (forall j :: j in s.resets && j != e.id ==> ResetsApart(r, s.resets[j]))
            && (forall i :: i in s.txs ==> LocksApart(s.txs[i], r))
  {
    var r, r' := s.resets[e.id], AfterUpdate(s.db, s.resets[e.id], e);
    forall j | j in s.resets && j != e.id ensures ResetsApart(r', s.resets[j]) {
      assert ResetsApart(r, s.resets[j]);
    }
    forall i | i in s.txs ensures LocksApart(s.txs[i], r') {
      assert LocksApart(s.txs[i], r);
    }
  }

  lemma UpdateKeeps(s: State, e: Event)
    requires Inv(s) && Enabled(s, e) && (e.SeeTokens? || e.RevokeTokens? || e.SeeSessions? || e.RevokeSessions?)
    ensures Inv(Apply(s, e))
  {
    UpdateStaysApart(s, e);
    UpdateIsValid(s, e, s.resets[e.id]);
    ResetChanged(s, e.id, AfterUpdate(s.db, s.resets[e.id], e));
  }

  lemma ResetFollows(db: Tables, logouts: map<nat, Logout>, r: Reset)
    requires SessionsFollow(db, logouts) && ResetValid(db, r) && r.phase == SessionsDone
    ensures SessionsFollow(ResetApplied(db, r), logouts)
  {
    var db' := ResetApplied(db, r);
    forall h | h in db'.tokens && h in db'.sessions && db'.tokens[h].revokedAt.Some? && db'.sessions[h].revokedAt.None?
      ensures LoggingOut(logouts, h)
    {
      assert OpenSession(db, h) && h !in r.sessions;
      assert h !in r.tokens;
    }
  }

  lemma ResetKeepsTxs(s: State, id: nat)
    requires Inv(s) && InResetPhase(s, id, SessionsDone)
    ensures TxsValid(ResetApplied(s.db, s.resets[id]), s.txs)
  {
    assert ResetValid(s.db, s.resets[id]);
    forall i | i in s.txs ensures LocksApart(s.txs[i], s.resets[id]) {
    }
    TxsKept(s.db, ResetApplied(s.db, s.resets[id]), s.txs);
  }

  lemma ResetKeepsOthers(s: State, id: nat)
    requires Inv(s) && InResetPhase(s, id, SessionsDone)
    ensures ResetsValid(ResetApplied(s.db, s.resets[id]), s.resets - {id})
  {
    var r := s.resets[id];
    assert ResetValid(s.db, r);
    forall j | j in s.resets - {id} ensures ResetValid(ResetApplied(s.db, r), s.resets[j]) {
      assert ResetValid(s.db, s.resets[j]) && ResetsApart(r, s.resets[j]);
      ResetKept(s.db, ResetApplied(s.db, r), s.resets[j]);
    }
  }

  lemma ResetCommitKeeps(s: State, e: Event)
    requires Inv(s) && Enabled(s, e) && e.ResetCommit?
    ensures Inv(Apply(s, e))
  {
    var r := s.resets[e.id];
    assert ResetValid(s.db, r);
    ResetKeepsTxs(s, e.id);
    ResetKeepsOthers(s, e.id);
    StillOneLive(s.db.tokens, ResetApplied(s.db, r).tokens, s.login);
    ResetFollows(s.db, s.logouts, r);
  }

  // ----- the other steps -----

  lemma SessionsRevokedKeeps(s: State, db': Tables)
    requires Inv(s) && TxsValid(db', s.txs) && ResetsValid(db', s.resets)
    requires db'.tokens == s.db.tokens && db'.sessions.Keys <= s.db.sessions.Keys
    requires forall h :: h in db'.sessions ==> SessionAged(s.db.sessions[h], db'.sessions[h])
    ensures Inv(s.(db := db'))
  {
  }

  predicate SessionAged(a: Session, b: Session) {
    b.userId == a.userId && (a.revokedAt.Some? ==> b.revokedAt.Some?)
  }

  lemma RevokeSessionKeeps(s: State, e: Event)
    requires Inv(s) && Enabled(s, e) && e.RevokeSession?
    ensures Inv(Apply(s, e))
  {
    FreeSessionRevoked(s, e.hash, e.at);
    SessionsRevokedKeeps(s, s.db.(sessions := SessionRevoked(s.db.sessions, e.hash, e.at)));
  }

  lemma CleanupKeeps(s: State, e: Event)
    requires Inv(s) && Enabled(s, e) && e.Cleanup?
    ensures Inv(Apply(s, e))
  {
    var db' := s.db.(sessions := s.db.sessions - e.gone);
    TxsKept(s.db, db', s.txs);
    ResetsKept(s.db, db', s.resets);
    SessionsRevokedKeeps(s, db');
  }

  predicate OfReset(e: Event) {
    e.ResetBegin? || e.SeeTokens? || e.RevokeTokens? || e.SeeSessions? || e.RevokeSessions? || e.ResetCommit? || e.ResetAbort?
  }

  lemma ResetStepKeeps(s: State, e: Event)
    requires Inv(s) && Enabled(s, e) && OfReset(e)
    ensures Inv(Apply(s, e))
  {
    match e
    case ResetBegin(_, _, _) => ResetBeginKeeps(s, e);
    case ResetCommit(_) => ResetCommitKeeps(s, e);
    case ResetAbort(id) => ResetGone(s, id);
    case _ => UpdateKeeps(s, e);
  }

  predicate OfRefresh(e: Event) {
    e.Begin? || e.RevokeOldToken? || e.RevokeOldSession? || e.CreateToken? || e.CreateSession? || e.Commit? || e.Abort?
  }

  lemma RefreshStepKeeps(s: State, e: Event)
    requires Inv(s) && Enabled(s, e) && OfRefresh(e)
    ensures Inv(Apply(s, e))
  {
    match e
    case Begin(_, _, _, _, _, _) => BeginKeeps(s, e);
    case RevokeOldToken(_) => RevokeOldTokenKeeps(s, e);
    case RevokeOldSession(_) => RevokeOldSessionKeeps(s, e);
    case Commit(id) => CommitKeeps(s, id);
    case Abort(id) => TxGone(s, id);
    case _ => CreateKeeps(s, e);
  }

  lemma StepKeeps(s: State, e: Event)
    requires Inv(s) && Enabled(s, e)
    ensures Inv(Apply(s, e))
  {
    if OfRefresh(e) {
      RefreshStepKeeps(s, e);
    } else if OfReset(e) {
      ResetStepKeeps(s, e);
    } else {
      match e
      case Login(_, _, _) => LoginKeeps(s, e);
      case LogoutBegin(_, _) => LogoutBeginKeeps(s, e);
      case LogoutToken(_, _) => LogoutTokenKeeps(s, e);
      case LogoutSession(_, _) => LogoutSessionKeeps(s, e);
      case LogoutEnd(_) => LogoutEndKeeps(s, e);
      case RevokeSession(_, _) => RevokeSessionKeeps(s, e);
      case Cleanup(_, _) => CleanupKeeps(s, e);
    }
  }
}
