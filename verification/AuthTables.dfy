/**
  Refresh tokens and sessions: the two tables, and the calls that issue, rotate and revoke them,
  each taken as one step.
 */
module AuthTables {
  import opened Wrappers

  datatype Token = Token(userId: string, expiresAt: int, revokedAt: Option<int>)

  datatype Session = Session(userId: string, expiresAt: int, revokedAt: Option<int>)

  /** Both tables are unique in the hash of the refresh token. */
  datatype Tables = Tables(tokens: map<string, Token>, sessions: map<string, Session>)

  /** `persistAuthSession`: a token and its session are created together. */
  function Persisted(db: Tables, userId: string, hash: string, expiresAt: int): Tables {
    Tables(db.tokens[hash := Token(userId, expiresAt, None)], db.sessions[hash := Session(userId, expiresAt, None)])
  }

  function TokenRevoked(tokens: map<string, Token>, hash: string, now: int): map<string, Token> {
    if hash in tokens then tokens[hash := tokens[hash].(revokedAt := Some(now))] else tokens
  }

  function SessionRevoked(sessions: map<string, Session>, hash: string, now: int): map<string, Session> {
    if hash in sessions then sessions[hash := sessions[hash].(revokedAt := Some(now))] else sessions
  }

  /** The condition of the rotation's update: stored, not revoked, not expired. */
  predicate Usable(db: Tables, presented: string, now: int) {
    presented in db.tokens && db.tokens[presented].revokedAt.None? && db.tokens[presented].expiresAt > now
  }

  /** What a successful refresh does. */
  function Rotated(db: Tables, userId: string, presented: string, drawn: string, now: int, expiresAt: int): Tables {
    Persisted(
      Tables(TokenRevoked(db.tokens, presented, now), SessionRevoked(db.sessions, presented, now)),
      userId, drawn, expiresAt)
  }

  /** The same in the rows: the old token and session are revoked, the new ones stored, the others as they were. */
  predicate Exchanged(db: Tables, db': Tables, userId: string, presented: string, drawn: string, now: int, expiresAt: int) {
    && db'.tokens.Keys == db.tokens.Keys + {drawn} && db'.sessions.Keys == db.sessions.Keys + {drawn}
    && db'.tokens[drawn] == Token(userId, expiresAt, None) && db'.sessions[drawn] == Session(userId, expiresAt, None)
    && (forall h :: h in db.tokens && h != drawn ==>
          db'.tokens[h] == if h == presented then db.tokens[h].(revokedAt := Some(now)) else db.tokens[h])
    && (forall h :: h in db.sessions && h != drawn ==>
          db'.sessions[h] == if h == presented then db.sessions[h].(revokedAt := Some(now)) else db.sessions[h])
  }

  function LoggedOut(db: Tables, presented: string, now: int): Tables {
    Tables(TokenRevoked(db.tokens, presented, now), SessionRevoked(db.sessions, presented, now))
  }

  /** The rows a password reset (`keep` None) or change revokes. */
  predicate Covered(rowUser: string, revokedAt: Option<int>, hash: string, userId: string, keep: Option<string>) {
    rowUser == userId && revokedAt.None? && keep != Some(hash)
  }

  function UserRevoked(db: Tables, userId: string, keep: Option<string>, now: int): Tables {
    Tables(
      map h | h in db.tokens ::
        if Covered(db.tokens[h].userId, db.tokens[h].revokedAt, h, userId, keep)
        then db.tokens[h].(revokedAt := Some(now)) else db.tokens[h],
      map h | h in db.sessions ::
        if Covered(db.sessions[h].userId, db.sessions[h].revokedAt, h, userId, keep)
        then db.sessions[h].(revokedAt := Some(now)) else db.sessions[h])
  }

  /**
    No unrevoked token of the user is left but the kept one; tokens revoked before, the kept one and
    those of other users are as they were.
   */
  predicate TokensEnded(t: map<string, Token>, t': map<string, Token>, userId: string, keep: Option<string>, now: int) {
    && t'.Keys == t.Keys
    && (forall h :: h in t' && t'[h].userId == userId && t'[h].revokedAt.None? ==> keep == Some(h))
    && (forall h :: h in t ==>
          || t'[h] == t[h]
          || (t[h].userId == userId && t[h].revokedAt == None && keep != Some(h) && t'[h] == t[h].(revokedAt := Some(now))))
  }

  /** The same of the sessions. */
  predicate SessionsEnded(t: map<string, Session>, t': map<string, Session>, userId: string, keep: Option<string>, now: int) {
    && t'.Keys == t.Keys
    && (forall h :: h in t' && t'[h].userId == userId && t'[h].revokedAt.None? ==> keep == Some(h))
    && (forall h :: h in t ==>
          || t'[h] == t[h]
          || (t[h].userId == userId && t[h].revokedAt == None && keep != Some(h) && t'[h] == t[h].(revokedAt := Some(now))))
  }

  /** These conditions fix both tables. */
  lemma UserRevokedIff(db: Tables, db': Tables, userId: string, keep: Option<string>, now: int)
    ensures TokensEnded(db.tokens, db'.tokens, userId, keep, now) && SessionsEnded(db.sessions, db'.sessions, userId, keep, now)
       <==> db' == UserRevoked(db, userId, keep, now)
  {
    var after := UserRevoked(db, userId, keep, now);
    if TokensEnded(db.tokens, db'.tokens, userId, keep, now) && SessionsEnded(db.sessions, db'.sessions, userId, keep, now) {
      assert db'.tokens == after.tokens;
      assert db'.sessions == after.sessions;
    }
  }

  predicate Disposable(s: Session, now: int) {
    s.expiresAt < now || s.revokedAt.Some?
  }

  /** The same rows are stored. */
  predicate RowsKept(db: Tables, db': Tables) {
    db'.tokens.Keys == db.tokens.Keys && db'.sessions.Keys == db.sessions.Keys
  }

  class AuthStore {
    var tokens: map<string, Token>
    var sessions: map<string, Session>

    constructor ()
      ensures State() == Tables(map[], map[])
    {
      tokens, sessions := map[], map[];
    }

    function State(): Tables
      reads this
    {
      Tables(tokens, sessions)
    }

    method PersistAuthSession(userId: string, hash: string, expiresAt: int)
      requires hash !in tokens && hash !in sessions
      modifies this
      ensures State() == Persisted(old(State()), userId, hash, expiresAt)
      ensures tokens == old(tokens)[hash := Token(userId, expiresAt, None)]
      ensures sessions == old(sessions)[hash := Session(userId, expiresAt, None)]
    {
      tokens := tokens[hash := Token(userId, expiresAt, None)];
      sessions := sessions[hash := Session(userId, expiresAt, None)];
    }

    /** The transaction of `refresh`, when nothing else runs. */
    method Refresh(userId: string, presented: string, drawn: string, now: int, expiresAt: int) returns (r: Result<()>)
      requires drawn !in tokens && drawn !in sessions
      modifies this
      ensures r.Ok? <==> old(Usable(State(), presented, now))
      ensures r.Ok? ==> State() == Rotated(old(State()), userId, presented, drawn, now, expiresAt)
      ensures r.Ok? <==> presented in old(tokens) && old(tokens)[presented].revokedAt == None
                         && now < old(tokens)[presented].expiresAt
      ensures r.Ok? ==> Exchanged(old(State()), State(), userId, presented, drawn, now, expiresAt)
      ensures r.Err? ==> r.error == NotAuthenticated && State() == old(State())
    {
      if !(presented in tokens && tokens[presented].revokedAt.None? && tokens[presented].expiresAt > now) {
        return Err(NotAuthenticated);
      }
      tokens := tokens[presented := tokens[presented].(revokedAt := Some(now))];
      if presented in sessions {
        sessions := sessions[presented := sessions[presented].(revokedAt := Some(now))];
      }
      PersistAuthSession(userId, drawn, expiresAt);
      r := Ok(());
    }

    /** Both rows under the hash of the presented token are revoked, and no other row changes. */
    method Logout(presented: string, now: int)
      modifies this
      ensures RowsKept(old(State()), State())
      ensures presented in tokens ==> tokens[presented] == old(tokens)[presented].(revokedAt := Some(now))
      ensures presented in sessions ==> sessions[presented] == old(sessions)[presented].(revokedAt := Some(now))
      ensures forall h :: h in tokens && h != presented ==> tokens[h] == old(tokens)[h]
      ensures forall h :: h in sessions && h != presented ==> sessions[h] == old(sessions)[h]
    {
      if presented in tokens {
        tokens := tokens[presented := tokens[presented].(revokedAt := Some(now))];
      }
      if presented in sessions {
        sessions := sessions[presented := sessions[presented].(revokedAt := Some(now))];
      }
    }

    method RevokeUser(userId: string, keep: Option<string>, now: int)
      modifies this
      ensures TokensEnded(old(tokens), tokens, userId, keep, now)
      ensures SessionsEnded(old(sessions), sessions, userId, keep, now)
    {
      var was := tokens;
      tokens := map h | h in was ::
        if Covered(was[h].userId, was[h].revokedAt, h, userId, keep) then was[h].(revokedAt := Some(now)) else was[h];
      var wasSessions := sessions;
      sessions := map h | h in wasSessions ::
        if Covered(wasSessions[h].userId, wasSessions[h].revokedAt, h, userId, keep)
        then wasSessions[h].(revokedAt := Some(now)) else wasSessions[h];
    }

    /** `revokeSession`, the session named by its token's hash. */
    method RevokeSession(userId: string, hash: string, now: int) returns (r: Result<()>)
      modifies this`sessions
      ensures r.Ok? <==> hash in old(sessions) && old(sessions)[hash].userId == userId && old(sessions)[hash].revokedAt.None?
      ensures r.Err? ==> r.error == (if hash in old(sessions) && old(sessions)[hash].userId != userId then NotAuthorized else NotFound)
      ensures r.Ok? ==> sessions == old(sessions)[hash := old(sessions)[hash].(revokedAt := Some(now))]
      ensures r.Err? ==> sessions == old(sessions)
    {
      if hash !in sessions {
        return Err(NotFound);
      }
      if sessions[hash].userId != userId {
        return Err(NotAuthorized);
      }
      if sessions[hash].revokedAt.Some? {
        return Err(NotFound);
      }
      sessions := sessions[hash := sessions[hash].(revokedAt := Some(now))];
      r := Ok(());
    }

    /** A session survives iff it is neither expired nor revoked, and then as it was. */
    method CleanupExpiredSessions(now: int) returns (deleted: set<string>)
      modifies this`sessions
      ensures forall h :: h in sessions <==>
                h in old(sessions) && old(sessions)[h].expiresAt >= now && old(sessions)[h].revokedAt.None?
      ensures forall h :: h in sessions ==> sessions[h] == old(sessions)[h]
      ensures deleted == old(sessions).Keys - sessions.Keys
    {
      var was := sessions;
      deleted := set h | h in was && Disposable(was[h], now);
      sessions := map h | h in was && !Disposable(was[h], now) :: was[h];
    }
  }
}
