/**
  Which tokens of its user a password reset or change leaves unrevoked.  Its update of the tokens
  waits for rows that a refresh has locked, but does not see the token that the refresh then commits.
 */
module ResetOutcome {
  import opened Wrappers
  import opened AuthTables
  import opened RefreshRotation
  import opened RotationSteps

  // ----- what a password reset leaves -----

  /** What a reset leaves in its transaction when nothing runs between its updates. */
  function Alone(db: Tables, userId: string, keep: Option<string>, at: int): Reset {
    var begun := Reset(userId, keep, ResetBegun, {}, {}, map[], map[]);
    var tokensDone := AfterUpdate(db, AfterUpdate(db, begun, SeeTokens(0)), RevokeTokens(0, at));
    AfterUpdate(db, AfterUpdate(db, tokensDone, SeeSessions(0)), RevokeSessions(0, at))
  }

  /** On its own it does what it does as one step. */
  lemma AloneIsRevokeUser(db: Tables, userId: string, keep: Option<string>, at: int)
    ensures ResetApplied(db, Alone(db, userId, keep, at)) == UserRevoked(db, userId, keep, at)
  {
    var r := Alone(db, userId, keep, at);
    assert (db.tokens + r.tokens) == UserRevoked(db, userId, keep, at).tokens;
    assert (db.sessions + r.sessions) == UserRevoked(db, userId, keep, at).sessions;
  }

  /** Unrevoked, of the user, and not the token to keep. */
  predicate Outlives(db: Tables, r: Reset, h: string) {
    h in db.tokens && db.tokens[h].revokedAt == None && db.tokens[h].userId == r.userId && r.keep != Some(h)
  }

  lemma ResetRevokes(db: Tables, r: Reset, h: string)
    requires ResetValid(db, r) && r.phase == SessionsDone
    ensures Outlives(ResetApplied(db, r), r, h) <==> Outlives(db, r, h) && h !in r.before
  {
    assert Outlives(db, r, h) ==> TokenCovered(db, r, h);
  }

  /**
    A reset leaves unrevoked just those tokens of its user that a login or refresh has committed
    since the reset's first update started.
   */
  lemma ResetLeaves(states: seq<State>, events: seq<Event>, k: nat, id: nat, h: string)
    requires IsRun(states, events) && k < |events| && events[k] == ResetCommit(id)
    ensures id in states[k].resets
    ensures var r := states[k].resets[id];
            Outlives(states[k + 1].db, r, h) <==> Outlives(states[k].db, r, h) && h !in r.before
  {
    RunKeepsInv(states, events, k);
    assert Next(states[k], events[k], states[k + 1]);
    assert ResetValid(states[k].db, states[k].resets[id]);
    ResetRevokes(states[k].db, states[k].resets[id], h);
  }

  /** It leaves alone the kept token, those of other users and those revoked before, and their sessions. */
  lemma ResetSpares(states: seq<State>, events: seq<Event>, k: nat, id: nat, h: string)
    requires IsRun(states, events) && k < |events| && events[k] == ResetCommit(id)
    ensures id in states[k].resets
    ensures var r, t := states[k].resets[id], states[k].db.tokens;
            h in t && (t[h].userId != r.userId || r.keep == Some(h) || t[h].revokedAt.Some?) ==>
              h in states[k + 1].db.tokens && states[k + 1].db.tokens[h] == t[h]
    ensures var r, t := states[k].resets[id], states[k].db.sessions;
            h in t && (t[h].userId != r.userId || r.keep == Some(h) || t[h].revokedAt.Some?) ==>
              h in states[k + 1].db.sessions && states[k + 1].db.sessions[h] == t[h]
  {
    RunKeepsInv(states, events, k);
    assert Next(states[k], events[k], states[k + 1]);
    assert ResetValid(states[k].db, states[k].resets[id]);
  }

  ghost predicate NoneOutlives(db: Tables, r: Reset) {
    forall h {:trigger Outlives(db, r, h)} :: !Outlives(db, r, h)
  }

  /** No login or refresh of the user has committed since the first update started. */
  ghost predicate NoneSince(db: Tables, r: Reset) {
    forall h {:trigger Outlives(db, r, h)} :: Outlives(db, r, h) ==> h in r.before
  }

  /** So it ends all of them iff each token it finds unrevoked was stored when its first update started. */
  lemma ResetEndsAllIff(states: seq<State>, events: seq<Event>, k: nat, id: nat)
    requires IsRun(states, events) && k < |events| && events[k] == ResetCommit(id)
    ensures id in states[k].resets
    ensures NoneOutlives(states[k + 1].db, states[k].resets[id]) <==> NoneSince(states[k].db, states[k].resets[id])
  {
    assert Next(states[k], events[k], states[k + 1]);
    var r := states[k].resets[id];
    if NoneOutlives(states[k + 1].db, r) {
      forall h | Outlives(states[k].db, r, h) ensures h in r.before {
        ResetLeaves(states, events, k, id, h);
        assert !Outlives(states[k + 1].db, r, h);
      }
    }
    if NoneSince(states[k].db, r) {
      forall h {:trigger Outlives(states[k + 1].db, r, h)} ensures !Outlives(states[k + 1].db, r, h) {
        ResetLeaves(states, events, k, id, h);
      }
    }
  }

  // ----- a refresh that outlives a reset -----

  function Last(states: seq<State>): State
    requires states != []
  {
    states[|states| - 1]
  }

  lemma Then(states: seq<State>, events: seq<Event>, e: Event, s': State)
    returns (states': seq<State>, events': seq<Event>)
    requires IsRun(states, events) && Next(Last(states), e, s')
    ensures IsRun(states', events') && Last(states') == s' && events' == events + [e]
  {
    states', events' := states + [s'], events + [e];
    forall i | 0 <= i < |events'| ensures Next(states'[i], events'[i], states'[i + 1]) {
      assert i < |events| ==> Next(states[i], events[i], states[i + 1]);
    }
  }

  const LOGGED_IN := Tables(map["a" := Token("u", 100, None)], map["a" := Session("u", 100, None)])

  const REFRESHED := Tables(map["a" := Token("u", 100, Some(1)), "b" := Token("u", 100, None)],
                            map["a" := Session("u", 100, Some(1)), "b" := Session("u", 100, None)])

  const FIRST := map["a" := "a"]
  const BOTH := map["a" := "a", "b" := "a"]

  /** The state after the login and `n` statements of the refresh. */
  function Refreshing(phase: Phase, tokens: map<string, Token>, sessions: map<string, Session>): State {
    State(LOGGED_IN, map[0 := Tx("u", "a", "b", 1, 100, phase, tokens, sessions)], map[], map[], FIRST)
  }

  lemma FirstStatements()
    ensures Next(Initial(), Login("u", "a", 100), State(LOGGED_IN, map[], map[], map[], FIRST))
    ensures Next(State(LOGGED_IN, map[], map[], map[], FIRST), Begin(0, "u", "a", "b", 1, 100), Refreshing(Begun, map[], map[]))
    ensures Next(Refreshing(Begun, map[], map[]), RevokeOldToken(0),
                 Refreshing(OldTokenDone, map["a" := REFRESHED.tokens["a"]], map[]))
  {
  }

  lemma LastStatements()
    ensures Next(Refreshing(OldTokenDone, map["a" := REFRESHED.tokens["a"]], map[]), RevokeOldSession(0),
                 Refreshing(OldSessionDone, map["a" := REFRESHED.tokens["a"]], map["a" := REFRESHED.sessions["a"]]))
    ensures Next(Refreshing(OldSessionDone, map["a" := REFRESHED.tokens["a"]], map["a" := REFRESHED.sessions["a"]]),
                 CreateToken(0), Refreshing(TokenCreated, REFRESHED.tokens, map["a" := REFRESHED.sessions["a"]]))
    ensures Next(Refreshing(TokenCreated, REFRESHED.tokens, map["a" := REFRESHED.sessions["a"]]),
                 CreateSession(0), Refreshing(SessionCreated, REFRESHED.tokens, REFRESHED.sessions))
  {
  }

  lemma RefreshUnderWay() returns (states: seq<State>, events: seq<Event>)
    ensures IsRun(states, events) && Last(states) == Refreshing(SessionCreated, REFRESHED.tokens, REFRESHED.sessions)
  {
    FirstStatements();
    LastStatements();
    states, events := [Initial()], [];
    states, events := Then(states, events, Login("u", "a", 100), State(LOGGED_IN, map[], map[], map[], FIRST));
    states, events := Then(states, events, Begin(0, "u", "a", "b", 1, 100), Refreshing(Begun, map[], map[]));
    states, events := Then(states, events, RevokeOldToken(0),
                           Refreshing(OldTokenDone, map["a" := REFRESHED.tokens["a"]], map[]));
    states, events := Then(states, events, RevokeOldSession(0),
      Refreshing(OldSessionDone, map["a" := REFRESHED.tokens["a"]], map["a" := REFRESHED.sessions["a"]]));
    states, events := Then(states, events, CreateToken(0),
      Refreshing(TokenCreated, REFRESHED.tokens, map["a" := REFRESHED.sessions["a"]]));
    states, events := Then(states, events, CreateSession(0),
      Refreshing(SessionCreated, REFRESHED.tokens, REFRESHED.sessions));
  }

  function Resetting(phase: ResetPhase, before: set<string>, seen: set<string>, sessions: map<string, Session>): Reset {
    Reset("u", None, phase, before, seen, map[], sessions)
  }

  /** While the refresh has yet to commit, and after. */
  function Beside(r: Reset): State {
    Refreshing(SessionCreated, REFRESHED.tokens, REFRESHED.sessions).(resets := map[0 := r])
  }

  function Behind(r: Reset): State {
    State(REFRESHED, map[], map[0 := r], map[], BOTH)
  }

  const ENDED := map["b" := Session("u", 100, Some(2))]

  lemma SeenBeforeCommit()
    ensures Next(Refreshing(SessionCreated, REFRESHED.tokens, REFRESHED.sessions), ResetBegin(0, "u", None),
                 Beside(Resetting(ResetBegun, {}, {}, map[])))
    ensures Next(Beside(Resetting(ResetBegun, {}, {}, map[])), SeeTokens(0),
                 Beside(Resetting(TokensSeen, {"a"}, {"a"}, map[])))
  {
    assert AfterUpdate(LOGGED_IN, Resetting(ResetBegun, {}, {}, map[]), SeeTokens(0))
        == Resetting(TokensSeen, {"a"}, {"a"}, map[]);
  }

  lemma CommitBesideReset(r: Reset)
    ensures Next(Beside(r), Commit(0), Behind(r))
  {
    assert LOGGED_IN.tokens + REFRESHED.tokens == REFRESHED.tokens;
    assert LOGGED_IN.sessions + REFRESHED.sessions == REFRESHED.sessions;
  }

  /** The update of the tokens finds the one it had seen revoked, and has not seen the new one. */
  lemma TokensAfterCommit()
    ensures Next(Behind(Resetting(TokensSeen, {"a"}, {"a"}, map[])), RevokeTokens(0, 2),
                 Behind(Resetting(TokensDone, {"a"}, {"a"}, map[])))
  {
    assert AfterUpdate(REFRESHED, Resetting(TokensSeen, {"a"}, {"a"}, map[]), RevokeTokens(0, 2))
        == Resetting(TokensDone, {"a"}, {"a"}, map[]);
  }

  lemma SessionsSeenAfterCommit()
    ensures Next(Behind(Resetting(TokensDone, {"a"}, {"a"}, map[])), SeeSessions(0),
                 Behind(Resetting(SessionsSeen, {"a"}, {"b"}, map[])))
  {
    assert AfterUpdate(REFRESHED, Resetting(TokensDone, {"a"}, {"a"}, map[]), SeeSessions(0))
        == Resetting(SessionsSeen, {"a"}, {"b"}, map[]);
  }

  lemma SessionsAfterCommit()
    ensures Next(Behind(Resetting(SessionsSeen, {"a"}, {"b"}, map[])), RevokeSessions(0, 2),
                 Behind(Resetting(SessionsDone, {"a"}, {"b"}, ENDED)))
  {
    assert AfterUpdate(REFRESHED, Resetting(SessionsSeen, {"a"}, {"b"}, map[]), RevokeSessions(0, 2))
        == Resetting(SessionsDone, {"a"}, {"b"}, ENDED);
  }

  const AFTER_RESET := State(REFRESHED.(sessions := REFRESHED.sessions + ENDED), map[], map[], map[], BOTH)

  lemma ResetCommitsLast()
    ensures Next(Behind(Resetting(SessionsDone, {"a"}, {"b"}, ENDED)), ResetCommit(0), AFTER_RESET)
  {
    assert REFRESHED.tokens + map[] == REFRESHED.tokens;
  }

  /**
    A run in which a refresh commits between the two moments of the reset's first update: the
    refreshed token is still good after the reset, though its session is revoked.
   */
  lemma RefreshOutlivesReset() returns (states: seq<State>, events: seq<Event>)
    ensures IsRun(states, events) && events != [] && events[|events| - 1] == ResetCommit(0)
    ensures Usable(Last(states).db, "b", 3) && Last(states).db.tokens["b"].userId == "u"
    ensures !OpenSession(Last(states).db, "b")
  {
    states, events := RefreshUnderWay();
    SeenBeforeCommit();
    states, events := Then(states, events, ResetBegin(0, "u", None), Beside(Resetting(ResetBegun, {}, {}, map[])));
    states, events := Then(states, events, SeeTokens(0), Beside(Resetting(TokensSeen, {"a"}, {"a"}, map[])));
    CommitBesideReset(Resetting(TokensSeen, {"a"}, {"a"}, map[]));
    states, events := Then(states, events, Commit(0), Behind(Resetting(TokensSeen, {"a"}, {"a"}, map[])));
    TokensAfterCommit();
    states, events := Then(states, events, RevokeTokens(0, 2), Behind(Resetting(TokensDone, {"a"}, {"a"}, map[])));
    SessionsSeenAfterCommit();
    states, events := Then(states, events, SeeSessions(0), Behind(Resetting(SessionsSeen, {"a"}, {"b"}, map[])));
    SessionsAfterCommit();
    states, events := Then(states, events, RevokeSessions(0, 2), Behind(Resetting(SessionsDone, {"a"}, {"b"}, ENDED)));
    ResetCommitsLast();
    states, events := Then(states, events, ResetCommit(0), AFTER_RESET);
  }
}
