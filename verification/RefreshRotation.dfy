/**
  Refresh-token rotation over every run: no token is consumed twice, a commit equals a lone refresh,
  one token at most is live per login, and a logout revokes what it was given.
 */
module RefreshRotation {
  import opened Wrappers
  import opened AuthTables
  import opened RotationSteps

  // ----- runs -----

  ghost predicate Next(s: State, e: Event, s': State) {
    Enabled(s, e) && s' == Apply(s, e)
  }

  function Initial(): State {
    State(Tables(map[], map[]), map[], map[], map[], map[])
  }

  ghost predicate IsRun(states: seq<State>, events: seq<Event>) {
    && |states| == |events| + 1
    && states[0] == Initial()
    && (forall i {:trigger Next(states[i], events[i], states[i + 1])} :: 0 <= i < |events| ==>
          Next(states[i], events[i], states[i + 1]))
  }

  lemma {:induction false} RunKeepsInv(states: seq<State>, events: seq<Event>, k: nat)
    requires IsRun(states, events) && k < |states|
    ensures Inv(states[k])
    decreases k
  {
    if k > 0 {
      var i := k - 1;
      RunKeepsInv(states, events, i);
      assert Next(states[i], events[i], states[i + 1]);
      StepKeeps(states[i], events[i]);
    }
  }

  /** However the calls interleave, one token at most is live in the chain of each login. */
  lemma OneLiveToken(states: seq<State>, events: seq<Event>, k: nat, h: string, h': string)
    requires IsRun(states, events) && k < |states|
    requires h in states[k].db.tokens && states[k].db.tokens[h].revokedAt == None
    requires h' in states[k].db.tokens && states[k].db.tokens[h'].revokedAt == None
    ensures h in states[k].login && h' in states[k].login
    ensures states[k].login[h] == states[k].login[h'] ==> h == h'
  {
    RunKeepsInv(states, events, k);
  }

  /** With no logout half done, the stored session of a revoked token is revoked, whatever else is under way. */
  lemma SessionsSettled(states: seq<State>, events: seq<Event>, k: nat, h: string)
    requires IsRun(states, events) && k < |states|
    requires forall l :: l in states[k].logouts && states[k].logouts[l].presented == h && states[k].logouts[l].tokenDone ==>
               states[k].logouts[l].sessionDone
    requires h in states[k].db.tokens && states[k].db.tokens[h].revokedAt.Some?
    ensures h in states[k].db.sessions ==> states[k].db.sessions[h].revokedAt.Some?
  {
    RunKeepsInv(states, events, k);
  }

  lemma WritesAreRotation(db: Tables, tx: Tx)
    requires TxValid(db, tx) && tx.phase.SessionCreated?
    ensures Usable(db, tx.presented, tx.at)
    ensures Tables(db.tokens + tx.tokens, db.sessions + tx.sessions)
              == Rotated(db, tx.userId, tx.presented, tx.drawn, tx.at, tx.expiresAt)
  {
    var after := Rotated(db, tx.userId, tx.presented, tx.drawn, tx.at, tx.expiresAt);
    assert db.tokens + tx.tokens == after.tokens;
    assert db.sessions + tx.sessions == after.sessions;
  }

  lemma CommitOfRun(states: seq<State>, events: seq<Event>, k: nat, id: nat)
    requires IsRun(states, events) && k < |events| && events[k] == Commit(id)
    ensures InPhase(states[k], id, SessionCreated) && states[k + 1] == AfterCommit(states[k], id)
    ensures TxValid(states[k].db, states[k].txs[id])
  {
    RunKeepsInv(states, events, k);
    assert Next(states[k], events[k], states[k + 1]);
  }

  /** A commit has exactly the effect of a refresh that runs on its own at that moment. */
  lemma CommitIsRefresh(states: seq<State>, events: seq<Event>, k: nat, id: nat)
    requires IsRun(states, events) && k < |events| && events[k] == Commit(id)
    ensures id in states[k].txs
    ensures var db, tx := states[k].db, states[k].txs[id];
            && Usable(db, tx.presented, tx.at)
            && states[k + 1].db == Rotated(db, tx.userId, tx.presented, tx.drawn, tx.at, tx.expiresAt)
            && tx.presented in db.tokens && db.tokens[tx.presented].revokedAt == None && tx.at < db.tokens[tx.presented].expiresAt
            && Exchanged(db, states[k + 1].db, tx.userId, tx.presented, tx.drawn, tx.at, tx.expiresAt)
  {
    CommitOfRun(states, events, k, id);
    WritesAreRotation(states[k].db, states[k].txs[id]);
  }

  predicate Spent(tokens: map<string, Token>, h: string) {
    h in tokens && tokens[h].revokedAt.Some?
  }

  lemma CommitKeepsSpent(db: Tables, tx: Tx, h: string)
    requires TxValid(db, tx) && Spent(db.tokens, h)
    ensures Spent(db.tokens + tx.tokens, h)
  {
  }

  lemma StaysSpent(s: State, e: Event, h: string)
    requires Enabled(s, e) && Spent(s.db.tokens, h)
    requires Inv(s)
    ensures Spent(Apply(s, e).db.tokens, h)
  {
    if e.Commit? {
      CommitKeepsSpent(s.db, s.txs[e.id], h);
    } else if e.ResetCommit? {
      assert ResetValid(s.db, s.resets[e.id]);
    }
  }

  lemma {:induction false} SpentForGood(states: seq<State>, events: seq<Event>, k: nat, n: nat, h: string)
    requires IsRun(states, events) && k <= n < |states| && Spent(states[k].db.tokens, h)
    ensures Spent(states[n].db.tokens, h)
    decreases n
  {
    if k < n {
      var i := n - 1;
      SpentForGood(states, events, k, i, h);
      RunKeepsInv(states, events, i);
      assert Next(states[i], events[i], states[i + 1]);
      StaysSpent(states[i], events[i], h);
    }
  }

  /** However refreshes interleave, a token is consumed at most once. */
  lemma ConsumedOnce(states: seq<State>, events: seq<Event>, k: nat, n: nat)
    requires IsRun(states, events) && k < n < |events| && events[k].Commit? && events[n].Commit?
    ensures events[k].id in states[k].txs && events[n].id in states[n].txs
    ensures states[k].txs[events[k].id].presented != states[n].txs[events[n].id].presented
  {
    CommitIsRefresh(states, events, k, events[k].id);
    CommitIsRefresh(states, events, n, events[n].id);
    var h := states[k].txs[events[k].id].presented;
    CommitOfRun(states, events, k, events[k].id);
    assert Spent(states[k + 1].db.tokens, h);
    SpentForGood(states, events, k + 1, n, h);
  }

  // ----- what a logout leaves -----

  /** When a logout answers, whatever ran beside it, the token and the session presented are revoked. */
  lemma LogoutEnds(states: seq<State>, events: seq<Event>, k: nat, id: nat)
    requires IsRun(states, events) && k < |events| && events[k] == LogoutEnd(id)
    ensures id in states[k].logouts
    ensures var db, h := states[k + 1].db, states[k].logouts[id].presented;
            (h in db.tokens ==> db.tokens[h].revokedAt.Some?) && (h in db.sessions ==> db.sessions[h].revokedAt.Some?)
  {
    RunKeepsInv(states, events, k);
    assert Next(states[k], events[k], states[k + 1]);
    assert Ended(states[k].db, states[k].logouts[id]);
  }

  /** Its two statements, one right after the other in either order, are the logout as one step. */
  lemma LogoutSteps(s: State, id: nat, presented: string, at: int)
    requires id in s.logouts && s.logouts[id] == Logout(presented, false, false)
    requires TokenFree(s, presented) && SessionFree(s, presented)
    ensures var t := Apply(s, LogoutToken(id, at));
            Enabled(t, LogoutSession(id, at)) && Apply(t, LogoutSession(id, at)).db == LoggedOut(s.db, presented, at)
    ensures var t := Apply(s, LogoutSession(id, at));
            Enabled(t, LogoutToken(id, at)) && Apply(t, LogoutToken(id, at)).db == LoggedOut(s.db, presented, at)
  {
  }
}
