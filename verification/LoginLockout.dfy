/**
  Password login with its lockout counter, and the password reset that clears it.
 */
module LoginLockout {
  import opened Wrappers
  import opened AuthTables

  const MAX_FAILED_ATTEMPTS := 5
  const LOCK_DURATION_MS := 30 * 60 * 1000

  /** A live user; `passwordHash` is None for accounts that only sign in elsewhere. */
  datatype User = User(
    id: string,
    passwordHash: Option<string>,
    emailVerified: bool,
    totpEnabled: bool,
    failedAttempts: nat,
    lockedUntil: Option<int>)

  datatype ResetToken = ResetToken(email: string, expiresAt: int, usedAt: Option<int>)

  datatype LoginResult =
    | WrongCredentials
    | AccountLocked
    | EmailNotVerified
    | TwoFactorUnavailable
    | TwoFactorRequired
    | LoggedIn

  // ----- the lockout as a function of the user's row -----

  predicate IsLocked(u: User, now: int) {
    u.lockedUntil.Some? && u.lockedUntil.value > now
  }

  /** The row once an elapsed lock has been cleared. */
  function Unlocked(u: User, now: int): User {
    if u.lockedUntil.Some? && u.lockedUntil.value <= now then u.(failedAttempts := 0, lockedUntil := None) else u
  }

  predicate HasPassword(u: User) {
    u.passwordHash.Some? && u.passwordHash.value != ""
  }

  /** What happened to one user at one moment. */
  datatype Event =
    | Attempt(at: int, matches: bool, stored: bool)
    | PasswordReset(at: int, newHash: string)
    | PasswordSet(at: int, newHash: string)
    | ProfileChanged(at: int, emailVerified: bool, totpEnabled: bool)

  /** A login that reached the password comparison and failed it. */
  predicate IsFailure(u: User, e: Event) {
    e.Attempt? && !IsLocked(u, e.at) && HasPassword(u) && !e.matches
  }

  function ResultOf(u: User, e: Event): LoginResult
    requires e.Attempt?
  {
    if IsLocked(u, e.at) then AccountLocked
    else if !HasPassword(u) || !e.matches then WrongCredentials
    else if !u.emailVerified then EmailNotVerified
    else if !u.totpEnabled then LoggedIn
    else if e.stored then TwoFactorRequired
    else TwoFactorUnavailable
  }

  /** A successful login or a password reset: the events that clear the counter. */
  predicate IsClearing(u: User, e: Event) {
    match e
    case Attempt(_, _, _) => ResultOf(u, e) in {LoggedIn, TwoFactorRequired}
    case PasswordReset(_, _) => true
    case _ => false
  }

  function After(u: User, e: Event): User {
    match e
    case Attempt(at, _, _) =>
      if IsLocked(u, at) then u
      else
        var v := Unlocked(u, at);
        if IsFailure(u, e) then
          var n := v.failedAttempts + 1;
          v.(failedAttempts := n,
             lockedUntil := if n >= MAX_FAILED_ATTEMPTS then Some(at + LOCK_DURATION_MS) else v.lockedUntil)
        else if IsClearing(u, e) then v.(failedAttempts := 0, lockedUntil := None)
        else v
    case PasswordReset(_, newHash) => u.(passwordHash := Some(newHash), failedAttempts := 0, lockedUntil := None)
    case PasswordSet(_, newHash) => u.(passwordHash := Some(newHash))
    case ProfileChanged(_, emailVerified, totpEnabled) =>
      u.(emailVerified := emailVerified, totpEnabled := totpEnabled)
  }

  // ----- the same in the columns of the row -----

  /** The lock is later than now. */
  predicate LockHolds(u: User, now: int) {
    u.lockedUntil.Some? && now < u.lockedUntil.value
  }

  /** The account is not locked and has a password, which the given one compares with. */
  predicate PasswordFits(compare: (string, string) -> bool, u: User, password: string, now: int) {
    && (u.lockedUntil == None || u.lockedUntil.value <= now)
    && u.passwordHash.Some? && u.passwordHash.value != "" && compare(password, u.passwordHash.value)
  }

  /** The password is right, the address verified, and the second factor, where there is one, under way. */
  predicate Enters(compare: (string, string) -> bool, u: User, password: string, now: int, stored: bool) {
    PasswordFits(compare, u, password, now) && u.emailVerified && (u.totpEnabled ==> stored)
  }

  /** The password was compared and did not fit. */
  predicate Fails(compare: (string, string) -> bool, u: User, password: string, now: int) {
    && (u.lockedUntil == None || u.lockedUntil.value <= now)
    && u.passwordHash.Some? && u.passwordHash.value != "" && !compare(password, u.passwordHash.value)
  }

  /** The failures on record, those behind an elapsed lock no longer counted. */
  function Recorded(u: User, now: int): nat {
    if u.lockedUntil.Some? && u.lockedUntil.value <= now then 0 else u.failedAttempts
  }

  /** Nothing changes but counter and lock: a login clears them, the fifth failure locks for thirty minutes. */
  predicate Counts(compare: (string, string) -> bool, u: User, u': User, password: string, now: int, stored: bool) {
    && u' == u.(failedAttempts := u'.failedAttempts, lockedUntil := u'.lockedUntil)
    && (LockHolds(u, now) ==> u' == u)
    && (Enters(compare, u, password, now, stored) ==> u'.failedAttempts == 0 && u'.lockedUntil == None)
    && (Fails(compare, u, password, now) ==>
          && u'.failedAttempts == Recorded(u, now) + 1
          && u'.lockedUntil == if u'.failedAttempts >= 5 then Some(now + 30 * 60 * 1000) else None)
    && (!LockHolds(u, now) && !Enters(compare, u, password, now, stored) && !Fails(compare, u, password, now) ==>
          u'.failedAttempts == Recorded(u, now) && u'.lockedUntil == None)
  }

  // ----- the service -----

  class UserPasswordAuth {
    /** `bcrypt.compare` */
    const compare: (string, string) -> bool
    var users: map<string, User>
    var resetTokens: map<string, ResetToken>
    const auth: AuthStore

    constructor (compare: (string, string) -> bool, auth: AuthStore)
      ensures this.compare == compare && this.auth == auth && users == map[] && resetTokens == map[]
    {
      this.compare := compare;
      this.auth := auth;
      users, resetTokens := map[], map[];
    }

    /** `storeTwoFactorToken` says whether the two-factor token could be stored. */
    method Login(email: string, password: string, now: int, storeTwoFactorToken: bool) returns (r: LoginResult)
      modifies this`users
      ensures email !in old(users) ==> r == WrongCredentials && users == old(users)
      ensures email in old(users) ==>
        var u := old(users)[email];
        var e := Attempt(now, HasPassword(u) && compare(password, u.passwordHash.value), storeTwoFactorToken);
        r == ResultOf(u, e) && users == old(users)[email := After(u, e)]
      ensures r == AccountLocked <==> email in old(users) && LockHolds(old(users)[email], now)
      ensures r == LoggedIn <==> email in old(users) && PasswordFits(compare, old(users)[email], password, now)
                                 && old(users)[email].emailVerified && !old(users)[email].totpEnabled
      ensures r == TwoFactorRequired <==>
                && email in old(users) && PasswordFits(compare, old(users)[email], password, now)
                && old(users)[email].emailVerified && old(users)[email].totpEnabled && storeTwoFactorToken
      ensures r == TwoFactorUnavailable <==>
                && email in old(users) && PasswordFits(compare, old(users)[email], password, now)
                && old(users)[email].emailVerified && old(users)[email].totpEnabled && !storeTwoFactorToken
      ensures r == EmailNotVerified <==> email in old(users) && PasswordFits(compare, old(users)[email], password, now)
                                         && !old(users)[email].emailVerified
      ensures email in old(users) ==> users == old(users)[email := users[email]]
      ensures email in old(users) ==>
        Counts(compare, old(users)[email], users[email], password, now, storeTwoFactorToken)
      ensures email in old(users) && r !in {LoggedIn, TwoFactorRequired} ==>
        users[email].failedAttempts >= Recorded(old(users)[email], now)
    {
      if email !in users {
        return WrongCredentials;
      }
      var user := users[email];
      if user.lockedUntil.Some? && user.lockedUntil.value > now {
        assert users[email := user] == users;
        return AccountLocked;
      }
      if user.lockedUntil.Some? && user.lockedUntil.value <= now {
        user := user.(failedAttempts := 0, lockedUntil := None);
        users := users[email := user];
      }
      if user.passwordHash.None? || user.passwordHash.value == "" {
        assert users[email := user] == users;
        return WrongCredentials;
      }
      var isPasswordValid := compare(password, user.passwordHash.value);
      if !isPasswordValid {
        var updated := user.(failedAttempts := user.failedAttempts + 1);
        if updated.failedAttempts >= MAX_FAILED_ATTEMPTS {
          updated := updated.(lockedUntil := Some(now + LOCK_DURATION_MS));
        }
        users := users[email := updated];
        return WrongCredentials;
      }
      if !user.emailVerified {
        assert users[email := user] == users;
        return EmailNotVerified;
      }
      if user.totpEnabled && !storeTwoFactorToken {
        assert users[email := user] == users;
        return TwoFactorUnavailable;
      }
      if user.failedAttempts != 0 || user.lockedUntil != None {
        users := users[email := user.(failedAttempts := 0, lockedUntil := None)];
      }
      assert users[email := users[email]] == users;
      r := if user.totpEnabled then TwoFactorRequired else LoggedIn;
    }

    method ResetPassword(tokenHash: string, newHash: string, now: int) returns (r: Result<()>)
      requires tokenHash in resetTokens ==> resetTokens[tokenHash].email in users
      modifies this, auth
      ensures r.Ok? <==> (tokenHash in old(resetTokens) && old(resetTokens)[tokenHash].usedAt.None?
                          && now <= old(resetTokens)[tokenHash].expiresAt)
      ensures r.Err? ==> r.error == BadRequest && users == old(users) && resetTokens == old(resetTokens)
                            && auth.State() == old(auth.State())
      ensures r.Ok? ==>
        var t := old(resetTokens)[tokenHash];
        && resetTokens == old(resetTokens)[tokenHash := t.(usedAt := Some(now))]
        && users == old(users)[t.email := After(old(users)[t.email], PasswordReset(now, newHash))]
        && users[t.email] == old(users)[t.email].(passwordHash := Some(newHash), failedAttempts := 0, lockedUntil := None)
        && TokensEnded(old(auth.tokens), auth.tokens, old(users)[t.email].id, None, now)
        && SessionsEnded(old(auth.sessions), auth.sessions, old(users)[t.email].id, None, now)
    {
      if tokenHash !in resetTokens {
        return Err(BadRequest);
      }
      var token := resetTokens[tokenHash];
      if token.usedAt.Some? {
        return Err(BadRequest);
      }
      if token.expiresAt < now {
        return Err(BadRequest);
      }
      resetTokens := resetTokens[tokenHash := token.(usedAt := Some(now))];
      users := users[token.email := users[token.email].(
        passwordHash := Some(newHash), failedAttempts := 0, lockedUntil := None)];
      auth.RevokeUser(users[token.email].id, None, now);
      r := Ok(());
    }
  }

  // ----- runs -----

  /** No lock means fewer than five recorded failures; a lock was set by the fifth. */
  predicate CounterValid(u: User) {
    if u.lockedUntil.None? then u.failedAttempts < MAX_FAILED_ATTEMPTS
    else u.failedAttempts == MAX_FAILED_ATTEMPTS
  }

  /** `rows[i]` is the user's row before `events[i]`; times do not go back. */
  ghost predicate IsRun(rows: seq<User>, events: seq<Event>) {
    && |rows| == |events| + 1
    && CounterValid(rows[0])
    && (forall i :: 0 <= i < |events| ==> rows[i + 1] == After(rows[i], events[i]))
    && (forall i, j :: 0 <= i < j < |events| ==> events[i].at <= events[j].at)
  }

  lemma {:induction false} CounterStaysValid(rows: seq<User>, events: seq<Event>, k: nat)
    requires IsRun(rows, events) && k < |rows|
    ensures CounterValid(rows[k])
  {
    if k > 0 {
      CounterStaysValid(rows, events, k - 1);
      assert rows[k] == After(rows[k - 1], events[k - 1]);
    }
  }

  /** The number of failed comparisons among events lo..hi. */
  function Failures(rows: seq<User>, events: seq<Event>, lo: nat, hi: nat): nat
    requires lo <= hi <= |events| < |rows|
    decreases hi
  {
    if lo == hi then 0
    else Failures(rows, events, lo, hi - 1) + if IsFailure(rows[hi - 1], events[hi - 1]) then 1 else 0
  }

  /**
    Any stretch of events within half an hour that holds no successful login and no password reset
    holds at most five failed password comparisons.
   */
  lemma FailuresBounded(rows: seq<User>, events: seq<Event>, lo: nat, hi: nat, start: int)
    requires IsRun(rows, events) && lo <= hi <= |events|
    requires forall k :: lo <= k < hi ==> start <= events[k].at < start + LOCK_DURATION_MS
    requires forall k :: lo <= k < hi ==> !IsClearing(rows[k], events[k])
    ensures Failures(rows, events, lo, hi) <= MAX_FAILED_ATTEMPTS
  {
    FailuresCounted(rows, events, lo, hi, start);
    CounterStaysValid(rows, events, hi);
  }

  /**
    Within the stretch, the failures are recorded in the counter unless a lock from before it still
    holds; a lock set within it outlasts it.
   */
  lemma {:induction false} FailuresCounted(rows: seq<User>, events: seq<Event>, lo: nat, hi: nat, start: int)
    requires IsRun(rows, events) && lo <= hi <= |events|
    requires forall k :: lo <= k < hi ==> start <= events[k].at < start + LOCK_DURATION_MS
    requires forall k :: lo <= k < hi ==> !IsClearing(rows[k], events[k])
    ensures Failures(rows, events, lo, hi) == 0 ||
      (Failures(rows, events, lo, hi) <= rows[hi].failedAttempts &&
       (rows[hi].lockedUntil.Some? ==> rows[hi].lockedUntil.value >= start + LOCK_DURATION_MS))
    decreases hi
  {
    if lo < hi {
      FailuresCounted(rows, events, lo, hi - 1, start);
      CounterStaysValid(rows, events, hi - 1);
      assert rows[hi] == After(rows[hi - 1], events[hi - 1]);
    }
  }

  /**
    A failure locks the account exactly when four are on record before it (those behind an elapsed
    lock no longer count), and then for half an hour.
   */
  lemma FifthFailureLocks(u: User, e: Event)
    requires CounterValid(u) && IsFailure(u, e)
    ensures IsLocked(After(u, e), e.at) <==> Unlocked(u, e.at).failedAttempts == MAX_FAILED_ATTEMPTS - 1
    ensures forall later: int :: e.at <= later && IsLocked(After(u, e), e.at) ==>
      (IsLocked(After(u, e), later) <==> later < e.at + LOCK_DURATION_MS)
  {
  }
}
