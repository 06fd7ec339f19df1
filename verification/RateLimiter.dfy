/**
  The sliding-window rate limiter: a Redis sorted set per client, trimmed, extended, counted and
  given a time to live on each request. The whole request log, filtered, is what it stands for.
 */
module RateLimiter {
  import opened Wrappers
  import opened Orders

  /** `${now}:${Math.random()}`, with score `at`. */
  datatype Member = Member(at: nat, nonce: int)

  /** A Redis sorted set whose scores are the members' times, and the time its TTL elapses. */
  datatype SortedSet = SortedSet(members: set<Member>, expireAt: int)

  datatype Outcome = NextUnchecked | Next(remaining: nat) | TooManyRequests

  /** Redis as the middleware finds it: absent or failing, the request is let through unrecorded. */
  datatype Redis = NotConfigured | Failing | Up

  // ----- what the log says -----

  function Held(stored: Option<SortedSet>): set<Member> {
    if stored.Some? then stored.value.members else {}
  }

  /** The members left by `zremrangebyscore(key, 0, windowStart)`. */
  function Trimmed(members: set<Member>, windowStart: int): set<Member> {
    set m | m in members && !(0 <= m.at <= windowStart)
  }

  /** The logged requests in (now - windowMs, now]. */
  function Window(log: seq<Member>, now: int, windowMs: nat): set<Member> {
    set m | m in log && now - windowMs < m.at <= now
  }

  /** The logged requests less than `windowMs` older than `now`. */
  function Recent(log: seq<Member>, now: int, windowMs: nat): set<Member> {
    set m | m in log && m.at > now - windowMs
  }

  ghost predicate Chronological(log: seq<Member>) {
    Distinct(log) && forall i, j :: 0 <= i < j < |log| ==> log[i].at <= log[j].at
  }

  /**
    What Redis holds for a key whose recorded requests are `log`: the window of the log at its last
    request, or nothing if no request was recorded or a whole window has gone by since the last.
   */
  ghost predicate StandsFor(log: seq<Member>, stored: Option<SortedSet>, clock: int, windowMs: nat) {
    && Chronological(log)
    && if log == [] then stored.None?
       else
         var last := log[|log| - 1].at;
         && last <= clock
         && if stored.Some? then stored.value == SortedSet(Window(log, last, windowMs), last + windowMs)
            else last + windowMs <= clock
  }

  /** Whether the i-th request was let through: it and at most max - 1 others were in its window. */
  predicate Admitted(log: seq<Member>, max: nat, windowMs: nat, i: nat)
    requires i < |log|
  {
    |Window(log[..i + 1], log[i].at, windowMs)| <= max
  }

  function AdmittedMembers(log: seq<Member>, max: nat, windowMs: nat): set<Member> {
    if log == [] then {}
    else
      var before := AdmittedMembers(log[..|log| - 1], max, windowMs);
      if Admitted(log, max, windowMs, |log| - 1) then before + {log[|log| - 1]} else before
  }

  // ----- the middleware -----

  /** The limiter's state under one Redis key: `ratelimit:`, the route id and the client key. */
  class Limiter {
    const max: nat
    const windowMs: nat
    var stored: Option<SortedSet>

    /** Every request Redis recorded, rejected ones included, and the latest time seen. */
    ghost var log: seq<Member>
    ghost var clock: int
    /** The recorded requests that were let through. */
    ghost var passed: set<Member>

    ghost predicate Valid()
      reads this
    {
      && windowMs > 0
      && StandsFor(log, stored, clock, windowMs)
      && passed == AdmittedMembers(log, max, windowMs)
    }

    /** Options pass a positive window: a TTL of zero would delete the set on every request. */
    constructor (max: nat, windowMs: nat)
      requires windowMs > 0
      ensures Valid() && this.max == max && this.windowMs == windowMs
      ensures stored == None && log == [] && passed == {}
    {
      this.max, this.windowMs := max, windowMs;
      stored, log, passed, clock := None, [], {}, 0;
    }

    /** Redis drops the set once its time to live has elapsed. */
    method Expire(now: int)
      requires Valid() && clock <= now
      requires stored.Some? ==> stored.value.expireAt <= now
      modifies this
      ensures Valid() && clock == now && stored == None
      ensures log == old(log) && passed == old(passed)
    {
      stored := None;
      clock := now;
    }

    /** One request. `nonce` is the random part of the member; times do not go back. */
    method Handle(redis: Redis, now: nat, nonce: int) returns (outcome: Outcome)
      requires Valid() && clock <= now
      requires Member(now, nonce) !in log
      modifies this
      ensures Valid()
      ensures redis != Up ==>
        && outcome == NextUnchecked
        && stored == old(stored) && log == old(log) && passed == old(passed) && clock == old(clock)
      ensures redis == Up ==>
        var window := Window(log, now, windowMs);
        && log == old(log) + [Member(now, nonce)] && clock == now
        && stored == Some(SortedSet(window, now + windowMs))
        && outcome == (if |window| > max then TooManyRequests else Next(max - |window|))
        && passed == if outcome.Next? then old(passed) + {Member(now, nonce)} else old(passed)
      ensures redis == Up ==>
        var count := |Recent(old(log), now, windowMs)| + 1;
        outcome == if count <= max then Next(max - count) else TooManyRequests
    {
      if redis.NotConfigured? || redis.Failing? {
        return NextUnchecked;
      }
      var member := Member(now, nonce);
      AdmittedSnoc(log, member, max, windowMs);
      var requestCount;
      requestCount, stored := ExecPipeline(stored, member, windowMs, log, clock);
      log, clock := log + [member], now;
      if requestCount > max {
        return TooManyRequests;
      }
      passed := passed + {member};
      outcome := Next(max - requestCount);
    }

    /** At any time, the requests let through in the last window number at most `max`. */
    lemma PassedBound(t: int)
      requires Valid()
      ensures |set m | m in passed && t - windowMs < m.at <= t| <= max
    {
      AdmittedBound(log, max, windowMs, t);
    }
  }

  /**
    `zremrangebyscore`, `zadd`, `zcard` and `pexpire`, executed together on a set that stands for
    the requests `before`: it then stands for them and the new one, and counts the window.
   */
  method ExecPipeline(stored: Option<SortedSet>, member: Member, windowMs: nat,
                      ghost before: seq<Member>, ghost clock: int)
    returns (requestCount: nat, stored': Option<SortedSet>)
    requires windowMs > 0 && clock <= member.at && member !in before
    requires StandsFor(before, stored, clock, windowMs)
    ensures requestCount == |Window(before + [member], member.at, windowMs)|
    ensures stored' == Some(SortedSet(Window(before + [member], member.at, windowMs), member.at + windowMs))
    ensures StandsFor(before + [member], stored', member.at, windowMs)
    ensures requestCount == |Recent(before, member.at, windowMs)| + 1
  {
    var windowStart := member.at - windowMs;
    var members := Trimmed(Held(stored), windowStart);
    members := members + {member};
    TrimAndAdd(before, stored, clock, member, windowMs, members);
    WindowCount(before, stored, clock, member, windowMs);
    requestCount := |members|;
    stored' := Some(SortedSet(members, member.at + windowMs));
  }

  // ----- the sorted set stands for the window of the log -----

  /** Trimming what Redis stored, or starting afresh once it expired, and adding the new member. */
  lemma TrimAndAdd(before: seq<Member>, stored: Option<SortedSet>, clock: int, member: Member, windowMs: nat,
                   members: set<Member>)
    requires windowMs > 0 && clock <= member.at && member !in before
    requires StandsFor(before, stored, clock, windowMs)
    requires members == Trimmed(Held(stored), member.at - windowMs) + {member}
    ensures var log, now := before + [member], member.at;
            && members == Window(log, now, windowMs)
            && StandsFor(log, Some(SortedSet(Window(log, now, windowMs), now + windowMs)), now, windowMs)
  {
    var log, now := before + [member], member.at;
    assert forall m :: m in before ==> m.at <= now;
    forall m ensures m in Held(stored) && m.at > now - windowMs <==> m in before && now - windowMs < m.at <= now {
      if m in before {
        var i :| 0 <= i < |before| && before[i] == m;
        assert m.at <= before[|before| - 1].at;
      }
    }
  }

  /** The window at a new request counts it and the recorded requests less than `windowMs` older. */
  lemma WindowCount(before: seq<Member>, stored: Option<SortedSet>, clock: int, member: Member, windowMs: nat)
    requires windowMs > 0 && clock <= member.at && member !in before
    requires StandsFor(before, stored, clock, windowMs)
    ensures |Window(before + [member], member.at, windowMs)|
         == |Recent(before, member.at, windowMs)| + 1
  {
    var log := before + [member];
    forall m | m in before ensures m.at <= member.at {
      var i :| 0 <= i < |before| && before[i] == m;
      assert m.at <= before[|before| - 1].at;
    }
    assert Window(log, member.at, windowMs) == Recent(before, member.at, windowMs) + {member};
  }

  lemma AdmittedSnoc(before: seq<Member>, member: Member, max: nat, windowMs: nat)
    ensures AdmittedMembers(before + [member], max, windowMs)
         == if |Window(before + [member], member.at, windowMs)| <= max
            then AdmittedMembers(before, max, windowMs) + {member}
            else AdmittedMembers(before, max, windowMs)
  {
    var log := before + [member];
    assert log[..|log| - 1] == before && log[..|log|] == log;
  }

  lemma {:induction false} AdmittedMember(log: seq<Member>, max: nat, windowMs: nat, m: Member) returns (i: nat)
    requires m in AdmittedMembers(log, max, windowMs)
    ensures i < |log| && Admitted(log, max, windowMs, i) && log[i] == m
  {
    var n := |log| - 1;
    if Admitted(log, max, windowMs, n) && log[n] == m {
      i := n;
    } else {
      i := AdmittedMember(log[..n], max, windowMs, m);
      assert log[..n][..i + 1] == log[..i + 1];
    }
  }

  predicate AdmittedIn(log: seq<Member>, max: nat, windowMs: nat, t: int, i: nat) {
    i < |log| && t - windowMs < log[i].at <= t && Admitted(log, max, windowMs, i)
  }

  /** No window of length `windowMs`, wherever it ends, lets through more than `max` requests. */
  lemma AdmittedBound(log: seq<Member>, max: nat, windowMs: nat, t: int)
    requires Chronological(log)
    ensures |set m | m in AdmittedMembers(log, max, windowMs) && t - windowMs < m.at <= t| <= max
  {
    var admitted := set m | m in AdmittedMembers(log, max, windowMs) && t - windowMs < m.at <= t;
    if admitted != {} {
      var any :| any in admitted;
      var j := AdmittedMember(log, max, windowMs, any);
      assert AdmittedIn(log, max, windowMs, t, j);
      var i := LatestAdmitted(log, max, windowMs, t, |log|);
      var window := Window(log[..i + 1], log[i].at, windowMs);
      forall m | m in admitted ensures m in window {
        InLatestWindow(log, max, windowMs, t, i, m);
      }
      SubsetSize(admitted, window);
    }
  }

  lemma InLatestWindow(log: seq<Member>, max: nat, windowMs: nat, t: int, i: nat, m: Member)
    requires Chronological(log) && AdmittedIn(log, max, windowMs, t, i)
    requires forall k: nat :: i < k < |log| ==> !AdmittedIn(log, max, windowMs, t, k)
    requires m in AdmittedMembers(log, max, windowMs) && t - windowMs < m.at <= t
    ensures m in Window(log[..i + 1], log[i].at, windowMs)
  {
    var k := AdmittedMember(log, max, windowMs, m);
    assert AdmittedIn(log, max, windowMs, t, k);
    assert log[..i + 1][k] == m;
  }

  /** The last admitted request in the window ending at `t`, among the first `n`. */
  lemma {:induction false} LatestAdmitted(log: seq<Member>, max: nat, windowMs: nat, t: int, n: nat)
    returns (i: nat)
    requires n <= |log|
    requires exists k: nat :: k < n && AdmittedIn(log, max, windowMs, t, k)
    ensures i < n && AdmittedIn(log, max, windowMs, t, i)
    ensures forall k: nat :: i < k < n ==> !AdmittedIn(log, max, windowMs, t, k)
  {
    if AdmittedIn(log, max, windowMs, t, n - 1) {
      i := n - 1;
    } else {
      i := LatestAdmitted(log, max, windowMs, t, n - 1);
    }
  }

  /** After a full window without requests the next one is let through. */
  lemma QuietWindowAdmits(log: seq<Member>, max: nat, windowMs: nat, i: nat)
    requires Chronological(log) && i < |log| && max > 0
    requires i > 0 ==> log[i - 1].at + windowMs <= log[i].at
    ensures Admitted(log, max, windowMs, i)
  {
    var window := Window(log[..i + 1], log[i].at, windowMs);
    assert forall k :: 0 <= k < i ==> log[k].at <= log[i - 1].at;
    forall m | m in window ensures m == log[i] {
      var k :| 0 <= k < i + 1 && log[..i + 1][k] == m;
    }
    SubsetSize(window, {log[i]});
  }
}
