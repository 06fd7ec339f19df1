/**
  Edit locks: a lease on a test suite or test case, kept alive by heartbeats, dropped by its owner,
  by force, or once it has expired.
 */
module EditLocks {
  import opened Wrappers

  const LOCK_DURATION := 90_000

  datatype TargetType = Suite | Case

  datatype Target = Target(targetType: TargetType, targetId: string)

  datatype Lock = Lock(target: Target, owner: string, expiresAt: int)

  /** The lock table, by lock id. */
  type Locks = map<string, Lock>

  datatype LockError =
    | Conflict(heldBy: string, until: int)
    | NotFound
    | NotOwner

  datatype LockResult = Held(id: string, lock: Lock) | Failed(error: LockError)

  datatype LockStatus = Unlocked | Locked(id: string, lock: Lock)

  /** The unique constraint on the target. */
  ghost predicate OnePerTarget(t: Locks) {
    forall i, j :: i in t && j in t && t[i].target == t[j].target ==> i == j
  }

  function FindByTarget(t: Locks, target: Target): (r: Option<string>)
    requires OnePerTarget(t)
    ensures r.Some? ==> r.value in t && t[r.value].target == target
    ensures forall id :: id in t && t[id].target == target ==> r == Some(id)
  {
    if id :| id in t && t[id].target == target then Some(id) else None
  }

  // ----- the operations on the table -----

  datatype Op =
    | Acquire(target: Target, actor: string, newId: string, at: int)
    | Heartbeat(id: string, actor: string, at: int)
    | Release(id: string, actor: string, at: int)
    | ForceRelease(id: string, at: int)
    | ProcessExpired(at: int)

  function Extended(t: Locks, id: string, now: int): Locks
    requires id in t
  {
    t[id := t[id].(expiresAt := now + LOCK_DURATION)]
  }

  function AfterHeartbeat(t: Locks, id: string, actor: string, now: int): Locks {
    if id in t && t[id].owner == actor then Extended(t, id, now) else t
  }

  function AfterAcquire(t: Locks, target: Target, actor: string, newId: string, now: int): Locks
    requires OnePerTarget(t)
  {
    var found := FindByTarget(t, target);
    if found.Some? && t[found.value].expiresAt > now then AfterHeartbeat(t, found.value, actor, now)
    else
      var without := if found.Some? then t - {found.value} else t;
      without[newId := Lock(target, actor, now + LOCK_DURATION)]
  }

  function AfterRelease(t: Locks, id: string, actor: string): Locks {
    if id in t && t[id].owner == actor then t - {id} else t
  }

  function AfterProcessExpired(t: Locks, now: int): Locks {
    map id | id in t && !(t[id].expiresAt < now) :: t[id]
  }

  function Step(t: Locks, op: Op): (t': Locks)
    requires OnePerTarget(t)
    ensures OnePerTarget(t')
  {
    match op
    case Acquire(target, actor, newId, now) => AfterAcquire(t, target, actor, newId, now)
    case Heartbeat(id, actor, now) => AfterHeartbeat(t, id, actor, now)
    case Release(id, actor, _) => AfterRelease(t, id, actor)
    case ForceRelease(id, _) => t - {id}
    case ProcessExpired(now) => AfterProcessExpired(t, now)
  }

  // ----- what the operations answer -----

  function HeartbeatResult(t: Locks, id: string, actor: string, now: int): LockResult {
    if id !in t then Failed(LockError.NotFound)
    else if t[id].owner != actor then Failed(NotOwner)
    else Held(id, t[id].(expiresAt := now + LOCK_DURATION))
  }

  function AcquireResult(t: Locks, target: Target, actor: string, newId: string, now: int): LockResult
    requires OnePerTarget(t)
  {
    var found := FindByTarget(t, target);
    if found.Some? && t[found.value].expiresAt > now then
      var held := t[found.value];
      if held.owner == actor then HeartbeatResult(t, found.value, actor, now)
      else Failed(LockError.Conflict(held.owner, held.expiresAt))
    else Held(newId, Lock(target, actor, now + LOCK_DURATION))
  }

  function StatusOf(t: Locks, target: Target, now: int): LockStatus
    requires OnePerTarget(t)
  {
    var found := FindByTarget(t, target);
    if found.None? || t[found.value].expiresAt <= now then Unlocked else Locked(found.value, t[found.value])
  }

  /** The row is the target's, and it has not expired. */
  predicate IsHeld(t: Locks, target: Target, id: string, now: int) {
    id in t && t[id].target == target && now < t[id].expiresAt
  }

  // ----- the service -----

  class EditLockService {
    var locks: Locks

    ghost predicate Valid()
      reads this
    {
      OnePerTarget(locks)
    }

    constructor ()
      ensures Valid() && locks == map[]
    {
      locks := map[];
    }

    method AcquireLock(target: Target, actor: string, newId: string, now: int) returns (r: LockResult)
      requires Valid()
      modifies this
      ensures Valid()
      ensures locks == Step(old(locks), Acquire(target, actor, newId, now))
      ensures r == AcquireResult(old(locks), target, actor, newId, now)
      ensures r.Held? ==> r.id in locks && locks[r.id] == r.lock && r.lock == Lock(target, actor, now + 90_000)
      ensures forall id :: IsHeld(old(locks), target, id, now) && old(locks)[id].owner != actor ==>
        r == Failed(LockError.Conflict(old(locks)[id].owner, old(locks)[id].expiresAt)) && locks == old(locks)
      ensures forall id :: IsHeld(old(locks), target, id, now) && old(locks)[id].owner == actor ==>
        r.Held? && r.id == id && locks == old(locks)[id := Lock(target, actor, now + 90_000)]
      ensures (forall id :: !IsHeld(old(locks), target, id, now)) ==>
        && r == Held(newId, Lock(target, actor, now + 90_000))
        && (forall id :: id in locks <==> id == newId || (id in old(locks) && old(locks)[id].target != target))
        && (forall id :: id in locks && id != newId ==> locks[id] == old(locks)[id])
    {
      var existing := FindByTarget(locks, target);
      if existing.Some? {
        var lock := locks[existing.value];
        if lock.expiresAt > now {
          assert IsHeld(locks, target, existing.value, now);
          if lock.owner == actor {
            r := UpdateHeartbeat(existing.value, actor, now);
            return;
          }
          return Failed(LockError.Conflict(lock.owner, lock.expiresAt));
        }
        locks := locks - {existing.value};
      }
      var lock := Lock(target, actor, now + LOCK_DURATION);
      locks := locks[newId := lock];
      assert locks == Step(old(locks), Acquire(target, actor, newId, now));
      r := Held(newId, lock);
    }

    method GetLockStatus(target: Target, now: int) returns (r: LockStatus)
      requires Valid()
      ensures r == StatusOf(locks, target, now)
      ensures forall id :: IsHeld(locks, target, id, now) ==> r == Locked(id, locks[id])
      ensures (forall id :: !IsHeld(locks, target, id, now)) ==> r == Unlocked
    {
      var found := FindByTarget(locks, target);
      if found.None? || locks[found.value].expiresAt <= now {
        return Unlocked;
      }
      assert IsHeld(locks, target, found.value, now);
      r := Locked(found.value, locks[found.value]);
    }

    method UpdateHeartbeat(id: string, actor: string, now: int) returns (r: LockResult)
      requires Valid()
      modifies this
      ensures Valid()
      ensures locks == Step(old(locks), Heartbeat(id, actor, now))
      ensures r == HeartbeatResult(old(locks), id, actor, now)
      ensures id !in old(locks) ==> r == Failed(LockError.NotFound) && locks == old(locks)
      ensures id in old(locks) && old(locks)[id].owner != actor ==> r == Failed(NotOwner) && locks == old(locks)
      ensures id in old(locks) && old(locks)[id].owner == actor ==>
        && locks == old(locks)[id := Lock(old(locks)[id].target, actor, now + 90_000)]
        && r == Held(id, locks[id])
    {
      if id !in locks {
        return Failed(LockError.NotFound);
      }
      if locks[id].owner != actor {
        return Failed(NotOwner);
      }
      locks := locks[id := locks[id].(expiresAt := now + LOCK_DURATION)];
      r := Held(id, locks[id]);
    }

    method ReleaseLock(id: string, actor: string, ghost now: int) returns (error: Option<LockError>)
      requires Valid()
      modifies this
      ensures Valid()
      ensures locks == Step(old(locks), Release(id, actor, now))
      ensures error == if id in old(locks) && old(locks)[id].owner != actor then Some(NotOwner) else None
      ensures locks == if id in old(locks) && old(locks)[id].owner == actor then old(locks) - {id} else old(locks)
    {
      if id !in locks {
        return None;
      }
      if locks[id].owner != actor {
        return Some(NotOwner);
      }
      locks := locks - {id};
      error := None;
    }

    method ForceReleaseLock(id: string, ghost now: int) returns (released: Option<Lock>)
      requires Valid()
      modifies this
      ensures Valid()
      ensures locks == Step(old(locks), ForceRelease(id, now))
      ensures released == if id in old(locks) then Some(old(locks)[id]) else None
      ensures locks == old(locks) - {id}
    {
      if id !in locks {
        assert locks - {id} == locks;
        return None;
      }
      released := Some(locks[id]);
      locks := locks - {id};
    }

    method ProcessExpiredLocks(now: int) returns (expired: Locks)
      requires Valid()
      modifies this
      ensures Valid()
      ensures locks == Step(old(locks), Op.ProcessExpired(now))
      ensures expired.Keys !! locks.Keys && expired + locks == old(locks)
      ensures forall id :: id in expired ==> expired[id].expiresAt < now
      ensures forall id :: id in locks ==> locks[id].expiresAt >= now
    {
      expired := map id | id in locks && locks[id].expiresAt < now :: locks[id];
      locks := locks - expired.Keys;
    }
  }

  // ----- runs -----

  ghost predicate Next(t: Locks, op: Op, t': Locks) {
    OnePerTarget(t) ==> t' == Step(t, op)
  }

  /** A run from an empty table: time never goes back, and drawn lock ids are all different. */
  ghost predicate IsRun(tables: seq<Locks>, ops: seq<Op>) {
    && |tables| == |ops| + 1 && tables[0] == map[]
    && (forall i {:trigger Next(tables[i], ops[i], tables[i + 1])} :: 0 <= i < |ops| ==> Next(tables[i], ops[i], tables[i + 1]))
    && (forall i, j :: 0 <= i < j < |ops| ==> ops[i].at <= ops[j].at)
    && (forall i, j :: 0 <= i < j < |ops| && ops[i].Acquire? && ops[j].Acquire? ==> ops[i].newId != ops[j].newId)
  }

  lemma {:induction false} OneLockPerTarget(tables: seq<Locks>, ops: seq<Op>, k: nat)
    requires IsRun(tables, ops) && k < |tables|
    ensures OnePerTarget(tables[k])
    decreases k
  {
    if k > 0 {
      var i := k - 1;
      OneLockPerTarget(tables, ops, i);
      assert Next(tables[i], ops[i], tables[i + 1]);
    }
  }

  lemma StepOfRun(tables: seq<Locks>, ops: seq<Op>, i: nat)
    requires IsRun(tables, ops) && i < |ops|
    ensures OnePerTarget(tables[i]) && tables[i + 1] == Step(tables[i], ops[i])
  {
    OneLockPerTarget(tables, ops, i);
    assert Next(tables[i], ops[i], tables[i + 1]);
  }

  /** Exactly what takes a lock row away. */
  lemma RemovedIff(t: Locks, op: Op, id: string)
    requires OnePerTarget(t) && id in t
    requires op.Acquire? ==> op.newId !in t
    ensures id !in Step(t, op) <==>
              || op == Release(id, t[id].owner, op.at)
              || op == ForceRelease(id, op.at)
              || (op.Acquire? && op.target == t[id].target && t[id].expiresAt <= op.at)
              || (op.ProcessExpired? && t[id].expiresAt < op.at)
  {
  }

  /** The step takes the lock away from `owner` before it expires. */
  predicate GivesUp(op: Op, id: string, owner: string) {
    op == Release(id, owner, op.at) || op == ForceRelease(id, op.at)
  }

  /** `id` is `owner`'s lock on the target, and it lasts until `until` at least. */
  ghost predicate Holds(t: Locks, id: string, target: Target, owner: string, until: int) {
    id in t && t[id].target == target && t[id].owner == owner && t[id].expiresAt >= until
  }

  /** An unexpired lock goes only by its owner's release or by force, and no renewal shortens it. */
  lemma HeldThroughStep(t: Locks, op: Op, id: string, target: Target, owner: string, until: int)
    requires OnePerTarget(t) && Holds(t, id, target, owner, until)
    requires op.at < until <= op.at + LOCK_DURATION && !GivesUp(op, id, owner)
    requires op.Acquire? ==> op.newId !in t
    ensures Holds(Step(t, op), id, target, owner, until)
  {
  }

  lemma NewIdIsDrawn(t: Locks, op: Op, id: string)
    requires OnePerTarget(t) && id in Step(t, op)
    ensures id in t || (op.Acquire? && op.newId == id)
  {
  }

  /** Ids in the table were drawn by earlier acquisitions. */
  lemma {:induction false} IdsWereDrawn(tables: seq<Locks>, ops: seq<Op>, k: nat, id: string)
    requires IsRun(tables, ops) && k <= |ops| && id in tables[k]
    ensures exists i :: 0 <= i < k && ops[i].Acquire? && ops[i].newId == id
    decreases k
  {
    if k > 0 {
      StepOfRun(tables, ops, k - 1);
      NewIdIsDrawn(tables[k - 1], ops[k - 1], id);
      if id in tables[k - 1] {
        IdsWereDrawn(tables, ops, k - 1, id);
      }
    }
  }

  lemma DrawnIdIsNew(tables: seq<Locks>, ops: seq<Op>, k: nat)
    requires IsRun(tables, ops) && k < |ops|
    ensures ops[k].Acquire? ==> ops[k].newId !in tables[k]
  {
    if ops[k].Acquire? && ops[k].newId in tables[k] {
      IdsWereDrawn(tables, ops, k, ops[k].newId);
    }
  }

  lemma StepExpiryBounded(t: Locks, op: Op, id: string)
    requires OnePerTarget(t) && id in Step(t, op)
    requires id in t ==> t[id].expiresAt <= op.at + LOCK_DURATION
    ensures Step(t, op)[id].expiresAt <= op.at + LOCK_DURATION
  {
  }

  /** No lease lasts longer than 90 seconds from the last step. */
  lemma {:induction false} ExpiryBounded(tables: seq<Locks>, ops: seq<Op>, k: nat, id: string)
    requires IsRun(tables, ops) && k < |ops| && id in tables[k + 1]
    ensures tables[k + 1][id].expiresAt <= ops[k].at + LOCK_DURATION
    decreases k
  {
    StepOfRun(tables, ops, k);
    if id in tables[k] && k > 0 {
      ExpiryBounded(tables, ops, k - 1, id);
    }
    StepExpiryBounded(tables[k], ops[k], id);
  }

  lemma HeldNext(tables: seq<Locks>, ops: seq<Op>, i: nat, id: string, target: Target, owner: string, until: int)
    requires IsRun(tables, ops) && i < |ops| && Holds(tables[i], id, target, owner, until)
    requires ops[i].at < until <= ops[i].at + LOCK_DURATION && !GivesUp(ops[i], id, owner)
    ensures Holds(tables[i + 1], id, target, owner, until)
  {
    StepOfRun(tables, ops, i);
    DrawnIdIsNew(tables, ops, i);
    HeldThroughStep(tables[i], ops[i], id, target, owner, until);
  }

  lemma {:induction false} HeldUntil(tables: seq<Locks>, ops: seq<Op>, k: nat, n: nat,
                                     id: string, target: Target, owner: string, until: int)
    requires IsRun(tables, ops) && k < n <= |ops|
    requires Holds(tables[k + 1], id, target, owner, until) && until <= ops[k].at + LOCK_DURATION
    requires forall i :: k < i < n ==> ops[i].at < until && !GivesUp(ops[i], id, owner)
    ensures Holds(tables[n], id, target, owner, until)
    decreases n
  {
    if k + 1 < n {
      HeldUntil(tables, ops, k, n - 1, id, target, owner, until);
      HeldNext(tables, ops, n - 1, id, target, owner, until);
    }
  }

  /**
    Mutual exclusion: while a lease lasts, an acquisition by anybody but its owner conflicts, unless
    the lock was released or forced in between.
   */
  lemma MutualExclusion(tables: seq<Locks>, ops: seq<Op>, k: nat, n: nat, id: string, other: string)
    requires IsRun(tables, ops) && k < n < |ops| && id in tables[k + 1]
    requires forall i :: k < i < n ==> !GivesUp(ops[i], id, tables[k + 1][id].owner)
    requires ops[n].at < tables[k + 1][id].expiresAt && other != tables[k + 1][id].owner
    ensures var lock, t := tables[k + 1][id], tables[n];
            && OnePerTarget(t) && id in t && t[id].owner == lock.owner
            && forall newId :: AcquireResult(t, lock.target, other, newId, ops[n].at)
                 == Failed(LockError.Conflict(lock.owner, t[id].expiresAt))
  {
    var lock := tables[k + 1][id];
    ExpiryBounded(tables, ops, k, id);
    HeldUntil(tables, ops, k, n, id, lock.target, lock.owner, lock.expiresAt);
    OneLockPerTarget(tables, ops, n);
    assert FindByTarget(tables[n], lock.target) == Some(id);
  }

  /** The owner's heartbeat, or the owner acquiring the target again. */
  predicate Renews(op: Op, id: string, target: Target, owner: string) {
    op == Heartbeat(id, owner, op.at) || (op.Acquire? && op.target == target && op.actor == owner)
  }

  /** Step `k` set the lease, or step `j` renewed it. */
  predicate Sets(ops: seq<Op>, k: nat, j: nat, id: string, target: Target, owner: string)
    requires j < |ops|
  {
    j == k || Renews(ops[j], id, target, owner)
  }

  /** Before step `i` the lease was set at step `k`, or renewed since, less than 90 seconds ago. */
  ghost predicate RenewedRecently(ops: seq<Op>, k: nat, i: nat, id: string, target: Target, owner: string)
    requires k < i < |ops|
  {
    exists j :: k <= j < i && Sets(ops, k, j, id, target, owner) && ops[i].at < ops[j].at + LOCK_DURATION
  }

  lemma RenewedThroughStep(t: Locks, op: Op, id: string, target: Target, owner: string, until: int)
    requires OnePerTarget(t) && Holds(t, id, target, owner, until) && op.at < until
    requires Renews(op, id, target, owner)
    ensures Holds(Step(t, op), id, target, owner, op.at + LOCK_DURATION)
  {
    assert FindByTarget(t, target) == Some(id);
  }

  /** One step on: from the lease set by step `j` to the one set by step `last`. */
  lemma LeaseNext(tables: seq<Locks>, ops: seq<Op>, i: nat, j: nat, last: nat,
                  id: string, target: Target, owner: string)
    requires IsRun(tables, ops) && j < i < |ops| && last <= i && ops[i].at < ops[j].at + LOCK_DURATION
    requires Holds(tables[i], id, target, owner, ops[j].at + LOCK_DURATION)
    requires last <= j || (last == i && Renews(ops[i], id, target, owner))
    requires !GivesUp(ops[i], id, owner)
    ensures Holds(tables[i + 1], id, target, owner, ops[last].at + LOCK_DURATION)
  {
    if last <= j {
      HeldNext(tables, ops, i, id, target, owner, ops[j].at + LOCK_DURATION);
    } else {
      StepOfRun(tables, ops, i);
      RenewedThroughStep(tables[i], ops[i], id, target, owner, ops[j].at + LOCK_DURATION);
    }
  }

  /**
    An owner whose renewals come less than 90 seconds apart keeps the lock until it lets go or is
    forced: at every step `i` the row is there, and lasts 90 seconds from whatever renewal `last`.
   */
  lemma {:induction false} HeartbeatsKeepLock(tables: seq<Locks>, ops: seq<Op>, k: nat, i: nat, last: nat,
                                              id: string, target: Target, owner: string)
    requires IsRun(tables, ops) && k <= i < |ops|
    requires Holds(tables[k + 1], id, target, owner, ops[k].at + LOCK_DURATION)
    requires forall i' :: k < i' <= i ==> !GivesUp(ops[i'], id, owner)
    requires forall i' {:trigger RenewedRecently(ops, k, i', id, target, owner)} :: k < i' <= i ==>
               RenewedRecently(ops, k, i', id, target, owner)
    requires k <= last <= i && Sets(ops, k, last, id, target, owner)
    ensures Holds(tables[i + 1], id, target, owner, ops[last].at + LOCK_DURATION)
    decreases i
  {
    if k < i {
      assert RenewedRecently(ops, k, i, id, target, owner);
      var j :| k <= j < i && Sets(ops, k, j, id, target, owner) && ops[i].at < ops[j].at + LOCK_DURATION;
      var j' := if j < last < i then last else j;
      HeartbeatsKeepLock(tables, ops, k, i - 1, j', id, target, owner);
      LeaseNext(tables, ops, i, j', last, id, target, owner);
    }
  }

  /** A lock that is gone never comes back: its id answers NotFound from then on. */
  lemma {:induction false} GoneForGood(tables: seq<Locks>, ops: seq<Op>, i: nat, k: nat, n: nat,
                                       id: string, actor: string, now: int)
    requires IsRun(tables, ops) && i <= k <= n <= |ops|
    requires id in tables[i] && id !in tables[k]
    ensures HeartbeatResult(tables[n], id, actor, now) == Failed(LockError.NotFound)
    decreases n
  {
    if k < n {
      GoneForGood(tables, ops, i, k, n - 1, id, actor, now);
      IdsWereDrawn(tables, ops, i, id);
      StepOfRun(tables, ops, n - 1);
      if id in tables[n] {
        NewIdIsDrawn(tables[n - 1], ops[n - 1], id);
      }
    }
  }

  /** The status is locked exactly when somebody else's acquisition would conflict. */
  lemma LockedIffOthersConflict(t: Locks, target: Target, newId: string, now: int)
    requires OnePerTarget(t)
    ensures forall actor :: AcquireResult(t, target, actor, newId, now).Failed? <==>
              StatusOf(t, target, now).Locked? && StatusOf(t, target, now).lock.owner != actor
    ensures StatusOf(t, target, now).Locked? <==>
              exists actor :: AcquireResult(t, target, actor, newId, now).Failed?
  {
    var status := StatusOf(t, target, now);
    if status.Locked? {
      var other := status.lock.owner + "'";
      assert AcquireResult(t, target, other, newId, now).Failed?;
    }
  }
}
