/**
  The steps that concern executions (starts, edits of the live suite, updates of results) and the
  invariant each keeps: every snapshot is the suite as it was at the start, and items and results
  correspond one to one.
 */
module ExecutionSteps {
  import opened Wrappers
  import opened ChildLists
  import opened ChildTables
  import opened ExecutionTables
  import opened ExecutionSnapshot

  /** What an execution was started from, and its snapshot. */
  datatype Start = Start(live: Live, suiteId: Id, w: Snapshot)

  /** The live tables, the execution tables, and, as history, every start there was. */
  datatype World = World(live: Live, db: Db, started: map<nat, Start>)

  datatype Event =
    | Started(suiteId: Id, userId: Id, environmentId: Option<Id>, w: Snapshot)
    | Edited(live: Live)
    | ResultUpdated(executionId: nat, resultId: nat, status: Status)

  /** Both statuses belong to the same result table. */
  predicate SameTable(a: Status, b: Status) {
    (a.Checked? <==> b.Checked?) && (a.Performed? <==> b.Performed?) && (a.Judged? <==> b.Judged?)
  }

  /** The result row the update finds: of this execution, in this table. */
  predicate Finds(db: Db, executionId: nat, resultId: nat, status: Status) {
    executionId in db.executions && resultId in db.results && db.results[resultId].executionId == executionId
    && SameTable(db.results[resultId].status, status)
  }

  function WithStatus(db: Db, resultId: nat, status: Status): Db
    requires resultId in db.results
  {
    db.(results := db.results[resultId := db.results[resultId].(status := status)])
  }

  // ----- the invariant -----

  ghost predicate SuitesOwned(db: Db) {
    forall k :: k in db.suites ==> db.suites[k].executionId in db.executions
  }

  /** The execution's snapshot is the one taken when it started; its suite has the next id. */
  ghost predicate SnapshotOf(db: Db, e: nat, start: Start) {
    IsSnapshot(db, e, e + 1, start.live, start.suiteId, start.w)
  }

  ghost predicate SnapshotsHold(db: Db, started: map<nat, Start>) {
    && started.Keys == db.executions.Keys
    && forall e {:trigger SnapshotOf(db, e, started[e])} :: e in started ==> SnapshotOf(db, e, started[e])
  }

  ghost predicate Inv(x: World) {
    IdsBelow(x.db) && Matched(x.db, {}) && SuitesOwned(x.db) && SnapshotsHold(x.db, x.started)
  }

  /** Each new item has one result, and each new result is that of its item. */
  ghost predicate NewMatched(db: Db, db': Db) {
    && (forall k {:trigger HasOneResult(db'.results, k)} :: k in db'.items && k !in db.items ==> HasOneResult(db'.results, k))
    && (forall r :: r in db'.results && r !in db.results ==> Agrees(db', db'.results[r]))
  }

  ghost predicate Next(x: World, ev: Event, x': World) {
    match ev
    case Started(suiteId, userId, environmentId, w) =>
      var e := x.db.nextId;
      && x'.live == x.live && x'.started == x.started[e := Start(x.live, suiteId, w)]
      && IdsBelow(x'.db) && Adds(x.db, x'.db, e) && NewMatched(x.db, x'.db)
      && x'.db.executions == x.db.executions[e := Execution(suiteId, environmentId, userId)]
      && (forall k :: k in x'.db.suites && k !in x.db.suites ==> k == e + 1)
      && SnapshotOf(x'.db, e, Start(x.live, suiteId, w))
    case Edited(live) => x' == x.(live := live)
    case ResultUpdated(executionId, resultId, status) =>
      Finds(x.db, executionId, resultId, status) && x' == x.(db := WithStatus(x.db, resultId, status))
  }

  // ----- a later start -----

  lemma CopiedUnderOld(db: Db, db': Db, n: nat, kind: ItemKind, parent: nat, t: Table, ids: seq<Id>, copies: seq<nat>)
    requires Adds(db, db', n) && parent < n && Copied(db.items, kind, parent, t, ids, copies)
    ensures Copied(db'.items, kind, parent, t, ids, copies)
  {
    forall k: nat ensures IsItemOf(db'.items, kind, parent, k) <==> IsItemOf(db.items, kind, parent, k) {
    }
  }

  lemma ChildrenUnderOld(db: Db, db': Db, n: nat, c: nat, live: Live, l: CaseLists, copies: CopyLists)
    requires Adds(db, db', n) && c < n && ChildrenCopied(db.items, c, live, l, copies)
    ensures ChildrenCopied(db'.items, c, live, l, copies)
  {
    CopiedUnderOld(db, db', n, CasePrecondition, c, live.preconditions, l.preconditions, copies.preconditions);
    CopiedUnderOld(db, db', n, Step, c, live.steps, l.steps, copies.steps);
    CopiedUnderOld(db, db', n, ExpectedResult, c, live.expectedResults, l.expectedResults, copies.expectedResults);
  }

  lemma CasesUnderOld(db: Db, db': Db, n: nat, s: nat, live: Live, w: Snapshot, i: nat)
    requires IdsBelow(db) && Adds(db, db', n) && db.nextId <= n && s < n && CasesCopied(db, s, live, w, i)
    ensures CasesCopied(db', s, live, w, i)
  {
    forall j | 0 <= j < i ensures ChildrenCopied(db'.items, w.execIds[j], live, w.lists[j], w.copies[j]) {
      assert w.execIds[j] in db.cases;
      ChildrenUnderOld(db, db', n, w.execIds[j], live, w.lists[j], w.copies[j]);
    }
    forall c: nat ensures c in db'.cases && db'.cases[c].execSuiteId == s <==> c in w.execIds {
      assert c in db.cases && db.cases[c].execSuiteId == s <==> c in w.execIds;
    }
  }

  /** A start adds nothing to older snapshots. */
  lemma SnapshotUnderOld(db: Db, db': Db, n: nat, e: nat, start: Start)
    requires IdsBelow(db) && Adds(db, db', n) && db.nextId <= n && SnapshotOf(db, e, start)
    ensures SnapshotOf(db', e, start)
  {
    var live, w := start.live, start.w;
    assert e + 1 in db.suites;
    CopiedUnderOld(db, db', n, SuitePrecondition, e + 1, live.suitePreconditions, w.suiteIds, w.suiteCopies);
    CasesUnderOld(db, db', n, e + 1, live, w, |w.caseIds|);
    forall k ensures k in db'.suites && db'.suites[k].executionId == e <==> k == e + 1 {
      assert k in db.suites && db.suites[k].executionId == e <==> k == e + 1;
    }
  }

  lemma StartKeepsSnapshots(db: Db, db': Db, started: map<nat, Start>, e: nat, start: Start)
    requires IdsBelow(db) && SnapshotsHold(db, started) && Adds(db, db', e) && e == db.nextId
    requires db'.executions.Keys == db.executions.Keys + {e}
    requires SnapshotOf(db', e, start)
    ensures SnapshotsHold(db', started[e := start])
  {
    var started' := started[e := start];
    forall k | k in started' ensures SnapshotOf(db', k, started'[k]) {
      if k != e {
        assert SnapshotOf(db, k, started[k]);
        SnapshotUnderOld(db, db', e, k, started[k]);
      }
    }
  }

  lemma StartKeepsSuites(db: Db, db': Db, e: nat)
    requires SuitesOwned(db) && Adds(db, db', e) && e in db'.executions
    requires (forall k :: k in db'.suites && k !in db.suites ==> k == e + 1) && OnlySuite(db', e, e + 1)
    ensures SuitesOwned(db')
  {
    forall k | k in db'.suites ensures db'.suites[k].executionId in db'.executions {
      if k in db.suites {
        assert db.suites[k].executionId in db.executions;
      }
    }
  }

  lemma StartKeepsMatched(db: Db, db': Db)
    requires IdsBelow(db) && Matched(db, {}) && Adds(db, db', db.nextId) && NewMatched(db, db')
    ensures Matched(db', {})
  {
    forall k | k in db'.items && k !in {} ensures HasOneResult(db'.results, k) {
      if k in db.items {
        assert HasOneResult(db.results, k);
        var r :| IsResultOf(db.results, k, r) && forall r' :: IsResultOf(db.results, k, r') ==> r' == r;
        assert IsResultOf(db'.results, k, r);
        forall r' | IsResultOf(db'.results, k, r') ensures r' == r {
          assert r' in db.results ==> IsResultOf(db.results, k, r');
        }
      }
    }
    forall r | r in db'.results ensures Agrees(db', db'.results[r]) {
      assert r in db.results ==> Agrees(db, db.results[r]);
    }
  }

  lemma StartKeepsInv(x: World, ev: Event, x': World)
    requires Inv(x) && ev.Started? && Next(x, ev, x')
    ensures Inv(x')
  {
    var e := x.db.nextId;
    StartKeepsSnapshots(x.db, x'.db, x.started, e, Start(x.live, ev.suiteId, ev.w));
    StartKeepsSuites(x.db, x'.db, e);
    StartKeepsMatched(x.db, x'.db);
  }

  // ----- an update of a result -----

  lemma UpdateKeepsMatched(db: Db, resultId: nat, status: Status)
    requires Matched(db, {}) && resultId in db.results && SameTable(db.results[resultId].status, status)
    ensures Matched(WithStatus(db, resultId, status), {})
  {
    var db' := WithStatus(db, resultId, status);
    forall k | k in db'.items && k !in {} ensures HasOneResult(db'.results, k) {
      assert HasOneResult(db.results, k);
      var r :| IsResultOf(db.results, k, r) && forall r' :: IsResultOf(db.results, k, r') ==> r' == r;
      assert IsResultOf(db'.results, k, r);
      forall r' | IsResultOf(db'.results, k, r') ensures r' == r {
        assert IsResultOf(db.results, k, r');
      }
    }
    forall r | r in db'.results ensures Agrees(db', db'.results[r]) {
      assert Agrees(db, db.results[r]);
    }
  }

  lemma SnapshotOnSame(db: Db, db': Db, e: nat, start: Start)
    requires SnapshotOf(db, e, start)
    requires db'.suites == db.suites && db'.cases == db.cases && db'.items == db.items
    ensures SnapshotOf(db', e, start)
  {
  }

  lemma UpdateKeepsSnapshots(db: Db, resultId: nat, status: Status, started: map<nat, Start>)
    requires resultId in db.results && SnapshotsHold(db, started)
    ensures SnapshotsHold(WithStatus(db, resultId, status), started)
  {
    var db' := WithStatus(db, resultId, status);
    forall k | k in started ensures SnapshotOf(db', k, started[k]) {
      assert SnapshotOf(db, k, started[k]);
      SnapshotOnSame(db, db', k, started[k]);
    }
  }

  lemma UpdateKeepsIds(db: Db, resultId: nat, status: Status)
    requires resultId in db.results && IdsBelow(db) && SuitesOwned(db)
    ensures IdsBelow(WithStatus(db, resultId, status)) && SuitesOwned(WithStatus(db, resultId, status))
  {
  }

  lemma UpdateKeepsInv(x: World, ev: Event, x': World)
    requires Inv(x) && ev.ResultUpdated? && Next(x, ev, x')
    ensures Inv(x')
  {
    UpdateKeepsIds(x.db, ev.resultId, ev.status);
    UpdateKeepsMatched(x.db, ev.resultId, ev.status);
    UpdateKeepsSnapshots(x.db, ev.resultId, ev.status, x.started);
  }

  lemma StepKeepsInv(x: World, ev: Event, x': World)
    requires Inv(x) && Next(x, ev, x')
    ensures Inv(x')
  {
    match ev
    case Started(_, _, _, _) => StartKeepsInv(x, ev, x');
    case Edited(_) =>
    case ResultUpdated(_, _, _) => UpdateKeepsInv(x, ev, x');
  }
}
