/**
  What holds of every execution in every run, whatever is started, edited or judged afterwards: its
  snapshot is the suite as it was at the start, its items and results correspond one to one, and its
  judgment counts sum to the number of its expected results.
 */
module ExecutionRuns {
  import opened Wrappers
  import opened ChildLists
  import opened ChildTables
  import opened ExecutionTables
  import opened ExecutionSnapshot
  import opened ExecutionMirror
  import opened ExecutionSteps

  // ----- runs -----

  const EMPTY := Db(map[], map[], map[], map[], map[], 0)

  ghost predicate IsRun(worlds: seq<World>, events: seq<Event>) {
    && |worlds| == |events| + 1 && worlds[0].db == EMPTY && worlds[0].started == map[]
    && (forall i {:trigger Next(worlds[i], events[i], worlds[i + 1])} :: 0 <= i < |events| ==>
          Next(worlds[i], events[i], worlds[i + 1]))
  }

  lemma {:induction false} RunKeepsInv(worlds: seq<World>, events: seq<Event>, k: nat)
    requires IsRun(worlds, events) && k < |worlds|
    ensures Inv(worlds[k])
    decreases k
  {
    if k > 0 {
      var i := k - 1;
      RunKeepsInv(worlds, events, i);
      assert Next(worlds[i], events[i], worlds[i + 1]);
      StepKeepsInv(worlds[i], events[i], worlds[i + 1]);
    }
  }

  /**
    The snapshot of an execution, and what it was taken from, never change, whatever happens to the
    live suite and to any execution later in the run.
   */
  lemma {:induction false} SnapshotForGood(worlds: seq<World>, events: seq<Event>, k: nat, n: nat, e: nat)
    requires IsRun(worlds, events) && k <= n < |worlds| && e in worlds[k].started
    ensures e in worlds[n].started && worlds[n].started[e] == worlds[k].started[e]
    ensures SnapshotOf(worlds[n].db, e, worlds[k].started[e])
    decreases n
  {
    if k == n {
      RunKeepsInv(worlds, events, n);
      assert SnapshotOf(worlds[n].db, e, worlds[n].started[e]);
    } else {
      var i := n - 1;
      SnapshotForGood(worlds, events, k, i, e);
      RunKeepsInv(worlds, events, i);
      assert Next(worlds[i], events[i], worlds[i + 1]);
      StartedKept(worlds[i], events[i], worlds[i + 1], e);
      RunKeepsInv(worlds, events, n);
      assert SnapshotOf(worlds[n].db, e, worlds[n].started[e]);
    }
  }

  lemma StartedKept(x: World, ev: Event, x': World, e: nat)
    requires Inv(x) && Next(x, ev, x') && e in x.started
    ensures e in x'.started && x'.started[e] == x.started[e]
  {
  }

  /** A start makes the mirror of the live suite. */
  lemma StartMirrors(x: World, ev: Event, x': World)
    requires ev.Started? && Next(x, ev, x')
    ensures SuiteMirrored(x'.db, x.db.nextId, x.db.nextId + 1, x.live, ev.suiteId)
  {
    SnapshotIsMirror(x'.db, x.db.nextId, x.db.nextId + 1, x.live, ev.suiteId, ev.w);
  }

  /**
    In every run an execution stays the mirror of the live suite as it was right before the start,
    whatever is started, edited or judged later.
   */
  lemma MirrorForGood(worlds: seq<World>, events: seq<Event>, k: nat, n: nat)
    requires IsRun(worlds, events) && k < n < |worlds| && events[k].Started?
    ensures var e := worlds[k].db.nextId;
            SuiteMirrored(worlds[n].db, e, e + 1, worlds[k].live, events[k].suiteId)
  {
    var e := worlds[k].db.nextId;
    RunKeepsInv(worlds, events, k);
    assert Next(worlds[k], events[k], worlds[k + 1]);
    SnapshotForGood(worlds, events, k + 1, n, e);
    var start := worlds[k + 1].started[e];
    SnapshotIsMirror(worlds[n].db, e, e + 1, start.live, start.suiteId, start.w);
  }

  // ----- items and results of one execution -----

  predicate IsItem(db: Db, e: nat, k: nat) {
    k in db.items && Owner(db.suites, db.cases, db.items[k]) == Some(e)
  }

  /** In every reachable state an item has exactly one result, which names its execution and its case. */
  lemma OneResultEach(worlds: seq<World>, events: seq<Event>, n: nat, e: nat, k: nat)
    requires IsRun(worlds, events) && n < |worlds| && IsItem(worlds[n].db, e, k)
    ensures HasOneResult(worlds[n].db.results, k)
    ensures forall r :: IsResultOf(worlds[n].db.results, k, r) ==>
              var row, item := worlds[n].db.results[r], worlds[n].db.items[k];
              row.executionId == e && row.caseId == CaseOf(item) && Fits(item.kind, row.status)
  {
    RunKeepsInv(worlds, events, n);
    forall r | IsResultOf(worlds[n].db.results, k, r) ensures Agrees(worlds[n].db, worlds[n].db.results[r]) {
    }
  }

  /** In every reachable state a result is that of an item of its execution. */
  lemma EachResultHasItem(worlds: seq<World>, events: seq<Event>, n: nat, r: nat)
    requires IsRun(worlds, events) && n < |worlds| && r in worlds[n].db.results
    ensures IsItem(worlds[n].db, worlds[n].db.results[r].executionId, worlds[n].db.results[r].itemId)
  {
    RunKeepsInv(worlds, events, n);
    assert Agrees(worlds[n].db, worlds[n].db.results[r]);
  }

  // ----- before anything is judged -----

  /** Preconditions start unchecked, steps and judgments pending. */
  predicate Untouched(kind: ItemKind, status: Status) {
    status == match kind
              case SuitePrecondition => Checked(UNCHECKED)
              case CasePrecondition => Checked(UNCHECKED)
              case Step => Performed(StepStatus.PENDING)
              case ExpectedResult => Judged(JudgmentStatus.PENDING)
  }

  /** Every result of the execution is as it was created. */
  ghost predicate AllInitial(db: Db, e: nat) {
    forall r :: r in db.results && db.results[r].executionId == e ==>
      db.results[r].itemId in db.items && Untouched(db.items[db.results[r].itemId].kind, db.results[r].status)
  }

  lemma NewResultsAreOfStart(x: World, ev: Event, x': World, r: nat)
    requires Inv(x) && ev.Started? && Next(x, ev, x')
    requires r in x'.db.results && r !in x.db.results
    ensures x'.db.results[r].executionId >= x.db.nextId
  {
    var row := x'.db.results[r];
    assert Agrees(x'.db, row);
    assert row.itemId !in x.db.items;
    var parent := x'.db.items[row.itemId].parent;
    assert parent !in x.db.suites && parent !in x.db.cases;
  }

  lemma OldResultsAreOlder(db: Db, r: nat)
    requires IdsBelow(db) && Matched(db, {}) && SuitesOwned(db) && r in db.results
    ensures db.results[r].executionId < db.nextId
  {
    assert Agrees(db, db.results[r]);
  }

  lemma StartIsInitial(x: World, ev: Event, x': World)
    requires Inv(x) && ev.Started? && Next(x, ev, x')
    ensures AllInitial(x'.db, x.db.nextId)
  {
    forall r | r in x.db.results ensures x.db.results[r].executionId < x.db.nextId {
      OldResultsAreOlder(x.db, r);
    }
  }

  lemma InitialKept(x: World, ev: Event, x': World, e: nat)
    requires Inv(x) && Next(x, ev, x') && e < x.db.nextId && AllInitial(x.db, e)
    requires ev.ResultUpdated? ==> ev.executionId != e
    ensures AllInitial(x'.db, e) && x.db.nextId <= x'.db.nextId
  {
    if ev.Started? {
      forall r | r in x'.db.results && r !in x.db.results ensures x'.db.results[r].executionId != e {
        NewResultsAreOfStart(x, ev, x', r);
      }
    }
  }

  /** Until one of its own results is updated, an execution's expected results are all pending. */
  lemma {:induction false} JustStartedAllPending(worlds: seq<World>, events: seq<Event>, k: nat, n: nat)
    requires IsRun(worlds, events) && k < n < |worlds| && events[k].Started?
    requires forall i :: k < i < n && events[i].ResultUpdated? ==> events[i].executionId != worlds[k].db.nextId
    ensures AllInitial(worlds[n].db, worlds[k].db.nextId) && worlds[k].db.nextId < worlds[n].db.nextId
    ensures forall r :: r in ExpectedRows(worlds[n].db, worlds[k].db.nextId) ==>
              worlds[n].db.results[r].status == Judged(JudgmentStatus.PENDING)
    decreases n
  {
    var i, e := n - 1, worlds[k].db.nextId;
    RunKeepsInv(worlds, events, i);
    assert Next(worlds[i], events[i], worlds[i + 1]);
    if i == k {
      StartIsInitial(worlds[i], events[i], worlds[n]);
    } else {
      JustStartedAllPending(worlds, events, k, i);
      InitialKept(worlds[i], events[i], worlds[n], e);
    }
  }

  // ----- judgment counts -----

  function ExpectedItems(db: Db, e: nat): set<nat> {
    set k | k in db.items && db.items[k].kind.ExpectedResult? && IsItem(db, e, k)
  }

  /** The rows the execution list loads for its counts. */
  function ExpectedRows(db: Db, e: nat): set<nat> {
    set r | r in db.results && db.results[r].executionId == e && db.results[r].status.Judged?
  }

  function JudgedAs(db: Db, rows: set<nat>, j: JudgmentStatus): set<nat>
    requires rows <= db.results.Keys
  {
    set r | r in rows && db.results[r].status == Judged(j)
  }

  /** A set of results, one for each of a set of items, is as large as that set. */
  lemma {:induction false} AsManyAsItems(results: map<nat, ResultRow>, rows: set<nat>, items: set<nat>)
    requires forall r :: r in rows ==> r in results && results[r].itemId in items
    requires forall r, r' :: r in rows && r' in rows && results[r].itemId == results[r'].itemId ==> r == r'
    requires forall k :: k in items ==> exists r :: r in rows && IsResultOf(results, k, r)
    ensures |rows| == |items|
    decreases items
  {
    if items == {} {
      assert rows == {};
    } else {
      var k :| k in items;
      var r :| r in rows && IsResultOf(results, k, r);
      AsManyAsItems(results, rows - {r}, items - {k});
    }
  }

  lemma AsManyRowsAsItems(db: Db, e: nat)
    requires Matched(db, {})
    ensures |ExpectedRows(db, e)| == |ExpectedItems(db, e)|
  {
    var rows, items := ExpectedRows(db, e), ExpectedItems(db, e);
    forall r | r in rows ensures db.results[r].itemId in items {
      assert Agrees(db, db.results[r]);
    }
    forall k | k in items ensures exists r :: r in rows && IsResultOf(db.results, k, r) {
      assert HasOneResult(db.results, k);
      var r :| IsResultOf(db.results, k, r);
      assert Agrees(db, db.results[r]);
    }
    forall r, r' | r in rows && r' in rows && db.results[r].itemId == db.results[r'].itemId ensures r == r' {
      var k := db.results[r].itemId;
      assert k in db.items && HasOneResult(db.results, k);
      assert IsResultOf(db.results, k, r) && IsResultOf(db.results, k, r');
    }
    AsManyAsItems(db.results, rows, items);
  }

  lemma FourParts(rows: set<nat>, a: set<nat>, b: set<nat>, c: set<nat>, d: set<nat>)
    requires rows == a + b + c + d && a !! b && (a + b) !! c && (a + b + c) !! d
    ensures |rows| == |a| + |b| + |c| + |d|
  {
  }

  lemma JudgmentsPartition(db: Db, e: nat)
    ensures var rows := ExpectedRows(db, e);
            |JudgedAs(db, rows, PASS)| + |JudgedAs(db, rows, FAIL)|
              + |JudgedAs(db, rows, JudgmentStatus.PENDING)| + |JudgedAs(db, rows, JudgmentStatus.SKIPPED)| == |rows|
  {
    var rows := ExpectedRows(db, e);
    var a, b := JudgedAs(db, rows, PASS), JudgedAs(db, rows, FAIL);
    var c, d := JudgedAs(db, rows, JudgmentStatus.PENDING), JudgedAs(db, rows, JudgmentStatus.SKIPPED);
    forall r | r in rows ensures r in a + b + c + d {
      match db.results[r].status.judgment
      case PASS =>
      case FAIL =>
      case PENDING =>
      case SKIPPED =>
    }
    FourParts(rows, a, b, c, d);
  }

  /** In every reachable state the four counts of an execution sum to the number of its expected results. */
  lemma CountsSumInRun(worlds: seq<World>, events: seq<Event>, n: nat, e: nat)
    requires IsRun(worlds, events) && n < |worlds|
    ensures var db := worlds[n].db;
            var rows := ExpectedRows(db, e);
            |JudgedAs(db, rows, PASS)| + |JudgedAs(db, rows, FAIL)|
              + |JudgedAs(db, rows, JudgmentStatus.PENDING)| + |JudgedAs(db, rows, JudgmentStatus.SKIPPED)|
              == |ExpectedItems(db, e)|
  {
    RunKeepsInv(worlds, events, n);
    JudgmentsPartition(worlds[n].db, e);
    AsManyRowsAsItems(worlds[n].db, e);
  }

  /** The expected results of an execution are the copies in its snapshot. */
  lemma ExpectedItemsAreCopies(x: World, e: nat, k: nat)
    requires Inv(x) && e in x.started
    ensures var w := x.started[e].w;
            k in ExpectedItems(x.db, e) <==> exists i :: 0 <= i < |w.copies| && k in w.copies[i].expectedResults
  {
    var db, start := x.db, x.started[e];
    var w := start.w;
    assert SnapshotOf(db, e, start);
    if k in ExpectedItems(db, e) {
      var c := db.items[k].parent;
      assert db.cases[c].execSuiteId == e + 1;
      assert c in w.execIds;
      var i :| 0 <= i < |w.execIds| && w.execIds[i] == c;
      assert ChildrenCopied(db.items, c, start.live, w.lists[i], w.copies[i]);
      assert IsItemOf(db.items, ExpectedResult, c, k);
    }
    if i :| 0 <= i < |w.copies| && k in w.copies[i].expectedResults {
      assert ChildrenCopied(db.items, w.execIds[i], start.live, w.lists[i], w.copies[i]);
      assert IsItemOf(db.items, ExpectedResult, w.execIds[i], k);
    }
  }

  // ----- the calls -----

  lemma MatchedIsNew(db: Db, db': Db)
    requires Matched(db', {})
    ensures NewMatched(db, db')
  {
    forall k | k in db'.items ensures HasOneResult(db'.results, k) {
    }
  }

  lemma CreatedIsNext(x: World, e: nat, db': Db, suiteId: Id, userId: Id, environmentId: Option<Id>, w: Snapshot)
    requires e == x.db.nextId && IdsBelow(db') && NewMatched(x.db, db') && Adds(x.db, db', e)
    requires db'.executions == x.db.executions[e := Execution(suiteId, environmentId, userId)]
    requires forall k :: k in db'.suites && k !in x.db.suites ==> k == e + 1
    requires SnapshotOf(db', e, Start(x.live, suiteId, w))
    ensures Next(x, Started(suiteId, userId, environmentId, w),
                 World(x.live, db', x.started[e := Start(x.live, suiteId, w)]))
  {
  }

  lemma OwnersAreOlder(x: World)
    requires Inv(x)
    ensures forall k :: k in x.db.suites ==> x.db.suites[k].executionId < x.db.nextId
  {
    forall k | k in x.db.suites ensures x.db.suites[k].executionId < x.db.nextId {
      assert x.db.suites[k].executionId in x.db.executions;
    }
  }

  /** The body of a start, on the transaction's tables. */
  method StartAt(live: Live, db: Db, ghost started: map<nat, Start>, suiteId: Id, userId: Id, environmentId: Option<Id>)
    returns (e: nat, db': Db, ghost w: Snapshot, ghost started': map<nat, Start>)
    requires Inv(World(live, db, started)) && suiteId in live.suites
    ensures e == db.nextId && Adds(db, db', e)
    ensures db'.executions == db.executions[e := Execution(suiteId, environmentId, userId)]
    ensures Next(World(live, db, started), Started(suiteId, userId, environmentId, w), World(live, db', started'))
  {
    var testCases := FindLiveCases(live, suiteId);
    var suitePreconditions := FindManyOrdered(live.suitePreconditions, suiteId);
    OwnersAreOlder(World(live, db, started));
    e, db', w := CreateExecution(db, live, suiteId, userId, environmentId, testCases, suitePreconditions);
    MatchedIsNew(db, db');
    CreatedIsNext(World(live, db, started), e, db', suiteId, userId, environmentId, w);
    started' := started[e := Start(live, suiteId, w)];
  }

  datatype Counts = Counts(pass: nat, fail: nat, pending: nat, skipped: nat)

  class TestExecutions {
    var live: Live
    var db: Db
    /** Every start so far. */
    ghost var started: map<nat, Start>

    ghost function Now(): World
      reads this
    {
      World(live, db, started)
    }

    ghost predicate Valid()
      reads this
    {
      Inv(Now())
    }

    constructor (live: Live)
      ensures Valid() && Now() == World(live, EMPTY, map[])
    {
      this.live, db, started := live, EMPTY, map[];
    }

    /** New rows hang under new ids, with results in their initial status; the snapshot is of the live suite. */
    method StartExecution(suiteId: Id, userId: Id, environmentId: Option<Id>) returns (r: Result<nat>, ghost w: Snapshot)
      requires Valid()
      modifies this`db, this`started
      ensures Valid()
      ensures r.Ok? <==> suiteId in live.suites
      ensures r.Err? ==> r.error == NotFound && Now() == old(Now())
      ensures r.Ok? ==> r.value == old(db).nextId && Adds(old(db), db, r.value)
      ensures r.Ok? ==> r.value in db.executions
                        && db.executions[r.value] == Execution(suiteId, environmentId, userId)
      ensures r.Ok? ==> Next(old(Now()), Started(suiteId, userId, environmentId, w), Now())
    {
      if suiteId !in live.suites {
        w := Snapshot([], [], [], [], [], []);
        return Err(NotFound), w;
      }
      ghost var before := Now();
      var e;
      e, db, w, started := StartAt(live, db, started, suiteId, userId, environmentId);
      StepKeepsInv(before, Started(suiteId, userId, environmentId, w), Now());
      r := Ok(e);
    }

    /** Any change of suites, cases and their children. */
    method EditLive(live: Live)
      requires Valid()
      modifies this`live
      ensures Valid() && Next(old(Now()), Edited(live), Now())
    {
      this.live := live;
    }

    /** The body of the three update calls. */
    method UpdateResult(executionId: nat, resultId: nat, status: Status) returns (r: Result<()>)
      requires Valid()
      modifies this`db
      ensures Valid()
      ensures r.Ok? <==> Finds(old(db), executionId, resultId, status)
      ensures r.Ok? ==> Next(old(Now()), ResultUpdated(executionId, resultId, status), Now())
      ensures r.Err? ==> r.error == NotFound && Now() == old(Now())
    {
      if executionId !in db.executions {
        return Err(NotFound);
      }
      if resultId !in db.results || db.results[resultId].executionId != executionId
        || !SameTable(db.results[resultId].status, status) {
        return Err(NotFound);
      }
      ghost var before := Now();
      db := WithStatus(db, resultId, status);
      StepKeepsInv(before, ResultUpdated(executionId, resultId, status), Now());
      r := Ok(());
    }

    method UpdatePreconditionResult(executionId: nat, resultId: nat, status: PreconditionStatus) returns (r: Result<()>)
      requires Valid()
      modifies this`db
      ensures Valid()
      ensures r.Ok? <==> Finds(old(db), executionId, resultId, Checked(status))
      ensures r.Ok? <==> executionId in old(db).executions && resultId in old(db).results
                         && old(db).results[resultId].executionId == executionId && old(db).results[resultId].status.Checked?
      ensures r.Ok? ==> db == old(db).(results := old(db).results[
                                         resultId := old(db).results[resultId].(status := Checked(status))])
      ensures r.Ok? ==> Next(old(Now()), ResultUpdated(executionId, resultId, Checked(status)), Now())
      ensures r.Err? ==> r.error == NotFound && Now() == old(Now())
    {
      r := UpdateResult(executionId, resultId, Checked(status));
    }

    method UpdateStepResult(executionId: nat, resultId: nat, status: StepStatus) returns (r: Result<()>)
      requires Valid()
      modifies this`db
      ensures Valid()
      ensures r.Ok? <==> Finds(old(db), executionId, resultId, Performed(status))
      ensures r.Ok? <==> executionId in old(db).executions && resultId in old(db).results
                         && old(db).results[resultId].executionId == executionId && old(db).results[resultId].status.Performed?
      ensures r.Ok? ==> db == old(db).(results := old(db).results[
                                         resultId := old(db).results[resultId].(status := Performed(status))])
      ensures r.Ok? ==> Next(old(Now()), ResultUpdated(executionId, resultId, Performed(status)), Now())
      ensures r.Err? ==> r.error == NotFound && Now() == old(Now())
    {
      r := UpdateResult(executionId, resultId, Performed(status));
    }

    method UpdateExpectedResult(executionId: nat, resultId: nat, status: JudgmentStatus) returns (r: Result<()>)
      requires Valid()
      modifies this`db
      ensures Valid()
      ensures r.Ok? <==> Finds(old(db), executionId, resultId, Judged(status))
      ensures r.Ok? <==> executionId in old(db).executions && resultId in old(db).results
                         && old(db).results[resultId].executionId == executionId && old(db).results[resultId].status.Judged?
      ensures r.Ok? ==> db == old(db).(results := old(db).results[
                                         resultId := old(db).results[resultId].(status := Judged(status))])
      ensures r.Ok? ==> Next(old(Now()), ResultUpdated(executionId, resultId, Judged(status)), Now())
      ensures r.Err? ==> r.error == NotFound && Now() == old(Now())
    {
      r := UpdateResult(executionId, resultId, Judged(status));
    }

    /** The counts of an execution in the list of executions. */
    method JudgmentCounts(e: nat) returns (c: Counts)
      requires Valid()
      ensures Tallies(c, db, ExpectedRows(db, e))
      ensures c.pass + c.fail + c.pending + c.skipped == |ExpectedItems(db, e)|
    {
      c := CountJudgments(db, ExpectedRows(db, e));
      JudgmentsPartition(db, e);
      AsManyRowsAsItems(db, e);
    }
  }

  lemma OneMoreJudged(db: Db, done: set<nat>, r: nat, j: JudgmentStatus)
    requires done <= db.results.Keys && r in db.results && r !in done
    ensures |JudgedAs(db, done + {r}, j)| == |JudgedAs(db, done, j)| + if db.results[r].status == Judged(j) then 1 else 0
  {
    if db.results[r].status == Judged(j) {
      assert JudgedAs(db, done + {r}, j) == JudgedAs(db, done, j) + {r};
    } else {
      assert JudgedAs(db, done + {r}, j) == JudgedAs(db, done, j);
    }
  }

  /** The count of `j` goes up by one. */
  function Counted(c: Counts, j: JudgmentStatus): Counts {
    match j
    case PASS => c.(pass := c.pass + 1)
    case FAIL => c.(fail := c.fail + 1)
    case PENDING => c.(pending := c.pending + 1)
    case SKIPPED => c.(skipped := c.skipped + 1)
  }

  predicate Tallies(c: Counts, db: Db, rows: set<nat>)
    requires rows <= db.results.Keys
  {
    && c.pass == |JudgedAs(db, rows, PASS)| && c.fail == |JudgedAs(db, rows, FAIL)|
    && c.pending == |JudgedAs(db, rows, JudgmentStatus.PENDING)|
    && c.skipped == |JudgedAs(db, rows, JudgmentStatus.SKIPPED)|
  }

  lemma TalliesOneMore(c: Counts, db: Db, done: set<nat>, r: nat)
    requires done <= db.results.Keys && r in db.results && r !in done && db.results[r].status.Judged?
    requires Tallies(c, db, done)
    ensures Tallies(Counted(c, db.results[r].status.judgment), db, done + {r})
  {
    OneMoreJudged(db, done, r, PASS);
    OneMoreJudged(db, done, r, FAIL);
    OneMoreJudged(db, done, r, JudgmentStatus.PENDING);
    OneMoreJudged(db, done, r, JudgmentStatus.SKIPPED);
  }

  /** The counting loop, over rows that come in any order. */
  method CountJudgments(db: Db, rows: set<nat>) returns (c: Counts)
    requires rows <= db.results.Keys && forall r :: r in rows ==> db.results[r].status.Judged?
    ensures Tallies(c, db, rows)
  {
    c := Counts(0, 0, 0, 0);
    var rest, done: set<nat> := rows, {};
    while rest != {}
      invariant rest !! done && rest + done == rows
      invariant Tallies(c, db, done)
      decreases rest
    {
      var r :| r in rest;
      TalliesOneMore(c, db, done, r);
      c := Counted(c, db.results[r].status.judgment);
      rest, done := rest - {r}, done + {r};
    }
    assert done == rows;
  }
}
