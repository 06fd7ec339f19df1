/**
  Starting a test execution: the suite, its undeleted test cases and all their children are copied,
  and every copied precondition, step and expected result gets a result row.
 */
module ExecutionSnapshot {
  import opened Wrappers
  import opened Orders
  import opened OrderKeys
  import opened ChildLists
  import opened ChildTables
  import opened ExecutionTables

  datatype Suite = Suite(name: string, description: Option<string>)

  datatype CaseRow = CaseRow(testSuiteId: Id, title: string, description: Option<string>, priority: string,
                             orderKey: string, deletedAt: Option<int>)

  /** The live tables.  A suite's own preconditions carry the suite in the parent column. */
  datatype Live = Live(suites: map<Id, Suite>, cases: map<Id, CaseRow>, suitePreconditions: Table,
                       preconditions: Table, steps: Table, expectedResults: Table)

  /** The children of one case, as the query returned them. */
  datatype CaseLists = CaseLists(preconditions: seq<Id>, steps: seq<Id>, expectedResults: seq<Id>)

  /** The ids of their copies. */
  datatype CopyLists = CopyLists(preconditions: seq<nat>, steps: seq<nat>, expectedResults: seq<nat>)

  // ----- the queries -----

  function LiveCases(live: Live, suiteId: Id): set<Id> {
    set id | id in live.cases && live.cases[id].testSuiteId == suiteId && live.cases[id].deletedAt.None?
  }

  function CaseLess(live: Live): (Id, Id) -> bool {
    (a, b) => a in live.cases && b in live.cases && LexLess(live.cases[a].orderKey, live.cases[b].orderKey)
  }

  ghost predicate IsCaseListing(live: Live, suiteId: Id, ids: seq<Id>) {
    OrderedBy(ids, LiveCases(live, suiteId), CaseLess(live))
  }

  ghost predicate AreLists(live: Live, caseId: Id, l: CaseLists) {
    && IsListing(live.preconditions, caseId, l.preconditions)
    && IsListing(live.steps, caseId, l.steps)
    && IsListing(live.expectedResults, caseId, l.expectedResults)
  }

  lemma CaseLessIsOrder(live: Live)
    ensures StrictOrder(CaseLess(live))
  {
    forall x ensures !CaseLess(live)(x, x) {
      if x in live.cases {
        LexLessIrreflexive(live.cases[x].orderKey);
      }
    }
    forall x, y, z | CaseLess(live)(x, y) && CaseLess(live)(y, z) ensures CaseLess(live)(x, z) {
      LexLessTransitive(live.cases[x].orderKey, live.cases[y].orderKey, live.cases[z].orderKey);
    }
  }

  method FindLiveCases(live: Live, suiteId: Id) returns (ids: seq<Id>)
    ensures IsCaseListing(live, suiteId, ids)
    ensures forall id :: id in ids ==> id in live.cases
  {
    CaseLessIsOrder(live);
    ids := OrderBy(LiveCases(live, suiteId), CaseLess(live));
  }

  // ----- one case -----

  ghost predicate ChildrenCopied(items: map<nat, ExecItem>, c: nat, live: Live, l: CaseLists, copies: CopyLists) {
    && Copied(items, CasePrecondition, c, live.preconditions, l.preconditions, copies.preconditions)
    && Copied(items, Step, c, live.steps, l.steps, copies.steps)
    && Copied(items, ExpectedResult, c, live.expectedResults, l.expectedResults, copies.expectedResults)
  }

  function CaseCopyOf(execSuiteId: nat, live: Live, caseId: Id): ExecCase
    requires caseId in live.cases
  {
    var row := live.cases[caseId];
    ExecCase(execSuiteId, caseId, row.title, row.description, row.priority, row.orderKey)
  }

  /** Old items stay, and new ones lie under `parent`. */
  ghost predicate GrowsUnder(items: map<nat, ExecItem>, items': map<nat, ExecItem>, parent: nat) {
    && (forall k :: k in items ==> k in items' && items'[k] == items[k])
    && (forall k :: k in items' && k !in items ==> items'[k].parent == parent)
  }

  lemma CopiedKeptUnder(items: map<nat, ExecItem>, items': map<nat, ExecItem>, parent: nat,
                        kind: ItemKind, parent': nat, t: Table, ids: seq<Id>, copies: seq<nat>)
    requires Copied(items, kind, parent', t, ids, copies) && GrowsUnder(items, items', parent) && parent != parent'
    ensures Copied(items', kind, parent', t, ids, copies)
  {
    forall k: nat ensures IsItemOf(items', kind, parent', k) <==> IsItemOf(items, kind, parent', k) {
    }
  }

  lemma ChildrenKept(items: map<nat, ExecItem>, items': map<nat, ExecItem>, parent: nat,
                     c: nat, live: Live, l: CaseLists, copies: CopyLists)
    requires ChildrenCopied(items, c, live, l, copies) && GrowsUnder(items, items', parent) && parent != c
    ensures ChildrenCopied(items', c, live, l, copies)
  {
    CopiedKeptUnder(items, items', parent, CasePrecondition, c, live.preconditions, l.preconditions, copies.preconditions);
    CopiedKeptUnder(items, items', parent, Step, c, live.steps, l.steps, copies.steps);
    CopiedKeptUnder(items, items', parent, ExpectedResult, c, live.expectedResults, l.expectedResults, copies.expectedResults);
  }

  /** Every row there was is there, unchanged. */
  ghost predicate RowsKept(db: Db, db': Db) {
    && (forall k :: k in db.executions ==> k in db'.executions && db'.executions[k] == db.executions[k])
    && (forall k :: k in db.suites ==> k in db'.suites && db'.suites[k] == db.suites[k])
    && (forall k :: k in db.cases ==> k in db'.cases && db'.cases[k] == db.cases[k])
    && (forall k :: k in db.items ==> k in db'.items && db'.items[k] == db.items[k])
    && (forall k :: k in db.results ==> k in db'.results && db'.results[k] == db.results[k])
  }

  /** New rows hang under ids from `n` on, and new results are in their initial status. */
  ghost predicate NewRowsFrom(db: Db, db': Db, n: nat) {
    && (forall k :: k in db'.suites && k !in db.suites ==> db'.suites[k].executionId >= n)
    && (forall k :: k in db'.cases && k !in db.cases ==> db'.cases[k].execSuiteId >= n)
    && (forall k :: k in db'.items && k !in db.items ==> db'.items[k].parent >= n)
    && (forall k :: k in db'.results && k !in db.results ==>
          && db'.results[k].itemId >= n && db'.results[k].itemId in db'.items
          && db'.results[k].status == InitialStatus(db'.items[db'.results[k].itemId].kind))
  }

  ghost predicate Adds(db: Db, db': Db, n: nat) {
    RowsKept(db, db') && NewRowsFrom(db, db', n) && db.nextId <= db'.nextId
  }

  lemma AddsTransitive(a: Db, b: Db, c: Db, n: nat)
    requires Adds(a, b, n) && Adds(b, c, n)
    ensures Adds(a, c, n)
  {
  }

  lemma ItemsAdd(db: Db, db': Db, kind: ItemKind, parent: nat, n: nat)
    requires OnlyItemsNew(db, db') && Grows(db.items, db'.items, kind, parent) && parent >= n
    ensures Adds(db, db', n)
  {
  }

  lemma ResultsAdd(db: Db, db': Db, targets: set<nat>, n: nat)
    requires OnlyResultsNew(db, db', targets) && targets <= db.items.Keys && forall k :: k in targets ==> k >= n
    ensures Adds(db, db', n)
  {
  }

  /** Copies the children of a case under `c`. */
  method CreateCaseItems(db: Db, c: nat, live: Live, caseId: Id, ghost open: set<nat>)
    returns (db': Db, ghost l: CaseLists, copies: CopyLists)
    requires IdsBelow(db) && c < db.nextId && Matched(db, open)
    requires forall k :: k in db.items ==> db.items[k].parent != c
    ensures AreLists(live, caseId, l)
    ensures IdsBelow(db') && OnlyItemsNew(db, db') && GrowsUnder(db.items, db'.items, c)
    ensures ChildrenCopied(db'.items, c, live, l, copies)
    ensures forall k :: k in copies.preconditions || k in copies.steps || k in copies.expectedResults ==> k >= db.nextId
    ensures Matched(db',
      open + Elements(copies.preconditions) + Elements(copies.steps) + Elements(copies.expectedResults))
  {
    var preconditions := FindManyOrdered(live.preconditions, caseId);
    var steps := FindManyOrdered(live.steps, caseId);
    var expectedResults := FindManyOrdered(live.expectedResults, caseId);
    var db1, ps := CreateItems(db, CasePrecondition, c, live.preconditions, preconditions, open);
    var db2, ss := CreateItems(db1, Step, c, live.steps, steps, open + Elements(ps));
    CopiedKept(db1.items, db2.items, Step, c, CasePrecondition, c, live.preconditions, preconditions, ps);
    var rs;
    db', rs := CreateItems(db2, ExpectedResult, c, live.expectedResults, expectedResults,
                           open + Elements(ps) + Elements(ss));
    CopiedKept(db2.items, db'.items, ExpectedResult, c, CasePrecondition, c, live.preconditions, preconditions, ps);
    CopiedKept(db2.items, db'.items, ExpectedResult, c, Step, c, live.steps, steps, ss);
    l, copies := CaseLists(preconditions, steps, expectedResults), CopyLists(ps, ss, rs);
  }

  /** `c` is a case of execution `e`. */
  predicate IsCaseOf(db: Db, c: nat, e: nat) {
    c in db.cases && db.cases[c].execSuiteId in db.suites && db.suites[db.cases[c].execSuiteId].executionId == e
  }

  /** Items of one kind, execution and case, at ids from `n` on. */
  ghost predicate AreTargets(db: Db, kind: ItemKind, e: nat, caseId: Option<nat>, targets: seq<nat>, n: nat) {
    && Distinct(targets)
    && (forall k :: k in targets ==> k >= n && k in db.items && db.items[k].kind == kind)
    && (forall k :: k in targets && k in db.items ==>
          Owner(db.suites, db.cases, db.items[k]) == Some(e) && CaseOf(db.items[k]) == caseId)
  }

  lemma CopiesAreTargets(db: Db, kind: ItemKind, e: nat, c: nat, t: Table, ids: seq<Id>, copies: seq<nat>, n: nat)
    requires Copied(db.items, kind, c, t, ids, copies) && !kind.SuitePrecondition? && IsCaseOf(db, c, e)
    requires forall k :: k in copies ==> k >= n
    ensures AreTargets(db, kind, e, Some(c), copies, n)
  {
    forall k | k in copies ensures k in db.items && db.items[k].kind == kind && db.items[k].parent == c {
      assert IsItemOf(db.items, kind, c, k);
    }
  }

  lemma TargetsApart(db: Db, kind: ItemKind, kind': ItemKind, e: nat, caseId: Option<nat>,
                     targets: seq<nat>, targets': seq<nat>, n: nat)
    requires AreTargets(db, kind, e, caseId, targets, n) && AreTargets(db, kind', e, caseId, targets', n)
    requires kind != kind'
    ensures Elements(targets) !! Elements(targets')
  {
  }

  /** The results of the items `targets`, all of which are open. */
  method CreateNewResults(db: Db, kind: ItemKind, e: nat, caseId: Option<nat>, targets: seq<nat>,
                          ghost n: nat, ghost open: set<nat>)
    returns (db': Db)
    requires IdsBelow(db) && Matched(db, open) && AreTargets(db, kind, e, caseId, targets, n)
    requires Elements(targets) <= open
    ensures IdsBelow(db') && Matched(db', open - Elements(targets)) && Adds(db, db', n)
    ensures db' == db.(results := db'.results, nextId := db'.nextId)
  {
    db' := CreateResults(db, kind, e, caseId, targets, open);
    ResultsAdd(db, db', Elements(targets), n);
  }

  /** The three loops of a case's results: they close what copying its children opened. */
  method CreateCaseResults(db: Db, e: nat, c: nat, ghost live: Live, ghost l: CaseLists, copies: CopyLists,
                           ghost n: nat, ghost open: set<nat>)
    returns (db': Db)
    requires IdsBelow(db) && IsCaseOf(db, c, e) && ChildrenCopied(db.items, c, live, l, copies)
    requires forall k :: k in copies.preconditions || k in copies.steps || k in copies.expectedResults ==>
               k !in open && k >= n
    requires Matched(db,
      open + Elements(copies.preconditions) + Elements(copies.steps) + Elements(copies.expectedResults))
    ensures IdsBelow(db') && Matched(db', open) && Adds(db, db', n)
    ensures db' == db.(results := db'.results, nextId := db'.nextId)
  {
    ghost var ps, ss, rs := Elements(copies.preconditions), Elements(copies.steps), Elements(copies.expectedResults);
    ghost var ofCase := Some(c);
    CopiesAreTargets(db, CasePrecondition, e, c, live.preconditions, l.preconditions, copies.preconditions, n);
    CopiesAreTargets(db, Step, e, c, live.steps, l.steps, copies.steps, n);
    CopiesAreTargets(db, ExpectedResult, e, c, live.expectedResults, l.expectedResults, copies.expectedResults, n);
    TargetsApart(db, CasePrecondition, Step, e, ofCase, copies.preconditions, copies.steps, n);
    TargetsApart(db, CasePrecondition, ExpectedResult, e, ofCase, copies.preconditions, copies.expectedResults, n);
    TargetsApart(db, Step, ExpectedResult, e, ofCase, copies.steps, copies.expectedResults, n);
    assert open + ps + ss + rs - ps == open + ss + rs && open + ss + rs - ss == open + rs && open + rs - rs == open;
    var db1 := CreateNewResults(db, CasePrecondition, e, Some(c), copies.preconditions, n, open + ps + ss + rs);
    var db2 := CreateNewResults(db1, Step, e, Some(c), copies.steps, n, open + ss + rs);
    AddsTransitive(db, db1, db2, n);
    db' := CreateNewResults(db2, ExpectedResult, e, Some(c), copies.expectedResults, n, open + rs);
    AddsTransitive(db, db2, db', n);
  }

  function WithCase(db: Db, s: nat, live: Live, caseId: Id): Db
    requires caseId in live.cases
  {
    db.(cases := db.cases[db.nextId := CaseCopyOf(s, live, caseId)], nextId := db.nextId + 1)
  }

  lemma CaseAdds(db: Db, s: nat, live: Live, caseId: Id, open: set<nat>, n: nat)
    requires IdsBelow(db) && s < db.nextId && caseId in live.cases && Matched(db, open) && n <= s
    ensures var db' := WithCase(db, s, live, caseId);
            IdsBelow(db') && Matched(db', open) && Adds(db, db', n)
  {
    MatchedExtended(db, WithCase(db, s, live, caseId), open);
  }

  lemma CaseItemsAdd(db: Db, db': Db, c: nat, n: nat)
    requires OnlyItemsNew(db, db') && GrowsUnder(db.items, db'.items, c) && c >= n
    ensures Adds(db, db', n)
  {
  }

  /** The body of the loop over the test cases; all it adds hangs under ids from `n` on. */
  method CreateCase(db: Db, e: nat, s: nat, live: Live, caseId: Id, ghost n: nat, ghost open: set<nat>)
    returns (db': Db, ghost l: CaseLists, ghost copies: CopyLists)
    requires IdsBelow(db) && s < db.nextId && caseId in live.cases && Matched(db, open)
    requires s in db.suites && db.suites[s].executionId == e && n <= s
    ensures IdsBelow(db') && GrowsUnder(db.items, db'.items, db.nextId) && db'.nextId > db.nextId
    ensures var row := live.cases[caseId];
            db' == db.(cases := db.cases[db.nextId := ExecCase(s, caseId, row.title, row.description, row.priority,
                                                               row.orderKey)],
                       items := db'.items, results := db'.results, nextId := db'.nextId)
    ensures AreLists(live, caseId, l) && ChildrenCopied(db'.items, db.nextId, live, l, copies)
    ensures Matched(db', open) && Adds(db, db', n)
  {
    var c := db.nextId;
    var db1 := WithCase(db, s, live, caseId);
    CaseAdds(db, s, live, caseId, open, n);
    var db2, lists;
    db2, l, lists := CreateCaseItems(db1, c, live, caseId, open);
    copies := lists;
    CaseItemsAdd(db1, db2, c, n);
    AddsTransitive(db, db1, db2, n);
    assert forall k :: k in open ==> k in db.items;
    db' := CreateCaseResults(db2, e, c, live, l, lists, n, open);
    AddsTransitive(db, db2, db', n);
  }

  // ----- the whole execution -----

  /** Which rows were copied, and the ids of their copies, case by case. */
  datatype Snapshot = Snapshot(suiteIds: seq<Id>, suiteCopies: seq<nat>, caseIds: seq<Id>, execIds: seq<nat>,
                               lists: seq<CaseLists>, copies: seq<CopyLists>)

  /** The first `n` cases of the snapshot are copied, and nothing else is under the suite `s`. */
  ghost predicate CasesCopied(db: Db, s: nat, live: Live, w: Snapshot, n: nat) {
    && |w.execIds| == |w.lists| == |w.copies| == n <= |w.caseIds| && Distinct(w.execIds)
    && (forall c: nat :: c in db.cases && db.cases[c].execSuiteId == s <==> c in w.execIds)
    && (forall i :: 0 <= i < n ==>
          && w.caseIds[i] in live.cases && w.execIds[i] in db.cases
          && (var row := live.cases[w.caseIds[i]];
              db.cases[w.execIds[i]] == ExecCase(s, w.caseIds[i], row.title, row.description, row.priority, row.orderKey))
          && AreLists(live, w.caseIds[i], w.lists[i])
          && ChildrenCopied(db.items, w.execIds[i], live, w.lists[i], w.copies[i]))
  }

  /** `s` is the one suite of execution `e`. */
  ghost predicate OnlySuite(db: Db, e: nat, s: nat) {
    s in db.suites && forall k :: k in db.suites && db.suites[k].executionId == e <==> k == s
  }

  /**
    Execution `e` with suite `s` copies the suite as it was in `live`: its preconditions, undeleted
    cases and their children, in order, and nothing else.
   */
  ghost predicate IsSnapshot(db: Db, e: nat, s: nat, live: Live, suiteId: Id, w: Snapshot) {
    && suiteId in live.suites && OnlySuite(db, e, s)
    && db.suites[s] == ExecSuite(e, suiteId, live.suites[suiteId].name, live.suites[suiteId].description)
    && IsListing(live.suitePreconditions, suiteId, w.suiteIds)
    && Copied(db.items, SuitePrecondition, s, live.suitePreconditions, w.suiteIds, w.suiteCopies)
    && IsCaseListing(live, suiteId, w.caseIds)
    && CasesCopied(db, s, live, w, |w.caseIds|)
  }

  lemma CasesKept(db: Db, db': Db, s: nat, live: Live, w: Snapshot, n: nat, caseId: Id, l: CaseLists, copies: CopyLists)
    requires IdsBelow(db) && CasesCopied(db, s, live, w, n) && n < |w.caseIds|
    requires caseId == w.caseIds[n] && caseId in live.cases
    requires db'.cases == db.cases[db.nextId := CaseCopyOf(s, live, caseId)]
    requires GrowsUnder(db.items, db'.items, db.nextId)
    requires AreLists(live, caseId, l) && ChildrenCopied(db'.items, db.nextId, live, l, copies)
    ensures CasesCopied(db', s, live,
      w.(execIds := w.execIds + [db.nextId], lists := w.lists + [l], copies := w.copies + [copies]), n + 1)
  {
    forall i | 0 <= i < n ensures ChildrenCopied(db'.items, w.execIds[i], live, w.lists[i], w.copies[i]) {
      assert w.execIds[i] in db.cases;
      ChildrenKept(db.items, db'.items, db.nextId, w.execIds[i], live, w.lists[i], w.copies[i]);
    }
  }

  /** The suite's preconditions and the first `i` cases are copied, and only the suite's items are open. */
  ghost predicate CasesAdded(db: Db, db': Db, s: nat, live: Live, w: Snapshot, i: nat, n: nat, open: set<nat>) {
    && IdsBelow(db') && Adds(db, db', n) && Matched(db', open)
    && db'.executions == db.executions && db'.suites == db.suites
    && CasesCopied(db', s, live, w, i)
    && Copied(db'.items, SuitePrecondition, s, live.suitePreconditions, w.suiteIds, w.suiteCopies)
  }

  lemma OneMoreCase(db: Db, before: Db, db': Db, s: nat, live: Live, w: Snapshot, i: nat,
                    l: CaseLists, copies: CopyLists, n: nat, open: set<nat>)
    requires CasesAdded(db, before, s, live, w, i, n, open) && s < db.nextId
    requires i < |w.caseIds| && w.caseIds[i] in live.cases
    requires IdsBelow(db') && GrowsUnder(before.items, db'.items, before.nextId) && Adds(before, db', n)
    requires db' == before.(cases := before.cases[before.nextId := CaseCopyOf(s, live, w.caseIds[i])],
                            items := db'.items, results := db'.results, nextId := db'.nextId)
    requires AreLists(live, w.caseIds[i], l) && ChildrenCopied(db'.items, before.nextId, live, l, copies)
    requires Matched(db', open)
    ensures CasesAdded(db, db', s, live,
      w.(execIds := w.execIds + [before.nextId], lists := w.lists + [l], copies := w.copies + [copies]),
      i + 1, n, open)
  {
    AddsTransitive(db, before, db', n);
    CasesKept(before, db', s, live, w, i, w.caseIds[i], l, copies);
    CopiedKeptUnder(before.items, db'.items, before.nextId, SuitePrecondition, s, live.suitePreconditions,
                    w.suiteIds, w.suiteCopies);
  }

  /** The loop over the test cases. */
  method CreateCases(db: Db, e: nat, s: nat, live: Live, caseIds: seq<Id>, ghost suiteIds: seq<Id>,
                     ghost suiteCopies: seq<nat>, ghost n: nat, ghost open: set<nat>)
    returns (db': Db, ghost w: Snapshot)
    requires IdsBelow(db) && s < db.nextId && (forall id :: id in caseIds ==> id in live.cases)
    requires Matched(db, open) && s in db.suites && db.suites[s].executionId == e && n <= s
    requires forall c :: c in db.cases ==> db.cases[c].execSuiteId != s
    requires Copied(db.items, SuitePrecondition, s, live.suitePreconditions, suiteIds, suiteCopies)
    ensures w.suiteIds == suiteIds && w.suiteCopies == suiteCopies && w.caseIds == caseIds
    ensures CasesAdded(db, db', s, live, w, |caseIds|, n, open)
  {
    db', w := db, Snapshot(suiteIds, suiteCopies, caseIds, [], [], []);
    for i := 0 to |caseIds|
      invariant w.suiteIds == suiteIds && w.suiteCopies == suiteCopies && w.caseIds == caseIds
      invariant CasesAdded(db, db', s, live, w, i, n, open)
    {
      ghost var before := db';
      ghost var l, copies;
      db', l, copies := CreateCase(db', e, s, live, caseIds[i], n, open);
      OneMoreCase(db, before, db', s, live, w, i, l, copies, n, open);
      w := w.(execIds := w.execIds + [before.nextId], lists := w.lists + [l], copies := w.copies + [copies]);
    }
  }

  /** The rows of a new execution and its suite. */
  function WithExecution(db: Db, live: Live, suiteId: Id, userId: Id, environmentId: Option<Id>): Db
    requires suiteId in live.suites
  {
    var suite := live.suites[suiteId];
    db.(executions := db.executions[db.nextId := Execution(suiteId, environmentId, userId)],
        suites := db.suites[db.nextId + 1 := ExecSuite(db.nextId, suiteId, suite.name, suite.description)],
        nextId := db.nextId + 2)
  }

  lemma NothingYet(db: Db, live: Live, suiteId: Id, userId: Id, environmentId: Option<Id>)
    requires IdsBelow(db) && suiteId in live.suites && Matched(db, {})
    requires forall k :: k in db.suites ==> db.suites[k].executionId < db.nextId
    ensures var db' := WithExecution(db, live, suiteId, userId, environmentId);
            && IdsBelow(db') && Adds(db, db', db.nextId) && Matched(db', {})
            && OnlySuite(db', db.nextId, db.nextId + 1)
            && (forall k :: k in db'.items ==> db'.items[k].parent != db.nextId + 1)
            && (forall c :: c in db'.cases ==> db'.cases[c].execSuiteId != db.nextId + 1)
  {
    MatchedExtended(db, WithExecution(db, live, suiteId, userId, environmentId), {});
  }

  /** The execution, its suite and the copies of the suite's own preconditions. */
  method CreateSuite(db: Db, live: Live, suiteId: Id, userId: Id, environmentId: Option<Id>, suitePreconditions: seq<Id>)
    returns (db': Db, suiteCopies: seq<nat>)
    requires IdsBelow(db) && Matched(db, {}) && suiteId in live.suites
    requires forall k :: k in db.suites ==> db.suites[k].executionId < db.nextId
    requires forall id :: id in suitePreconditions ==> id in live.suitePreconditions
    ensures IdsBelow(db') && Matched(db', Elements(suiteCopies)) && Adds(db, db', db.nextId)
    ensures var db1 := WithExecution(db, live, suiteId, userId, environmentId);
            && db' == db1.(items := db'.items, nextId := db'.nextId) && db'.nextId >= db1.nextId
            && OnlySuite(db1, db.nextId, db.nextId + 1)
    ensures Copied(db'.items, SuitePrecondition, db.nextId + 1, live.suitePreconditions, suitePreconditions, suiteCopies)
    ensures forall c :: c in db'.cases ==> db'.cases[c].execSuiteId != db.nextId + 1
    ensures forall k :: k in suiteCopies ==> k >= db.nextId
  {
    var e, s := db.nextId, db.nextId + 1;
    var db1 := WithExecution(db, live, suiteId, userId, environmentId);
    NothingYet(db, live, suiteId, userId, environmentId);
    db', suiteCopies := CreateItems(db1, SuitePrecondition, s, live.suitePreconditions, suitePreconditions, {});
    ItemsAdd(db1, db', SuitePrecondition, s, e);
    AddsTransitive(db, db1, db', e);
    assert {} + Elements(suiteCopies) == Elements(suiteCopies);
  }

  /** The last loop: the results of the suite's own preconditions. */
  method CreateSuiteResults(db: Db, e: nat, s: nat, ghost live: Live, ghost w: Snapshot, suiteCopies: seq<nat>,
                            ghost n: nat, ghost open: set<nat>)
    returns (db': Db)
    requires IdsBelow(db) && Matched(db, open) && open == Elements(suiteCopies)
    requires Copied(db.items, SuitePrecondition, s, live.suitePreconditions, w.suiteIds, suiteCopies)
    requires s in db.suites && db.suites[s].executionId == e && forall k :: k in suiteCopies ==> k >= n
    ensures IdsBelow(db') && Matched(db', {}) && Adds(db, db', n)
    ensures db' == db.(results := db'.results, nextId := db'.nextId)
  {
    forall k | k in suiteCopies
      ensures k in db.items && db.items[k].kind == SuitePrecondition && db.items[k].parent == s
    {
      assert IsItemOf(db.items, SuitePrecondition, s, k);
    }
    db' := CreateNewResults(db, SuitePrecondition, e, None, suiteCopies, n, open);
    assert open - Elements(suiteCopies) == {};
  }

  /** The transaction: all it adds hangs under new ids, and `w` describes the new snapshot. */
  method CreateExecution(db: Db, live: Live, suiteId: Id, userId: Id, environmentId: Option<Id>,
                         testCases: seq<Id>, suitePreconditions: seq<Id>)
    returns (e: nat, db': Db, ghost w: Snapshot)
    requires IdsBelow(db) && Matched(db, {}) && suiteId in live.suites
    requires forall k :: k in db.suites ==> db.suites[k].executionId < db.nextId
    requires IsCaseListing(live, suiteId, testCases) && forall id :: id in testCases ==> id in live.cases
    requires IsListing(live.suitePreconditions, suiteId, suitePreconditions)
    ensures e == db.nextId && IdsBelow(db') && Matched(db', {}) && Adds(db, db', db.nextId)
    ensures db'.executions == db.executions[e := Execution(suiteId, environmentId, userId)]
    ensures forall k :: k in db'.suites && k !in db.suites ==> k == e + 1
    ensures IsSnapshot(db', e, e + 1, live, suiteId, w)
  {
    e := db.nextId;
    var s := e + 1;
    var db2, suiteCopies := CreateSuite(db, live, suiteId, userId, environmentId, suitePreconditions);
    ghost var open := Elements(suiteCopies);
    var db3;
    db3, w := CreateCases(db2, e, s, live, testCases, suitePreconditions, suiteCopies, e, open);
    AddsTransitive(db, db2, db3, e);
    db' := CreateSuiteResults(db3, e, s, live, w, suiteCopies, e, open);
    AddsTransitive(db, db3, db', e);
  }
}
