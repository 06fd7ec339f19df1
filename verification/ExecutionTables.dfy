/**
  The tables of test executions: snapshot rows that copy a test suite, and a result row for each
  precondition, step and expected result of the snapshot.
 */
module ExecutionTables {
  import opened Wrappers
  import opened Orders
  import opened ChildLists
  import opened ChildTables

  datatype ItemKind = SuitePrecondition | CasePrecondition | Step | ExpectedResult

  /** A snapshot row; `parent` is its execution suite or execution case. */
  datatype ExecItem = ExecItem(kind: ItemKind, parent: nat, originalId: Id, content: string, orderKey: string)

  datatype ExecSuite = ExecSuite(executionId: nat, originalId: Id, name: string, description: Option<string>)

  datatype ExecCase = ExecCase(execSuiteId: nat, originalId: Id, title: string, description: Option<string>,
                               priority: string, orderKey: string)

  datatype PreconditionStatus = UNCHECKED | MET | NOT_MET

  datatype StepStatus = PENDING | DONE | SKIPPED

  datatype JudgmentStatus = PENDING | PASS | FAIL | SKIPPED

  /** The status column of one of the three result tables. */
  datatype Status =
    | Checked(precondition: PreconditionStatus)
    | Performed(step: StepStatus)
    | Judged(judgment: JudgmentStatus)

  /** A row of one of the three result tables; the kind of its status tells which. */
  datatype ResultRow = ResultRow(executionId: nat, caseId: Option<nat>, itemId: nat, status: Status)

  datatype Execution = Execution(testSuiteId: Id, environmentId: Option<Id>, executedBy: Id)

  /** Ids are drawn in turn; every id in use is below `nextId`. */
  datatype Db = Db(executions: map<nat, Execution>, suites: map<nat, ExecSuite>, cases: map<nat, ExecCase>,
                   items: map<nat, ExecItem>, results: map<nat, ResultRow>, nextId: nat)

  predicate IdsBelow(db: Db) {
    && (forall k :: k in db.executions ==> k < db.nextId)
    && (forall k :: k in db.suites ==> k < db.nextId)
    && (forall k :: k in db.cases ==> k < db.nextId && db.cases[k].execSuiteId < db.nextId)
    && (forall k :: k in db.items ==> k < db.nextId && db.items[k].parent < db.nextId)
    && (forall k :: k in db.results ==> k < db.nextId && db.results[k].itemId < db.nextId)
  }

  function InitialStatus(kind: ItemKind): Status {
    match kind
    case SuitePrecondition | CasePrecondition => Checked(UNCHECKED)
    case Step => Performed(StepStatus.PENDING)
    case ExpectedResult => Judged(JudgmentStatus.PENDING)
  }

  /** The result of an item of this kind is in the table of this status. */
  predicate Fits(kind: ItemKind, status: Status) {
    match kind
    case SuitePrecondition | CasePrecondition => status.Checked?
    case Step => status.Performed?
    case ExpectedResult => status.Judged?
  }

  // ----- copies -----

  function CopyOf(kind: ItemKind, parent: nat, t: Table, id: Id): ExecItem
    requires id in t
  {
    ExecItem(kind, parent, id, t[id].content, t[id].orderKey)
  }

  predicate IsItemOf(items: map<nat, ExecItem>, kind: ItemKind, parent: nat, k: nat) {
    k in items && items[k].kind == kind && items[k].parent == parent
  }

  /** The items of `kind` under `parent` are `copies`, which copy the rows `ids` in that order. */
  ghost predicate Copied(items: map<nat, ExecItem>, kind: ItemKind, parent: nat,
                         t: Table, ids: seq<Id>, copies: seq<nat>)
  {
    && |copies| == |ids| && Distinct(copies)
    && (forall k: nat :: IsItemOf(items, kind, parent, k) <==> k in copies)
    && (forall i :: 0 <= i < |ids| ==>
          ids[i] in t && copies[i] in items &&
          items[copies[i]] == ExecItem(kind, parent, ids[i], t[ids[i]].content, t[ids[i]].orderKey))
  }

  /** Old items stay, and new ones are of `kind` under `parent`. */
  ghost predicate Grows(items: map<nat, ExecItem>, items': map<nat, ExecItem>, kind: ItemKind, parent: nat) {
    && (forall k :: k in items ==> k in items' && items'[k] == items[k])
    && (forall k :: k in items' && k !in items ==> items'[k].kind == kind && items'[k].parent == parent)
  }

  /** What was copied under another kind or parent stays copied. */
  lemma CopiedKept(items: map<nat, ExecItem>, items': map<nat, ExecItem>, kind: ItemKind, parent: nat,
                   kind': ItemKind, parent': nat, t: Table, ids: seq<Id>, copies: seq<nat>)
    requires Copied(items, kind', parent', t, ids, copies) && Grows(items, items', kind, parent)
    requires (kind, parent) != (kind', parent')
    ensures Copied(items', kind', parent', t, ids, copies)
  {
    forall k: nat ensures IsItemOf(items', kind', parent', k) <==> IsItemOf(items, kind', parent', k) {
    }
  }

  // ----- results -----

  /** The execution an item belongs to, found through its suite. */
  function Owner(suites: map<nat, ExecSuite>, cases: map<nat, ExecCase>, item: ExecItem): Option<nat> {
    if item.kind.SuitePrecondition? then
      if item.parent in suites then Some(suites[item.parent].executionId) else None
    else if item.parent in cases && cases[item.parent].execSuiteId in suites then
      Some(suites[cases[item.parent].execSuiteId].executionId)
    else None
  }

  function CaseOf(item: ExecItem): Option<nat> {
    if item.kind.SuitePrecondition? then None else Some(item.parent)
  }

  /** The row names its item's execution and case, and is in the table for items of that kind. */
  predicate Agrees(db: Db, row: ResultRow) {
    && row.itemId in db.items
    && Owner(db.suites, db.cases, db.items[row.itemId]) == Some(row.executionId)
    && row.caseId == CaseOf(db.items[row.itemId])
    && Fits(db.items[row.itemId].kind, row.status)
  }

  predicate IsResultOf(results: map<nat, ResultRow>, item: nat, r: nat) {
    r in results && results[r].itemId == item
  }

  ghost predicate HasOneResult(results: map<nat, ResultRow>, item: nat) {
    exists r :: IsResultOf(results, item, r) && forall r' :: IsResultOf(results, item, r') ==> r' == r
  }

  /** Every item has one result, but for the `open` ones. */
  ghost predicate AllHaveOne(db: Db, open: set<nat>) {
    forall k {:trigger HasOneResult(db.results, k)} :: k in db.items && k !in open ==> HasOneResult(db.results, k)
  }

  /** Every result agrees with its item, which is not open. */
  ghost predicate ResultsAgree(db: Db, open: set<nat>) {
    forall r :: r in db.results ==> Agrees(db, db.results[r]) && db.results[r].itemId !in open
  }

  /** Items and results correspond one to one, except that the `open` items have no result yet. */
  ghost predicate Matched(db: Db, open: set<nat>) {
    AllHaveOne(db, open) && ResultsAgree(db, open) && open <= db.items.Keys
  }

  /** New suites and cases do not change what items belong to. */
  lemma MatchedExtended(db: Db, db': Db, open: set<nat>)
    requires Matched(db, open) && db'.items == db.items && db'.results == db.results
    requires forall k :: k in db.suites ==> k in db'.suites && db'.suites[k] == db.suites[k]
    requires forall k :: k in db.cases ==> k in db'.cases && db'.cases[k] == db.cases[k]
    ensures Matched(db', open)
  {
  }

  // ----- one row -----

  function WithItem(db: Db, item: ExecItem): Db {
    db.(items := db.items[db.nextId := item], nextId := db.nextId + 1)
  }

  function WithResult(db: Db, row: ResultRow): Db {
    db.(results := db.results[db.nextId := row], nextId := db.nextId + 1)
  }

  lemma ItemOpens(db: Db, item: ExecItem, open: set<nat>)
    requires IdsBelow(db) && item.parent < db.nextId && Matched(db, open)
    ensures IdsBelow(WithItem(db, item)) && Matched(WithItem(db, item), open + {db.nextId})
  {
    var db', open' := WithItem(db, item), open + {db.nextId};
    forall k | k in db'.items && k !in open' ensures HasOneResult(db'.results, k) {
      assert HasOneResult(db.results, k);
    }
    forall r | r in db'.results ensures Agrees(db', db'.results[r]) && db'.results[r].itemId !in open' {
      assert Agrees(db, db.results[r]);
    }
  }

  lemma FirstResult(results: map<nat, ResultRow>, n: nat, row: ResultRow)
    requires n !in results && forall r :: r in results ==> results[r].itemId != row.itemId
    ensures HasOneResult(results[n := row], row.itemId)
  {
    assert IsResultOf(results[n := row], row.itemId, n);
  }

  lemma OtherResult(results: map<nat, ResultRow>, n: nat, row: ResultRow, item: nat)
    requires n !in results && item != row.itemId && HasOneResult(results, item)
    ensures HasOneResult(results[n := row], item)
  {
    var r :| IsResultOf(results, item, r) && forall r' :: IsResultOf(results, item, r') ==> r' == r;
    var more := results[n := row];
    assert IsResultOf(more, item, r);
    forall r' | IsResultOf(more, item, r') ensures r' == r {
      assert IsResultOf(results, item, r');
    }
  }

  lemma ResultCloses(db: Db, row: ResultRow, open: set<nat>)
    requires IdsBelow(db) && Matched(db, open) && row.itemId in open && Agrees(db, row)
    ensures IdsBelow(WithResult(db, row)) && Matched(WithResult(db, row), open - {row.itemId})
  {
    var db', open' := WithResult(db, row), open - {row.itemId};
    assert db.nextId !in db.results;
    forall k | k in db'.items && k !in open' ensures HasOneResult(db'.results, k) {
      if k == row.itemId {
        FirstResult(db.results, db.nextId, row);
      } else {
        OtherResult(db.results, db.nextId, row, k);
      }
    }
    forall r | r in db'.results ensures Agrees(db', db'.results[r]) && db'.results[r].itemId !in open' {
      assert r != db.nextId ==> Agrees(db, db.results[r]);
    }
  }

  lemma CopiedOneMore(items: map<nat, ExecItem>, kind: ItemKind, parent: nat,
                      t: Table, ids: seq<Id>, copies: seq<nat>, id: Id, k: nat)
    requires Copied(items, kind, parent, t, ids, copies) && k !in items && id in t
    ensures Copied(items[k := CopyOf(kind, parent, t, id)], kind, parent, t, ids + [id], copies + [k])
  {
    var items' := items[k := CopyOf(kind, parent, t, id)];
    assert k !in copies by {
      assert !IsItemOf(items, kind, parent, k);
    }
    forall j: nat ensures IsItemOf(items', kind, parent, j) <==> j in copies + [k] {
      assert IsItemOf(items, kind, parent, j) <==> j in copies;
    }
  }

  lemma GrowsOneMore(items: map<nat, ExecItem>, items': map<nat, ExecItem>, kind: ItemKind, parent: nat,
                     k: nat, item: ExecItem)
    requires Grows(items, items', kind, parent) && k !in items' && item.kind == kind && item.parent == parent
    ensures Grows(items, items'[k := item], kind, parent)
  {
  }

  // ----- the loops -----

  function Elements(s: seq<nat>): set<nat> {
    set k | k in s
  }

  /** Nothing but items, and ids for them, is new. */
  predicate OnlyItemsNew(db: Db, db': Db) {
    db' == db.(items := db'.items, nextId := db'.nextId) && db.nextId <= db'.nextId
  }

  /** Results stay, and new ones are for `targets`, in their initial status. */
  ghost predicate ResultsAdded(items: map<nat, ExecItem>, results: map<nat, ResultRow>, results': map<nat, ResultRow>,
                               targets: set<nat>)
  {
    && (forall r :: r in results ==> r in results' && results'[r] == results[r])
    && (forall r :: r in results' && r !in results ==> results'[r].itemId in targets)
    && (forall r :: r in results' && r !in results && results'[r].itemId in items ==>
          results'[r].status == InitialStatus(items[results'[r].itemId].kind))
  }

  /** Nothing but results for `targets`, and ids for them, is new. */
  ghost predicate OnlyResultsNew(db: Db, db': Db, targets: set<nat>) {
    && db' == db.(results := db'.results, nextId := db'.nextId) && db.nextId <= db'.nextId
    && ResultsAdded(db.items, db.results, db'.results, targets)
  }

  /** `copies` of the rows `ids` were added to `db`, and are open on top of `open`. */
  ghost predicate ItemsAdded(db: Db, db': Db, kind: ItemKind, parent: nat, t: Table, ids: seq<Id>, copies: seq<nat>,
                             open: set<nat>)
  {
    && IdsBelow(db') && OnlyItemsNew(db, db') && Grows(db.items, db'.items, kind, parent)
    && Copied(db'.items, kind, parent, t, ids, copies)
    && (forall k :: k in copies ==> k >= db.nextId)
    && Matched(db', open + Elements(copies))
  }

  lemma OneMoreItem(db: Db, db': Db, kind: ItemKind, parent: nat, t: Table, ids: seq<Id>, copies: seq<nat>,
                    open: set<nat>, id: Id)
    requires ItemsAdded(db, db', kind, parent, t, ids, copies, open)
    requires id in t && parent < db.nextId
    ensures ItemsAdded(db, WithItem(db', CopyOf(kind, parent, t, id)), kind, parent, t, ids + [id],
                       copies + [db'.nextId], open)
  {
    var item := CopyOf(kind, parent, t, id);
    CopiedOneMore(db'.items, kind, parent, t, ids, copies, id, db'.nextId);
    ItemOpens(db', item, open + Elements(copies));
    GrowsOneMore(db.items, db'.items, kind, parent, db'.nextId, item);
    assert open + Elements(copies) + {db'.nextId} == open + Elements(copies + [db'.nextId]);
  }

  /** Copies the rows `ids` of a child table under `parent`; the copies are open. */
  method CreateItems(db: Db, kind: ItemKind, parent: nat, t: Table, ids: seq<Id>, ghost open: set<nat>)
    returns (db': Db, copies: seq<nat>)
    requires IdsBelow(db) && parent < db.nextId && (forall id :: id in ids ==> id in t)
    requires forall k: nat :: !IsItemOf(db.items, kind, parent, k)
    requires Matched(db, open)
    ensures ItemsAdded(db, db', kind, parent, t, ids, copies, open)
  {
    db', copies := db, [];
    assert open + Elements(copies) == open;
    for i := 0 to |ids|
      invariant ItemsAdded(db, db', kind, parent, t, ids[..i], copies, open)
    {
      OneMoreItem(db, db', kind, parent, t, ids[..i], copies, open, ids[i]);
      assert ids[..i + 1] == ids[..i] + [ids[i]];
      copies := copies + [db'.nextId];
      db' := WithItem(db', CopyOf(kind, parent, t, ids[i]));
    }
    assert ids[..|ids|] == ids;
  }

  /** One result in its initial status for each of the open items `targets`. */
  method CreateResults(db: Db, kind: ItemKind, executionId: nat, caseId: Option<nat>, targets: seq<nat>,
                       ghost open: set<nat>)
    returns (db': Db)
    requires IdsBelow(db) && Matched(db, open)
    requires Distinct(targets) && Elements(targets) <= open
    requires forall k :: k in targets ==> k in db.items && db.items[k].kind == kind
    requires forall k :: k in targets ==>
               Owner(db.suites, db.cases, db.items[k]) == Some(executionId) && CaseOf(db.items[k]) == caseId
    ensures IdsBelow(db') && OnlyResultsNew(db, db', Elements(targets))
    ensures Matched(db', open - Elements(targets))
  {
    db' := db;
    assert open - Elements(targets[..0]) == open;
    for i := 0 to |targets|
      invariant IdsBelow(db') && OnlyResultsNew(db, db', Elements(targets))
      invariant Matched(db', open - Elements(targets[..i]))
    {
      assert targets[i] in targets && targets[i] !in targets[..i];
      assert targets[i] in Elements(targets);
      var row := ResultRow(executionId, caseId, targets[i], InitialStatus(kind));
      ResultCloses(db', row, open - Elements(targets[..i]));
      assert targets[..i + 1] == targets[..i] + [targets[i]];
      assert open - Elements(targets[..i]) - {targets[i]} == open - Elements(targets[..i + 1]);
      db' := WithResult(db', row);
    }
    assert targets[..|targets|] == targets;
  }
}
