/**
  What the snapshot of an execution holds, column by column: each row of the live suite at the start,
  once, and no other row.
 */
module ExecutionMirror {
  import opened Wrappers
  import opened Orders
  import opened ChildLists
  import opened ChildTables
  import opened ExecutionTables
  import opened ExecutionSnapshot

  /** The items of `kind` under `parent` are the rows of `owner` in `t`, each once, with their content and key. */
  ghost predicate RowsMirrored(items: map<nat, ExecItem>, kind: ItemKind, parent: nat, t: Table, owner: Id) {
    && (forall k: nat :: k in items && items[k].kind == kind && items[k].parent == parent ==>
          && items[k].originalId in t && t[items[k].originalId].testCaseId == owner
          && items[k].content == t[items[k].originalId].content
          && items[k].orderKey == t[items[k].originalId].orderKey)
    && (forall id :: id in t && t[id].testCaseId == owner ==> HasItem(items, kind, parent, id))
    && (forall id, k: nat, k': nat :: CopiesRow(items, kind, parent, id, k) && CopiesRow(items, kind, parent, id, k') ==>
          k == k')
  }

  predicate CopiesRow(items: map<nat, ExecItem>, kind: ItemKind, parent: nat, id: Id, k: nat) {
    k in items && items[k].kind == kind && items[k].parent == parent && items[k].originalId == id
  }

  ghost predicate HasItem(items: map<nat, ExecItem>, kind: ItemKind, parent: nat, id: Id) {
    exists k: nat :: CopiesRow(items, kind, parent, id, k)
  }

  /** The cases of suite `s` are the undeleted live cases of the suite, each once, with their columns. */
  ghost predicate CasesMirrored(cases: map<nat, ExecCase>, s: nat, live: Live, suiteId: Id) {
    && (forall c: nat :: c in cases && cases[c].execSuiteId == s ==>
          var o := cases[c].originalId;
          && o in live.cases && live.cases[o].testSuiteId == suiteId && live.cases[o].deletedAt == None
          && cases[c].title == live.cases[o].title && cases[c].description == live.cases[o].description
          && cases[c].priority == live.cases[o].priority && cases[c].orderKey == live.cases[o].orderKey)
    && (forall o :: o in live.cases && live.cases[o].testSuiteId == suiteId && live.cases[o].deletedAt == None ==>
          HasCase(cases, s, o))
    && (forall o, c: nat, c': nat :: CopiesCase(cases, s, o, c) && CopiesCase(cases, s, o, c') ==> c == c')
  }

  predicate CopiesCase(cases: map<nat, ExecCase>, s: nat, o: Id, c: nat) {
    c in cases && cases[c].execSuiteId == s && cases[c].originalId == o
  }

  ghost predicate HasCase(cases: map<nat, ExecCase>, s: nat, o: Id) {
    exists c: nat :: CopiesCase(cases, s, o, c)
  }

  /** The children of case `c` are those of the live case it was copied from. */
  ghost predicate ChildrenMirrored(items: map<nat, ExecItem>, c: nat, live: Live, o: Id) {
    && RowsMirrored(items, CasePrecondition, c, live.preconditions, o)
    && RowsMirrored(items, Step, c, live.steps, o)
    && RowsMirrored(items, ExpectedResult, c, live.expectedResults, o)
  }

  /** Suite `s` is the execution's only one, and the mirror of the live suite. */
  ghost predicate SuiteMirrored(db: Db, e: nat, s: nat, live: Live, suiteId: Id) {
    && (forall k :: k in db.suites && db.suites[k].executionId == e <==> k == s)
    && s in db.suites && suiteId in live.suites
    && db.suites[s].originalId == suiteId
    && db.suites[s].name == live.suites[suiteId].name && db.suites[s].description == live.suites[suiteId].description
    && RowsMirrored(db.items, SuitePrecondition, s, live.suitePreconditions, suiteId)
    && CasesMirrored(db.cases, s, live, suiteId)
    && forall c: nat {:trigger ChildrenMirrored(db.items, c, live, db.cases[c].originalId)} ::
         c in db.cases && db.cases[c].execSuiteId == s ==> ChildrenMirrored(db.items, c, live, db.cases[c].originalId)
  }

  lemma CopiedIsMirrored(items: map<nat, ExecItem>, kind: ItemKind, parent: nat, t: Table, owner: Id,
                         ids: seq<Id>, copies: seq<nat>)
    requires Copied(items, kind, parent, t, ids, copies) && IsListing(t, owner, ids)
    ensures RowsMirrored(items, kind, parent, t, owner)
  {
    forall k: nat | k in items && items[k].kind == kind && items[k].parent == parent
      ensures exists i :: 0 <= i < |ids| && copies[i] == k && ids[i] == items[k].originalId
      ensures items[k].originalId in t && t[items[k].originalId].testCaseId == owner
      ensures items[k].content == t[items[k].originalId].content
      ensures items[k].orderKey == t[items[k].originalId].orderKey
    {
      assert IsItemOf(items, kind, parent, k);
      var i :| 0 <= i < |copies| && copies[i] == k;
      assert ids[i] in ids && ids[i] in RowIds(t, owner);
    }
    forall id | id in t && t[id].testCaseId == owner ensures HasItem(items, kind, parent, id) {
      assert id in RowIds(t, owner) && id in ids;
      var i :| 0 <= i < |ids| && ids[i] == id;
      assert IsItemOf(items, kind, parent, copies[i]);
      assert CopiesRow(items, kind, parent, id, copies[i]);
    }
    forall id, k: nat, k': nat | CopiesRow(items, kind, parent, id, k) && CopiesRow(items, kind, parent, id, k')
      ensures k == k'
    {
      var i :| 0 <= i < |ids| && copies[i] == k && ids[i] == items[k].originalId;
      var i' :| 0 <= i' < |ids| && copies[i'] == k' && ids[i'] == items[k'].originalId;
      assert i == i';
    }
  }

  lemma CaseAt(db: Db, s: nat, live: Live, w: Snapshot, c: nat) returns (i: nat)
    requires CasesCopied(db, s, live, w, |w.caseIds|) && c in db.cases && db.cases[c].execSuiteId == s
    ensures i < |w.caseIds| && w.execIds[i] == c && w.caseIds[i] == db.cases[c].originalId
    ensures w.caseIds[i] in live.cases && AreLists(live, w.caseIds[i], w.lists[i])
    ensures ChildrenCopied(db.items, c, live, w.lists[i], w.copies[i])
    ensures db.cases[c].title == live.cases[w.caseIds[i]].title
    ensures db.cases[c].description == live.cases[w.caseIds[i]].description
    ensures db.cases[c].priority == live.cases[w.caseIds[i]].priority
    ensures db.cases[c].orderKey == live.cases[w.caseIds[i]].orderKey
  {
    assert c in w.execIds;
    i :| 0 <= i < |w.execIds| && w.execIds[i] == c;
  }

  lemma CopiedCasesAreMirrored(db: Db, s: nat, live: Live, suiteId: Id, w: Snapshot)
    requires CasesCopied(db, s, live, w, |w.caseIds|) && IsCaseListing(live, suiteId, w.caseIds)
    ensures CasesMirrored(db.cases, s, live, suiteId)
  {
    forall c: nat | c in db.cases && db.cases[c].execSuiteId == s
      ensures var o := db.cases[c].originalId;
              && o in live.cases && live.cases[o].testSuiteId == suiteId && live.cases[o].deletedAt == None
              && db.cases[c].title == live.cases[o].title && db.cases[c].description == live.cases[o].description
              && db.cases[c].priority == live.cases[o].priority && db.cases[c].orderKey == live.cases[o].orderKey
    {
      var i := CaseAt(db, s, live, w, c);
      assert w.caseIds[i] in w.caseIds && w.caseIds[i] in LiveCases(live, suiteId);
    }
    forall o | o in live.cases && live.cases[o].testSuiteId == suiteId && live.cases[o].deletedAt == None
      ensures HasCase(db.cases, s, o)
    {
      assert o in LiveCases(live, suiteId) && o in w.caseIds;
      var i :| 0 <= i < |w.caseIds| && w.caseIds[i] == o;
      assert w.execIds[i] in w.execIds && CopiesCase(db.cases, s, o, w.execIds[i]);
    }
    forall o, c: nat, c': nat | CopiesCase(db.cases, s, o, c) && CopiesCase(db.cases, s, o, c') ensures c == c' {
      var i := CaseAt(db, s, live, w, c);
      var i' := CaseAt(db, s, live, w, c');
      assert i == i';
    }
  }

  lemma SnapshotIsMirror(db: Db, e: nat, s: nat, live: Live, suiteId: Id, w: Snapshot)
    requires IsSnapshot(db, e, s, live, suiteId, w)
    ensures SuiteMirrored(db, e, s, live, suiteId)
  {
    CopiedIsMirrored(db.items, SuitePrecondition, s, live.suitePreconditions, suiteId, w.suiteIds, w.suiteCopies);
    CopiedCasesAreMirrored(db, s, live, suiteId, w);
    forall c: nat | c in db.cases && db.cases[c].execSuiteId == s
      ensures ChildrenMirrored(db.items, c, live, db.cases[c].originalId)
    {
      var i := CaseAt(db, s, live, w, c);
      var o, l, copies := w.caseIds[i], w.lists[i], w.copies[i];
      CopiedIsMirrored(db.items, CasePrecondition, c, live.preconditions, o, l.preconditions, copies.preconditions);
      CopiedIsMirrored(db.items, Step, c, live.steps, o, l.steps, copies.steps);
      CopiedIsMirrored(db.items, ExpectedResult, c, live.expectedResults, o, l.expectedResults, copies.expectedResults);
    }
  }
}
