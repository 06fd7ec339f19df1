/**
  The child tables of test cases, what it means for a test case's rows to be in canonical form,
  and what every call on them keeps. Preconditions, steps and expected results are three tables
  with the same operations.
 */
module ChildTables {
  import opened Wrappers
  import opened Orders
  import opened OrderKeys
  import opened ChildLists

  datatype EntityKind = PreconditionKind | StepKind | ExpectedResultKind

  datatype Row = Row(testCaseId: Id, content: string, orderKey: string)

  /** One child table, indexed by primary key. */
  type Table = map<Id, Row>

  datatype ChildSnapshot = ChildSnapshot(id: Id, content: string, orderKey: string)

  /** A `testCaseHistory` row written by an operation on child rows. */
  datatype HistoryRow = HistoryRow(
    testCaseId: Id, kind: EntityKind, snapshot: seq<ChildSnapshot>, detail: ChangeDetail)

  predicate BelongsTo(t: Table, testCaseId: Id, id: Id) {
    id in t && t[id].testCaseId == testCaseId
  }

  function RowIds(t: Table, testCaseId: Id): (s: set<Id>)
    ensures forall id :: id in s <==> BelongsTo(t, testCaseId, id)
  {
    set id | id in t && t[id].testCaseId == testCaseId
  }

  /** `orderBy: { orderKey: 'asc' }` on the rows of `t`. */
  function KeyLess(t: Table): (Id, Id) -> bool {
    (a, b) => a in t && b in t && LexLess(t[a].orderKey, t[b].orderKey)
  }

  lemma KeyLessIsOrder(t: Table)
    ensures StrictOrder(KeyLess(t))
  {
    forall x ensures !KeyLess(t)(x, x) {
      if x in t {
        LexLessIrreflexive(t[x].orderKey);
      }
    }
    forall x, y, z | KeyLess(t)(x, y) && KeyLess(t)(y, z) ensures KeyLess(t)(x, z) {
      LexLessTransitive(t[x].orderKey, t[y].orderKey, t[z].orderKey);
    }
  }

  /** `findMany({ where: { testCaseId }, orderBy: { orderKey: 'asc' } })`, as row ids. */
  ghost predicate IsListing(t: Table, testCaseId: Id, ids: seq<Id>) {
    OrderedBy(ids, RowIds(t, testCaseId), KeyLess(t))
  }

  method FindManyOrdered(t: Table, testCaseId: Id) returns (ids: seq<Id>)
    ensures IsListing(t, testCaseId, ids)
  {
    KeyLessIsOrder(t);
    ids := OrderBy(RowIds(t, testCaseId), KeyLess(t));
  }

  /** `findFirst({ where: { testCaseId }, orderBy: { orderKey: 'desc' } })?.orderKey`. */
  ghost predicate IsLastKey(t: Table, testCaseId: Id, key: Option<string>) {
    match key
    case None => RowIds(t, testCaseId) == {}
    case Some(k) =>
      && (exists id :: BelongsTo(t, testCaseId, id) && t[id].orderKey == k)
      && (forall id :: BelongsTo(t, testCaseId, id) ==> !LexLess(k, t[id].orderKey))
  }

  method FindLastKey(t: Table, testCaseId: Id) returns (key: Option<string>)
    ensures IsLastKey(t, testCaseId, key)
  {
    var ids := FindManyOrdered(t, testCaseId);
    if ids == [] {
      assert forall id :: id in RowIds(t, testCaseId) ==> id in ids;
      return None;
    }
    var last := ids[|ids| - 1];
    assert last in ids;
    forall id | BelongsTo(t, testCaseId, id) ensures !LexLess(t[last].orderKey, t[id].orderKey) {
      assert id in ids;
      var i :| 0 <= i < |ids| && ids[i] == id;
      LexLessIrreflexive(t[id].orderKey);
      assert !KeyLess(t)(last, id);
    }
    return Some(t[last].orderKey);
  }

  // ----- canonical rows -----

  /** The rows of a test case are `list`, stored with the keys 00001, 00002, ... */
  ghost predicate Canonical(t: Table, testCaseId: Id, list: seq<Child>) {
    && Enumerates(Ids(list), RowIds(t, testCaseId))
    && forall i :: 0 <= i < |list| ==>
         list[i].id in t && t[list[i].id] == Row(testCaseId, list[i].content, IndexToOrderKey(i))
  }

  /** While keys have five digits, reading canonical rows back gives the list in order. */
  lemma CanonicalReadsBack(t: Table, testCaseId: Id, list: seq<Child>, ids: seq<Id>)
    requires Canonical(t, testCaseId, list) && |list| <= MAX_ORDERED
    requires IsListing(t, testCaseId, ids)
    ensures ids == Ids(list)
  {
    forall i, j | 0 <= i < j < |list| ensures KeyLess(t)(Ids(list)[i], Ids(list)[j]) {
      OrderKeysIncrease(i, j);
      assert t[list[i].id].orderKey == IndexToOrderKey(i);
      assert t[list[j].id].orderKey == IndexToOrderKey(j);
    }
    StrictOrderUnique(ids, Ids(list), KeyLess(t));
  }

  lemma CanonicalUnique(t: Table, testCaseId: Id, a: seq<Child>, b: seq<Child>)
    requires Canonical(t, testCaseId, a) && Canonical(t, testCaseId, b)
    requires |a| <= MAX_ORDERED
    ensures a == b
  {
    EnumerationLength(Ids(a), RowIds(t, testCaseId));
    EnumerationLength(Ids(b), RowIds(t, testCaseId));
    KeyLessIsOrder(t);
    forall i, j | 0 <= i < j < |b| ensures !KeyLess(t)(Ids(b)[j], Ids(b)[i]) {
      OrderKeysIncrease(i, j);
      assert t[b[i].id].orderKey == IndexToOrderKey(i);
      assert t[b[j].id].orderKey == IndexToOrderKey(j);
      if LexLess(IndexToOrderKey(j), IndexToOrderKey(i)) {
        LexLessTransitive(IndexToOrderKey(i), IndexToOrderKey(j), IndexToOrderKey(i));
        LexLessIrreflexive(IndexToOrderKey(i));
      }
    }
    CanonicalReadsBack(t, testCaseId, a, Ids(b));
    forall i | 0 <= i < |a| ensures a[i] == b[i] {
      assert Ids(a)[i] == a[i].id && Ids(b)[i] == b[i].id;
    }
  }

  /** The last key of canonical rows is the key of the last position. */
  lemma CanonicalLastKey(t: Table, testCaseId: Id, list: seq<Child>, key: Option<string>)
    requires Canonical(t, testCaseId, list) && |list| <= MAX_ORDERED
    requires IsLastKey(t, testCaseId, key)
    ensures key == if list == [] then None else Some(IndexToOrderKey(|list| - 1))
  {
    if list == [] {
      assert forall id :: id in RowIds(t, testCaseId) ==> id in Ids(list);
    } else {
      assert Ids(list)[0] in RowIds(t, testCaseId);
      var n := |list| - 1;
      var id :| BelongsTo(t, testCaseId, id) && t[id].orderKey == key.value;
      assert id in Ids(list);
      var i :| 0 <= i < |list| && Ids(list)[i] == id;
      assert t[list[i].id].orderKey == IndexToOrderKey(i);
      assert Ids(list)[n] in RowIds(t, testCaseId);
      assert t[list[n].id].orderKey == IndexToOrderKey(n);
      if i < n {
        OrderKeysIncrease(i, n);
      }
    }
  }

  /** Writing `indexToOrderKey(i)` to the i-th row of `ids`. */
  ghost predicate Renumbered(t: Table, ids: seq<Id>, t': Table) {
    && t'.Keys == t.Keys
    && (forall i :: 0 <= i < |ids| && ids[i] in t ==>
          t'[ids[i]] == t[ids[i]].(orderKey := IndexToOrderKey(i)))
    && (forall id :: id in t && id !in ids ==> t'[id] == t[id])
  }

  /** A renumbered enumeration of a test case's rows is canonical. */
  lemma RenumberedIsCanonical(t: Table, testCaseId: Id, ids: seq<Id>, t': Table, list: seq<Child>)
    requires Enumerates(ids, RowIds(t, testCaseId))
    requires Renumbered(t, ids, t')
    requires Ids(list) == ids
    requires forall i :: 0 <= i < |list| && list[i].id in t ==> list[i].content == t[list[i].id].content
    ensures Canonical(t', testCaseId, list)
  {
    forall id ensures id in RowIds(t', testCaseId) <==> id in RowIds(t, testCaseId) {
      if id in t && id in ids {
        var i :| 0 <= i < |ids| && ids[i] == id;
      }
    }
    forall i | 0 <= i < |list|
      ensures list[i].id in t' && t'[list[i].id] == Row(testCaseId, list[i].content, IndexToOrderKey(i))
    {
      assert ids[i] == list[i].id && ids[i] in RowIds(t, testCaseId);
    }
  }

  // ----- runs -----

  /** The details recorded for one test case and one kind of child, oldest first. */
  function DetailsOf(history: seq<HistoryRow>, testCaseId: Id, kind: EntityKind): seq<ChangeDetail> {
    if history == [] then []
    else
      var last := history[|history| - 1];
      DetailsOf(history[..|history| - 1], testCaseId, kind) +
      if last.testCaseId == testCaseId && last.kind == kind then [last.detail] else []
  }

  lemma DetailsOfAppend(history: seq<HistoryRow>, row: HistoryRow)
    ensures DetailsOf(history + [row], row.testCaseId, row.kind)
         == DetailsOf(history, row.testCaseId, row.kind) + [row.detail]
  {
    assert (history + [row])[..|history|] == history;
  }

  /** What is observed of one test case's children: the table and the recorded details. */
  datatype Snap = Snap(table: Table, details: seq<ChangeDetail>)

  /** Other test cases' rows are untouched, and rows are neither moved in nor taken away from them. */
  ghost predicate OthersKept(t: Table, testCaseId: Id, t': Table) {
    forall id :: (id in t && t[id].testCaseId != testCaseId) || (id in t' && t'[id].testCaseId != testCaseId)
      ==> id in t && id in t' && t'[id] == t[id]
  }

  /** What a call promises of canonical rows: they become the rows of `Apply`, and its details are recorded. */
  ghost predicate Transition(testCaseId: Id, before: Snap, op: Op, after: Snap) {
    forall list :: Canonical(before.table, testCaseId, list) && |list| <= MAX_ORDERED ==>
      && Canonical(after.table, testCaseId, Apply(list, op).0)
      && after.details == before.details + Apply(list, op).1
  }

  ghost predicate IsRun(testCaseId: Id, states: seq<Snap>, ops: seq<Op>) {
    && |states| == |ops| + 1
    && forall i :: 0 <= i < |ops| ==>
         && Transition(testCaseId, states[i], ops[i], states[i + 1])
         && (ops[i].Add? ==> ops[i].newId !in states[i].table)
  }

  /** Undoing the details recorded since `earlier`, newest first, turns `list` into `was`. */
  predicate UndoesTo(list: seq<Child>, details: seq<ChangeDetail>, earlier: seq<ChangeDetail>, was: seq<Child>) {
    earlier <= details && UndoAll(list, details[|earlier|..]) == was
  }

  /** Redoing the details recorded since `earlier`, oldest first, turns `was` into `list`. */
  predicate RedoesTo(was: seq<Child>, details: seq<ChangeDetail>, earlier: seq<ChangeDetail>, list: seq<Child>) {
    earlier <= details && RedoAll(was, details[|earlier|..]) == list
  }

  /**
    The undo log. Over every run that starts from canonical rows and never has more than 99999 of
    them, the rows stay canonical, and undoing the details recorded since any earlier state,
    newest first, from the list now stored gives the list stored then, and redoing them, oldest
    first, from the list stored then gives the list now stored.
   */
  lemma {:induction false} UndoLog(testCaseId: Id, states: seq<Snap>, ops: seq<Op>, first: seq<Child>)
    returns (lists: seq<seq<Child>>)
    requires IsRun(testCaseId, states, ops)
    requires Canonical(states[0].table, testCaseId, first)
    requires forall i :: 0 <= i < |ops| ==> |RowIds(states[i].table, testCaseId)| <= MAX_ORDERED
    ensures |lists| == |states| && lists[0] == first
    ensures forall i :: 0 <= i < |states| ==> Canonical(states[i].table, testCaseId, lists[i])
    ensures forall k :: 0 <= k < |states| ==>
      UndoesTo(lists[|ops|], states[|ops|].details, states[k].details, lists[k])
    ensures forall k :: 0 <= k < |states| ==>
      RedoesTo(lists[k], states[|ops|].details, states[k].details, lists[|ops|])
    decreases |ops|
  {
    if ops == [] {
      lists := [first];
    } else {
      var n := |ops| - 1;
      lists := UndoLog(testCaseId, states[..n + 1], ops[..n], first);
      var list, op := lists[n], ops[n];
      StepStaysCanonical(testCaseId, states[n], op, states[n + 1], list);
      var next := Apply(list, op).0;
      forall k | 0 <= k <= n
        ensures UndoesTo(next, states[n + 1].details, states[k].details, lists[k])
        ensures RedoesTo(lists[k], states[n + 1].details, states[k].details, next)
      {
        assert states[..n + 1][k] == states[k];
        UndoOneMore(list, op, states[k].details, states[n].details);
        RedoOneMore(list, op, lists[k], states[k].details, states[n].details);
      }
      assert states[n + 1].details[|states[n + 1].details|..] == [];
      assert UndoesTo(next, states[n + 1].details, states[n + 1].details, next);
      lists := lists + [next];
    }
  }

  /** If undoing back to `earlier` is right before a step, it is right after it. */
  lemma UndoOneMore(list: seq<Child>, op: Op, earlier: seq<ChangeDetail>, before: seq<ChangeDetail>)
    requires Distinct(Ids(list)) && FreshFor(list, op)
    requires earlier <= before
    ensures var (next, details) := Apply(list, op);
            && earlier <= before + details
            && UndoAll(next, (before + details)[|earlier|..]) == UndoAll(list, before[|earlier|..])
  {
    var (next, details) := Apply(list, op);
    UndoStep(list, op);
    assert (before + details)[|earlier|..] == before[|earlier|..] + details;
    UndoAllConcat(next, before[|earlier|..], details);
  }

  lemma RedoOneMore(list: seq<Child>, op: Op, was: seq<Child>, earlier: seq<ChangeDetail>, before: seq<ChangeDetail>)
    requires RedoesTo(was, before, earlier, list)
    ensures RedoesTo(was, before + Apply(list, op).1, earlier, Apply(list, op).0)
  {
    RedoStep(list, op, was, before[|earlier|..]);
    var details := Apply(list, op).1;
    assert (before + details)[|earlier|..] == before[|earlier|..] + details;
  }

  lemma StepStaysCanonical(testCaseId: Id, before: Snap, op: Op, after: Snap, list: seq<Child>)
    requires Transition(testCaseId, before, op, after)
    requires op.Add? ==> op.newId !in before.table
    requires Canonical(before.table, testCaseId, list)
    requires |RowIds(before.table, testCaseId)| <= MAX_ORDERED
    ensures Distinct(Ids(list)) && FreshFor(list, op)
    ensures Canonical(after.table, testCaseId, Apply(list, op).0)
    ensures after.details == before.details + Apply(list, op).1
  {
    EnumerationLength(Ids(list), RowIds(before.table, testCaseId));
    if op.Add? {
      assert forall id :: id in Ids(list) ==> id in before.table;
    }
  }
}
