/**
  The services that change child rows: add, update, delete and reorder one child, and replace all
  children of a test case by a request's lists in one transaction.
 */
module TestCaseChildren {
  import opened Wrappers
  import opened Orders
  import opened OrderKeys
  import opened ChildLists
  import opened ChildTables
  import opened ChildSync
  import opened SyncReplay

  // ----- the history rows of a sync -----

  /** A history row of a sync is true of the tables before and after, and its snapshot shows the row it is about. */
  predicate RowTells(t: Table, u: Table, testCaseId: Id, kind: EntityKind, h: HistoryRow) {
    && h.testCaseId == testCaseId && h.kind == kind && Tells(t, u, testCaseId, h.detail)
    && match h.detail
       case Added(id, content, orderKey) => h.snapshot == [ChildSnapshot(id, content, orderKey)]
       case Updated(id, before, _) => id in t && h.snapshot == [ChildSnapshot(id, before, t[id].orderKey)]
       case Deleted(id, content, orderKey) => h.snapshot == [ChildSnapshot(id, content, orderKey)]
       case Reordered(_, _) => false
  }

  /** `history'` goes on with rows that tell the truth. */
  predicate RowsTell(t: Table, u: Table, testCaseId: Id, kind: EntityKind, history: seq<HistoryRow>, history': seq<HistoryRow>) {
    history <= history' && forall i :: |history| <= i < |history'| ==> RowTells(t, u, testCaseId, kind, history'[i])
  }

  lemma UpsertRowsTell(t: Table, testCaseId: Id, kind: EntityKind, items: seq<Item>, newIds: seq<Id>, history: seq<HistoryRow>)
    requires FreshIds(t, items, newIds) && IdsExist(t, testCaseId, items)
    ensures RowsTell(t, SyncedTable(t, testCaseId, items, newIds), testCaseId, kind, history,
                     history + SyncRows(testCaseId, kind, t, UpsertDetails(t, items, newIds, |items|)))
  {
    var details := UpsertDetails(t, items, newIds, |items|);
    forall k | 0 <= k < |details|
      ensures RowTells(t, SyncedTable(t, testCaseId, items, newIds), testCaseId, kind, SyncRow(testCaseId, kind, t, details[k]))
    {
      var i := UpsertDetailAt(t, items, newIds, |items|, k);
      UpsertTells(t, testCaseId, items, newIds, i, details[k]);
    }
    var rows := SyncRows(testCaseId, kind, t, details);
    assert forall i :: |history| <= i < |history + rows| ==> (history + rows)[i] == rows[i - |history|];
  }

  lemma SyncRowsTell(t: Table, testCaseId: Id, kind: EntityKind, listing: seq<Id>, items: seq<Item>, newIds: seq<Id>,
                     history: seq<HistoryRow>)
    requires FreshIds(t, items, newIds) && IdsExist(t, testCaseId, items)
    requires Enumerates(listing, RowIds(t, testCaseId))
    ensures forall id :: id in listing ==> id in t
    ensures RowsTell(t, SyncedTable(t, testCaseId, items, newIds), testCaseId, kind, history,
                     history + SyncRows(testCaseId, kind, t, SyncDetails(t, listing, items, newIds)))
  {
    assert forall id :: id in listing ==> id in t;
    var details := SyncDetails(t, listing, items, newIds);
    forall k | 0 <= k < |details|
      ensures RowTells(t, SyncedTable(t, testCaseId, items, newIds), testCaseId, kind, SyncRow(testCaseId, kind, t, details[k]))
    {
      EntriesTell(t, testCaseId, listing, items, newIds, k);
    }
    var rows := SyncRows(testCaseId, kind, t, details);
    assert forall i :: |history| <= i < |history + rows| ==> (history + rows)[i] == rows[i - |history|];
  }

  /** The history row of a change made while syncing; `t` is the table before the sync. */
  function SyncRow(testCaseId: Id, kind: EntityKind, t: Table, detail: ChangeDetail): HistoryRow {
    var snapshot :=
      match detail
      case Added(id, content, orderKey) => [ChildSnapshot(id, content, orderKey)]
      case Updated(id, _, _) => if id in t then [ChildSnapshot(id, t[id].content, t[id].orderKey)] else []
      case Deleted(id, _, _) => if id in t then [ChildSnapshot(id, t[id].content, t[id].orderKey)] else []
      case Reordered(_, _) => [];
    HistoryRow(testCaseId, kind, snapshot, detail)
  }

  function SyncRows(testCaseId: Id, kind: EntityKind, t: Table, details: seq<ChangeDetail>): seq<HistoryRow> {
    seq(|details|, i requires 0 <= i < |details| => SyncRow(testCaseId, kind, t, details[i]))
  }

  lemma SyncRowsConcat(testCaseId: Id, kind: EntityKind, t: Table, a: seq<ChangeDetail>, b: seq<ChangeDetail>)
    ensures SyncRows(testCaseId, kind, t, a + b)
         == SyncRows(testCaseId, kind, t, a) + SyncRows(testCaseId, kind, t, b)
  {
  }

  lemma SyncRowsOne(testCaseId: Id, kind: EntityKind, t: Table, detail: ChangeDetail)
    ensures SyncRows(testCaseId, kind, t, [detail]) == [SyncRow(testCaseId, kind, t, detail)]
    ensures SyncRows(testCaseId, kind, t, []) == []
  {
  }

  lemma Associative<T>(a: seq<T>, b: seq<T>, c: seq<T>)
    ensures (a + b) + c == a + (b + c)
  {
  }

  lemma {:induction false} DetailsOfSyncRowsAt(
    history: seq<HistoryRow>, testCaseId: Id, kind: EntityKind, t: Table, details: seq<ChangeDetail>,
    otherId: Id, otherKind: EntityKind)
    ensures DetailsOf(history + SyncRows(testCaseId, kind, t, details), otherId, otherKind)
         == DetailsOf(history, otherId, otherKind) + if (otherId, otherKind) == (testCaseId, kind) then details else []
    decreases |details|
  {
    if details == [] {
      assert history + SyncRows(testCaseId, kind, t, details) == history;
    } else {
      var n := |details| - 1;
      DetailsOfSyncRowsAt(history, testCaseId, kind, t, details[..n], otherId, otherKind);
      assert details == details[..n] + [details[n]];
      DetailsOfOneMore(history, testCaseId, kind, t, details[..n], details[n], otherId, otherKind);
    }
  }

  lemma DetailsOfOneMore(
    history: seq<HistoryRow>, testCaseId: Id, kind: EntityKind, t: Table, details: seq<ChangeDetail>,
    detail: ChangeDetail, otherId: Id, otherKind: EntityKind)
    ensures DetailsOf(history + SyncRows(testCaseId, kind, t, details + [detail]), otherId, otherKind)
         == DetailsOf(history + SyncRows(testCaseId, kind, t, details), otherId, otherKind)
            + if (otherId, otherKind) == (testCaseId, kind) then [detail] else []
  {
    var before, row := SyncRows(testCaseId, kind, t, details), SyncRow(testCaseId, kind, t, detail);
    SyncRowsConcat(testCaseId, kind, t, details, [detail]);
    SyncRowsOne(testCaseId, kind, t, detail);
    Associative(history, before, [row]);
    DetailsOfAppendAt(history + before, row, otherId, otherKind);
  }

  lemma DetailsOfAppendAt(history: seq<HistoryRow>, row: HistoryRow, testCaseId: Id, kind: EntityKind)
    ensures DetailsOf(history + [row], testCaseId, kind)
         == DetailsOf(history, testCaseId, kind)
            + if row.testCaseId == testCaseId && row.kind == kind then [row.detail] else []
  {
    assert (history + [row])[..|history|] == history;
  }

  lemma DetailsOfSyncRows(
    history: seq<HistoryRow>, testCaseId: Id, kind: EntityKind, t: Table, details: seq<ChangeDetail>)
    ensures var h := history + SyncRows(testCaseId, kind, t, details);
            && DetailsOf(h, testCaseId, kind) == DetailsOf(history, testCaseId, kind) + details
            && forall tc, k :: (tc, k) != (testCaseId, kind) ==> DetailsOf(h, tc, k) == DetailsOf(history, tc, k)
  {
    DetailsOfSyncRowsAt(history, testCaseId, kind, t, details, testCaseId, kind);
    forall tc, k | (tc, k) != (testCaseId, kind)
      ensures DetailsOf(history + SyncRows(testCaseId, kind, t, details), tc, k) == DetailsOf(history, tc, k)
    {
      DetailsOfSyncRowsAt(history, testCaseId, kind, t, details, tc, k);
    }
  }

  /** `new Set(ids).size === ids.length` */
  lemma {:induction false} SetSizeDistinct(ids: seq<Id>)
    ensures |set id | id in ids| <= |ids|
    ensures |set id | id in ids| == |ids| <==> Distinct(ids)
  {
    if ids != [] {
      var rest, last := ids[..|ids| - 1], ids[|ids| - 1];
      SetSizeDistinct(rest);
      var s, r := set id | id in ids, set id | id in rest;
      assert s == r + {last};
      assert last in rest <==> last in r;
    }
  }

  // ----- the basic information -----

  datatype BasicInfo = BasicInfo(title: string, description: Option<string>, priority: string, status: string)

  /** The fields a request names; a description can be set to none. */
  datatype InfoRequest = InfoRequest(title: Option<string>, description: Option<Option<string>>,
                                     priority: Option<string>, status: Option<string>)

  datatype Change<T> = Change(before: T, after: T)

  datatype InfoFields = InfoFields(title: Option<Change<string>>, description: Option<Change<Option<string>>>,
                                   priority: Option<Change<string>>, status: Option<Change<string>>)

  /** A history row of type BASIC_INFO_UPDATE: the information before, and the fields that changed. */
  datatype InfoRow = InfoRow(testCaseId: Id, snapshot: BasicInfo, fields: InfoFields)

  function Patched(info: BasicInfo, data: InfoRequest): BasicInfo {
    BasicInfo(Requested(info.title, data.title), Requested(info.description, data.description),
              Requested(info.priority, data.priority), Requested(info.status, data.status))
  }

  /** Each column is the one requested, or as it was where none is. */
  predicate AsRequested(info: BasicInfo, data: InfoRequest, info': BasicInfo) {
    && info'.title == (if data.title.Some? then data.title.value else info.title)
    && info'.description == (if data.description.Some? then data.description.value else info.description)
    && info'.priority == (if data.priority.Some? then data.priority.value else info.priority)
    && info'.status == (if data.status.Some? then data.status.value else info.status)
  }

  function ChangeOf<T(==)>(value: T, requested: Option<T>): Option<Change<T>> {
    if requested.Some? && requested.value != value then Some(Change(value, requested.value)) else None
  }

  function FieldsOf(info: BasicInfo, data: InfoRequest): InfoFields {
    InfoFields(ChangeOf(info.title, data.title), ChangeOf(info.description, data.description),
               ChangeOf(info.priority, data.priority), ChangeOf(info.status, data.status))
  }

  const NO_FIELDS := InfoFields(None, None, None, None)

  function Restored<T>(value: T, change: Option<Change<T>>): T {
    if change.Some? then change.value.before else value
  }

  function InfoUndone(info: BasicInfo, fields: InfoFields): BasicInfo {
    BasicInfo(Restored(info.title, fields.title), Restored(info.description, fields.description),
              Restored(info.priority, fields.priority), Restored(info.status, fields.status))
  }

  function Replaced<T>(value: T, change: Option<Change<T>>): T {
    if change.Some? then change.value.after else value
  }

  function InfoRedone(info: BasicInfo, fields: InfoFields): BasicInfo {
    BasicInfo(Replaced(info.title, fields.title), Replaced(info.description, fields.description),
              Replaced(info.priority, fields.priority), Replaced(info.status, fields.status))
  }

  /** The recorded fields undo and redo the change, and there are some exactly when something changed. */
  lemma InfoUndo(info: BasicInfo, data: InfoRequest)
    ensures InfoUndone(Patched(info, data), FieldsOf(info, data)) == info
    ensures InfoRedone(info, FieldsOf(info, data)) == Patched(info, data)
    ensures FieldsOf(info, data) == NO_FIELDS <==> Patched(info, data) == info
  {
  }

  /** `history'` goes on with rows of this test case only. */
  predicate OnlyOf(testCaseId: Id, history: seq<HistoryRow>, history': seq<HistoryRow>) {
    history <= history' && forall i :: |history| <= i < |history'| ==> history'[i].testCaseId == testCaseId
  }

  class TestCaseService {
    /** The test cases that `findById` finds. */
    var testCases: map<Id, BasicInfo>
    var infoHistory: seq<InfoRow>
    var tables: map<EntityKind, Table>
    var history: seq<HistoryRow>

    ghost predicate Valid()
      reads this
    {
      forall kind: EntityKind :: kind in tables
    }

    constructor (testCases: map<Id, BasicInfo>)
      ensures Valid() && this.testCases == testCases
      ensures history == [] && infoHistory == [] && forall kind: EntityKind :: tables[kind] == map[]
    {
      this.testCases := testCases;
      infoHistory := [];
      tables := map[PreconditionKind := map[], StepKind := map[], ExpectedResultKind := map[]];
      history := [];
      new;
      forall kind: EntityKind ensures kind in tables && tables[kind] == map[] {
        match kind
        case PreconditionKind =>
        case StepKind =>
        case ExpectedResultKind =>
      }
    }

    ghost function SnapOf(kind: EntityKind, testCaseId: Id): Snap
      requires Valid()
      reads this
    {
      Snap(tables[kind], DetailsOf(history, testCaseId, kind))
    }

    method GetChildren(kind: EntityKind, testCaseId: Id) returns (r: Result<seq<Id>>)
      requires Valid()
      ensures r.Ok? <==> testCaseId in testCases
      ensures r.Ok? ==> IsListing(tables[kind], testCaseId, r.value)
    {
      if testCaseId !in testCases {
        return Err(NotFound);
      }
      var ids := FindManyOrdered(tables[kind], testCaseId);
      return Ok(ids);
    }

    method AddChild(kind: EntityKind, testCaseId: Id, content: string, orderKey: Option<string>, newId: Id)
      returns (r: Result<Row>)
      requires Valid() && newId !in tables[kind]
      modifies this`tables, this`history
      ensures Valid()
      ensures r.Ok? <==> testCaseId in testCases
      ensures r.Err? ==> r.error == NotFound && tables == old(tables) && history == old(history)
      ensures r.Ok? ==>
        && tables == old(tables)[kind := old(tables)[kind][newId := r.value]]
        && r.value == Row(testCaseId, content, r.value.orderKey)
        && history == old(history) + [HistoryRow(testCaseId, kind, [ChildSnapshot(newId, content, r.value.orderKey)],
                                                 Added(newId, content, r.value.orderKey))]
      ensures r.Ok? && orderKey.Some? && orderKey.value != "" ==> r.value.orderKey == orderKey.value
      ensures r.Ok? && (orderKey.None? || orderKey.value == "") ==>
        && (exists last :: IsLastKey(old(tables)[kind], testCaseId, last) && r.value.orderKey == GetNextOrderKey(last))
        && Transition(testCaseId, old(SnapOf(kind, testCaseId)), Add(content, newId), SnapOf(kind, testCaseId))
    {
      if testCaseId !in testCases {
        return Err(NotFound);
      }
      var row, rows, rowHistory := AddRow(testCaseId, kind, content, orderKey, newId, tables[kind], history);
      tables, history := tables[kind := rows], rowHistory;
      r := Ok(row);
    }

    method UpdateChild(kind: EntityKind, testCaseId: Id, id: Id, content: string) returns (r: Result<Row>)
      requires Valid()
      modifies this`tables, this`history
      ensures Valid()
      ensures r.Ok? <==> testCaseId in testCases && BelongsTo(old(tables)[kind], testCaseId, id)
      ensures r.Err? ==> r.error == NotFound && tables == old(tables) && history == old(history)
      ensures r.Ok? ==>
        && tables == old(tables)[kind := old(tables)[kind][id := r.value]]
        && r.value == old(tables)[kind][id].(content := content)
      ensures r.Ok? ==>
        var row := old(tables)[kind][id];
        history == old(history) + if row.content == content then [] else
          [HistoryRow(testCaseId, kind, [ChildSnapshot(id, row.content, row.orderKey)], Updated(id, row.content, content))]
      ensures r.Ok? ==>
        Transition(testCaseId, old(SnapOf(kind, testCaseId)), Update(id, content), SnapOf(kind, testCaseId))
    {
      if testCaseId !in testCases {
        return Err(NotFound);
      }
      if !(id in tables[kind] && tables[kind][id].testCaseId == testCaseId) {
        return Err(NotFound);
      }
      var row := tables[kind][id];
      UpdateTransition(SnapOf(kind, testCaseId), testCaseId, id, content);
      if row.content == content {
        assert tables[kind][id := row] == tables[kind];
        return Ok(row);
      }
      var entry := HistoryRow(testCaseId, kind, [ChildSnapshot(id, row.content, row.orderKey)], Updated(id, row.content, content));
      DetailsOfAppend(history, entry);
      history := history + [entry];
      var updated := row.(content := content);
      tables := tables[kind := tables[kind][id := updated]];
      r := Ok(updated);
    }

    method DeleteChild(kind: EntityKind, testCaseId: Id, id: Id) returns (r: Result<()>)
      requires Valid()
      modifies this`tables, this`history
      ensures Valid()
      ensures r.Ok? <==> testCaseId in testCases && BelongsTo(old(tables)[kind], testCaseId, id)
      ensures r.Err? ==> r.error == NotFound && tables == old(tables) && history == old(history)
      ensures r.Ok? ==>
        var t := old(tables)[kind];
        && tables == old(tables)[kind := tables[kind]]
        && (exists rest :: IsListing(t - {id}, testCaseId, rest) && Renumbered(t - {id}, rest, tables[kind]))
        && history == old(history) + [HistoryRow(testCaseId, kind, [ChildSnapshot(id, t[id].content, t[id].orderKey)],
                                                 Deleted(id, t[id].content, t[id].orderKey))]
      ensures r.Ok? ==>
        Transition(testCaseId, old(SnapOf(kind, testCaseId)), Delete(id), SnapOf(kind, testCaseId))
    {
      if testCaseId !in testCases {
        return Err(NotFound);
      }
      if !(id in tables[kind] && tables[kind][id].testCaseId == testCaseId) {
        return Err(NotFound);
      }
      var row := tables[kind][id];
      var entry := HistoryRow(testCaseId, kind, [ChildSnapshot(id, row.content, row.orderKey)], Deleted(id, row.content, row.orderKey));
      DetailsOfAppend(history, entry);
      var remaining := tables[kind] - {id};
      var rest := FindManyOrdered(remaining, testCaseId);
      var renumbered := WriteOrderKeys(remaining, rest);
      DeleteTransition(SnapOf(kind, testCaseId), testCaseId, id, rest, renumbered);
      tables := tables[kind := renumbered];
      history := history + [entry];
      r := Ok(());
    }

    method ReorderChildren(kind: EntityKind, testCaseId: Id, ids: seq<Id>) returns (r: Result<seq<Id>>)
      requires Valid()
      modifies this`tables, this`history
      ensures Valid()
      ensures tables == old(tables)[kind := tables[kind]]
      ensures r.Ok? <==> testCaseId in testCases && Enumerates(ids, RowIds(old(tables)[kind], testCaseId))
      ensures r.Err? ==> tables == old(tables) && history == old(history)
      ensures r.Err? && testCaseId !in testCases ==> r.error == NotFound
      ensures r.Err? && testCaseId in testCases ==>
        r.error == if Distinct(ids) && |ids| == |RowIds(old(tables)[kind], testCaseId)| then NotFound else BadRequest
      ensures r.Ok? ==> IsListing(tables[kind], testCaseId, r.value)
      ensures r.Ok? && |ids| <= MAX_ORDERED ==> r.value == ids
      ensures r.Ok? ==> ReorderOutcome(testCaseId, kind, ids, old(tables)[kind], old(history), tables[kind], history)
      ensures r.Ok? ==>
        Transition(testCaseId, old(SnapOf(kind, testCaseId)), Reorder(ids), SnapOf(kind, testCaseId))
    {
      if testCaseId !in testCases {
        return Err(NotFound);
      }
      var rows, rowHistory;
      r, rows, rowHistory := ReorderRows(testCaseId, kind, ids, tables[kind], history);
      if r.Ok? {
        tables, history := tables[kind := rows], rowHistory;
      }
    }

    /**
      Update the information and sync the requested lists in one transaction: the writes go to the
      transaction's view of the tables, which replaces the stored state only when every list was accepted.
     */
    method UpdateWithChildren(testCaseId: Id, data: InfoRequest, request: map<EntityKind, seq<Item>>,
                              newIds: map<EntityKind, seq<Id>>) returns (r: Result<()>)
      requires Valid()
      requires forall kind :: kind in request ==> kind in newIds && FreshIds(tables[kind], request[kind], newIds[kind])
      modifies this
      ensures Valid()
      ensures r.Ok? <==> (testCaseId in old(testCases) && AllIdsExist(old(tables), testCaseId, request))
      ensures r.Err? ==> r.error == if testCaseId !in old(testCases) then NotFound else BadRequest
      ensures r.Err? ==> tables == old(tables) && history == old(history)
                         && testCases == old(testCases) && infoHistory == old(infoHistory)
      ensures r.Ok? ==> forall kind ::
        Synced(old(SnapOf(kind, testCaseId)), testCaseId, kind, request, newIds, SnapOf(kind, testCaseId))
      ensures r.Ok? ==> OnlyOf(testCaseId, old(history), history)
      ensures r.Ok? ==> AllRowsTell(old(tables), tables, testCaseId, old(history), history)
      ensures r.Ok? ==>
        var info := old(testCases)[testCaseId];
        && testCases == old(testCases)[testCaseId := Patched(info, data)]
        && AsRequested(info, data, testCases[testCaseId])
        && infoHistory == old(infoHistory) + if Patched(info, data) == info then []
                                             else [InfoRow(testCaseId, info, FieldsOf(info, data))]
    {
      if testCaseId !in testCases {
        return Err(NotFound);
      }
      var txTables, txHistory;
      var txTestCases, txInfoHistory := UpdateInfo(testCaseId, data, testCases, infoHistory);
      r, txTables, txHistory := SyncAll(testCaseId, request, newIds, tables, history);
      if r.Ok? {
        tables, history, testCases, infoHistory := txTables, txHistory, txTestCases, txInfoHistory;
      }
    }
  }

  /** The row is written, and the change recorded, only when some field differs. */
  method UpdateInfo(testCaseId: Id, data: InfoRequest, testCases: map<Id, BasicInfo>, infoHistory: seq<InfoRow>)
    returns (testCases': map<Id, BasicInfo>, infoHistory': seq<InfoRow>)
    requires testCaseId in testCases
    ensures var info := testCases[testCaseId];
            && testCases' == testCases[testCaseId := Patched(info, data)]
            && AsRequested(info, data, testCases'[testCaseId])
            && infoHistory' == infoHistory + if Patched(info, data) == info then []
                                             else [InfoRow(testCaseId, info, FieldsOf(info, data))]
  {
    testCases', infoHistory' := testCases, infoHistory;
    var testCase := testCases[testCaseId];
    InfoUndo(testCase, data);
    var fields := NO_FIELDS;
    if data.title.Some? && data.title.value != testCase.title {
      fields := fields.(title := Some(Change(testCase.title, data.title.value)));
    }
    if data.description.Some? && data.description.value != testCase.description {
      fields := fields.(description := Some(Change(testCase.description, data.description.value)));
    }
    if data.priority.Some? && data.priority.value != testCase.priority {
      fields := fields.(priority := Some(Change(testCase.priority, data.priority.value)));
    }
    if data.status.Some? && data.status.value != testCase.status {
      fields := fields.(status := Some(Change(testCase.status, data.status.value)));
    }
    assert fields == FieldsOf(testCase, data);
    assert testCases[testCaseId := testCase] == testCases;
    if fields != NO_FIELDS {
      infoHistory' := infoHistory + [InfoRow(testCaseId, testCase, fields)];
      testCases' := testCases[testCaseId := Patched(testCase, data)];
    }
  }

  /** The new row with its key: the one given, unless it is empty, or the next after the last. */
  method AddRow(testCaseId: Id, kind: EntityKind, content: string, orderKey: Option<string>, newId: Id, t: Table,
                history: seq<HistoryRow>)
    returns (row: Row, t': Table, history': seq<HistoryRow>)
    requires newId !in t
    ensures t' == t[newId := row] && row == Row(testCaseId, content, row.orderKey)
    ensures history' == history + [HistoryRow(testCaseId, kind, [ChildSnapshot(newId, content, row.orderKey)],
                                              Added(newId, content, row.orderKey))]
    ensures orderKey.Some? && orderKey.value != "" ==> row.orderKey == orderKey.value
    ensures (orderKey.None? || orderKey.value == "") ==>
      && (exists last :: IsLastKey(t, testCaseId, last) && row.orderKey == GetNextOrderKey(last))
      && Transition(testCaseId, Snap(t, DetailsOf(history, testCaseId, kind)), Add(content, newId),
                    Snap(t', DetailsOf(history', testCaseId, kind)))
  {
    var key;
    if orderKey.None? || orderKey.value == "" {
      var last := FindLastKey(t, testCaseId);
      key := GetNextOrderKey(last);
      AddTransition(Snap(t, DetailsOf(history, testCaseId, kind)), testCaseId, content, newId, last);
    } else {
      key := orderKey.value;
    }
    row := Row(testCaseId, content, key);
    t' := t[newId := row];
    var entry := HistoryRow(testCaseId, kind, [ChildSnapshot(newId, content, key)], Added(newId, content, key));
    DetailsOfAppend(history, entry);
    history' := history + [entry];
  }

  /** Write `indexToOrderKey(i)` to the i-th row of `ids`. */
  method WriteOrderKeys(t: Table, ids: seq<Id>) returns (t': Table)
    requires Distinct(ids)
    requires forall id :: id in ids ==> id in t
    ensures Renumbered(t, ids, t')
  {
    t' := t;
    for i := 0 to |ids|
      invariant Renumbered(t, ids[..i], t')
    {
      assert ids[i] !in ids[..i];
      t' := t'[ids[i] := t'[ids[i]].(orderKey := IndexToOrderKey(i))];
      assert ids[..i + 1] == ids[..i] + [ids[i]];
    }
    assert ids[..|ids|] == ids;
  }

  // ----- reordering -----

  /** The checks on a reorder request, given the current listing. None means it is accepted. */
  method CheckReorder(ids: seq<Id>, current: seq<Id>) returns (error: Option<Error>)
    requires Distinct(current)
    ensures error == if Permutes(ids, current) then None
      else if Distinct(ids) && |ids| == |current| then Some(NotFound) else Some(BadRequest)
  {
    SetSizeDistinct(ids);
    if |set id | id in ids| != |ids| {
      return Some(BadRequest);
    }
    if |ids| != |current| {
      return Some(BadRequest);
    }
    var existingIds := set id | id in current;
    for i := 0 to |ids|
      invariant forall k :: 0 <= k < i ==> ids[k] in existingIds
    {
      if ids[i] !in existingIds {
        assert ids[i] in ids;
        return Some(NotFound);
      }
    }
    return None;
  }

  /** An accepted reorder either finds the order unchanged, or renumbers the rows and records it. */
  ghost predicate ReorderOutcome(testCaseId: Id, kind: EntityKind, ids: seq<Id>,
    t: Table, history: seq<HistoryRow>, t': Table, history': seq<HistoryRow>)
  {
    || (IsListing(t, testCaseId, ids) && t' == t && history' == history)
    || (exists current ::
          && IsListing(t, testCaseId, current) && current != ids
          && Renumbered(t, ids, t')
          && history' == history + [HistoryRow(testCaseId, kind, SnapshotsOf(t, current), Reordered(current, ids))])
  }

  function SnapshotsOf(t: Table, ids: seq<Id>): (r: seq<ChildSnapshot>)
    ensures |r| == |ids| && forall i :: 0 <= i < |ids| && ids[i] in t ==>
      r[i].id == ids[i] && Row(t[ids[i]].testCaseId, r[i].content, r[i].orderKey) == t[ids[i]]
  {
    seq(|ids|, i requires 0 <= i < |ids| =>
      if ids[i] in t then ChildSnapshot(ids[i], t[ids[i]].content, t[ids[i]].orderKey) else ChildSnapshot(ids[i], "", ""))
  }

  /** Renumbered rows read back in the order they were renumbered in. */
  lemma RenumberedReadsBack(t: Table, testCaseId: Id, ids: seq<Id>, t': Table, listing: seq<Id>)
    requires Enumerates(ids, RowIds(t, testCaseId)) && Renumbered(t, ids, t')
    requires IsListing(t', testCaseId, listing)
    ensures |ids| <= MAX_ORDERED ==> listing == ids
  {
    var list := seq(|ids|, i requires 0 <= i < |ids| => Child(ids[i], if ids[i] in t then t[ids[i]].content else ""));
    assert Ids(list) == ids;
    RenumberedIsCanonical(t, testCaseId, ids, t', list);
    if |ids| <= MAX_ORDERED {
      CanonicalReadsBack(t', testCaseId, list, listing);
    }
  }

  method ReorderRows(testCaseId: Id, kind: EntityKind, ids: seq<Id>, t: Table, history: seq<HistoryRow>)
    returns (r: Result<seq<Id>>, t': Table, history': seq<HistoryRow>)
    ensures r.Ok? <==> Enumerates(ids, RowIds(t, testCaseId))
    ensures r.Err? ==>
      r.error == if Distinct(ids) && |ids| == |RowIds(t, testCaseId)| then NotFound else BadRequest
    ensures r.Err? ==> t' == t && history' == history
    ensures r.Ok? ==> IsListing(t', testCaseId, r.value)
    ensures r.Ok? && |ids| <= MAX_ORDERED ==> r.value == ids
    ensures r.Ok? ==> ReorderOutcome(testCaseId, kind, ids, t, history, t', history')
    ensures r.Ok? ==> Transition(testCaseId, Snap(t, DetailsOf(history, testCaseId, kind)), Reorder(ids),
                                 Snap(t', DetailsOf(history', testCaseId, kind)))
  {
    t', history' := t, history;
    var current := FindManyOrdered(t, testCaseId);
    PermutesIsEnumerates(t, testCaseId, ids, current);
    ghost var before := Snap(t, DetailsOf(history, testCaseId, kind));
    SameOrderTransition(before, testCaseId, ids, current);
    if current == [] && ids == [] {
      return Ok([]), t', history';
    }
    var error := CheckReorder(ids, current);
    if error.Some? {
      return Err(error.value), t', history';
    }
    if current == ids {
      return Ok(current), t', history';
    }
    var entry := HistoryRow(testCaseId, kind, SnapshotsOf(t, current), Reordered(current, ids));
    DetailsOfAppend(history, entry);
    history' := history + [entry];
    t' := WriteOrderKeys(t, ids);
    ReorderedTransition(before, testCaseId, ids, current, t');
    var listing := FindManyOrdered(t', testCaseId);
    RenumberedReadsBack(t, testCaseId, ids, t', listing);
    r := Ok(listing);
  }

  // ----- the diff sync, on the transaction's view of one table and the history -----

  lemma OneMoreDeleted(testCaseId: Id, kind: EntityKind, t: Table, ids: seq<Id>, d: nat)
    requires d < |ids| && forall id :: id in ids ==> id in t
    ensures SyncRows(testCaseId, kind, t, DeleteDetails(t, ids[..d + 1])) == SyncRows(testCaseId, kind, t, DeleteDetails(t, ids[..d]))
              + [HistoryRow(testCaseId, kind, [ChildSnapshot(ids[d], t[ids[d]].content, t[ids[d]].orderKey)],
                            Deleted(ids[d], t[ids[d]].content, t[ids[d]].orderKey))]
  {
    assert ids[..d + 1] == ids[..d] + [ids[d]];
    assert DeleteDetails(t, ids[..d + 1]) == DeleteDetails(t, ids[..d]) + [Deleted(ids[d], t[ids[d]].content, t[ids[d]].orderKey)];
  }

  /** The rows written for deletions, one for each row deleted, as it was. */
  predicate RecordsDeletes(testCaseId: Id, kind: EntityKind, t: Table, ids: seq<Id>, rows: seq<HistoryRow>)
    requires forall id :: id in ids ==> id in t
  {
    |rows| == |ids| && forall d :: 0 <= d < |ids| ==>
      rows[d] == HistoryRow(testCaseId, kind, [ChildSnapshot(ids[d], t[ids[d]].content, t[ids[d]].orderKey)],
                            Deleted(ids[d], t[ids[d]].content, t[ids[d]].orderKey))
  }

  lemma DeletesAreRecorded(testCaseId: Id, kind: EntityKind, t: Table, ids: seq<Id>, history: seq<HistoryRow>)
    requires forall id :: id in ids ==> id in t
    ensures RecordsDeletes(testCaseId, kind, t, ids,
                           (history + SyncRows(testCaseId, kind, t, DeleteDetails(t, ids)))[|history|..])
  {
    var rows := SyncRows(testCaseId, kind, t, DeleteDetails(t, ids));
    assert (history + rows)[|history|..] == rows;
  }

  /** The delete loop. */
  method DeleteMissing(testCaseId: Id, kind: EntityKind, existingMap: Table, toDelete: seq<Id>, history: seq<HistoryRow>)
    returns (rows: Table, history': seq<HistoryRow>)
    requires Distinct(toDelete) && forall id :: id in toDelete ==> id in existingMap
    ensures rows == existingMap - (set id | id in toDelete)
    ensures history' == history + SyncRows(testCaseId, kind, existingMap, DeleteDetails(existingMap, toDelete))
    ensures RecordsDeletes(testCaseId, kind, existingMap, toDelete, history'[|history|..])
  {
    rows, history' := existingMap, history;
    for d := 0 to |toDelete|
      invariant forall id :: id in rows <==> id in existingMap && id !in toDelete[..d]
      invariant forall id :: id in rows ==> rows[id] == existingMap[id]
      invariant history' == history + SyncRows(testCaseId, kind, existingMap, DeleteDetails(existingMap, toDelete[..d]))
    {
      var deleteId := toDelete[d];
      var existing := existingMap[deleteId];
      rows := rows - {deleteId};
      OneMoreDeleted(testCaseId, kind, existingMap, toDelete, d);
      ghost var earlier := SyncRows(testCaseId, kind, existingMap, DeleteDetails(existingMap, toDelete[..d]));
      var entry := HistoryRow(testCaseId, kind, [ChildSnapshot(deleteId, existing.content, existing.orderKey)],
                              Deleted(deleteId, existing.content, existing.orderKey));
      Associative(history, earlier, [entry]);
      history' := history' + [entry];
    }
    assert toDelete[..|toDelete|] == toDelete;
    DeletesAreRecorded(testCaseId, kind, existingMap, toDelete, history);
  }

  /** An entry is written for a created row, and for a stored row whose content changes. */
  predicate RecordsItem(testCaseId: Id, kind: EntityKind, items: seq<Item>, i: nat, existingMap: Table, newIds: seq<Id>,
                        history: seq<HistoryRow>, history': seq<HistoryRow>)
    requires i < |items| == |newIds| && (HasId(items[i]) ==> items[i].id.value in existingMap)
  {
    if !HasId(items[i]) then
      history' == history + [HistoryRow(testCaseId, kind, [ChildSnapshot(newIds[i], items[i].content, IndexToOrderKey(i))],
                                        Added(newIds[i], items[i].content, IndexToOrderKey(i)))]
    else
      var id := items[i].id.value;
      var was := existingMap[id];
      history' == history + if was.content == items[i].content then [] else
        [HistoryRow(testCaseId, kind, [ChildSnapshot(id, was.content, was.orderKey)],
                    Updated(id, was.content, items[i].content))]
  }

  /** The body of the update-or-create loop; it fails on an unknown id. */
  method UpsertItem(testCaseId: Id, kind: EntityKind, items: seq<Item>, i: nat, existingMap: Table,
                    existingIds: set<Id>, newIds: seq<Id>, rows: Table, history: seq<HistoryRow>)
    returns (ok: bool, rows': Table, history': seq<HistoryRow>)
    requires i < |items| == |newIds|
    requires forall id :: id in existingIds ==> id in existingMap
    requires HasId(items[i]) && items[i].id.value in existingIds ==> BelongsTo(rows, testCaseId, items[i].id.value)
    ensures ok <==> HasId(items[i]) ==> items[i].id.value in existingIds
    ensures ok ==> rows' == rows[TargetId(items, newIds, i) := Row(testCaseId, items[i].content, IndexToOrderKey(i))]
    ensures ok ==> history' == history + SyncRows(testCaseId, kind, existingMap, UpsertDetail(existingMap, items, newIds, i))
    ensures ok ==> RecordsItem(testCaseId, kind, items, i, existingMap, newIds, history, history')
  {
    rows', history' := rows, history;
    var item := items[i];
    var orderKey := IndexToOrderKey(i);
    if HasId(item) && item.id.value in existingIds {
      var id := item.id.value;
      var existing := existingMap[id];
      if existing.content != item.content {
        history' := history' + [HistoryRow(testCaseId, kind, [ChildSnapshot(id, existing.content, existing.orderKey)],
                                           Updated(id, existing.content, item.content))];
      }
      rows' := rows'[id := rows'[id].(content := item.content, orderKey := orderKey)];
    } else if HasId(item) && item.id.value !in existingIds {
      return false, rows', history';
    } else {
      var created := Row(testCaseId, item.content, orderKey);
      rows' := rows'[newIds[i] := created];
      history' := history' + [HistoryRow(testCaseId, kind, [ChildSnapshot(newIds[i], created.content, created.orderKey)],
                                         Added(newIds[i], created.content, created.orderKey))];
    }
    ok := true;
  }

  /** The update-or-create loop. It stops at the first unknown id. */
  method UpsertItems(testCaseId: Id, kind: EntityKind, items: seq<Item>, existingMap: Table,
                     existingIds: set<Id>, newIds: seq<Id>, rows: Table, history: seq<HistoryRow>)
    returns (r: Result<()>, rows': Table, history': seq<HistoryRow>)
    requires FreshIds(existingMap, items, newIds)
    requires existingIds == RowIds(existingMap, testCaseId)
    requires rows == AfterDeletes(existingMap, testCaseId, items)
    ensures r == if IdsExist(existingMap, testCaseId, items) then Ok(()) else Err(BadRequest)
    ensures r.Ok? ==> rows' == SyncedTable(existingMap, testCaseId, items, newIds)
    ensures r.Ok? ==>
      history' == history + SyncRows(testCaseId, kind, existingMap, UpsertDetails(existingMap, items, newIds, |items|))
    ensures r.Ok? ==> RowsTell(existingMap, rows', testCaseId, kind, history, history')
  {
    rows', history' := rows, history;
    for i := 0 to |items|
      invariant forall k :: 0 <= k < i && HasId(items[k]) ==> items[k].id.value in existingIds
      invariant rows' == Upserted(rows, testCaseId, items, newIds, i)
      invariant history' == history +
        SyncRows(testCaseId, kind, existingMap, UpsertDetails(existingMap, items, newIds, i))
    {
      ghost var details := UpsertDetails(existingMap, items, newIds, i);
      SyncRowsConcat(testCaseId, kind, existingMap, details, UpsertDetail(existingMap, items, newIds, i));
      Associative(history, SyncRows(testCaseId, kind, existingMap, details),
                  SyncRows(testCaseId, kind, existingMap, UpsertDetail(existingMap, items, newIds, i)));
      if HasId(items[i]) && items[i].id.value in existingIds {
        UpsertKeepsCase(existingMap, testCaseId, items, newIds, i, items[i].id.value);
      }
      var ok;
      ok, rows', history' :=
        UpsertItem(testCaseId, kind, items, i, existingMap, existingIds, newIds, rows', history');
      if !ok {
        return Err(BadRequest), rows', history';
      }
    }
    UpsertRowsTell(existingMap, testCaseId, kind, items, newIds, history);
    r := Ok(());
  }

  lemma ToDeleteFacts(t: Table, testCaseId: Id, listing: seq<Id>, items: seq<Item>)
    requires Enumerates(listing, RowIds(t, testCaseId))
    ensures (set id | id in listing) == RowIds(t, testCaseId)
    ensures forall id :: id in listing ==> id in t
    ensures var toDelete := DroppedIds(listing, RequestIds(items));
            && Distinct(toDelete) && (forall id :: id in toDelete ==> id in t)
            && t - (set id | id in toDelete) == AfterDeletes(t, testCaseId, items)
  {
    DroppedIdsFacts(listing, RequestIds(items));
  }

  method SyncChildEntitiesWithHistory(testCaseId: Id, kind: EntityKind, items: seq<Item>, existingItems: seq<Id>,
                                      newIds: seq<Id>, rows: Table, history: seq<HistoryRow>)
    returns (r: Result<()>, rows': Table, history': seq<HistoryRow>)
    requires IsListing(rows, testCaseId, existingItems)
    requires FreshIds(rows, items, newIds)
    ensures r == if IdsExist(rows, testCaseId, items) then Ok(()) else Err(BadRequest)
    ensures r.Ok? ==> rows' == SyncedTable(rows, testCaseId, items, newIds)
    ensures forall id :: id in existingItems ==> id in rows
    ensures r.Ok? ==>
      history' == history + SyncRows(testCaseId, kind, rows, SyncDetails(rows, existingItems, items, newIds))
    ensures r.Ok? ==> RowsTell(rows, rows', testCaseId, kind, history, history')
  {
    var existingIds := set id | id in existingItems;
    var requestIds := RequestIds(items);
    var toDelete := DroppedIds(existingItems, requestIds);
    ToDeleteFacts(rows, testCaseId, existingItems, items);
    rows', history' := DeleteMissing(testCaseId, kind, rows, toDelete, history);
    r, rows', history' := UpsertItems(testCaseId, kind, items, rows, existingIds, newIds, rows', history');
    SyncRowsOfBoth(testCaseId, kind, rows, existingItems, items, newIds, history);
    if r.Ok? {
      SyncRowsTell(rows, testCaseId, kind, existingItems, items, newIds, history);
    }
  }

  /** The rows of both loops, one after the other, are the rows of the whole sync. */
  lemma SyncRowsOfBoth(testCaseId: Id, kind: EntityKind, t: Table, listing: seq<Id>, items: seq<Item>, newIds: seq<Id>,
                       history: seq<HistoryRow>)
    requires |items| == |newIds| && Enumerates(listing, RowIds(t, testCaseId))
    ensures forall id :: id in listing ==> id in t
    ensures var toDelete := DroppedIds(listing, RequestIds(items));
            && (forall id :: id in toDelete ==> id in t)
            && history + SyncRows(testCaseId, kind, t, SyncDetails(t, listing, items, newIds))
                 == history + SyncRows(testCaseId, kind, t, DeleteDetails(t, toDelete))
                    + SyncRows(testCaseId, kind, t, UpsertDetails(t, items, newIds, |items|))
  {
    DroppedIdsFacts(listing, RequestIds(items));
    var toDelete := DroppedIds(listing, RequestIds(items));
    var deletes, upserts := DeleteDetails(t, toDelete), UpsertDetails(t, items, newIds, |items|);
    SyncRowsConcat(testCaseId, kind, t, deletes, upserts);
    Associative(history, SyncRows(testCaseId, kind, t, deletes), SyncRows(testCaseId, kind, t, upserts));
  }

  method SyncRequested(testCaseId: Id, kind: EntityKind, request: map<EntityKind, seq<Item>>,
                       newIds: map<EntityKind, seq<Id>>, rows: Table, history: seq<HistoryRow>)
    returns (r: Result<()>, rows': Table, history': seq<HistoryRow>)
    requires kind in request ==> kind in newIds && FreshIds(rows, request[kind], newIds[kind])
    ensures r == if kind in request ==> AllNameRows(rows, testCaseId, request[kind]) then Ok(()) else Err(BadRequest)
    ensures r.Ok? ==> Synced(Snap(rows, DetailsOf(history, testCaseId, kind)), testCaseId, kind, request, newIds,
                             Snap(rows', DetailsOf(history', testCaseId, kind)))
    ensures r.Ok? ==> forall other :: other != kind ==>
      DetailsOf(history', testCaseId, other) == DetailsOf(history, testCaseId, other)
    ensures r.Ok? ==> OnlyOf(testCaseId, history, history') && RowsTell(rows, rows', testCaseId, kind, history, history')
  {
    if kind !in request {
      return Ok(()), rows, history;
    }
    AllNameRowsIff(rows, testCaseId, request[kind]);
    var existing := FindManyOrdered(rows, testCaseId);
    r, rows', history' :=
      SyncChildEntitiesWithHistory(testCaseId, kind, request[kind], existing, newIds[kind], rows, history);
    if r.Ok? {
      DetailsOfSyncRows(history, testCaseId, kind, rows, SyncDetails(rows, existing, request[kind], newIds[kind]));
    }
  }

  /** The body of the transaction: preconditions, then steps, then expected results. */
  method SyncAll(testCaseId: Id, request: map<EntityKind, seq<Item>>, newIds: map<EntityKind, seq<Id>>,
                 tables: map<EntityKind, Table>, history: seq<HistoryRow>)
    returns (r: Result<()>, tables': map<EntityKind, Table>, history': seq<HistoryRow>)
    requires forall kind: EntityKind :: kind in tables
    requires forall kind :: kind in request ==> kind in newIds && FreshIds(tables[kind], request[kind], newIds[kind])
    ensures forall kind: EntityKind :: kind in tables'
    ensures r == if AllIdsExist(tables, testCaseId, request) then Ok(()) else Err(BadRequest)
    ensures r.Ok? ==> forall kind: EntityKind ::
      Synced(Snap(tables[kind], DetailsOf(history, testCaseId, kind)), testCaseId, kind, request, newIds,
             Snap(tables'[kind], DetailsOf(history', testCaseId, kind)))
    ensures r.Ok? ==> OnlyOf(testCaseId, history, history') && AllRowsTell(tables, tables', testCaseId, history, history')
  {
    tables' := tables;
    var preconditions, steps, expectedResults;
    ghost var first, second: seq<HistoryRow>;
    r, preconditions, history' :=
      SyncRequested(testCaseId, PreconditionKind, request, newIds, tables[PreconditionKind], history);
    if r.Err? {
      return;
    }
    first := history';
    r, steps, history' :=
      SyncRequested(testCaseId, StepKind, request, newIds, tables[StepKind], history');
    if r.Err? {
      return;
    }
    second := history';
    r, expectedResults, history' :=
      SyncRequested(testCaseId, ExpectedResultKind, request, newIds, tables[ExpectedResultKind], history');
    if r.Err? {
      return;
    }
    tables' := map[PreconditionKind := preconditions, StepKind := steps, ExpectedResultKind := expectedResults];
    forall kind: EntityKind
      ensures kind in tables'
      ensures kind in request ==> AllNameRows(tables[kind], testCaseId, request[kind])
      ensures Synced(Snap(tables[kind], DetailsOf(history, testCaseId, kind)), testCaseId, kind, request, newIds,
                     Snap(tables'[kind], DetailsOf(history', testCaseId, kind)))
    {
      match kind
      case PreconditionKind =>
      case StepKind =>
      case ExpectedResultKind =>
    }
    ThreeTell(tables, tables', testCaseId, history, first, second, history');
  }

  /** Each new row is true of the table of its kind before and after. */
  predicate AllRowsTell(tables: map<EntityKind, Table>, tables': map<EntityKind, Table>, testCaseId: Id,
                        history: seq<HistoryRow>, history': seq<HistoryRow>)
    requires forall kind: EntityKind :: kind in tables && kind in tables'
  {
    history <= history' && forall i :: |history| <= i < |history'| ==>
      RowTells(tables[history'[i].kind], tables'[history'[i].kind], testCaseId, history'[i].kind, history'[i])
  }

  /** An id, unless it is empty, is that of a row of the test case. */
  predicate NamesRow(t: Table, testCaseId: Id, id: Option<Id>) {
    id.Some? && id.value != "" ==> id.value in t && t[id.value].testCaseId == testCaseId
  }

  predicate AllNameRows(t: Table, testCaseId: Id, items: seq<Item>) {
    forall i :: 0 <= i < |items| ==> NamesRow(t, testCaseId, items[i].id)
  }

  predicate AllIdsExist(tables: map<EntityKind, Table>, testCaseId: Id, request: map<EntityKind, seq<Item>>) {
    forall kind :: kind in request && kind in tables ==> AllNameRows(tables[kind], testCaseId, request[kind])
  }

  lemma AllNameRowsIff(t: Table, testCaseId: Id, items: seq<Item>)
    ensures AllNameRows(t, testCaseId, items) <==> IdsExist(t, testCaseId, items)
  {
    forall i | 0 <= i < |items| && AllNameRows(t, testCaseId, items) && HasId(items[i])
      ensures BelongsTo(t, testCaseId, items[i].id.value)
    {
      assert NamesRow(t, testCaseId, items[i].id);
    }
  }

  /** The rows of three syncs, one after the other. */
  lemma ThreeTell(tables: map<EntityKind, Table>, tables': map<EntityKind, Table>, testCaseId: Id,
                  a: seq<HistoryRow>, b: seq<HistoryRow>, c: seq<HistoryRow>, d: seq<HistoryRow>)
    requires forall kind: EntityKind :: kind in tables && kind in tables'
    requires RowsTell(tables[PreconditionKind], tables'[PreconditionKind], testCaseId, PreconditionKind, a, b)
    requires RowsTell(tables[StepKind], tables'[StepKind], testCaseId, StepKind, b, c)
    requires RowsTell(tables[ExpectedResultKind], tables'[ExpectedResultKind], testCaseId, ExpectedResultKind, c, d)
    ensures AllRowsTell(tables, tables', testCaseId, a, d)
  {
    forall i | |a| <= i < |d|
      ensures RowTells(tables[d[i].kind], tables'[d[i].kind], testCaseId, d[i].kind, d[i])
    {
      if i < |b| {
        assert d[i] == b[i];
      } else if i < |c| {
        assert d[i] == c[i];
      }
    }
  }

  /** What a successful request does to one kind of child: nothing, or the diff sync of its list. */
  ghost predicate Synced(before: Snap, testCaseId: Id, kind: EntityKind,
    request: map<EntityKind, seq<Item>>, newIds: map<EntityKind, seq<Id>>, after: Snap)
  {
    if kind !in request then after == before
    else
      && kind in newIds && |request[kind]| == |newIds[kind]|
      && after.table == SyncedTable(before.table, testCaseId, request[kind], newIds[kind])
      && exists listing :: IsListing(before.table, testCaseId, listing) &&
           after.details == before.details + SyncDetails(before.table, listing, request[kind], newIds[kind])
  }

  // ----- the calls on canonical rows -----

  lemma AddTransition(before: Snap, testCaseId: Id, content: string, newId: Id, last: Option<string>)
    requires newId !in before.table && IsLastKey(before.table, testCaseId, last)
    ensures var key := GetNextOrderKey(last);
            Transition(testCaseId, before, Add(content, newId),
              Snap(before.table[newId := Row(testCaseId, content, key)],
                   before.details + [Added(newId, content, key)]))
  {
    var key := GetNextOrderKey(last);
    forall list: seq<Child> | Canonical(before.table, testCaseId, list) && |list| <= MAX_ORDERED
      ensures key == IndexToOrderKey(|list|)
      ensures Canonical(before.table[newId := Row(testCaseId, content, key)], testCaseId,
                        list + [Child(newId, content)])
    {
      CanonicalLastKey(before.table, testCaseId, list, last);
      if list == [] {
        InitialKeyIsFirstIndex();
      } else {
        NextOrderKeyIsNextIndex(|list| - 1);
      }
      AppendedIsCanonical(before.table, testCaseId, list, content, newId);
    }
  }

  lemma AppendedIsListed(t: Table, testCaseId: Id, ids: seq<Id>, newId: Id, row: Row)
    requires Enumerates(ids, RowIds(t, testCaseId)) && newId !in t && row.testCaseId == testCaseId
    ensures Enumerates(ids + [newId], RowIds(t[newId := row], testCaseId))
  {
    assert forall id :: id in ids ==> id in t;
  }

  lemma AppendedIsCanonical(t: Table, testCaseId: Id, list: seq<Child>, content: string, newId: Id)
    requires Canonical(t, testCaseId, list) && newId !in t
    ensures Canonical(t[newId := Row(testCaseId, content, IndexToOrderKey(|list|))], testCaseId,
                      list + [Child(newId, content)])
  {
    var t' := t[newId := Row(testCaseId, content, IndexToOrderKey(|list|))];
    var next := list + [Child(newId, content)];
    AppendedIsListed(t, testCaseId, Ids(list), newId, t'[newId]);
    assert Ids(next) == Ids(list) + [newId];
    forall i | 0 <= i < |next|
      ensures next[i].id in t' && t'[next[i].id] == Row(testCaseId, next[i].content, IndexToOrderKey(i))
    {
      if i < |list| {
        assert next[i] == list[i];
      }
    }
  }

  lemma UpdateTransition(before: Snap, testCaseId: Id, id: Id, content: string)
    requires BelongsTo(before.table, testCaseId, id)
    ensures var row := before.table[id];
            Transition(testCaseId, before, Update(id, content),
              if row.content == content then before
              else Snap(before.table[id := row.(content := content)],
                        before.details + [Updated(id, row.content, content)]))
  {
    forall list: seq<Child> | Canonical(before.table, testCaseId, list)
      ensures IndexOf(list, id) < |list| && ContentOf(list, id) == before.table[id].content
      ensures Canonical(before.table[id := before.table[id].(content := content)], testCaseId,
                        SetContent(list, id, content))
    {
      UpdatedIsCanonical(before.table, testCaseId, list, id, content);
    }
  }

  lemma UpdatedIsCanonical(t: Table, testCaseId: Id, list: seq<Child>, id: Id, content: string)
    requires Canonical(t, testCaseId, list) && BelongsTo(t, testCaseId, id)
    ensures IndexOf(list, id) < |list| && ContentOf(list, id) == t[id].content
    ensures Canonical(t[id := t[id].(content := content)], testCaseId, SetContent(list, id, content))
  {
    var t', next := t[id := t[id].(content := content)], SetContent(list, id, content);
    assert id in Ids(list);
    IndexOfAbsent(list, id);
    assert Ids(next) == Ids(list);
    forall k | 0 <= k < |next|
      ensures next[k].id in t' && t'[next[k].id] == Row(testCaseId, next[k].content, IndexToOrderKey(k))
    {
      assert Ids(list)[k] == list[k].id && Ids(list)[IndexOf(list, id)] == id;
    }
  }

  lemma DeleteTransition(before: Snap, testCaseId: Id, id: Id, rest: seq<Id>, t': Table)
    requires BelongsTo(before.table, testCaseId, id)
    requires IsListing(before.table - {id}, testCaseId, rest)
    requires Renumbered(before.table - {id}, rest, t')
    ensures var row := before.table[id];
            Transition(testCaseId, before, Delete(id),
              Snap(t', before.details + [Deleted(id, row.content, row.orderKey)]))
  {
    forall list: seq<Child> | Canonical(before.table, testCaseId, list) && |list| <= MAX_ORDERED
      ensures var i := IndexOf(list, id);
              i < |list| && before.table[id] == Row(testCaseId, list[i].content, IndexToOrderKey(i))
      ensures Canonical(t', testCaseId, Remove(list, id))
    {
      assert id in Ids(list);
      IndexOfAbsent(list, id);
      RemainingOrder(before.table, testCaseId, list, id, rest);
      RenumberedIsCanonical(before.table - {id}, testCaseId, rest, t', Remove(list, id));
    }
  }

  /** Position `i` of a list without its p-th element is position `Skip(p, i)` of the list. */
  function Skip(p: nat, i: nat): nat {
    if i < p then i else i + 1
  }

  lemma RemovedAt(list: seq<Child>, id: Id)
    requires Distinct(Ids(list)) && IndexOf(list, id) < |list|
    ensures var p, left := IndexOf(list, id), Remove(list, id);
            && |left| == |list| - 1
            && Distinct(Ids(left))
            && (forall i :: 0 <= i < |left| ==> left[i] == list[Skip(p, i)] && left[i].id != id)
            && (forall x :: x in Ids(left) <==> x in Ids(list) && x != id)
  {
    var p, left := IndexOf(list, id), Remove(list, id);
    ApplyKeepsIdsDistinct(list, Delete(id));
    assert Ids(list)[p] == id;
    forall i | 0 <= i < |left| ensures left[i] == list[Skip(p, i)] && left[i].id != id && left[i].id in Ids(list) {
      assert Ids(list)[Skip(p, i)] == list[Skip(p, i)].id;
    }
    forall x ensures x in Ids(left) <==> x in Ids(list) && x != id {
      if x in Ids(list) && x != id {
        var j :| 0 <= j < |list| && Ids(list)[j] == x;
        assert Ids(left)[if j < p then j else j - 1] == x;
      }
    }
  }

  lemma KeysInOrder(t: Table, testCaseId: Id, list: seq<Child>, i: nat, j: nat, id: Id)
    requires Canonical(t, testCaseId, list) && i < j < |list| <= MAX_ORDERED
    requires list[i].id != id && list[j].id != id
    ensures KeyLess(t - {id})(list[i].id, list[j].id)
  {
    OrderKeysIncrease(i, j);
  }

  lemma RemainingRows(t: Table, testCaseId: Id, list: seq<Child>, id: Id)
    requires Canonical(t, testCaseId, list) && IndexOf(list, id) < |list|
    ensures Enumerates(Ids(Remove(list, id)), RowIds(t - {id}, testCaseId))
    ensures forall i :: 0 <= i < |Remove(list, id)| ==>
      var c := Remove(list, id)[i]; c.id in t && c.id != id && c.content == t[c.id].content
  {
    RemovedAt(list, id);
    forall x ensures x in RowIds(t - {id}, testCaseId) <==> x in RowIds(t, testCaseId) && x != id {
    }
  }

  /** The rows left after a delete read back in the order of the list without the deleted child. */
  lemma RemainingOrder(t: Table, testCaseId: Id, list: seq<Child>, id: Id, rest: seq<Id>)
    requires Canonical(t, testCaseId, list) && |list| <= MAX_ORDERED
    requires IndexOf(list, id) < |list|
    requires IsListing(t - {id}, testCaseId, rest)
    ensures rest == Ids(Remove(list, id))
    ensures forall i :: 0 <= i < |Remove(list, id)| ==>
      var c := Remove(list, id)[i]; c.id in t && c.id != id && c.content == t[c.id].content
  {
    var p, left := IndexOf(list, id), Remove(list, id);
    RemovedAt(list, id);
    RemainingRows(t, testCaseId, list, id);
    forall i, j | 0 <= i < j < |left| ensures KeyLess(t - {id})(Ids(left)[i], Ids(left)[j]) {
      KeysInOrder(t, testCaseId, list, Skip(p, i), Skip(p, j), id);
    }
    StrictOrderUnique(rest, Ids(left), KeyLess(t - {id}));
  }

  /** A reorder that names the current order changes nothing. */
  lemma SameOrderTransition(before: Snap, testCaseId: Id, ids: seq<Id>, current: seq<Id>)
    requires IsListing(before.table, testCaseId, current)
    ensures ids == current ==> Transition(testCaseId, before, Reorder(ids), before)
  {
    forall list: seq<Child> | ids == current && Canonical(before.table, testCaseId, list) && |list| <= MAX_ORDERED
      ensures Apply(list, Reorder(ids)) == (list, [])
    {
      CanonicalReadsBack(before.table, testCaseId, list, current);
    }
  }

  lemma ReorderedTransition(before: Snap, testCaseId: Id, ids: seq<Id>, current: seq<Id>, t': Table)
    requires IsListing(before.table, testCaseId, current) && Enumerates(ids, RowIds(before.table, testCaseId))
    requires ids != current
    requires Renumbered(before.table, ids, t')
    ensures Transition(testCaseId, before, Reorder(ids), Snap(t', before.details + [Reordered(current, ids)]))
  {
    forall list: seq<Child> | Canonical(before.table, testCaseId, list) && |list| <= MAX_ORDERED
      ensures Apply(list, Reorder(ids)) == (Arrange(list, ids), [Reordered(current, ids)])
      ensures Canonical(t', testCaseId, Arrange(list, ids))
    {
      CanonicalReadsBack(before.table, testCaseId, list, current);
      PermutesIsEnumerates(before.table, testCaseId, ids, current);
      ApplyReorder(list, ids);
      ArrangedIsCanonical(before.table, testCaseId, list, ids, t');
    }
  }

  lemma ArrangedIsCanonical(t: Table, testCaseId: Id, list: seq<Child>, ids: seq<Id>, t': Table)
    requires Canonical(t, testCaseId, list) && Enumerates(ids, RowIds(t, testCaseId))
    requires Renumbered(t, ids, t')
    ensures Canonical(t', testCaseId, Arrange(list, ids))
  {
    forall i | 0 <= i < |ids| ensures ids[i] in t && ContentOf(list, ids[i]) == t[ids[i]].content {
      assert ids[i] in Ids(list);
      IndexOfAbsent(list, ids[i]);
    }
    assert Ids(Arrange(list, ids)) == ids;
    RenumberedIsCanonical(t, testCaseId, ids, t', Arrange(list, ids));
  }

  /** The checks of a reorder accept exactly the permutations of the current rows. */
  lemma PermutesIsEnumerates(t: Table, testCaseId: Id, ids: seq<Id>, current: seq<Id>)
    requires IsListing(t, testCaseId, current)
    ensures |current| == |RowIds(t, testCaseId)|
    ensures Permutes(ids, current) <==> Enumerates(ids, RowIds(t, testCaseId))
    ensures forall id :: id in current ==> id in t
  {
    EnumerationLength(current, RowIds(t, testCaseId));
    if Permutes(ids, current) {
      Pigeonhole(ids, current);
    }
    if Enumerates(ids, RowIds(t, testCaseId)) {
      EnumerationLength(ids, RowIds(t, testCaseId));
    }
  }

  lemma UpsertKeepsCase(t: Table, testCaseId: Id, items: seq<Item>, newIds: seq<Id>, n: nat, id: Id)
    requires n < |items| == |newIds| && HasId(items[n]) && items[n].id.value == id
    requires BelongsTo(t, testCaseId, id)
    ensures BelongsTo(Upserted(AfterDeletes(t, testCaseId, items), testCaseId, items, newIds, n), testCaseId, id)
  {
    assert id in RequestIds(items);
    UpsertedAt(AfterDeletes(t, testCaseId, items), testCaseId, items, newIds, n, id);
  }

  /**
    What one accepted request does to one kind of child: its details are undone to the old contents
    and, unless the request takes back what it asks for, replayed to the new; one entry was written
    per row deleted, changed or created, other test cases keep their rows, and the rows read back as
    the request's list exactly when it names no row twice.
   */
  lemma SyncedGuarantees(before: Snap, testCaseId: Id, kind: EntityKind,
    request: map<EntityKind, seq<Item>>, newIds: map<EntityKind, seq<Id>>, after: Snap)
    requires kind in request && Synced(before, testCaseId, kind, request, newIds, after)
    requires FreshIds(before.table, request[kind], newIds[kind])
    requires IdsExist(before.table, testCaseId, request[kind])
    ensures before.details <= after.details
    ensures UndoAllOnMap(ContentMap(after.table, testCaseId), after.details[|before.details|..])
         == ContentMap(before.table, testCaseId)
    ensures |after.details| == |before.details| + |RowIds(before.table, testCaseId) - RequestIds(request[kind])|
                             + |WritingItems(before.table, request[kind], |request[kind]|)|
    ensures RedoAllOnMap(ContentMap(before.table, testCaseId), after.details[|before.details|..])
              == ContentMap(after.table, testCaseId)
       <==> forall id :: !TakenBack(before.table, request[kind], id)
    ensures IdsDistinct(request[kind]) ==>
      RedoAllOnMap(ContentMap(before.table, testCaseId), after.details[|before.details|..]) == ContentMap(after.table, testCaseId)
    ensures OthersKept(before.table, testCaseId, after.table)
    ensures Canonical(after.table, testCaseId, Target(request[kind], newIds[kind])) <==> IdsDistinct(request[kind])
    ensures |request[kind]| <= MAX_ORDERED ==> forall listing :: IsListing(after.table, testCaseId, listing) ==>
      (listing == Ids(Target(request[kind], newIds[kind])) <==> IdsDistinct(request[kind]))
  {
    var items, ids := request[kind], newIds[kind];
    var listing :| IsListing(before.table, testCaseId, listing) &&
      after.details == before.details + SyncDetails(before.table, listing, items, ids);
    assert after.details[|before.details|..] == SyncDetails(before.table, listing, items, ids);
    SyncUndo(before.table, testCaseId, listing, items, ids);
    SyncRedoIff(before.table, testCaseId, listing, items, ids);
    if IdsDistinct(items) {
      DistinctTakesNothingBack(before.table, items);
    }
    SyncEntryCount(before.table, testCaseId, listing, items, ids);
    SyncKeepsOthers(before.table, testCaseId, items, ids, |items|);
    SyncReadsBackIff(before.table, testCaseId, items, ids);
    forall l | IsListing(after.table, testCaseId, l) && |items| <= MAX_ORDERED
      ensures l == Ids(Target(items, ids)) <==> IdsDistinct(items)
    {
      if IdsDistinct(items) {
        CanonicalReadsBack(after.table, testCaseId, Target(items, ids), l);
      } else {
        SyncDuplicateNotReadBack(before.table, testCaseId, items, ids, l);
      }
    }
  }
}
