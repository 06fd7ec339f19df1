/**
  The diff sync of a request's child list against the stored rows: rows missing from the request
  are deleted, rows named by the request are overwritten, items without an id are created.
 */
module ChildSync {
  import opened Wrappers
  import opened Orders
  import opened OrderKeys
  import opened ChildLists
  import opened ChildTables

  datatype Item = Item(id: Option<Id>, content: string)

  /** The item names a stored row; one without an id, or with an empty one, is new. */
  predicate HasId(item: Item) {
    item.id.Some? && item.id.value != ""
  }

  function RequestIds(items: seq<Item>): set<Id> {
    set i | 0 <= i < |items| && HasId(items[i]) :: items[i].id.value
  }

  predicate IdsExist(t: Table, testCaseId: Id, items: seq<Item>) {
    forall i :: 0 <= i < |items| && HasId(items[i]) ==> BelongsTo(t, testCaseId, items[i].id.value)
  }

  predicate IdsDistinct(items: seq<Item>) {
    forall i, j :: 0 <= i < j < |items| && HasId(items[i]) && HasId(items[j]) ==>
      items[i].id.value != items[j].id.value
  }

  /** Ids the database hands out for created rows: `newIds[i]` if item i is created. */
  predicate FreshIds(t: Table, items: seq<Item>, newIds: seq<Id>) {
    |newIds| == |items| && Distinct(newIds) && forall i :: 0 <= i < |newIds| ==> newIds[i] !in t
  }

  function TargetId(items: seq<Item>, newIds: seq<Id>, i: nat): Id
    requires i < |items| == |newIds|
  {
    if HasId(items[i]) then items[i].id.value else newIds[i]
  }

  /** The list the request asks for. */
  function Target(items: seq<Item>, newIds: seq<Id>): (list: seq<Child>)
    requires |items| == |newIds|
    ensures |list| == |items|
    ensures forall i :: 0 <= i < |items| ==> list[i] == Child(TargetId(items, newIds, i), items[i].content)
  {
    seq(|items|, i requires 0 <= i < |items| => Child(TargetId(items, newIds, i), items[i].content))
  }

  // ----- the rows -----

  function AfterDeletes(t: Table, testCaseId: Id, items: seq<Item>): Table {
    t - (RowIds(t, testCaseId) - RequestIds(items))
  }

  /** The table once the first `n` items are written over `t`. */
  function Upserted(t: Table, testCaseId: Id, items: seq<Item>, newIds: seq<Id>, n: nat): (u: Table)
    requires n <= |items| == |newIds|
    ensures t.Keys <= u.Keys
  {
    if n == 0 then t
    else
      Upserted(t, testCaseId, items, newIds, n - 1)[
        TargetId(items, newIds, n - 1) := Row(testCaseId, items[n - 1].content, IndexToOrderKey(n - 1))]
  }

  function SyncedTable(t: Table, testCaseId: Id, items: seq<Item>, newIds: seq<Id>): Table
    requires |items| == |newIds|
  {
    Upserted(AfterDeletes(t, testCaseId, items), testCaseId, items, newIds, |items|)
  }

  // ----- the history -----

  function DroppedIds(listing: seq<Id>, keep: set<Id>): seq<Id> {
    if listing == [] then []
    else DroppedIds(listing[..|listing| - 1], keep) +
         if listing[|listing| - 1] in keep then [] else [listing[|listing| - 1]]
  }

  function DeleteDetails(t: Table, ids: seq<Id>): seq<ChangeDetail>
    requires forall id :: id in ids ==> id in t
  {
    seq(|ids|, i requires 0 <= i < |ids| => Deleted(ids[i], t[ids[i]].content, t[ids[i]].orderKey))
  }

  function UpsertDetail(t: Table, items: seq<Item>, newIds: seq<Id>, i: nat): seq<ChangeDetail>
    requires i < |items| == |newIds|
  {
    var id := TargetId(items, newIds, i);
    if !HasId(items[i]) then [Added(id, items[i].content, IndexToOrderKey(i))]
    else if id in t && t[id].content != items[i].content then
      [Updated(id, t[id].content, items[i].content)]
    else []
  }

  function UpsertDetails(t: Table, items: seq<Item>, newIds: seq<Id>, n: nat): seq<ChangeDetail>
    requires n <= |items| == |newIds|
  {
    if n == 0 then []
    else UpsertDetails(t, items, newIds, n - 1) + UpsertDetail(t, items, newIds, n - 1)
  }

  function SyncDetails(t: Table, listing: seq<Id>, items: seq<Item>, newIds: seq<Id>): seq<ChangeDetail>
    requires |items| == |newIds|
    requires forall id :: id in listing ==> id in t
  {
    DroppedIdsFacts(listing, RequestIds(items));
    DeleteDetails(t, DroppedIds(listing, RequestIds(items))) + UpsertDetails(t, items, newIds, |items|)
  }

  lemma {:induction false} DroppedIdsFacts(listing: seq<Id>, keep: set<Id>)
    ensures forall id :: id in DroppedIds(listing, keep) <==> id in listing && id !in keep
    ensures Distinct(listing) ==> Distinct(DroppedIds(listing, keep))
  {
    if listing != [] {
      var rest, last := listing[..|listing| - 1], listing[|listing| - 1];
      DroppedIdsFacts(rest, keep);
      assert listing == rest + [last];
    }
  }

  // ----- reading the synced rows back -----

  /** The last of the first `n` items that writes row `id`. */
  function LastWriter(items: seq<Item>, newIds: seq<Id>, n: nat, id: Id): (k: Option<nat>)
    requires n <= |items| == |newIds|
    ensures k.None? ==> forall i :: 0 <= i < n ==> TargetId(items, newIds, i) != id
    ensures k.Some? ==> k.value < n && TargetId(items, newIds, k.value) == id
    ensures k.Some? ==> forall i :: k.value < i < n ==> TargetId(items, newIds, i) != id
  {
    if n == 0 then None
    else if TargetId(items, newIds, n - 1) == id then Some(n - 1)
    else LastWriter(items, newIds, n - 1, id)
  }

  lemma {:induction false} UpsertedAt(t: Table, testCaseId: Id, items: seq<Item>, newIds: seq<Id>, n: nat, id: Id)
    requires n <= |items| == |newIds|
    ensures var u := Upserted(t, testCaseId, items, newIds, n);
            match LastWriter(items, newIds, n, id)
            case None => (id in u <==> id in t) && (id in t ==> u[id] == t[id])
            case Some(k) => id in u && u[id] == Row(testCaseId, items[k].content, IndexToOrderKey(k))
  {
    if n > 0 {
      UpsertedAt(t, testCaseId, items, newIds, n - 1, id);
    }
  }

  lemma TargetIdsDistinct(t: Table, testCaseId: Id, items: seq<Item>, newIds: seq<Id>)
    requires FreshIds(t, items, newIds) && IdsExist(t, testCaseId, items)
    ensures Distinct(Ids(Target(items, newIds))) <==> IdsDistinct(items)
  {
    var ids := Ids(Target(items, newIds));
    assert forall i :: 0 <= i < |items| ==> ids[i] == TargetId(items, newIds, i);
    if IdsDistinct(items) {
      forall i, j | 0 <= i < j < |ids| ensures ids[i] != ids[j] {
        assert HasId(items[i]) ==> ids[i] in t;
        assert HasId(items[j]) ==> ids[j] in t;
      }
    }
    if Distinct(ids) {
      forall i, j | 0 <= i < j < |items| && HasId(items[i]) && HasId(items[j])
        ensures items[i].id.value != items[j].id.value
      {
        assert ids[i] != ids[j];
      }
    }
  }

  lemma SyncedRowIds(t: Table, testCaseId: Id, items: seq<Item>, newIds: seq<Id>, id: Id)
    requires FreshIds(t, items, newIds) && IdsExist(t, testCaseId, items)
    ensures BelongsTo(SyncedTable(t, testCaseId, items, newIds), testCaseId, id)
       <==> id in Ids(Target(items, newIds))
  {
    var base, ids := AfterDeletes(t, testCaseId, items), Ids(Target(items, newIds));
    assert forall i :: 0 <= i < |items| ==> ids[i] == TargetId(items, newIds, i);
    UpsertedAt(base, testCaseId, items, newIds, |items|, id);
    if id in RequestIds(items) {
      var i :| 0 <= i < |items| && HasId(items[i]) && items[i].id.value == id;
      assert TargetId(items, newIds, i) == id;
    }
    var k := LastWriter(items, newIds, |items|, id);
    if k.Some? {
      assert ids[k.value] == id;
    }
  }

  /**
    For a request that names only existing rows, the stored rows are in canonical form for exactly
    the request's list if and only if it names no row twice. The old rows need not be canonical.
   */
  lemma SyncReadsBackIff(t: Table, testCaseId: Id, items: seq<Item>, newIds: seq<Id>)
    requires FreshIds(t, items, newIds) && IdsExist(t, testCaseId, items)
    ensures Canonical(SyncedTable(t, testCaseId, items, newIds), testCaseId, Target(items, newIds))
       <==> IdsDistinct(items)
  {
    TargetIdsDistinct(t, testCaseId, items, newIds);
    if IdsDistinct(items) {
      var base, u := AfterDeletes(t, testCaseId, items), SyncedTable(t, testCaseId, items, newIds);
      var list := Target(items, newIds);
      forall id ensures id in Ids(list) <==> id in RowIds(u, testCaseId) {
        SyncedRowIds(t, testCaseId, items, newIds, id);
      }
      forall k | 0 <= k < |list|
        ensures list[k].id in u && u[list[k].id] == Row(testCaseId, list[k].content, IndexToOrderKey(k))
      {
        UpsertedAt(base, testCaseId, items, newIds, |items|, list[k].id);
        assert forall i :: 0 <= i < |items| ==> Ids(list)[i] == TargetId(items, newIds, i);
      }
    }
  }

  /** A request naming a row twice is not what is read back, whatever order the database picks. */
  lemma SyncDuplicateNotReadBack(t: Table, testCaseId: Id, items: seq<Item>, newIds: seq<Id>, listing: seq<Id>)
    requires FreshIds(t, items, newIds) && IdsExist(t, testCaseId, items)
    requires IsListing(SyncedTable(t, testCaseId, items, newIds), testCaseId, listing)
    requires !IdsDistinct(items)
    ensures listing != Ids(Target(items, newIds))
  {
    TargetIdsDistinct(t, testCaseId, items, newIds);
  }

  lemma {:induction false} SyncKeepsOthers(t: Table, testCaseId: Id, items: seq<Item>, newIds: seq<Id>, n: nat)
    requires FreshIds(t, items, newIds) && IdsExist(t, testCaseId, items) && n <= |items|
    ensures OthersKept(t, testCaseId, Upserted(AfterDeletes(t, testCaseId, items), testCaseId, items, newIds, n))
  {
    if n > 0 {
      SyncKeepsOthers(t, testCaseId, items, newIds, n - 1);
      assert HasId(items[n - 1]) ==> BelongsTo(t, testCaseId, TargetId(items, newIds, n - 1));
    }
  }

  // ----- undoing a sync -----

  /** The contents of a test case's rows. Order is not in it: a sync logs no reordering. */
  function ContentMap(t: Table, testCaseId: Id): map<Id, string> {
    map id | id in RowIds(t, testCaseId) :: t[id].content
  }

  function UndoOnMap(m: map<Id, string>, detail: ChangeDetail): map<Id, string> {
    match detail
    case Added(id, _, _) => m - {id}
    case Updated(id, before, _) => m[id := before]
    case Deleted(id, content, _) => m[id := content]
    case Reordered(_, _) => m
  }

  function UndoAllOnMap(m: map<Id, string>, details: seq<ChangeDetail>): map<Id, string>
    decreases |details|
  {
    if details == [] then m
    else UndoAllOnMap(UndoOnMap(m, details[|details| - 1]), details[..|details| - 1])
  }

  lemma {:induction false} UndoAllOnMapConcat(m: map<Id, string>, older: seq<ChangeDetail>, newer: seq<ChangeDetail>)
    ensures UndoAllOnMap(m, older + newer) == UndoAllOnMap(UndoAllOnMap(m, newer), older)
    decreases |newer|
  {
    if newer == [] {
      assert older + newer == older;
    } else {
      var n := |newer| - 1;
      assert (older + newer)[..|older + newer| - 1] == older + newer[..n];
      UndoAllOnMapConcat(UndoOnMap(m, newer[n]), older, newer[..n]);
    }
  }

  predicate HasUpdate(details: seq<ChangeDetail>, id: Id) {
    exists k :: 0 <= k < |details| && details[k].Updated? && details[k].id == id
  }

  function CreatedIds(items: seq<Item>, newIds: seq<Id>, n: nat): set<Id>
    requires n <= |items| == |newIds|
  {
    set i | 0 <= i < n && !HasId(items[i]) :: newIds[i]
  }

  /** `m` differs from the contents `base` only in ways that `details` undoes. */
  ghost predicate Recoverable(m: map<Id, string>, base: map<Id, string>, created: set<Id>, details: seq<ChangeDetail>) {
    && m.Keys == base.Keys + created
    && forall id :: id in base ==> m[id] == base[id] || HasUpdate(details, id)
  }

  lemma UndoNewest(m: map<Id, string>, older: seq<ChangeDetail>, newest: ChangeDetail)
    ensures UndoAllOnMap(m, older + [newest]) == UndoAllOnMap(UndoOnMap(m, newest), older)
  {
    var details := older + [newest];
    assert details[..|details| - 1] == older;
  }

  lemma CreatedOneMore(t: Table, items: seq<Item>, newIds: seq<Id>, n: nat)
    requires FreshIds(t, items, newIds) && 0 < n <= |items|
    ensures HasId(items[n - 1]) ==> CreatedIds(items, newIds, n) == CreatedIds(items, newIds, n - 1)
    ensures !HasId(items[n - 1]) ==>
      && newIds[n - 1] !in t && newIds[n - 1] !in CreatedIds(items, newIds, n - 1)
      && CreatedIds(items, newIds, n) == CreatedIds(items, newIds, n - 1) + {newIds[n - 1]}
  {
  }

  lemma AddedUndone(m: map<Id, string>, base: map<Id, string>, created: set<Id>, older: seq<ChangeDetail>, newest: ChangeDetail)
    requires newest.Added? && newest.id !in base && newest.id !in created
    requires Recoverable(m, base, created + {newest.id}, older + [newest])
    ensures Recoverable(UndoOnMap(m, newest), base, created, older)
  {
    HasUpdateOlder(older, newest);
  }

  lemma UpdatedUndone(m: map<Id, string>, base: map<Id, string>, created: set<Id>, older: seq<ChangeDetail>, newest: ChangeDetail)
    requires newest.Updated? && newest.id in base && newest.before == base[newest.id]
    requires Recoverable(m, base, created, older + [newest])
    ensures Recoverable(UndoOnMap(m, newest), base, created, older)
  {
    HasUpdateOlder(older, newest);
  }

  /** Undoing the newest detail leaves a map that the older details undo. */
  lemma NewestUndone(
    t: Table, items: seq<Item>, newIds: seq<Id>, n: nat, m: map<Id, string>, base: map<Id, string>)
    returns (m': map<Id, string>)
    requires FreshIds(t, items, newIds) && 0 < n <= |items|
    requires base.Keys <= t.Keys && forall id :: id in base ==> base[id] == t[id].content
    requires HasId(items[n - 1]) ==> items[n - 1].id.value in base
    requires Recoverable(m, base, CreatedIds(items, newIds, n), UpsertDetails(t, items, newIds, n))
    ensures Recoverable(m', base, CreatedIds(items, newIds, n - 1), UpsertDetails(t, items, newIds, n - 1))
    ensures UndoAllOnMap(m, UpsertDetails(t, items, newIds, n))
         == UndoAllOnMap(m', UpsertDetails(t, items, newIds, n - 1))
  {
    var older, newest := UpsertDetails(t, items, newIds, n - 1), UpsertDetail(t, items, newIds, n - 1);
    var created := CreatedIds(items, newIds, n - 1);
    CreatedOneMore(t, items, newIds, n);
    if newest == [] {
      m' := m;
      assert UpsertDetails(t, items, newIds, n) == older;
    } else {
      m' := UndoOnMap(m, newest[0]);
      assert UpsertDetails(t, items, newIds, n) == older + [newest[0]];
      UndoNewest(m, older, newest[0]);
      if newest[0].Added? {
        AddedUndone(m, base, created, older, newest[0]);
      } else {
        UpdatedUndone(m, base, created, older, newest[0]);
      }
    }
  }

  lemma HasUpdateOlder(older: seq<ChangeDetail>, newest: ChangeDetail)
    ensures forall id :: HasUpdate(older + [newest], id)
                    <==> HasUpdate(older, id) || (newest.Updated? && newest.id == id)
  {
    var details := older + [newest];
    forall id ensures HasUpdate(details, id) <==> HasUpdate(older, id) || (newest.Updated? && newest.id == id) {
      if HasUpdate(older, id) {
        var k :| 0 <= k < |older| && older[k].Updated? && older[k].id == id;
        assert details[k] == older[k];
      }
      if newest.Updated? && newest.id == id {
        assert details[|older|] == newest;
      }
    }
  }

  lemma NothingToUndo(m: map<Id, string>, base: map<Id, string>)
    requires Recoverable(m, base, {}, [])
    ensures m == base
  {
  }

  lemma {:induction false} UpsertsAreUndone(
    t: Table, items: seq<Item>, newIds: seq<Id>, n: nat, m: map<Id, string>, base: map<Id, string>)
    requires FreshIds(t, items, newIds) && n <= |items|
    requires base.Keys <= t.Keys && forall id :: id in base ==> base[id] == t[id].content
    requires forall i :: 0 <= i < |items| && HasId(items[i]) ==> items[i].id.value in base
    requires Recoverable(m, base, CreatedIds(items, newIds, n), UpsertDetails(t, items, newIds, n))
    ensures UndoAllOnMap(m, UpsertDetails(t, items, newIds, n)) == base
  {
    if n == 0 {
      NothingToUndo(m, base);
    } else {
      var m' := NewestUndone(t, items, newIds, n, m, base);
      UpsertsAreUndone(t, items, newIds, n - 1, m', base);
    }
  }

  lemma ContentAfterUpsert(t: Table, testCaseId: Id, items: seq<Item>, newIds: seq<Id>, n: nat)
    requires 0 < n <= |items| == |newIds|
    ensures ContentMap(Upserted(t, testCaseId, items, newIds, n), testCaseId)
         == ContentMap(Upserted(t, testCaseId, items, newIds, n - 1), testCaseId)[
              TargetId(items, newIds, n - 1) := items[n - 1].content]
  {
  }

  lemma RecoverableStep(
    t: Table, items: seq<Item>, newIds: seq<Id>, n: nat, before: map<Id, string>, base: map<Id, string>)
    requires FreshIds(t, items, newIds) && 0 < n <= |items|
    requires base.Keys <= t.Keys && forall id :: id in base ==> base[id] == t[id].content
    requires HasId(items[n - 1]) ==> items[n - 1].id.value in base
    requires Recoverable(before, base, CreatedIds(items, newIds, n - 1), UpsertDetails(t, items, newIds, n - 1))
    ensures Recoverable(before[TargetId(items, newIds, n - 1) := items[n - 1].content],
              base, CreatedIds(items, newIds, n), UpsertDetails(t, items, newIds, n))
  {
    var id := TargetId(items, newIds, n - 1);
    var older, newest := UpsertDetails(t, items, newIds, n - 1), UpsertDetail(t, items, newIds, n - 1);
    if newest == [] {
      assert UpsertDetails(t, items, newIds, n) == older;
    } else {
      assert newest == [newest[0]];
      HasUpdateOlder(older, newest[0]);
    }
    if HasId(items[n - 1]) {
      assert CreatedIds(items, newIds, n) == CreatedIds(items, newIds, n - 1);
    } else {
      assert CreatedIds(items, newIds, n) == CreatedIds(items, newIds, n - 1) + {id};
    }
  }

  lemma {:induction false} UpsertedIsRecoverable(
    t: Table, testCaseId: Id, items: seq<Item>, newIds: seq<Id>, n: nat)
    requires FreshIds(t, items, newIds) && IdsExist(t, testCaseId, items) && n <= |items|
    ensures var base := AfterDeletes(t, testCaseId, items);
            Recoverable(ContentMap(Upserted(base, testCaseId, items, newIds, n), testCaseId),
              ContentMap(base, testCaseId), CreatedIds(items, newIds, n), UpsertDetails(t, items, newIds, n))
  {
    var base := AfterDeletes(t, testCaseId, items);
    if n > 0 {
      UpsertedIsRecoverable(t, testCaseId, items, newIds, n - 1);
      KeptIds(t, testCaseId, items);
      ContentAfterUpsert(base, testCaseId, items, newIds, n);
      RecoverableStep(t, items, newIds, n,
        ContentMap(Upserted(base, testCaseId, items, newIds, n - 1), testCaseId), ContentMap(base, testCaseId));
    }
  }

  lemma {:induction false} DeletesAreUndone(t: Table, ids: seq<Id>, m: map<Id, string>)
    requires forall id :: id in ids ==> id in t
    ensures UndoAllOnMap(m, DeleteDetails(t, ids)) == m + (map id | id in ids :: t[id].content)
    decreases |ids|
  {
    var details := DeleteDetails(t, ids);
    if ids != [] {
      var n := |ids| - 1;
      assert details[..n] == DeleteDetails(t, ids[..n]);
      DeletesAreUndone(t, ids[..n], m[ids[n] := t[ids[n]].content]);
      assert forall id :: id in ids <==> id in ids[..n] || id == ids[n];
    }
  }

  /** Undoing the details a sync recorded, newest first, recovers the old id-to-content map. */
  lemma SyncUndo(t: Table, testCaseId: Id, listing: seq<Id>, items: seq<Item>, newIds: seq<Id>)
    requires FreshIds(t, items, newIds) && IdsExist(t, testCaseId, items)
    requires Enumerates(listing, RowIds(t, testCaseId))
    ensures UndoAllOnMap(ContentMap(SyncedTable(t, testCaseId, items, newIds), testCaseId),
                         SyncDetails(t, listing, items, newIds))
         == ContentMap(t, testCaseId)
  {
    var base := AfterDeletes(t, testCaseId, items);
    var m, b := ContentMap(SyncedTable(t, testCaseId, items, newIds), testCaseId), ContentMap(base, testCaseId);
    var dropped := DroppedIds(listing, RequestIds(items));
    DroppedIdsFacts(listing, RequestIds(items));
    UpsertedIsRecoverable(t, testCaseId, items, newIds, |items|);
    KeptIds(t, testCaseId, items);
    UpsertsAreUndone(t, items, newIds, |items|, m, b);
    DeletesAreUndone(t, dropped, b);
    UndoAllOnMapConcat(m, DeleteDetails(t, dropped), UpsertDetails(t, items, newIds, |items|));
    SplitByDeletes(t, testCaseId, listing, items);
  }

  lemma KeptIds(t: Table, testCaseId: Id, items: seq<Item>)
    requires IdsExist(t, testCaseId, items)
    ensures forall i :: 0 <= i < |items| && HasId(items[i]) ==>
      items[i].id.value in ContentMap(AfterDeletes(t, testCaseId, items), testCaseId)
  {
    assert forall i :: 0 <= i < |items| && HasId(items[i]) ==> items[i].id.value in RequestIds(items);
  }

  lemma SplitByDeletes(t: Table, testCaseId: Id, listing: seq<Id>, items: seq<Item>)
    requires Enumerates(listing, RowIds(t, testCaseId))
    ensures var dropped := DroppedIds(listing, RequestIds(items));
            && (forall id :: id in dropped ==> id in t)
            && ContentMap(t, testCaseId)
               == ContentMap(AfterDeletes(t, testCaseId, items), testCaseId) + map id | id in dropped :: t[id].content
  {
    DroppedIdsFacts(listing, RequestIds(items));
  }

  /** The positions of the request that create a row or change a stored content. */
  function WritingItems(t: Table, items: seq<Item>, n: nat): set<nat>
    requires n <= |items|
  {
    set i: nat | i < n && (!HasId(items[i]) ||
      (items[i].id.value in t && t[items[i].id.value].content != items[i].content))
  }

  lemma WritingOneMore(t: Table, items: seq<Item>, n: nat)
    requires 0 < n <= |items|
    ensures n - 1 in WritingItems(t, items, n) ==> |WritingItems(t, items, n)| == |WritingItems(t, items, n - 1)| + 1
    ensures n - 1 !in WritingItems(t, items, n) ==> |WritingItems(t, items, n)| == |WritingItems(t, items, n - 1)|
  {
    var before, now := WritingItems(t, items, n - 1), WritingItems(t, items, n);
    assert now == if n - 1 in now then before + {n - 1} else before;
  }

  lemma {:induction false} UpsertDetailsCount(t: Table, items: seq<Item>, newIds: seq<Id>, n: nat)
    requires n <= |items| == |newIds|
    ensures |UpsertDetails(t, items, newIds, n)| == |WritingItems(t, items, n)|
  {
    if n > 0 {
      UpsertDetailsCount(t, items, newIds, n - 1);
      WritingOneMore(t, items, n);
    }
  }

  /** One entry for each row deleted, each content changed and each row created. */
  lemma SyncEntryCount(t: Table, testCaseId: Id, listing: seq<Id>, items: seq<Item>, newIds: seq<Id>)
    requires |items| == |newIds|
    requires Enumerates(listing, RowIds(t, testCaseId))
    ensures |SyncDetails(t, listing, items, newIds)|
         == |RowIds(t, testCaseId) - RequestIds(items)| + |WritingItems(t, items, |items|)|
  {
    DroppedIdsFacts(listing, RequestIds(items));
    EnumerationLength(DroppedIds(listing, RequestIds(items)), RowIds(t, testCaseId) - RequestIds(items));
    UpsertDetailsCount(t, items, newIds, |items|);
  }
}
