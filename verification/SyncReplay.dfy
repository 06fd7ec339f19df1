/**
  What the entries of a diff sync say: read against the tables before and after, and replayed, oldest
  first, on the contents before.
 */
module SyncReplay {
  import opened Wrappers
  import opened Orders
  import opened OrderKeys
  import opened ChildLists
  import opened ChildTables
  import opened ChildSync

  // ----- replaying -----

  function RedoOnMap(m: map<Id, string>, detail: ChangeDetail): map<Id, string> {
    match detail
    case Added(id, content, _) => m[id := content]
    case Updated(id, _, after) => m[id := after]
    case Deleted(id, _, _) => m - {id}
    case Reordered(_, _) => m
  }

  function RedoAllOnMap(m: map<Id, string>, details: seq<ChangeDetail>): map<Id, string>
    decreases |details|
  {
    if details == [] then m
    else RedoOnMap(RedoAllOnMap(m, details[..|details| - 1]), details[|details| - 1])
  }

  lemma {:induction false} RedoAllOnMapConcat(m: map<Id, string>, older: seq<ChangeDetail>, newer: seq<ChangeDetail>)
    ensures RedoAllOnMap(m, older + newer) == RedoAllOnMap(RedoAllOnMap(m, older), newer)
    decreases |newer|
  {
    if newer == [] {
      assert older + newer == older;
    } else {
      var n := |newer| - 1;
      assert (older + newer)[..|older + newer| - 1] == older + newer[..n];
      RedoAllOnMapConcat(m, older, newer[..n]);
    }
  }

  lemma {:induction false} DeletesAreReplayed(t: Table, ids: seq<Id>, m: map<Id, string>)
    requires forall id :: id in ids ==> id in t
    ensures RedoAllOnMap(m, DeleteDetails(t, ids)) == m - (set id | id in ids)
    decreases |ids|
  {
    var details := DeleteDetails(t, ids);
    if ids != [] {
      var n := |ids| - 1;
      assert details[..n] == DeleteDetails(t, ids[..n]);
      DeletesAreReplayed(t, ids[..n], m);
      assert forall id :: id in ids <==> id in ids[..n] || id == ids[n];
    }
  }

  /** The item names the stored row `id` and asks for another content. */
  predicate Changes(t: Table, item: Item, id: Id) {
    HasId(item) && item.id.value == id && id in t && item.content != t[id].content
  }

  /** The last of the first `n` items that asks for another content of row `id`. */
  function LastChange(t: Table, items: seq<Item>, n: nat, id: Id): (k: Option<nat>)
    requires n <= |items|
    ensures k.None? ==> forall i :: 0 <= i < n ==> !Changes(t, items[i], id)
    ensures k.Some? ==> k.value < n && Changes(t, items[k.value], id)
    ensures k.Some? ==> forall i :: k.value < i < n ==> !Changes(t, items[i], id)
  {
    if n == 0 then None
    else if Changes(t, items[n - 1], id) then Some(n - 1)
    else LastChange(t, items, n - 1, id)
  }

  /** The contents `base` with what the first `n` items were recorded to change. */
  function Replayed(t: Table, items: seq<Item>, newIds: seq<Id>, n: nat, base: map<Id, string>): map<Id, string>
    requires n <= |items| == |newIds|
  {
    if n == 0 then base
    else
      var m := Replayed(t, items, newIds, n - 1, base);
      if HasId(items[n - 1]) && !Changes(t, items[n - 1], items[n - 1].id.value) then m
      else m[TargetId(items, newIds, n - 1) := items[n - 1].content]
  }

  lemma RedoOneMore(m: map<Id, string>, older: seq<ChangeDetail>, detail: ChangeDetail)
    ensures RedoAllOnMap(m, older + [detail]) == RedoOnMap(RedoAllOnMap(m, older), detail)
  {
    assert (older + [detail])[..|older|] == older;
  }

  lemma ItemRedone(t: Table, items: seq<Item>, newIds: seq<Id>, n: nat, base: map<Id, string>, older: seq<ChangeDetail>)
    requires 0 < n <= |items| == |newIds|
    requires RedoAllOnMap(base, older) == Replayed(t, items, newIds, n - 1, base)
    ensures RedoAllOnMap(base, older + UpsertDetail(t, items, newIds, n - 1)) == Replayed(t, items, newIds, n, base)
  {
    var newest := UpsertDetail(t, items, newIds, n - 1);
    if newest == [] {
      assert older + newest == older;
    } else {
      RedoOneMore(base, older, newest[0]);
      assert newest == [newest[0]];
    }
  }

  lemma {:induction false} ReplayedIsRedo(t: Table, items: seq<Item>, newIds: seq<Id>, n: nat, base: map<Id, string>)
    requires n <= |items| == |newIds|
    ensures RedoAllOnMap(base, UpsertDetails(t, items, newIds, n)) == Replayed(t, items, newIds, n, base)
  {
    if n > 0 {
      ReplayedIsRedo(t, items, newIds, n - 1, base);
      ItemRedone(t, items, newIds, n, base, UpsertDetails(t, items, newIds, n - 1));
    }
  }

  lemma {:induction false} ReplayedKeys(t: Table, items: seq<Item>, newIds: seq<Id>, n: nat, base: map<Id, string>)
    requires n <= |items| == |newIds|
    requires forall i :: 0 <= i < |items| && HasId(items[i]) ==> items[i].id.value in base
    ensures Replayed(t, items, newIds, n, base).Keys == base.Keys + CreatedIds(items, newIds, n)
  {
    if n > 0 {
      ReplayedKeys(t, items, newIds, n - 1, base);
      assert CreatedIds(items, newIds, n) ==
        CreatedIds(items, newIds, n - 1) + if HasId(items[n - 1]) then {} else {newIds[n - 1]};
    }
  }

  /** A stored row's content is that of the last item that asked for another. */
  lemma {:induction false} ReplayedKept(t: Table, items: seq<Item>, newIds: seq<Id>, n: nat, base: map<Id, string>, id: Id)
    requires FreshIds(t, items, newIds) && n <= |items|
    requires id in base && id in t && base[id] == t[id].content
    ensures var m, k := Replayed(t, items, newIds, n, base), LastChange(t, items, n, id);
            id in m && m[id] == if k.Some? then items[k.value].content else t[id].content
  {
    if n > 0 {
      ReplayedKept(t, items, newIds, n - 1, base, id);
    }
  }

  lemma {:induction false} ReplayedCreated(t: Table, items: seq<Item>, newIds: seq<Id>, n: nat, base: map<Id, string>, i: nat)
    requires FreshIds(t, items, newIds) && i < n <= |items| && !HasId(items[i])
    requires forall k :: 0 <= k < |items| && HasId(items[k]) ==> items[k].id.value in t
    ensures var m := Replayed(t, items, newIds, n, base);
            newIds[i] in m && m[newIds[i]] == items[i].content
  {
    if i < n - 1 {
      ReplayedCreated(t, items, newIds, n - 1, base, i);
    }
  }

  // ----- the redo law -----

  /** Item `j` is the last to name the row. */
  predicate LastNamed(items: seq<Item>, j: nat, id: Id) {
    && j < |items| && HasId(items[j]) && items[j].id.value == id
    && forall k :: j < k < |items| && HasId(items[k]) ==> items[k].id.value != id
  }

  /** The last item to name the row asks for its stored content, and an earlier one for another. */
  ghost predicate TakenBack(t: Table, items: seq<Item>, id: Id) {
    exists i: nat, j: nat :: i < j && LastNamed(items, j, id) && Changes(t, items[i], id) && !Changes(t, items[j], id)
  }

  lemma KeptContent(t: Table, testCaseId: Id, items: seq<Item>, newIds: seq<Id>, id: Id) returns (last: nat)
    requires FreshIds(t, items, newIds) && IdsExist(t, testCaseId, items)
    requires BelongsTo(t, testCaseId, id) && id in RequestIds(items)
    ensures LastNamed(items, last, id)
    ensures var u := SyncedTable(t, testCaseId, items, newIds);
            id in u && u[id] == Row(testCaseId, items[last].content, IndexToOrderKey(last))
  {
    UpsertedAt(AfterDeletes(t, testCaseId, items), testCaseId, items, newIds, |items|, id);
    var i :| 0 <= i < |items| && HasId(items[i]) && items[i].id.value == id;
    assert TargetId(items, newIds, i) == id;
    last := LastWriter(items, newIds, |items|, id).value;
    forall k | last < k < |items| && HasId(items[k]) ensures items[k].id.value != id {
      assert TargetId(items, newIds, k) != id;
    }
  }

  lemma TakenBackByLast(t: Table, items: seq<Item>, last: nat, id: Id)
    requires LastNamed(items, last, id) && TakenBack(t, items, id)
    ensures !Changes(t, items[last], id) && exists i: nat :: i < last && Changes(t, items[i], id)
  {
    var i: nat, j: nat :| i < j && LastNamed(items, j, id) && Changes(t, items[i], id) && !Changes(t, items[j], id);
    assert j == last;
  }

  /** The last change of a row is what the last item to name it asks for, unless that item takes it back. */
  lemma LastChangeIff(t: Table, items: seq<Item>, last: nat, id: Id)
    requires LastNamed(items, last, id) && id in t
    ensures var k := LastChange(t, items, |items|, id);
            (items[last].content == if k.Some? then items[k.value].content else t[id].content)
            <==> !TakenBack(t, items, id)
  {
    var k := LastChange(t, items, |items|, id);
    if Changes(t, items[last], id) {
      assert k.value == last;
      if TakenBack(t, items, id) {
        TakenBackByLast(t, items, last, id);
      }
    } else if k.Some? {
      assert k.value < last && LastNamed(items, last, id) && Changes(t, items[k.value], id);
    } else if TakenBack(t, items, id) {
      TakenBackByLast(t, items, last, id);
    }
  }

  lemma KeptReplayedIff(t: Table, testCaseId: Id, items: seq<Item>, newIds: seq<Id>, base: map<Id, string>, id: Id)
    requires FreshIds(t, items, newIds) && IdsExist(t, testCaseId, items)
    requires BelongsTo(t, testCaseId, id) && id in RequestIds(items)
    requires id in base && base[id] == t[id].content
    ensures var m, u := Replayed(t, items, newIds, |items|, base), SyncedTable(t, testCaseId, items, newIds);
            id in m && id in u && (m[id] == u[id].content <==> !TakenBack(t, items, id))
  {
    var last := KeptContent(t, testCaseId, items, newIds, id);
    LastChangeIff(t, items, last, id);
    ReplayedKept(t, items, newIds, |items|, base, id);
  }

  lemma CreatedContent(t: Table, testCaseId: Id, items: seq<Item>, newIds: seq<Id>, i: nat)
    requires FreshIds(t, items, newIds) && IdsExist(t, testCaseId, items) && i < |items| && !HasId(items[i])
    ensures var u := SyncedTable(t, testCaseId, items, newIds);
            newIds[i] in u && u[newIds[i]] == Row(testCaseId, items[i].content, IndexToOrderKey(i))
  {
    UpsertedAt(AfterDeletes(t, testCaseId, items), testCaseId, items, newIds, |items|, newIds[i]);
    assert TargetId(items, newIds, i) == newIds[i];
    forall j | 0 <= j < |items| && j != i ensures TargetId(items, newIds, j) != newIds[i] {
      if HasId(items[j]) {
        assert BelongsTo(t, testCaseId, items[j].id.value);
      }
    }
  }

  lemma SyncedKeys(t: Table, testCaseId: Id, items: seq<Item>, newIds: seq<Id>)
    requires FreshIds(t, items, newIds) && IdsExist(t, testCaseId, items)
    ensures ContentMap(SyncedTable(t, testCaseId, items, newIds), testCaseId).Keys
         == ContentMap(AfterDeletes(t, testCaseId, items), testCaseId).Keys + CreatedIds(items, newIds, |items|)
  {
    var u := SyncedTable(t, testCaseId, items, newIds);
    forall id ensures BelongsTo(u, testCaseId, id) <==>
      BelongsTo(AfterDeletes(t, testCaseId, items), testCaseId, id) || id in CreatedIds(items, newIds, |items|)
    {
      SyncedRowIds(t, testCaseId, items, newIds, id);
      var list := Ids(Target(items, newIds));
      assert forall i :: 0 <= i < |items| ==> list[i] == TargetId(items, newIds, i);
      if id in RequestIds(items) {
        var i :| 0 <= i < |items| && HasId(items[i]) && items[i].id.value == id;
        assert list[i] == id;
      }
      if id in CreatedIds(items, newIds, |items|) {
        var i :| 0 <= i < |items| && !HasId(items[i]) && newIds[i] == id;
        assert list[i] == id;
      }
    }
  }

  lemma RowReplayedIff(t: Table, testCaseId: Id, items: seq<Item>, newIds: seq<Id>, id: Id)
    requires FreshIds(t, items, newIds) && IdsExist(t, testCaseId, items)
    requires id in ContentMap(SyncedTable(t, testCaseId, items, newIds), testCaseId)
    ensures var m := Replayed(t, items, newIds, |items|, ContentMap(AfterDeletes(t, testCaseId, items), testCaseId));
            id in m &&
            (m[id] == ContentMap(SyncedTable(t, testCaseId, items, newIds), testCaseId)[id] <==> !TakenBack(t, items, id))
  {
    var base := ContentMap(AfterDeletes(t, testCaseId, items), testCaseId);
    SyncedKeys(t, testCaseId, items, newIds);
    if id in base {
      KeptReplayedIff(t, testCaseId, items, newIds, base, id);
    } else {
      var i :| 0 <= i < |items| && !HasId(items[i]) && newIds[i] == id;
      CreatedContent(t, testCaseId, items, newIds, i);
      ReplayedCreated(t, items, newIds, |items|, base, i);
    }
  }

  lemma OnlyKeptTakenBack(t: Table, testCaseId: Id, items: seq<Item>, newIds: seq<Id>, id: Id)
    requires FreshIds(t, items, newIds) && IdsExist(t, testCaseId, items) && TakenBack(t, items, id)
    ensures id in ContentMap(SyncedTable(t, testCaseId, items, newIds), testCaseId)
  {
    var i: nat, j: nat :| i < j && LastNamed(items, j, id) && Changes(t, items[i], id) && !Changes(t, items[j], id);
    assert id in RequestIds(items);
    var last := KeptContent(t, testCaseId, items, newIds, id);
  }

  /**
    Replaying the entries of a sync, oldest first, on the old contents gives the new contents if and
    only if no item takes back what an earlier item with its id asked for: the sync compares each item
    with the row as it was before, so nothing is recorded of the taking back.
   */
  lemma SyncRedoIff(t: Table, testCaseId: Id, listing: seq<Id>, items: seq<Item>, newIds: seq<Id>)
    requires FreshIds(t, items, newIds) && IdsExist(t, testCaseId, items)
    requires Enumerates(listing, RowIds(t, testCaseId))
    ensures RedoAllOnMap(ContentMap(t, testCaseId), SyncDetails(t, listing, items, newIds))
         == ContentMap(SyncedTable(t, testCaseId, items, newIds), testCaseId)
       <==> forall id :: !TakenBack(t, items, id)
  {
    var base := ContentMap(AfterDeletes(t, testCaseId, items), testCaseId);
    var m, after := Replayed(t, items, newIds, |items|, base), ContentMap(SyncedTable(t, testCaseId, items, newIds), testCaseId);
    DeletesReplayed(t, testCaseId, listing, items, newIds);
    KeptIds(t, testCaseId, items);
    ReplayedKeys(t, items, newIds, |items|, base);
    SyncedKeys(t, testCaseId, items, newIds);
    forall id | id in after ensures m[id] == after[id] <==> !TakenBack(t, items, id) {
      RowReplayedIff(t, testCaseId, items, newIds, id);
    }
    forall id | TakenBack(t, items, id) ensures id in after {
      OnlyKeptTakenBack(t, testCaseId, items, newIds, id);
    }
  }

  lemma DroppedContents(t: Table, testCaseId: Id, listing: seq<Id>, items: seq<Item>)
    requires Enumerates(listing, RowIds(t, testCaseId))
    ensures ContentMap(t, testCaseId) - (set id | id in DroppedIds(listing, RequestIds(items)))
         == ContentMap(AfterDeletes(t, testCaseId, items), testCaseId)
  {
    DroppedIdsFacts(listing, RequestIds(items));
  }

  lemma DeletesReplayed(t: Table, testCaseId: Id, listing: seq<Id>, items: seq<Item>, newIds: seq<Id>)
    requires |items| == |newIds| && Enumerates(listing, RowIds(t, testCaseId))
    ensures RedoAllOnMap(ContentMap(t, testCaseId), SyncDetails(t, listing, items, newIds))
         == Replayed(t, items, newIds, |items|, ContentMap(AfterDeletes(t, testCaseId, items), testCaseId))
  {
    var dropped := DroppedIds(listing, RequestIds(items));
    DroppedIdsFacts(listing, RequestIds(items));
    DeletesAreReplayed(t, dropped, ContentMap(t, testCaseId));
    RedoAllOnMapConcat(ContentMap(t, testCaseId), DeleteDetails(t, dropped), UpsertDetails(t, items, newIds, |items|));
    ReplayedIsRedo(t, items, newIds, |items|, ContentMap(AfterDeletes(t, testCaseId, items), testCaseId));
    DroppedContents(t, testCaseId, listing, items);
  }

  /** The stored step "old" is asked to become "new" and then "old" again: only the first is recorded. */
  lemma TakingBackIsNotReplayed()
    ensures var t := map["s1" := Row("tc", "old", IndexToOrderKey(0))];
            var items, newIds := [Item(Some("s1"), "new"), Item(Some("s1"), "old")], ["n1", "n2"];
            && FreshIds(t, items, newIds) && IdsExist(t, "tc", items) && Enumerates(["s1"], RowIds(t, "tc"))
            && TakenBack(t, items, "s1")
            && RedoAllOnMap(ContentMap(t, "tc"), SyncDetails(t, ["s1"], items, newIds))
                 != ContentMap(SyncedTable(t, "tc", items, newIds), "tc")
  {
    var t := map["s1" := Row("tc", "old", IndexToOrderKey(0))];
    var items, newIds := [Item(Some("s1"), "new"), Item(Some("s1"), "old")], ["n1", "n2"];
    var i: nat, j: nat := 0, 1;
    assert i < j && LastNamed(items, j, "s1") && Changes(t, items[i], "s1") && !Changes(t, items[j], "s1");
    assert TakenBack(t, items, "s1");
    SyncRedoIff(t, "tc", ["s1"], items, newIds);
  }

  /** Naming no row twice takes nothing back. */
  lemma DistinctTakesNothingBack(t: Table, items: seq<Item>)
    requires IdsDistinct(items)
    ensures forall id :: !TakenBack(t, items, id)
  {
  }

  // ----- reading one entry -----

  /** What an entry says of the tables before and after: an added row as it was stored, a deleted one as it was. */
  predicate Tells(t: Table, u: Table, testCaseId: Id, detail: ChangeDetail) {
    match detail
    case Added(id, content, orderKey) => id !in t && id in u && u[id] == Row(testCaseId, content, orderKey)
    case Updated(id, before, after) =>
      id in t && id in u && t[id] == Row(testCaseId, before, t[id].orderKey) && u[id].testCaseId == testCaseId
      && before != after
    case Deleted(id, content, orderKey) => id in t && id !in u && t[id] == Row(testCaseId, content, orderKey)
    case Reordered(_, _) => false
  }

  lemma {:induction false} UpsertDetailAt(t: Table, items: seq<Item>, newIds: seq<Id>, n: nat, k: nat) returns (i: nat)
    requires n <= |items| == |newIds| && k < |UpsertDetails(t, items, newIds, n)|
    ensures i < n && UpsertDetail(t, items, newIds, i) == [UpsertDetails(t, items, newIds, n)[k]]
    decreases n
  {
    var older := UpsertDetails(t, items, newIds, n - 1);
    if k < |older| {
      i := UpsertDetailAt(t, items, newIds, n - 1, k);
    } else {
      i := n - 1;
    }
  }

  lemma UpsertTells(t: Table, testCaseId: Id, items: seq<Item>, newIds: seq<Id>, i: nat, detail: ChangeDetail)
    requires FreshIds(t, items, newIds) && IdsExist(t, testCaseId, items) && i < |items|
    requires UpsertDetail(t, items, newIds, i) == [detail]
    ensures Tells(t, SyncedTable(t, testCaseId, items, newIds), testCaseId, detail)
    ensures detail.Updated? && IdsDistinct(items) ==>
              SyncedTable(t, testCaseId, items, newIds)[detail.id].content == detail.after
  {
    if HasId(items[i]) {
      var id := items[i].id.value;
      assert BelongsTo(t, testCaseId, id) && id in RequestIds(items);
      var last := KeptContent(t, testCaseId, items, newIds, id);
      assert IdsDistinct(items) ==> last == i;
    } else {
      CreatedContent(t, testCaseId, items, newIds, i);
    }
  }

  lemma DeleteTells(t: Table, testCaseId: Id, listing: seq<Id>, items: seq<Item>, newIds: seq<Id>, id: Id)
    requires FreshIds(t, items, newIds) && IdsExist(t, testCaseId, items)
    requires Enumerates(listing, RowIds(t, testCaseId)) && id in DroppedIds(listing, RequestIds(items))
    ensures id in t && Tells(t, SyncedTable(t, testCaseId, items, newIds), testCaseId, Deleted(id, t[id].content, t[id].orderKey))
  {
    DroppedIdsFacts(listing, RequestIds(items));
    UpsertedAt(AfterDeletes(t, testCaseId, items), testCaseId, items, newIds, |items|, id);
    forall i | 0 <= i < |items| ensures TargetId(items, newIds, i) != id {
      if HasId(items[i]) {
        assert items[i].id.value in RequestIds(items);
      }
    }
  }

  /** Each entry of a sync is true of the tables, and of an accepted list of distinct ids in its new content too. */
  lemma EntriesTell(t: Table, testCaseId: Id, listing: seq<Id>, items: seq<Item>, newIds: seq<Id>, k: nat)
    requires FreshIds(t, items, newIds) && IdsExist(t, testCaseId, items)
    requires Enumerates(listing, RowIds(t, testCaseId)) && k < |SyncDetails(t, listing, items, newIds)|
    ensures var u, detail := SyncedTable(t, testCaseId, items, newIds), SyncDetails(t, listing, items, newIds)[k];
            && Tells(t, u, testCaseId, detail)
            && (detail.Updated? && IdsDistinct(items) ==> u[detail.id].content == detail.after)
  {
    var dropped := DroppedIds(listing, RequestIds(items));
    DroppedIdsFacts(listing, RequestIds(items));
    if k < |dropped| {
      DeleteTells(t, testCaseId, listing, items, newIds, dropped[k]);
    } else {
      var i := UpsertDetailAt(t, items, newIds, |items|, k - |dropped|);
      UpsertTells(t, testCaseId, items, newIds, i, SyncDetails(t, listing, items, newIds)[k]);
    }
  }
}
