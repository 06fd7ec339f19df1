/**
  The ordered list of children (preconditions, steps or expected results) of one test case, the
  change details its history records, and how a detail is undone.
 */
module ChildLists {
  import opened Wrappers
  import opened Orders
  import opened OrderKeys

  type Id = string

  datatype Child = Child(id: Id, content: string)

  /** `changeDetail` of a history row; PRECONDITION_ADD, STEP_ADD and so on share one shape. */
  datatype ChangeDetail =
    | Added(id: Id, content: string, orderKey: string)
    | Updated(id: Id, before: string, after: string)
    | Deleted(id: Id, content: string, orderKey: string)
    | Reordered(beforeIds: seq<Id>, afterIds: seq<Id>)

  datatype Op =
    | Add(content: string, newId: Id)
    | Update(id: Id, content: string)
    | Delete(id: Id)
    | Reorder(ids: seq<Id>)

  function Ids(list: seq<Child>): (ids: seq<Id>)
    ensures |ids| == |list| && forall i :: 0 <= i < |list| ==> ids[i] == list[i].id
  {
    seq(|list|, i requires 0 <= i < |list| => list[i].id)
  }

  /** The position of `id`, or |list| when it is absent. */
  function IndexOf(list: seq<Child>, id: Id): (i: nat)
    ensures i <= |list|
    ensures i < |list| ==> list[i].id == id
    ensures forall k :: 0 <= k < i ==> list[k].id != id
  {
    if list == [] || list[0].id == id then 0 else 1 + IndexOf(list[1..], id)
  }

  function ContentOf(list: seq<Child>, id: Id): string {
    var i := IndexOf(list, id);
    if i < |list| then list[i].content else ""
  }

  function Remove(list: seq<Child>, id: Id): seq<Child> {
    var i := IndexOf(list, id);
    if i < |list| then list[..i] + list[i + 1..] else list
  }

  function SetContent(list: seq<Child>, id: Id, content: string): seq<Child> {
    var i := IndexOf(list, id);
    if i < |list| then list[i := Child(id, content)] else list
  }

  function InsertAt(list: seq<Child>, i: int, child: Child): seq<Child> {
    if 0 <= i <= |list| then list[..i] + [child] + list[i..] else list
  }

  /** The children named by `ids`, in that order. */
  function Arrange(list: seq<Child>, ids: seq<Id>): (r: seq<Child>)
    ensures |r| == |ids| && forall i :: 0 <= i < |ids| ==> r[i] == Child(ids[i], ContentOf(list, ids[i]))
  {
    seq(|ids|, i requires 0 <= i < |ids| => Child(ids[i], ContentOf(list, ids[i])))
  }

  predicate Permutes(ids: seq<Id>, current: seq<Id>) {
    Distinct(ids) && |ids| == |current| && forall id :: id in ids ==> id in current
  }

  /** What an accepted call does to the list, and the change details it records. */
  function Apply(list: seq<Child>, op: Op): (seq<Child>, seq<ChangeDetail>) {
    match op
    case Add(content, newId) =>
      (list + [Child(newId, content)], [Added(newId, content, IndexToOrderKey(|list|))])
    case Update(id, content) =>
      var i := IndexOf(list, id);
      if i == |list| || list[i].content == content then (list, [])
      else (SetContent(list, id, content), [Updated(id, list[i].content, content)])
    case Delete(id) =>
      var i := IndexOf(list, id);
      if i == |list| then (list, [])
      else (Remove(list, id), [Deleted(id, list[i].content, IndexToOrderKey(i))])
    case Reorder(ids) =>
      if !Permutes(ids, Ids(list)) || ids == Ids(list) then (list, [])
      else (Arrange(list, ids), [Reordered(Ids(list), ids)])
  }

  lemma ApplyReorder(list: seq<Child>, ids: seq<Id>)
    requires Permutes(ids, Ids(list)) && ids != Ids(list)
    ensures Apply(list, Reorder(ids)) == (Arrange(list, ids), [Reordered(Ids(list), ids)])
  {
  }

  predicate FreshFor(list: seq<Child>, op: Op) {
    op.Add? ==> op.newId !in Ids(list)
  }

  /** Undo one change from the current list and the recorded detail alone. */
  function Undo(list: seq<Child>, detail: ChangeDetail): seq<Child> {
    match detail
    case Added(id, _, _) => Remove(list, id)
    case Updated(id, before, _) => SetContent(list, id, before)
    case Deleted(id, content, orderKey) =>
      (match ParseInt(orderKey)
       case None => list
       case Some(n) => InsertAt(list, n - 1, Child(id, content)))
    case Reordered(beforeIds, _) => Arrange(list, beforeIds)
  }

  /** Undo the newest detail first. */
  function UndoAll(list: seq<Child>, details: seq<ChangeDetail>): seq<Child>
    decreases |details|
  {
    if details == [] then list
    else UndoAll(Undo(list, details[|details| - 1]), details[..|details| - 1])
  }

  /** Do one change again, on the list it was made on, from the recorded detail alone. */
  function Redo(list: seq<Child>, detail: ChangeDetail): seq<Child> {
    match detail
    case Added(id, content, _) => list + [Child(id, content)]
    case Updated(id, _, after) => SetContent(list, id, after)
    case Deleted(id, _, _) => Remove(list, id)
    case Reordered(_, afterIds) => Arrange(list, afterIds)
  }

  /** Redo the oldest detail first. */
  function RedoAll(list: seq<Child>, details: seq<ChangeDetail>): seq<Child>
    decreases |details|
  {
    if details == [] then list
    else Redo(RedoAll(list, details[..|details| - 1]), details[|details| - 1])
  }

  // ----- lookups in duplicate-free lists -----

  lemma IndexOfAt(list: seq<Child>, i: nat)
    requires Distinct(Ids(list)) && i < |list|
    ensures IndexOf(list, list[i].id) == i
  {
    var k := IndexOf(list, list[i].id);
    assert k <= i;
    assert Ids(list)[k] == list[k].id == list[i].id == Ids(list)[i];
  }

  lemma IndexOfAbsent(list: seq<Child>, id: Id)
    ensures id !in Ids(list) <==> IndexOf(list, id) == |list|
  {
    var k := IndexOf(list, id);
    if k < |list| {
      assert Ids(list)[k] == id;
    }
    if id in Ids(list) {
      var j :| 0 <= j < |list| && Ids(list)[j] == id;
      assert list[j].id == id;
    }
  }

  lemma ArrangeByOwnIds(list: seq<Child>, other: seq<Child>)
    requires Distinct(Ids(list))
    requires forall i :: 0 <= i < |list| ==> ContentOf(other, list[i].id) == list[i].content
    ensures Arrange(other, Ids(list)) == list
  {
    forall i | 0 <= i < |list| ensures Arrange(other, Ids(list))[i] == list[i] {
      assert Ids(list)[i] == list[i].id;
    }
  }

  // ----- one step -----

  lemma AddKeepsIdsDistinct(list: seq<Child>, child: Child)
    requires Distinct(Ids(list)) && child.id !in Ids(list)
    ensures Distinct(Ids(list + [child]))
  {
    assert Ids(list + [child]) == Ids(list) + [child.id];
  }

  lemma RemoveKeepsIdsDistinct(list: seq<Child>, k: nat)
    requires Distinct(Ids(list)) && k < |list|
    ensures Distinct(Ids(list[..k] + list[k + 1..]))
  {
    var next := list[..k] + list[k + 1..];
    forall i, j | 0 <= i < j < |next| ensures Ids(next)[i] != Ids(next)[j] {
      var i', j' := if i < k then i else i + 1, if j < k then j else j + 1;
      assert Ids(next)[i] == Ids(list)[i'] && Ids(next)[j] == Ids(list)[j'];
    }
  }

  lemma ApplyKeepsIdsDistinct(list: seq<Child>, op: Op)
    requires Distinct(Ids(list)) && FreshFor(list, op)
    ensures Distinct(Ids(Apply(list, op).0))
  {
    match op
    case Add(content, newId) =>
      AddKeepsIdsDistinct(list, Child(newId, content));
    case Update(id, content) =>
      assert Ids(SetContent(list, id, content)) == Ids(list);
    case Delete(id) =>
      if IndexOf(list, id) < |list| {
        RemoveKeepsIdsDistinct(list, IndexOf(list, id));
      }
    case Reorder(ids) =>
      assert Ids(Arrange(list, ids)) == ids;
  }

  /** The recorded detail undoes the change, and a call that changes nothing records nothing. */
  lemma UndoStep(list: seq<Child>, op: Op)
    requires Distinct(Ids(list)) && FreshFor(list, op)
    ensures var (next, details) := Apply(list, op);
            && UndoAll(next, details) == list
            && (details == [] <==> next == list)
            && |details| <= 1
  {
    var (next, details) := Apply(list, op);
    if details != [] {
      assert details[..0] == [];
      assert UndoAll(next, details) == Undo(next, details[0]);
      match op
      case Add(content, newId) =>
        UndoAdd(list, content, newId);
      case Update(id, content) =>
        UndoUpdate(list, id, content);
      case Delete(id) =>
        IndexToOrderKeyParses(IndexOf(list, id));
        UndoDelete(list, id);
      case Reorder(ids) =>
        UndoReorder(list, ids);
    }
  }

  lemma UndoAdd(list: seq<Child>, content: string, newId: Id)
    requires Distinct(Ids(list)) && newId !in Ids(list)
    ensures Remove(list + [Child(newId, content)], newId) == list
  {
    var next := list + [Child(newId, content)];
    ApplyKeepsIdsDistinct(list, Add(content, newId));
    IndexOfAt(next, |list|);
  }

  lemma UndoUpdate(list: seq<Child>, id: Id, content: string)
    requires Distinct(Ids(list))
    requires IndexOf(list, id) < |list| && ContentOf(list, id) != content
    ensures SetContent(SetContent(list, id, content), id, ContentOf(list, id)) == list
    ensures SetContent(list, id, content) != list
  {
    var i := IndexOf(list, id);
    var next := SetContent(list, id, content);
    assert next[i].content != list[i].content;
    ApplyKeepsIdsDistinct(list, Update(id, content));
    IndexOfAt(next, i);
  }

  lemma UndoDelete(list: seq<Child>, id: Id)
    requires IndexOf(list, id) < |list|
    ensures var i := IndexOf(list, id);
            InsertAt(Remove(list, id), i, Child(id, list[i].content)) == list
    ensures Remove(list, id) != list
  {
    var i := IndexOf(list, id);
    RemoveThenInsert(list, i);
    assert Child(id, list[i].content) == list[i];
  }

  lemma RemoveThenInsert(list: seq<Child>, i: nat)
    requires i < |list|
    ensures var next := list[..i] + list[i + 1..];
            next != list && InsertAt(next, i, list[i]) == list
  {
    var next := list[..i] + list[i + 1..];
    assert |next| != |list|;
    assert next[..i] == list[..i];
    assert next[i..] == list[i + 1..];
  }

  lemma UndoReorder(list: seq<Child>, ids: seq<Id>)
    requires Distinct(Ids(list))
    requires Permutes(ids, Ids(list)) && ids != Ids(list)
    ensures Arrange(Arrange(list, ids), Ids(list)) == list
    ensures Arrange(list, ids) != list
  {
    var next := Arrange(list, ids);
    assert Ids(next) == ids;
    Pigeonhole(ids, Ids(list));
    forall i | 0 <= i < |list| ensures ContentOf(next, list[i].id) == list[i].content {
      IndexOfAt(list, i);
      assert Ids(list)[i] in ids;
      var k :| 0 <= k < |ids| && ids[k] == list[i].id;
      IndexOfAt(next, k);
    }
    ArrangeByOwnIds(list, next);
  }

  lemma {:induction false} UndoAllConcat(list: seq<Child>, older: seq<ChangeDetail>, newer: seq<ChangeDetail>)
    ensures UndoAll(list, older + newer) == UndoAll(UndoAll(list, newer), older)
    decreases |newer|
  {
    if newer == [] {
      assert older + newer == older;
    } else {
      var n := |newer| - 1;
      assert (older + newer)[..|older + newer| - 1] == older + newer[..n];
      UndoAllConcat(Undo(list, newer[n]), older, newer[..n]);
    }
  }

  /** The recorded detail says what the call did. */
  lemma RedoStep(list: seq<Child>, op: Op, before: seq<Child>, older: seq<ChangeDetail>)
    requires RedoAll(before, older) == list
    ensures RedoAll(before, older + Apply(list, op).1) == Apply(list, op).0
  {
    var details := Apply(list, op).1;
    if details == [] {
      assert older + details == older;
    } else {
      assert details == [details[0]];
      assert (older + details)[..|older|] == older;
    }
  }
}
