/**
  The grouped change history of a test case or test suite: SQL selects one page of groups and
  their rows, and a loop rebuilds groups and categories from the rows.
 */
module GroupedHistories {
  import opened Wrappers
  import opened Orders
  import opened RankedPages

  datatype Owner = OfTestCase | OfTestSuite

  datatype Category = BasicInfo | Preconditions | Steps | ExpectedResults

  /** A history row; `detailType` is `snapshot.changeDetail?.type`. */
  datatype Record = Record(id: Id, detailType: Option<string>, groupId: Option<Id>, createdAt: int)

  predicate StartsWith(s: string, prefix: string) {
    prefix <= s
  }

  function GetCategory(owner: Owner, h: Record): Category {
    if h.detailType.None? || h.detailType.value == "" then BasicInfo
    else
      var t := h.detailType.value;
      if StartsWith(t, "PRECONDITION_") then Preconditions
      else if owner.OfTestCase? && StartsWith(t, "STEP_") then Steps
      else if owner.OfTestCase? && StartsWith(t, "EXPECTED_RESULT_") then ExpectedResults
      else BasicInfo
  }

  /** `COALESCE(group_id, id)`, and `history.groupId ?? history.id` in the loop. */
  function EffectiveGroup(h: Record): Id {
    match h.groupId
    case None => h.id
    case Some(g) => g
  }

  // ----- the query -----

  function GroupIds(rows: set<Record>): set<Id> {
    set h | h in rows :: EffectiveGroup(h)
  }

  function Members(rows: set<Record>, g: Id): set<Record> {
    set h | h in rows && EffectiveGroup(h) == g
  }

  /** `ORDER BY created_at DESC` */
  function NewerRecord(): (Record, Record) -> bool {
    (a: Record, b: Record) => a.createdAt > b.createdAt
  }

  /** `MAX(created_at)` */
  ghost function LatestOf(rows: set<Record>): (t: int)
    requires rows != {}
    ensures exists h :: h in rows && h.createdAt == t
    ensures forall h :: h in rows ==> h.createdAt <= t
  {
    NewestExists(rows);
    var newest :| newest in rows && forall h :: h in rows ==> h.createdAt <= newest.createdAt;
    newest.createdAt
  }

  lemma NewestExists(rows: set<Record>)
    requires rows != {}
    ensures exists newest :: newest in rows && forall h :: h in rows ==> h.createdAt <= newest.createdAt
  {
    var newest := MinimalExists(rows, NewerRecord());
    assert forall h :: h in rows ==> !NewerRecord()(h, newest);
  }

  ghost function Latest(rows: set<Record>, g: Id): int
    requires g in GroupIds(rows)
  {
    MembersNonempty(rows, g);
    LatestOf(Members(rows, g))
  }

  lemma MembersNonempty(rows: set<Record>, g: Id)
    requires g in GroupIds(rows)
    ensures Members(rows, g) != {}
  {
    var h :| h in rows && EffectiveGroup(h) == g;
    assert h in Members(rows, g);
  }

  /** Some row of `a` is newer than every row of `b`. */
  predicate HasNewer(rows: set<Record>, a: Id, b: Id) {
    exists h :: h in rows && EffectiveGroup(h) == a &&
      forall k :: k in rows && EffectiveGroup(k) == b ==> k.createdAt < h.createdAt
  }

  /** `ORDER BY MAX(created_at) DESC` */
  function NewerGroup(rows: set<Record>): (Id, Id) -> bool {
    (a, b) => HasNewer(rows, a, b)
  }

  lemma NewerGroupIsLatest(rows: set<Record>, a: Id, b: Id)
    requires a in GroupIds(rows) && b in GroupIds(rows)
    ensures HasNewer(rows, a, b) <==> Latest(rows, a) > Latest(rows, b)
  {
    var ha :| ha in Members(rows, a) && ha.createdAt == Latest(rows, a);
    var hb :| hb in Members(rows, b) && hb.createdAt == Latest(rows, b);
    if Latest(rows, a) > Latest(rows, b) {
      assert forall k :: k in rows && EffectiveGroup(k) == b ==> k in Members(rows, b);
    }
    if HasNewer(rows, a, b) {
      var h :| h in rows && EffectiveGroup(h) == a &&
        forall k :: k in rows && EffectiveGroup(k) == b ==> k.createdAt < h.createdAt;
      assert h in Members(rows, a);
    }
  }

  lemma NewerGroupIsOrder(rows: set<Record>)
    ensures StrictOrder(NewerGroup(rows))
  {
    var less := NewerGroup(rows);
    forall x, y, z | HasNewer(rows, x, y) && HasNewer(rows, y, z) ensures HasNewer(rows, x, z) {
      var h :| h in rows && EffectiveGroup(h) == x &&
        forall k :: k in rows && EffectiveGroup(k) == y ==> k.createdAt < h.createdAt;
      var h' :| h' in rows && EffectiveGroup(h') == y &&
        forall k :: k in rows && EffectiveGroup(k) == z ==> k.createdAt < h'.createdAt;
      assert h'.createdAt < h.createdAt;
    }
  }

  ghost predicate IsGroupOrder(rows: set<Record>, order: seq<Id>) {
    OrderedBy(order, GroupIds(rows), NewerGroup(rows))
  }

  /** The join of the rows with the selected groups. */
  function RowsOfGroups(rows: set<Record>, groups: seq<Id>): set<Record> {
    set h | h in rows && EffectiveGroup(h) in groups
  }

  /** `selected` are, newest first, all rows of the groups that `order` puts on the page. */
  ghost predicate IsSelected(rows: set<Record>, limit: nat, offset: nat, order: seq<Id>, selected: seq<Record>) {
    && IsGroupOrder(rows, order)
    && OrderedBy(selected, RowsOfGroups(rows, Slice(order, offset, limit)), NewerRecord())
  }

  method QueryPage(rows: set<Record>, limit: nat, offset: nat) returns (selected: seq<Record>)
    ensures exists order :: IsSelected(rows, limit, offset, order, selected)
    ensures forall h :: h in selected ==> h in rows
    ensures forall h, k :: h in selected && k in rows && h.groupId.Some? && k.groupId == h.groupId ==> k in selected
  {
    NewerGroupIsOrder(rows);
    var groups := OrderBy(GroupIds(rows), NewerGroup(rows));
    var page := Slice(groups, offset, limit);
    selected := OrderBy(RowsOfGroups(rows, page), NewerRecord());
    assert IsSelected(rows, limit, offset, groups, selected);
    forall h, k | h in selected && k in rows && h.groupId.Some? && k.groupId == h.groupId ensures k in selected {
      assert h in RowsOfGroups(rows, page) && k in RowsOfGroups(rows, page);
    }
  }

  // ----- the loop over the selected rows -----

  datatype Item = Item(groupId: Option<Id>, histories: map<Category, seq<Record>>, createdAt: int)

  /** The record is in one of the item's lists. */
  ghost predicate Shows(item: Item, h: Record) {
    exists c :: c in item.histories && h in item.histories[c]
  }

  function Rows(rows: seq<Record>): set<Record> {
    set h | h in rows
  }

  /** Record ids are distinct, and none is a group id. */
  ghost predicate Separate(rows: set<Record>) {
    && (forall h, k :: h in rows && k in rows && h.id == k.id ==> h == k)
    && (forall h, k :: h in rows && k in rows ==> k.groupId != Some(h.id))
  }

  /** Which records share an item: those of one group id, and an ungrouped record none. */
  ghost predicate SharesItem(h: Record, k: Record) {
    if h.groupId.Some? then k.groupId == h.groupId else k == h
  }

  /** The list of each category holds what its name says; a test suite has no steps and no expected results. */
  predicate Categorised(owner: Owner, h: Record, c: Category) {
    var t := if h.detailType.Some? then h.detailType.value else "";
    match c
    case Preconditions => "PRECONDITION_" <= t
    case Steps => owner.OfTestCase? && "STEP_" <= t
    case ExpectedResults => owner.OfTestCase? && "EXPECTED_RESULT_" <= t
    case BasicInfo => !("PRECONDITION_" <= t) && (owner.OfTestSuite? || (!("STEP_" <= t) && !("EXPECTED_RESULT_" <= t)))
  }

  lemma CategorisedIff(owner: Owner, h: Record, c: Category)
    ensures Categorised(owner, h, c) <==> GetCategory(owner, h) == c
  {
    var t := if h.detailType.Some? then h.detailType.value else "";
    assert "PRECONDITION_" <= t ==> t[0] == 'P';
    assert "STEP_" <= t ==> t[0] == 'S';
    assert "EXPECTED_RESULT_" <= t ==> t[0] == 'E';
  }

  lemma SharesItemIff(rows: set<Record>, h: Record, k: Record)
    requires Separate(rows) && h in rows && k in rows
    ensures EffectiveGroup(h) == EffectiveGroup(k) <==> SharesItem(h, k)
  {
  }

  /** The groups of `rows` in the order of their first row. */
  function FirstSeen(rows: seq<Record>): seq<Id> {
    if rows == [] then []
    else
      var before, g := FirstSeen(rows[..|rows| - 1]), EffectiveGroup(rows[|rows| - 1]);
      if g in before then before else before + [g]
  }

  function InCategory(owner: Owner, rows: seq<Record>, g: Id, c: Category): seq<Record> {
    if rows == [] then []
    else
      var h := rows[|rows| - 1];
      InCategory(owner, rows[..|rows| - 1], g, c) +
      if EffectiveGroup(h) == g && GetCategory(owner, h) == c then [h] else []
  }

  /** The item rebuilt for group `g` from `rows`. */
  ghost predicate ItemFor(owner: Owner, rows: seq<Record>, g: Id, item: Item) {
    && (forall c: Category :: c in item.histories && item.histories[c] == InCategory(owner, rows, g, c))
    && (exists h :: h in rows && EffectiveGroup(h) == g && h.groupId == item.groupId)
    && (exists h :: h in rows && EffectiveGroup(h) == g && h.createdAt == item.createdAt)
    && (forall h :: h in rows && EffectiveGroup(h) == g ==> h.createdAt <= item.createdAt)
  }

  function EmptyHistories(): map<Category, seq<Record>> {
    map[BasicInfo := [], Preconditions := [], Steps := [], ExpectedResults := []]
  }

  lemma EmptyHistoriesHasAll(c: Category)
    ensures c in EmptyHistories() && EmptyHistories()[c] == []
  {
    match c
    case BasicInfo =>
    case Preconditions =>
    case Steps =>
    case ExpectedResults =>
  }

  function AddRecord(owner: Owner, item: Item, h: Record): Item
    requires GetCategory(owner, h) in item.histories
  {
    var c := GetCategory(owner, h);
    Item(item.groupId, item.histories[c := item.histories[c] + [h]],
         if h.createdAt > item.createdAt then h.createdAt else item.createdAt)
  }

  lemma ItemForSnoc(owner: Owner, rows: seq<Record>, h: Record, g: Id, item: Item)
    requires EffectiveGroup(h) != g && ItemFor(owner, rows, g, item)
    ensures ItemFor(owner, rows + [h], g, item)
  {
    assert (rows + [h])[..|rows|] == rows;
    assert forall k :: k in rows ==> k in rows + [h];
  }

  lemma ItemForAdd(owner: Owner, rows: seq<Record>, h: Record, item: Item)
    requires ItemFor(owner, rows, EffectiveGroup(h), item)
    ensures ItemFor(owner, rows + [h], EffectiveGroup(h), AddRecord(owner, item, h))
  {
    assert (rows + [h])[..|rows|] == rows;
    assert forall k :: k in rows ==> k in rows + [h];
    assert h in rows + [h];
  }

  lemma {:induction false} InCategoryEmpty(owner: Owner, rows: seq<Record>, g: Id, c: Category)
    requires forall h :: h in rows ==> EffectiveGroup(h) != g
    ensures InCategory(owner, rows, g, c) == []
  {
    if rows != [] {
      InCategoryEmpty(owner, rows[..|rows| - 1], g, c);
    }
  }

  lemma ItemForNew(owner: Owner, rows: seq<Record>, h: Record)
    requires forall k :: k in rows ==> EffectiveGroup(k) != EffectiveGroup(h)
    ensures var empty := Item(h.groupId, EmptyHistories(), h.createdAt);
            && GetCategory(owner, h) in empty.histories
            && ItemFor(owner, rows + [h], EffectiveGroup(h), AddRecord(owner, empty, h))
  {
    var g := EffectiveGroup(h);
    forall c: Category ensures c in EmptyHistories() && EmptyHistories()[c] == [] {
      EmptyHistoriesHasAll(c);
    }
    assert (rows + [h])[..|rows|] == rows;
    assert h in rows + [h];
    forall c ensures InCategory(owner, rows, g, c) == [] {
      InCategoryEmpty(owner, rows, g, c);
    }
  }

  lemma {:induction false} FirstSeenMembers(rows: seq<Record>)
    ensures forall g :: g in FirstSeen(rows) <==> exists h :: h in rows && EffectiveGroup(h) == g
    ensures Distinct(FirstSeen(rows))
  {
    if rows != [] {
      var init, last := rows[..|rows| - 1], rows[|rows| - 1];
      FirstSeenMembers(init);
      assert rows == init + [last];
      forall g ensures g in FirstSeen(rows) <==> exists h :: h in rows && EffectiveGroup(h) == g {
        if g in FirstSeen(init) {
          var h :| h in init && EffectiveGroup(h) == g;
          assert h in rows;
        }
        if h :| h in rows && EffectiveGroup(h) == g {
          assert h in init || h == last;
        }
      }
    }
  }

  ghost predicate SeenGroup(rows: seq<Record>, g: Id) {
    exists h :: h in rows && EffectiveGroup(h) == g
  }

  lemma SeenGroupSnoc(rows: seq<Record>, h: Record)
    ensures forall g :: SeenGroup(rows + [h], g) <==> SeenGroup(rows, g) || g == EffectiveGroup(h)
  {
    forall g ensures SeenGroup(rows + [h], g) <==> SeenGroup(rows, g) || g == EffectiveGroup(h) {
      if SeenGroup(rows, g) {
        var k :| k in rows && EffectiveGroup(k) == g;
        assert k in rows + [h];
      }
      assert h in rows + [h];
    }
  }

  lemma {:induction false} InCategoryHas(owner: Owner, rows: seq<Record>, g: Id, c: Category, h: Record)
    ensures h in InCategory(owner, rows, g, c) <==> h in rows && EffectiveGroup(h) == g && GetCategory(owner, h) == c
  {
    if rows != [] {
      InCategoryHas(owner, rows[..|rows| - 1], g, c, h);
      assert rows == rows[..|rows| - 1] + [rows[|rows| - 1]];
    }
  }

  lemma ItemShows(owner: Owner, rows: seq<Record>, g: Id, item: Item, h: Record)
    requires ItemFor(owner, rows, g, item)
    ensures Shows(item, h) <==> h in rows && EffectiveGroup(h) == g
  {
    forall c: Category ensures c in item.histories && (h in item.histories[c] <==>
      h in rows && EffectiveGroup(h) == g && GetCategory(owner, h) == c)
    {
      InCategoryHas(owner, rows, g, c, h);
    }
    if h in rows && EffectiveGroup(h) == g {
      assert h in item.histories[GetCategory(owner, h)];
    }
  }

  /** The record is in the item under its group id, or under its own id when it has none. */
  ghost predicate InItsGroup(groupMap: map<Id, Item>, h: Record) {
    var g := if h.groupId.Some? then h.groupId.value else h.id;
    g in groupMap && Shows(groupMap[g], h)
  }

  ghost predicate MapShowsAll(rows: seq<Record>, groupMap: map<Id, Item>) {
    forall h {:trigger InItsGroup(groupMap, h)} :: h in rows ==> InItsGroup(groupMap, h)
  }

  lemma MapShows(owner: Owner, rows: seq<Record>, groupMap: map<Id, Item>)
    requires forall g :: g in groupMap <==> SeenGroup(rows, g)
    requires forall g :: g in groupMap ==> ItemFor(owner, rows, g, groupMap[g])
    ensures MapShowsAll(rows, groupMap)
  {
    forall h | h in rows
      ensures EffectiveGroup(h) in groupMap && Shows(groupMap[EffectiveGroup(h)], h)
    {
      assert SeenGroup(rows, EffectiveGroup(h));
      ItemShows(owner, rows, EffectiveGroup(h), groupMap[EffectiveGroup(h)], h);
    }
  }

  /** The loop that fills `groupMap`. */
  method BuildGroupMap(owner: Owner, rows: seq<Record>) returns (groupMap: map<Id, Item>)
    ensures forall g :: g in groupMap <==> SeenGroup(rows, g)
    ensures forall g :: g in groupMap ==> ItemFor(owner, rows, g, groupMap[g])
    ensures MapShowsAll(rows, groupMap)
  {
    groupMap := map[];
    for i := 0 to |rows|
      invariant forall g :: g in groupMap <==> SeenGroup(rows[..i], g)
      invariant forall g :: g in groupMap ==> ItemFor(owner, rows[..i], g, groupMap[g])
    {
      var history := rows[i];
      var g := EffectiveGroup(history);
      assert rows[..i + 1] == rows[..i] + [history];
      SeenGroupSnoc(rows[..i], history);
      ghost var before := groupMap;
      var existing;
      if g in groupMap {
        existing := groupMap[g];
        ItemForAdd(owner, rows[..i], history, existing);
      } else {
        existing := Item(history.groupId, EmptyHistories(), history.createdAt);
        ItemForNew(owner, rows[..i], history);
      }
      groupMap := groupMap[g := AddRecord(owner, existing, history)];
      forall x | x in groupMap ensures ItemFor(owner, rows[..i + 1], x, groupMap[x]) {
        if x != g {
          ItemForSnoc(owner, rows[..i], history, x, before[x]);
        }
      }
    }
    assert rows[..|rows|] == rows;
    MapShows(owner, rows, groupMap);
  }

  ghost predicate ShownIn(items: seq<Item>, h: Record) {
    exists k :: 0 <= k < |items| && Shows(items[k], h)
  }

  /** Each record is shown in one item, with the records it shares an item with and no other. */
  ghost predicate GroupedBy(rows: seq<Record>, items: seq<Item>) {
    && (forall h {:trigger ShownIn(items, h)} :: ShownIn(items, h) <==> h in rows)
    && (forall j, k, h, h' {:trigger Shows(items[j], h), Shows(items[k], h')} ::
          0 <= j < |items| && 0 <= k < |items| && Shows(items[j], h) && Shows(items[k], h') ==>
            (j == k <==> SharesItem(h, h')))
  }

  /** The items are those of the groups of `rows`, in the order of their first row. */
  ghost predicate AreItems(owner: Owner, rows: seq<Record>, items: seq<Item>) {
    |items| == |FirstSeen(rows)|
    && forall k {:trigger ItemFor(owner, rows, FirstSeen(rows)[k], items[k])} :: 0 <= k < |items| ==>
         ItemFor(owner, rows, FirstSeen(rows)[k], items[k])
  }

  lemma ShownInIff(owner: Owner, rows: seq<Record>, items: seq<Item>, h: Record)
    requires AreItems(owner, rows, items)
    ensures ShownIn(items, h) <==> h in rows
  {
    var keys := FirstSeen(rows);
    FirstSeenMembers(rows);
    if ShownIn(items, h) {
      var k :| 0 <= k < |items| && Shows(items[k], h);
      assert ItemFor(owner, rows, keys[k], items[k]);
      ItemShows(owner, rows, keys[k], items[k], h);
    }
    if h in rows {
      assert EffectiveGroup(h) in keys;
      var k :| 0 <= k < |keys| && keys[k] == EffectiveGroup(h);
      assert ItemFor(owner, rows, keys[k], items[k]);
      ItemShows(owner, rows, keys[k], items[k], h);
    }
  }

  lemma SharedIff(owner: Owner, rows: seq<Record>, items: seq<Item>, j: nat, k: nat, h: Record, h': Record)
    requires AreItems(owner, rows, items) && j < |items| && k < |items|
    requires Shows(items[j], h) && Shows(items[k], h')
    requires Separate(Rows(rows))
    ensures j == k <==> SharesItem(h, h')
  {
    var keys := FirstSeen(rows);
    FirstSeenMembers(rows);
    assert ItemFor(owner, rows, keys[j], items[j]) && ItemFor(owner, rows, keys[k], items[k]);
    ItemShows(owner, rows, keys[j], items[j], h);
    ItemShows(owner, rows, keys[k], items[k], h');
    SharesItemIff(Rows(rows), h, h');
  }

  lemma ItemsAreGrouped(owner: Owner, rows: seq<Record>, items: seq<Item>)
    requires AreItems(owner, rows, items) && Separate(Rows(rows))
    ensures GroupedBy(rows, items)
  {
    forall h ensures ShownIn(items, h) <==> h in rows {
      ShownInIff(owner, rows, items, h);
    }
    forall j, k, h, h' | 0 <= j < |items| && 0 <= k < |items| && Shows(items[j], h) && Shows(items[k], h')
      ensures j == k <==> SharesItem(h, h')
    {
      SharedIff(owner, rows, items, j, k, h, h');
    }
  }

  /** The items of the groups that have one. */
  method CollectItems(groupMap: map<Id, Item>, targetGroupIds: seq<Id>) returns (items: seq<Item>)
    requires forall g :: g in targetGroupIds ==> g in groupMap
    ensures |items| == |targetGroupIds|
    ensures forall k :: 0 <= k < |items| ==> targetGroupIds[k] in groupMap && items[k] == groupMap[targetGroupIds[k]]
  {
    items := [];
    for k := 0 to |targetGroupIds|
      invariant |items| == k
      invariant forall i :: 0 <= i < k ==> targetGroupIds[i] in groupMap && items[i] == groupMap[targetGroupIds[i]]
    {
      if targetGroupIds[k] in groupMap {
        items := items + [groupMap[targetGroupIds[k]]];
      }
    }
  }

  lemma FirstSeenAreSeen(rows: seq<Record>)
    ensures forall g :: g in FirstSeen(rows) ==> SeenGroup(rows, g)
  {
    FirstSeenMembers(rows);
  }

  lemma CollectedAreItems(owner: Owner, rows: seq<Record>, groupMap: map<Id, Item>, items: seq<Item>)
    requires forall g :: g in groupMap ==> ItemFor(owner, rows, g, groupMap[g])
    requires |items| == |FirstSeen(rows)|
    requires forall k :: 0 <= k < |items| ==> FirstSeen(rows)[k] in groupMap && items[k] == groupMap[FirstSeen(rows)[k]]
    ensures AreItems(owner, rows, items)
    ensures Separate(Rows(rows)) ==> GroupedBy(rows, items)
  {
    if Separate(Rows(rows)) {
      ItemsAreGrouped(owner, rows, items);
    }
  }

  method BuildItems(owner: Owner, rows: seq<Record>) returns (items: seq<Item>)
    ensures AreItems(owner, rows, items)
    ensures Separate(Rows(rows)) ==> GroupedBy(rows, items)
  {
    var targetGroupIds := FirstSeen(rows);
    var groupMap := BuildGroupMap(owner, rows);
    FirstSeenAreSeen(rows);
    items := CollectItems(groupMap, targetGroupIds);
    CollectedAreItems(owner, rows, groupMap, items);
  }
}
