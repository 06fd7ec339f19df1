/**
  Pages of the grouped history against the naive "group everything, sort, slice", and when a
  sequence of pages shows every group, and so every record, exactly once.
 */
module HistoryPages {
  import opened Wrappers
  import opened Orders
  import opened GroupedHistories
  import opened RankedPages

  /** The records of one category of one group, among all rows. */
  function CategoryRows(owner: Owner, rows: set<Record>, g: Id, c: Category): set<Record> {
    set h | h in rows && EffectiveGroup(h) == g && GetCategory(owner, h) == c
  }

  /** `item` is the whole of group `g`: every record of it, by category, newest first. */
  ghost predicate IsGroupItem(owner: Owner, rows: set<Record>, g: Id, item: Item) {
    && g in GroupIds(rows)
    && (forall c: Category ::
          c in item.histories && OrderedBy(item.histories[c], CategoryRows(owner, rows, g, c), NewerRecord()))
    && item.createdAt == Latest(rows, g)
    && exists h :: h in Members(rows, g) && h.groupId == item.groupId
  }

  /** `items` show the groups `groups` whole, newest group first; `keys` are their groups. */
  ghost predicate IsPage(owner: Owner, rows: set<Record>, groups: seq<Id>, keys: seq<Id>, items: seq<Item>) {
    && OrderedBy(keys, (set g | g in groups), NewerGroup(rows))
    && |items| == |keys|
    && forall k :: 0 <= k < |keys| ==> IsGroupItem(owner, rows, keys[k], items[k])
  }

  // ----- what an answer says, in the columns of the records -----

  /** An item of a group id holds the records of that id, and one without a group id a single ungrouped record. */
  ghost predicate WholeGroup(rows: set<Record>, item: Item) {
    if item.groupId.Some? then
      (forall h {:trigger Shows(item, h)} :: Shows(item, h) <==> h in rows && h.groupId == item.groupId)
      && exists h :: h in rows && h.groupId == item.groupId
    else
      exists h :: h in rows && h.groupId == None && forall k {:trigger Shows(item, k)} :: Shows(item, k) <==> k == h
  }

  /** Every list of the item holds records of its category, newest first, each once. */
  predicate WellListed(owner: Owner, item: Item) {
    forall c: Category ::
      && c in item.histories
      && (forall h :: h in item.histories[c] ==> Categorised(owner, h, c))
      && (forall i, j :: 0 <= i < j < |item.histories[c]| ==>
            item.histories[c][i] != item.histories[c][j]
            && item.histories[c][i].createdAt >= item.histories[c][j].createdAt)
  }

  /** The item's time is that of its newest record. */
  ghost predicate NewestTime(item: Item) {
    && (exists h :: Shows(item, h) && h.createdAt == item.createdAt)
    && (forall h {:trigger Shows(item, h)} :: Shows(item, h) ==> h.createdAt <= item.createdAt)
  }

  /** Whole groups, none twice, newest first; and from the first page on no newer record is left out. */
  ghost predicate IsAnswer(owner: Owner, rows: set<Record>, offset: nat, items: seq<Item>) {
    && (forall k {:trigger items[k]} :: 0 <= k < |items| ==>
          WholeGroup(rows, items[k]) && WellListed(owner, items[k]) && NewestTime(items[k]))
    && (forall j, k :: 0 <= j < k < |items| ==> items[j].createdAt >= items[k].createdAt)
    && (forall j, k, h :: 0 <= j < |items| && 0 <= k < |items| && Shows(items[j], h) && Shows(items[k], h) ==> j == k)
    && (offset == 0 ==> forall h, k :: h in rows && !ShownIn(items, h) && 0 <= k < |items| ==>
          h.createdAt <= items[k].createdAt)
  }

  function NamedGroups(rows: set<Record>): set<Id> {
    set h | h in rows && h.groupId.Some? :: h.groupId.value
  }

  function Ungrouped(rows: set<Record>): set<Record> {
    set h | h in rows && h.groupId.None?
  }

  /** How many of `total` groups are on the page. */
  function PageLength(total: nat, limit: nat, offset: nat): nat {
    if total <= offset then 0 else if total - offset < limit then total - offset else limit
  }

  method GetHistoriesGrouped(owner: Owner, rows: set<Record>, limit: nat, offset: nat)
    returns (items: seq<Item>, totalGroups: nat, totalHistories: nat, ghost order: seq<Id>, ghost keys: seq<Id>)
    ensures totalGroups == |GroupIds(rows)| && totalHistories == |rows|
    ensures IsGroupOrder(rows, order)
    ensures IsPage(owner, rows, Slice(order, offset, limit), keys, items)
    ensures |items| == PageLength(totalGroups, limit, offset)
    ensures Separate(rows) ==> totalGroups == |NamedGroups(rows)| + |Ungrouped(rows)|
    ensures Separate(rows) ==> IsAnswer(owner, rows, offset, items)
  {
    totalGroups, totalHistories := |GroupIds(rows)|, |rows|;
    var selected := QueryPage(rows, limit, offset);
    order :| IsSelected(rows, limit, offset, order, selected);
    keys := FirstSeen(selected);
    items := BuildItems(owner, selected);
    PageKeys(rows, Slice(order, offset, limit), selected);
    forall k | 0 <= k < |keys| ensures IsGroupItem(owner, rows, keys[k], items[k]) {
      assert ItemFor(owner, selected, keys[k], items[k]);
      PageItem(owner, rows, Slice(order, offset, limit), selected, keys[k], items[k]);
    }
    PageSize(rows, limit, offset, order, keys);
    if Separate(rows) {
      GroupsCounted(rows);
      PageIsAnswer(owner, rows, limit, offset, order, keys, items);
    }
  }

  lemma PageSize(rows: set<Record>, limit: nat, offset: nat, order: seq<Id>, keys: seq<Id>)
    requires IsGroupOrder(rows, order)
    requires OrderedBy(keys, (set g | g in Slice(order, offset, limit)), NewerGroup(rows))
    ensures |keys| == PageLength(|GroupIds(rows)|, limit, offset)
  {
    EnumerationLength(order, GroupIds(rows));
    var page := Slice(order, offset, limit);
    EnumerationLength(keys, set g | g in page);
    EnumerationLength(page, set g | g in page);
  }

  lemma {:induction false} OneIdEach(records: set<Record>)
    requires forall h, k :: h in records && k in records && h.id == k.id ==> h == k
    ensures |set h | h in records :: h.id| == |records|
  {
    if records != {} {
      var h :| h in records;
      OneIdEach(records - {h});
      assert (set k | k in records :: k.id) == (set k | k in records - {h} :: k.id) + {h.id};
    }
  }

  /** The groups are the group ids there are, and one for each ungrouped record. */
  lemma GroupsCounted(rows: set<Record>)
    requires Separate(rows)
    ensures |GroupIds(rows)| == |NamedGroups(rows)| + |Ungrouped(rows)|
  {
    var named, single := NamedGroups(rows), set h | h in Ungrouped(rows) :: h.id;
    OneIdEach(Ungrouped(rows));
    forall g ensures g in GroupIds(rows) <==> g in named + single {
      if g in named {
        var h :| h in rows && h.groupId == Some(g);
        assert EffectiveGroup(h) == g;
      }
      if g in single {
        var h :| h in Ungrouped(rows) && h.id == g;
        assert EffectiveGroup(h) == g;
      }
    }
    assert GroupIds(rows) == named + single && named !! single;
  }

  lemma ShowsIff(owner: Owner, rows: set<Record>, g: Id, item: Item, h: Record)
    requires IsGroupItem(owner, rows, g, item)
    ensures Shows(item, h) <==> h in rows && EffectiveGroup(h) == g
  {
    forall c: Category ensures c in item.histories &&
      (h in item.histories[c] <==> h in rows && EffectiveGroup(h) == g && GetCategory(owner, h) == c)
    {
      assert h in CategoryRows(owner, rows, g, c) <==> h in rows && EffectiveGroup(h) == g && GetCategory(owner, h) == c;
    }
    if h in rows && EffectiveGroup(h) == g {
      assert h in item.histories[GetCategory(owner, h)];
    }
  }

  lemma ItemIsWhole(owner: Owner, rows: set<Record>, g: Id, item: Item)
    requires Separate(rows) && IsGroupItem(owner, rows, g, item)
    ensures WholeGroup(rows, item)
  {
    var h :| h in Members(rows, g) && h.groupId == item.groupId;
    forall k ensures Shows(item, k) <==> k in rows && SharesItem(h, k) {
      ShowsIff(owner, rows, g, item, k);
      if k in rows {
        SharesItemIff(rows, h, k);
      }
    }
    if item.groupId.None? {
      assert h in rows && h.groupId == None && forall k {:trigger Shows(item, k)} :: Shows(item, k) <==> k == h;
    }
  }

  lemma ItemIsListed(owner: Owner, rows: set<Record>, g: Id, item: Item)
    requires IsGroupItem(owner, rows, g, item)
    ensures WellListed(owner, item)
  {
    forall c: Category
      ensures c in item.histories
      ensures forall h :: h in item.histories[c] ==> Categorised(owner, h, c)
      ensures forall i, j :: 0 <= i < j < |item.histories[c]| ==>
                item.histories[c][i] != item.histories[c][j]
                && item.histories[c][i].createdAt >= item.histories[c][j].createdAt
    {
      var list := item.histories[c];
      forall h | h in list ensures Categorised(owner, h, c) {
        assert h in CategoryRows(owner, rows, g, c);
        CategorisedIff(owner, h, c);
      }
      forall i, j | 0 <= i < j < |list| ensures list[i].createdAt >= list[j].createdAt {
        assert !NewerRecord()(list[j], list[i]);
      }
    }
  }

  lemma ItemIsTimed(owner: Owner, rows: set<Record>, g: Id, item: Item)
    requires IsGroupItem(owner, rows, g, item)
    ensures NewestTime(item)
    ensures forall h :: h in rows && EffectiveGroup(h) == g ==> h.createdAt <= item.createdAt
  {
    MembersNonempty(rows, g);
    forall h ensures Shows(item, h) <==> h in Members(rows, g) {
      ShowsIff(owner, rows, g, item, h);
    }
    var newest :| newest in Members(rows, g) && newest.createdAt == LatestOf(Members(rows, g));
    assert Shows(item, newest);
  }

  /** Of two groups in order, the first has the later time. */
  lemma TimesInOrder(owner: Owner, rows: set<Record>, a: Id, b: Id, x: Item, y: Item)
    requires IsGroupItem(owner, rows, a, x) && IsGroupItem(owner, rows, b, y) && !HasNewer(rows, b, a)
    ensures x.createdAt >= y.createdAt
  {
    NewerGroupIsLatest(rows, b, a);
  }

  lemma LeftOutIsOlder(owner: Owner, rows: set<Record>, limit: nat, order: seq<Id>, keys: seq<Id>, items: seq<Item>,
                       h: Record, k: nat)
    requires IsGroupOrder(rows, order) && IsPage(owner, rows, Slice(order, 0, limit), keys, items)
    requires h in rows && !ShownIn(items, h) && k < |items|
    ensures h.createdAt <= items[k].createdAt
  {
    var g, page := EffectiveGroup(h), Slice(order, 0, limit);
    assert g in GroupIds(rows) && g in order && keys[k] in keys && keys[k] in page;
    var i :| 0 <= i < |page| && page[i] == keys[k];
    var j :| 0 <= j < |order| && order[j] == g;
    if j < |page| {
      assert page[j] == g && g in page && g in keys;
      var n :| 0 <= n < |keys| && keys[n] == g;
      ShowsIff(owner, rows, g, items[n], h);
      assert false;
    } else {
      assert order[i] == keys[k] && !NewerGroup(rows)(order[j], order[i]);
      NewerGroupIsLatest(rows, g, keys[k]);
      assert h in Members(rows, g);
    }
  }

  lemma PageIsAnswer(owner: Owner, rows: set<Record>, limit: nat, offset: nat, order: seq<Id>, keys: seq<Id>, items: seq<Item>)
    requires Separate(rows) && IsGroupOrder(rows, order) && IsPage(owner, rows, Slice(order, offset, limit), keys, items)
    ensures IsAnswer(owner, rows, offset, items)
  {
    forall k | 0 <= k < |items| ensures WholeGroup(rows, items[k]) && WellListed(owner, items[k]) && NewestTime(items[k]) {
      ItemIsWhole(owner, rows, keys[k], items[k]);
      ItemIsListed(owner, rows, keys[k], items[k]);
      ItemIsTimed(owner, rows, keys[k], items[k]);
    }
    forall j, k | 0 <= j < k < |items| ensures items[j].createdAt >= items[k].createdAt {
      assert !NewerGroup(rows)(keys[k], keys[j]);
      TimesInOrder(owner, rows, keys[j], keys[k], items[j], items[k]);
    }
    forall j, k, h | 0 <= j < |items| && 0 <= k < |items| && Shows(items[j], h) && Shows(items[k], h) ensures j == k {
      ShowsIff(owner, rows, keys[j], items[j], h);
      ShowsIff(owner, rows, keys[k], items[k], h);
    }
    forall h, k | offset == 0 && h in rows && !ShownIn(items, h) && 0 <= k < |items| ensures h.createdAt <= items[k].createdAt {
      LeftOutIsOlder(owner, rows, limit, order, keys, items, h, k);
    }
  }

  // ----- the loop sees whole groups -----

  lemma {:induction false} FirstSeenSorted(rows: seq<Record>, i: nat, j: nat) returns (newer: Record)
    requires NoInversion(rows, NewerRecord())
    requires i < j < |FirstSeen(rows)|
    ensures newer in rows && EffectiveGroup(newer) == FirstSeen(rows)[i]
    ensures forall h :: h in rows && EffectiveGroup(h) == FirstSeen(rows)[j] ==> h.createdAt <= newer.createdAt
  {
    var init, last := rows[..|rows| - 1], rows[|rows| - 1];
    var seen := FirstSeen(init);
    assert rows == init + [last];
    FirstSeenMembers(init);
    if j < |seen| {
      newer := FirstSeenSorted(init, i, j);
    } else {
      assert seen[i] in seen;
      newer :| newer in init && EffectiveGroup(newer) == seen[i];
      assert FirstSeen(rows)[j] == EffectiveGroup(last);
      assert forall h :: h in init ==> EffectiveGroup(h) in seen;
    }
    var k :| 0 <= k < |init| && init[k] == newer;
    assert rows[k] == newer && !NewerRecord()(rows[|rows| - 1], rows[k]);
  }

  lemma PageKeys(rows: set<Record>, groups: seq<Id>, selected: seq<Record>)
    requires forall g :: g in groups ==> g in GroupIds(rows)
    requires OrderedBy(selected, RowsOfGroups(rows, groups), NewerRecord())
    ensures OrderedBy(FirstSeen(selected), (set g | g in groups), NewerGroup(rows))
  {
    var keys := FirstSeen(selected);
    FirstSeenMembers(selected);
    forall g ensures g in keys <==> g in groups {
      if g in groups {
        var h :| h in rows && EffectiveGroup(h) == g;
        assert h in RowsOfGroups(rows, groups);
        assert h in selected;
      }
      if g in keys {
        var h :| h in selected && EffectiveGroup(h) == g;
        assert h in RowsOfGroups(rows, groups);
      }
    }
    forall i, j | 0 <= i < j < |keys| ensures !HasNewer(rows, keys[j], keys[i]) {
      var newer := FirstSeenSorted(selected, i, j);
      assert newer in RowsOfGroups(rows, groups);
      assert keys[j] in groups;
      forall h | h in rows && EffectiveGroup(h) == keys[j] ensures h.createdAt <= newer.createdAt {
        assert h in RowsOfGroups(rows, groups);
        assert h in selected;
      }
    }
  }

  lemma {:induction false} InCategoryFacts(owner: Owner, rows: seq<Record>, g: Id, c: Category)
    requires Distinct(rows) && NoInversion(rows, NewerRecord())
    ensures var part := InCategory(owner, rows, g, c);
            && Distinct(part) && NoInversion(part, NewerRecord())
            && forall h :: h in part <==> h in rows && EffectiveGroup(h) == g && GetCategory(owner, h) == c
  {
    if rows != [] {
      var init, last := rows[..|rows| - 1], rows[|rows| - 1];
      assert rows == init + [last];
      InCategoryFacts(owner, init, g, c);
      var before, part := InCategory(owner, init, g, c), InCategory(owner, rows, g, c);
      forall i, j | 0 <= i < j < |part| ensures part[i] != part[j] && !NewerRecord()(part[j], part[i]) {
        assert before[i] in before;
        var k :| 0 <= k < |init| && init[k] == before[i];
        assert rows[k] == part[i] && rows[|rows| - 1] == last;
        assert !NewerRecord()(last, part[i]);
      }
    }
  }

  lemma PageItem(owner: Owner, rows: set<Record>, groups: seq<Id>, selected: seq<Record>, g: Id, item: Item)
    requires OrderedBy(selected, RowsOfGroups(rows, groups), NewerRecord())
    requires ItemFor(owner, selected, g, item) && g in FirstSeen(selected)
    ensures IsGroupItem(owner, rows, g, item)
  {
    FirstSeenMembers(selected);
    var any :| any in selected && EffectiveGroup(any) == g;
    assert any in RowsOfGroups(rows, groups);
    assert g in GroupIds(rows) && g in groups;
    forall h ensures h in selected && EffectiveGroup(h) == g <==> h in Members(rows, g) {
      if h in Members(rows, g) {
        assert h in RowsOfGroups(rows, groups);
      }
    }
    forall c: Category
      ensures c in item.histories && OrderedBy(item.histories[c], CategoryRows(owner, rows, g, c), NewerRecord())
    {
      InCategoryFacts(owner, selected, g, c);
      forall h ensures h in item.histories[c] <==> h in CategoryRows(owner, rows, g, c) {
        assert h in Members(rows, g) <==> h in rows && EffectiveGroup(h) == g;
      }
    }
    var h :| h in selected && EffectiveGroup(h) == g && h.groupId == item.groupId;
    assert h in Members(rows, g);
    ItemTime(owner, rows, selected, g, item);
  }

  lemma ItemTime(owner: Owner, rows: set<Record>, selected: seq<Record>, g: Id, item: Item)
    requires g in GroupIds(rows) && ItemFor(owner, selected, g, item)
    requires forall h :: h in selected && EffectiveGroup(h) == g <==> h in Members(rows, g)
    ensures item.createdAt == Latest(rows, g)
  {
    MembersNonempty(rows, g);
    var h :| h in selected && EffectiveGroup(h) == g && h.createdAt == item.createdAt;
    var newest :| newest in Members(rows, g) && newest.createdAt == LatestOf(Members(rows, g));
    assert h in Members(rows, g);
    assert newest in selected && EffectiveGroup(newest) == g;
  }

  // ----- group orders as rankings by latest time -----

  /** Each group with its latest time. */
  ghost function LatestTimes(rows: set<Record>): (rank: map<Id, int>)
    ensures rank.Keys == GroupIds(rows)
    ensures forall g :: g in rank ==> rank[g] == Latest(rows, g)
  {
    map g | g in GroupIds(rows) :: Latest(rows, g)
  }

  lemma GroupOrderIsRanking(rows: set<Record>, order: seq<Id>)
    ensures IsGroupOrder(rows, order) <==> IsRanking(order, LatestTimes(rows))
  {
    if IsGroupOrder(rows, order) || IsRanking(order, LatestTimes(rows)) {
      forall i, j | 0 <= i < j < |order|
        ensures order[i] in GroupIds(rows) && order[j] in GroupIds(rows)
        ensures HasNewer(rows, order[j], order[i]) <==> LatestTimes(rows)[order[j]] > LatestTimes(rows)[order[i]]
      {
        assert order[i] in order && order[j] in order;
        NewerGroupIsLatest(rows, order[j], order[i]);
      }
    }
  }

  ghost predicate DistinctLatest(rows: set<Record>) {
    InjectiveRank(LatestTimes(rows))
  }

  lemma OrderIsStrict(rows: set<Record>, order: seq<Id>)
    requires DistinctLatest(rows) && IsGroupOrder(rows, order)
    ensures StrictlySorted(order, NewerGroup(rows))
  {
    GroupOrderIsRanking(rows, order);
    RankingIsStrict(rows, order);
  }

  lemma RankingIsStrict(rows: set<Record>, order: seq<Id>)
    requires DistinctLatest(rows) && IsRanking(order, LatestTimes(rows))
    ensures StrictlySorted(order, NewerGroup(rows))
  {
    forall i, j | 0 <= i < j < |order| ensures HasNewer(rows, order[i], order[j]) {
      assert order[i] in order && order[j] in order;
      NewerGroupIsLatest(rows, order[i], order[j]);
    }
  }

  /** With distinct latest times the page is a slice of the one newest-first list of all groups. */
  lemma PageIsNaivePage(owner: Owner, rows: set<Record>, offset: nat, limit: nat,
                        order: seq<Id>, naive: seq<Id>, keys: seq<Id>, items: seq<Item>)
    requires DistinctLatest(rows)
    requires IsGroupOrder(rows, order) && IsGroupOrder(rows, naive)
    requires IsPage(owner, rows, Slice(order, offset, limit), keys, items)
    ensures keys == Slice(naive, offset, limit)
    ensures forall k :: 0 <= k < |items| ==> IsGroupItem(owner, rows, Slice(naive, offset, limit)[k], items[k])
  {
    OrderIsStrict(rows, naive);
    StrictOrderUnique(order, naive, NewerGroup(rows));
    StrictOrderUnique(keys, Slice(naive, offset, limit), NewerGroup(rows));
  }

  // ----- consecutive pages -----

  /** The orders of enough consecutive queries to reach the last group. */
  ghost predicate IsPaging(rows: set<Record>, size: nat, orders: seq<seq<Id>>) {
    && (forall k :: 0 <= k < |orders| ==> IsGroupOrder(rows, orders[k]))
    && |GroupIds(rows)| <= Start(|orders|, size)
  }

  ghost predicate EachGroupOnce(rows: set<Record>, size: nat, orders: seq<seq<Id>>) {
    forall g :: g in GroupIds(rows) ==> exists k: nat :: OnlyOnPage(orders, size, g, k)
  }

  /** No two groups with the same latest time lie on both sides of a page boundary. */
  ghost predicate NoBoundaryTie(rows: set<Record>, size: nat) {
    NoTieAtBoundary(LatestTimes(rows), size)
  }

  lemma PagingIsRankedPaging(rows: set<Record>, size: nat, orders: seq<seq<Id>>)
    ensures IsPaging(rows, size, orders) <==> IsRankedPaging(LatestTimes(rows), size, orders)
  {
    forall k | 0 <= k < |orders|
      ensures IsGroupOrder(rows, orders[k]) <==> IsRanking(orders[k], LatestTimes(rows))
    {
      GroupOrderIsRanking(rows, orders[k]);
    }
  }

  /**
    Whatever order each query picks among equal latest times, consecutive pages show every group
    exactly once if and only if no tie lies across a page boundary.
   */
  lemma PagesShowEachGroupOnceIff(rows: set<Record>, size: nat)
    requires size > 0
    ensures (forall orders :: IsPaging(rows, size, orders) ==> EachGroupOnce(rows, size, orders))
       <==> NoBoundaryTie(rows, size)
  {
    var rank := LatestTimes(rows);
    RankedPagesShowOnceIff(rank, size);
    forall orders ensures IsPaging(rows, size, orders) <==> IsRankedPaging(rank, size, orders) {
      PagingIsRankedPaging(rows, size, orders);
    }
  }

  /** Distinct latest times leave no tie at all, so consecutive pages show every group once. */
  lemma DistinctLatestPages(rows: set<Record>, size: nat, orders: seq<seq<Id>>)
    requires size > 0 && DistinctLatest(rows) && IsPaging(rows, size, orders)
    ensures EachGroupOnce(rows, size, orders)
  {
    InjectiveRankHasNoTie(LatestTimes(rows), size);
    PagesShowEachGroupOnceIff(rows, size);
  }

  /** With distinct latest times the pages, one after the other, are the newest-first list of all groups. */
  lemma PagesConcatenate(owner: Owner, rows: set<Record>, size: nat,
    orders: seq<seq<Id>>, keys: seq<seq<Id>>, pages: seq<seq<Item>>)
    requires DistinctLatest(rows)
    requires |orders| == |keys| == |pages| && IsPaging(rows, size, orders)
    requires forall k :: 0 <= k < |pages| ==>
      IsPage(owner, rows, PageGroups(orders, size, k), keys[k], pages[k])
    ensures forall naive :: IsGroupOrder(rows, naive) ==> Concatenated(keys) == naive
  {
    forall naive | IsGroupOrder(rows, naive) ensures Concatenated(keys) == naive {
      EnumerationLength(naive, GroupIds(rows));
      forall k | 0 <= k < |keys| ensures keys[k] == Slice(naive, Start(k, size), size) {
        PageIsNaivePage(owner, rows, Start(k, size), size, orders[k], naive, keys[k], pages[k]);
      }
      SlicesConcatenate(naive, size, keys);
      assert naive[..|naive|] == naive;
    }
  }

  // ----- every record exactly once -----

  /** Record `h` is shown on page `k`, in item `i`, under category `c`. */
  ghost predicate ShownAt(pages: seq<seq<Item>>, h: Record, k: nat, i: nat, c: Category) {
    && k < |pages| && i < |pages[k]|
    && c in pages[k][i].histories && h in pages[k][i].histories[c]
  }

  lemma ShownWhere(owner: Owner, rows: set<Record>, size: nat, orders: seq<seq<Id>>,
                   keys: seq<seq<Id>>, pages: seq<seq<Item>>, h: Record, k: nat, i: nat, c: Category)
    requires |orders| == |keys| == |pages|
    requires forall j :: 0 <= j < |pages| ==>
      IsPage(owner, rows, PageGroups(orders, size, j), keys[j], pages[j])
    requires ShownAt(pages, h, k, i, c)
    ensures |keys[k]| == |pages[k]|
    ensures h in rows && c == GetCategory(owner, h)
    ensures keys[k][i] == EffectiveGroup(h) && EffectiveGroup(h) in PageGroups(orders, size, k)
  {
    assert IsGroupItem(owner, rows, keys[k][i], pages[k][i]);
    assert h in CategoryRows(owner, rows, keys[k][i], c);
    assert keys[k][i] in keys[k];
  }

  /** If every group is on one page, every record is in one category of one item of one page. */
  lemma EachRecordOnce(owner: Owner, rows: set<Record>, size: nat, orders: seq<seq<Id>>,
                       keys: seq<seq<Id>>, pages: seq<seq<Item>>, h: Record)
    requires IsPaging(rows, size, orders) && EachGroupOnce(rows, size, orders)
    requires |orders| == |keys| == |pages|
    requires forall k :: 0 <= k < |pages| ==>
      IsPage(owner, rows, PageGroups(orders, size, k), keys[k], pages[k])
    ensures h in rows <==> exists k: nat, i: nat :: ShownAt(pages, h, k, i, GetCategory(owner, h))
    ensures forall k: nat, i: nat, c: Category, k': nat, i': nat, c': Category ::
      ShownAt(pages, h, k, i, c) && ShownAt(pages, h, k', i', c') ==> k == k' && i == i' && c == c'
  {
    if h in rows {
      var g := EffectiveGroup(h);
      assert g in GroupIds(rows);
      var k: nat :| OnlyOnPage(orders, size, g, k);
      assert g in keys[k];
      var i :| 0 <= i < |keys[k]| && keys[k][i] == g;
      assert h in CategoryRows(owner, rows, g, GetCategory(owner, h));
      assert ShownAt(pages, h, k, i, GetCategory(owner, h));
    }
    forall k: nat, i: nat, c: Category | ShownAt(pages, h, k, i, c)
      ensures h in rows && c == GetCategory(owner, h) && keys[k][i] == EffectiveGroup(h)
      ensures OnlyOnPage(orders, size, EffectiveGroup(h), k)
    {
      ShownWhere(owner, rows, size, orders, keys, pages, h, k, i, c);
      assert EffectiveGroup(h) in GroupIds(rows);
      var only: nat :| OnlyOnPage(orders, size, EffectiveGroup(h), only);
    }
  }
}
