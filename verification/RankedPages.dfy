/**
  Pages of a list sorted by a rank, when every page comes from its own query and a query may put
  equal ranks in any order.
 */
module RankedPages {
  import opened Orders

  type Id = string

  /** `order` lists the keys of `rank`, highest rank first. */
  ghost predicate IsRanking(order: seq<Id>, rank: map<Id, int>) {
    && Enumerates(order, rank.Keys)
    && forall i, j :: 0 <= i < j < |order| ==>
         order[i] in rank && order[j] in rank && rank[order[i]] >= rank[order[j]]
  }

  ghost predicate InjectiveRank(rank: map<Id, int>) {
    forall a, b :: a in rank && b in rank && a != b ==> rank[a] != rank[b]
  }

  function Min(a: nat, b: nat): nat {
    if a < b then a else b
  }

  /** `LIMIT limit OFFSET offset` */
  function Slice<T>(s: seq<T>, offset: nat, limit: nat): seq<T> {
    s[Min(offset, |s|)..Min(offset + limit, |s|)]
  }

  /** The offset of page `k`. */
  function Start(k: nat, size: nat): nat {
    k * size
  }

  lemma StartSteps(k: nat, size: nat)
    ensures Start(0, size) == 0
    ensures Start(k + 1, size) == Start(k, size) + size
    ensures size > 0 ==> k <= Start(k, size)
  {
  }

  lemma StartMonotone(j: nat, k: nat, size: nat)
    requires j <= k
    ensures Start(j, size) <= Start(k, size)
  {
  }

  // ----- pages of one list -----

  function Concatenated<T>(pages: seq<seq<T>>): seq<T> {
    if pages == [] then [] else Concatenated(pages[..|pages| - 1]) + pages[|pages| - 1]
  }

  lemma OnePageMore<T>(list: seq<T>, size: nat, n: nat)
    ensures list[..Min(Start(n + 1, size), |list|)]
         == list[..Min(Start(n, size), |list|)] + Slice(list, Start(n, size), size)
  {
    StartSteps(n, size);
    var lo, hi := Min(Start(n, size), |list|), Min(Start(n + 1, size), |list|);
    assert list[..hi] == list[..lo] + list[lo..hi];
  }

  /** Consecutive pages of one list, one after the other, are the list as far as they reach. */
  lemma {:induction false} SlicesConcatenate<T>(list: seq<T>, size: nat, pages: seq<seq<T>>)
    requires forall k :: 0 <= k < |pages| ==> pages[k] == Slice(list, Start(k, size), size)
    ensures Concatenated(pages) == list[..Min(Start(|pages|, size), |list|)]
    decreases |pages|
  {
    if pages == [] {
      StartSteps(0, size);
    } else {
      var n := |pages| - 1;
      SlicesConcatenate(list, size, pages[..n]);
      OnePageMore(list, size, n);
    }
  }

  // ----- pages of rankings -----

  /** The keys on page `k`; each query has its own order among equal ranks. */
  function PageGroups(orders: seq<seq<Id>>, size: nat, k: nat): seq<Id>
    requires k < |orders|
  {
    Slice(orders[k], Start(k, size), size)
  }

  ghost predicate IsRankedPaging(rank: map<Id, int>, size: nat, orders: seq<seq<Id>>) {
    && (forall k :: 0 <= k < |orders| ==> IsRanking(orders[k], rank))
    && |rank.Keys| <= Start(|orders|, size)
  }

  /** Key `g` is on page `k` and on no other. */
  ghost predicate OnlyOnPage(orders: seq<seq<Id>>, size: nat, g: Id, k: nat) {
    && k < |orders| && g in PageGroups(orders, size, k)
    && forall j: nat :: j < |orders| && j != k ==> g !in PageGroups(orders, size, j)
  }

  ghost predicate EachOnce(rank: map<Id, int>, size: nat, orders: seq<seq<Id>>) {
    forall g :: g in rank.Keys ==> exists k: nat :: OnlyOnPage(orders, size, g, k)
  }

  /** The keys ranked `t` or higher. */
  function AtLeast(rank: map<Id, int>, t: int): set<Id> {
    set g | g in rank && rank[g] >= t
  }

  /** Some rank separates exactly `b` keys from the others. */
  ghost predicate CleanCut(rank: map<Id, int>, b: nat) {
    exists t :: |AtLeast(rank, t)| == b
  }

  ghost predicate NoTieAtBoundary(rank: map<Id, int>, size: nat) {
    forall k: nat :: 0 < Start(k, size) < |rank.Keys| ==> CleanCut(rank, Start(k, size))
  }

  // ----- prefixes -----

  lemma PrefixSet(order: seq<Id>, b: nat) returns (pre: set<Id>)
    requires Distinct(order) && b <= |order|
    ensures |pre| == b && forall g :: g in pre <==> g in order[..b]
  {
    pre := set g | g in order[..b];
    EnumerationLength(order[..b], pre);
  }

  lemma InPrefix(order: seq<Id>, p: nat, b: nat)
    requires Distinct(order) && p < |order|
    ensures order[p] in order[..Min(b, |order|)] <==> p < b
  {
    if order[p] in order[..Min(b, |order|)] {
      var i :| 0 <= i < Min(b, |order|) && order[i] == order[p];
      assert i == p;
    }
    if p < b {
      assert order[..Min(b, |order|)][p] == order[p];
    }
  }

  lemma Position(order: seq<Id>, g: Id) returns (p: nat)
    requires g in order
    ensures p < |order| && order[p] == g
  {
    p :| 0 <= p < |order| && order[p] == g;
  }

  /** Higher positions up to the last key ranked at least `t` hold keys ranked at least `t`. */
  lemma AtLeastIsPrefix(rank: map<Id, int>, order: seq<Id>, t: int, i: nat)
    requires IsRanking(order, rank) && i < |order|
    requires order[i] !in AtLeast(rank, t)
    ensures |AtLeast(rank, t)| <= i
  {
    var shorter := PrefixSet(order, i);
    assert order[i] in order;
    forall g | g in AtLeast(rank, t) ensures g in shorter {
      assert g in order;
      var j := Position(order, g);
      assert j < i;
      assert order[..i][j] == g;
    }
    SubsetSize(AtLeast(rank, t), shorter);
  }

  lemma SubsetOfSameSize(a: set<Id>, b: set<Id>)
    requires a <= b && |a| == |b|
    ensures a == b
  {
    if b - a != {} {
      var g :| g in b - a;
      SubsetSize(a + {g}, b);
    }
  }

  /** At a clean cut, every ranking has the same keys before it. */
  lemma CleanCutPrefix(rank: map<Id, int>, order: seq<Id>, t: int, b: nat)
    requires IsRanking(order, rank) && |AtLeast(rank, t)| == b
    ensures b <= |order| && forall g :: g in order[..b] <==> g in AtLeast(rank, t)
  {
    EnumerationLength(order, rank.Keys);
    SubsetSize(AtLeast(rank, t), rank.Keys);
    var pre := PrefixSet(order, b);
    forall g | g in pre ensures g in AtLeast(rank, t) {
      var i := Position(order[..b], g);
      if order[i] !in AtLeast(rank, t) {
        AtLeastIsPrefix(rank, order, t, i);
      }
    }
    SubsetOfSameSize(pre, AtLeast(rank, t));
  }

  /** Without boundary ties, the keys before a page boundary do not depend on the query. */
  lemma SamePrefix(rank: map<Id, int>, size: nat, a: seq<Id>, b: seq<Id>, k: nat, g: Id)
    requires NoTieAtBoundary(rank, size)
    requires IsRanking(a, rank) && IsRanking(b, rank)
    ensures g in a[..Min(Start(k, size), |a|)] <==> g in b[..Min(Start(k, size), |b|)]
  {
    EnumerationLength(a, rank.Keys);
    EnumerationLength(b, rank.Keys);
    var cut := Start(k, size);
    if 0 < cut < |rank.Keys| {
      assert CleanCut(rank, cut);
      var t :| |AtLeast(rank, t)| == cut;
      CleanCutPrefix(rank, a, t, cut);
      CleanCutPrefix(rank, b, t, cut);
    } else if cut != 0 {
      assert a[..|a|] == a && b[..|b|] == b;
    }
  }

  // ----- without boundary ties -----

  lemma InSlice(order: seq<Id>, size: nat, k: nat, g: Id)
    requires Distinct(order)
    ensures g in Slice(order, Start(k, size), size) <==>
      (g in order[..Min(Start(k + 1, size), |order|)] && g !in order[..Min(Start(k, size), |order|)])
  {
    StartSteps(k, size);
    var lo, hi := Min(Start(k, size), |order|), Min(Start(k + 1, size), |order|);
    assert order[..hi] == order[..lo] + order[lo..hi];
    if g in order[lo..hi] {
      var i := Position(order[lo..hi], g);
      assert order[lo + i] == g;
    }
  }

  lemma PageOfPosition(size: nat, p: nat) returns (k: nat)
    requires size > 0
    ensures Start(k, size) <= p < Start(k + 1, size)
  {
    k := p / size;
    assert p == size * (p / size) + p % size;
    assert Start(k, size) == size * k;
    StartSteps(k, size);
  }

  lemma OnlyPageOfPosition(size: nat, p: nat, k: nat, j: nat)
    requires Start(k, size) <= p < Start(k + 1, size)
    ensures Start(j, size) <= p < Start(j + 1, size) <==> j == k
  {
    if j < k {
      StartMonotone(j + 1, k, size);
    } else if k < j {
      StartMonotone(k + 1, j, size);
    }
  }

  lemma OnPageByPosition(rank: map<Id, int>, size: nat, order: seq<Id>, other: seq<Id>, p: nat, j: nat)
    requires NoTieAtBoundary(rank, size)
    requires IsRanking(order, rank) && IsRanking(other, rank) && p < |order|
    ensures order[p] in Slice(other, Start(j, size), size) <==> Start(j, size) <= p < Start(j + 1, size)
  {
    InSlice(other, size, j, order[p]);
    SamePrefix(rank, size, order, other, j, order[p]);
    SamePrefix(rank, size, order, other, j + 1, order[p]);
    InPrefix(order, p, Start(j, size));
    InPrefix(order, p, Start(j + 1, size));
  }

  /** The page of the key at position `p` of one ranking is its page in every other. */
  lemma OnPageIff(rank: map<Id, int>, size: nat, order: seq<Id>, other: seq<Id>, p: nat, k: nat, j: nat)
    requires NoTieAtBoundary(rank, size)
    requires IsRanking(order, rank) && IsRanking(other, rank) && p < |order|
    requires Start(k, size) <= p < Start(k + 1, size)
    ensures order[p] in Slice(other, Start(j, size), size) <==> j == k
  {
    OnPageByPosition(rank, size, order, other, p, j);
    OnlyPageOfPosition(size, p, k, j);
  }

  lemma NoTieShowsOnce(rank: map<Id, int>, size: nat, orders: seq<seq<Id>>, g: Id)
    requires size > 0 && NoTieAtBoundary(rank, size) && IsRankedPaging(rank, size, orders)
    requires g in rank
    ensures exists k: nat :: OnlyOnPage(orders, size, g, k)
  {
    StartSteps(0, size);
    SubsetSize({g}, rank.Keys);
    var order := orders[0];
    EnumerationLength(order, rank.Keys);
    assert g in order;
    var p := Position(order, g);
    var k := PageOfPosition(size, p);
    if |orders| <= k {
      StartMonotone(|orders|, k, size);
    }
    forall j: nat | j < |orders| ensures g in PageGroups(orders, size, j) <==> j == k {
      OnPageIff(rank, size, order, orders[j], p, k, j);
    }
    assert OnlyOnPage(orders, size, g, k);
  }

  // ----- with a boundary tie -----

  /** Two neighbours of equal rank may come in either order. */
  lemma SwapTie(rank: map<Id, int>, order: seq<Id>, b: nat) returns (swapped: seq<Id>)
    requires IsRanking(order, rank) && 0 < b < |order|
    requires rank[order[b - 1]] == rank[order[b]]
    ensures IsRanking(swapped, rank) && |swapped| == |order| && swapped[b] == order[b - 1]
  {
    swapped := order[b - 1 := order[b]][b := order[b - 1]];
    forall g ensures g in swapped <==> g in order {
      if g in order {
        var i := Position(order, g);
        assert swapped[if i == b then b - 1 else if i == b - 1 then b else i] == g;
      }
    }
  }

  lemma PrefixIsCut(rank: map<Id, int>, order: seq<Id>, b: nat)
    requires IsRanking(order, rank) && 0 < b < |order|
    requires rank[order[b]] < rank[order[b - 1]]
    ensures CleanCut(rank, b)
  {
    var t := rank[order[b - 1]];
    var pre := PrefixSet(order, b);
    forall g ensures g in pre <==> g in AtLeast(rank, t) {
      if g in pre {
        var i := Position(order[..b], g);
        assert order[i] in order;
      }
      if g in AtLeast(rank, t) {
        assert g in order;
        var i := Position(order, g);
        assert i < b;
        assert order[..b][i] == g;
      }
    }
    assert pre == AtLeast(rank, t);
  }

  lemma NoCutIsTie(rank: map<Id, int>, order: seq<Id>, b: nat)
    requires IsRanking(order, rank) && 0 < b < |order| && !CleanCut(rank, b)
    ensures rank[order[b - 1]] == rank[order[b]]
  {
    if rank[order[b]] < rank[order[b - 1]] {
      PrefixIsCut(rank, order, b);
    }
  }

  lemma RankingExists(rank: map<Id, int>) returns (order: seq<Id>)
    ensures IsRanking(order, rank)
  {
    var higher := (a: Id, b: Id) => a in rank && b in rank && rank[a] > rank[b];
    order := ListingExists(rank.Keys, higher);
    forall i, j | 0 <= i < j < |order|
      ensures order[i] in rank && order[j] in rank && rank[order[i]] >= rank[order[j]]
    {
      assert order[i] in order && order[j] in order && !higher(order[j], order[i]);
    }
  }

  /** A tie across a boundary lets two queries put the same key on two pages. */
  lemma TieCanRepeat(rank: map<Id, int>, size: nat, k: nat) returns (orders: seq<seq<Id>>)
    requires size > 0 && 0 < Start(k, size) < |rank.Keys| && !CleanCut(rank, Start(k, size))
    ensures IsRankedPaging(rank, size, orders) && !EachOnce(rank, size, orders)
  {
    var order := RankingExists(rank);
    EnumerationLength(order, rank.Keys);
    NoCutIsTie(rank, order, Start(k, size));
    var swapped := SwapTie(rank, order, Start(k, size));
    orders := RepeatedPage(rank, size, k, order, swapped);
  }

  /** `n` queries, of which the `k`-th saw the tie the other way round. */
  function Repeated<T>(order: seq<T>, swapped: seq<T>, n: nat, k: nat): seq<seq<T>> {
    seq(n, i => if i == k then swapped else order)
  }

  lemma RepeatedIsPaging(rank: map<Id, int>, size: nat, order: seq<Id>, swapped: seq<Id>, k: nat)
    requires size > 0 && |order| == |rank.Keys|
    requires IsRanking(order, rank) && IsRanking(swapped, rank)
    ensures IsRankedPaging(rank, size, Repeated(order, swapped, |order|, k))
  {
    StartSteps(|order|, size);
  }

  predicate OnPage(orders: seq<seq<Id>>, size: nat, g: Id, k: nat) {
    k < |orders| && g in PageGroups(orders, size, k)
  }

  lemma RepeatedOnTwoPages(size: nat, order: seq<Id>, swapped: seq<Id>, n: nat, j: nat)
    requires size > 0 && j + 1 < n && 0 < Start(j + 1, size) < |order| == |swapped|
    requires swapped[Start(j + 1, size)] == order[Start(j + 1, size) - 1]
    ensures OnPage(Repeated(order, swapped, n, j + 1), size, order[Start(j + 1, size) - 1], j)
    ensures OnPage(Repeated(order, swapped, n, j + 1), size, order[Start(j + 1, size) - 1], j + 1)
  {
    var b := Start(j + 1, size);
    StartSteps(j, size);
    InOwnSlice(swapped, b, size, b);
    InOwnSlice(order, Start(j, size), size, b - 1);
  }

  lemma RepeatedPage(rank: map<Id, int>, size: nat, k: nat, order: seq<Id>, swapped: seq<Id>)
    returns (orders: seq<seq<Id>>)
    requires size > 0 && 0 < Start(k, size) < |order| == |swapped| == |rank.Keys|
    requires IsRanking(order, rank) && IsRanking(swapped, rank)
    requires swapped[Start(k, size)] == order[Start(k, size) - 1]
    ensures IsRankedPaging(rank, size, orders) && !EachOnce(rank, size, orders)
  {
    StartSteps(k, size);
    StartSteps(0, size);
    var j := k - 1;
    var g := order[Start(j + 1, size) - 1];
    assert g in order;
    orders := Repeated(order, swapped, |order|, k);
    RepeatedIsPaging(rank, size, order, swapped, k);
    RepeatedOnTwoPages(size, order, swapped, |order|, j);
    OnTwoPages(rank, orders, size, g, j, k);
  }

  lemma InOwnSlice(s: seq<Id>, offset: nat, limit: nat, p: nat)
    requires p < |s| && offset <= p < offset + limit
    ensures s[p] in Slice(s, offset, limit)
  {
    assert Slice(s, offset, limit)[p - offset] == s[p];
  }

  lemma OnTwoPages(rank: map<Id, int>, orders: seq<seq<Id>>, size: nat, g: Id, j: nat, k: nat)
    requires j < k && g in rank.Keys
    requires OnPage(orders, size, g, j) && OnPage(orders, size, g, k)
    ensures !EachOnce(rank, size, orders)
  {
  }

  lemma RankedPagesShowOnceIff(rank: map<Id, int>, size: nat)
    requires size > 0
    ensures (forall orders :: IsRankedPaging(rank, size, orders) ==> EachOnce(rank, size, orders))
       <==> NoTieAtBoundary(rank, size)
  {
    if NoTieAtBoundary(rank, size) {
      forall orders | IsRankedPaging(rank, size, orders) ensures EachOnce(rank, size, orders) {
        forall g | g in rank.Keys ensures exists k: nat :: OnlyOnPage(orders, size, g, k) {
          NoTieShowsOnce(rank, size, orders, g);
        }
      }
    } else {
      var k: nat :| 0 < Start(k, size) < |rank.Keys| && !CleanCut(rank, Start(k, size));
      var orders := TieCanRepeat(rank, size, k);
    }
  }

  lemma InjectiveRankHasNoTie(rank: map<Id, int>, size: nat)
    requires InjectiveRank(rank)
    ensures NoTieAtBoundary(rank, size)
  {
    var order := RankingExists(rank);
    EnumerationLength(order, rank.Keys);
    forall k: nat | 0 < Start(k, size) < |rank.Keys| ensures CleanCut(rank, Start(k, size)) {
      if !CleanCut(rank, Start(k, size)) {
        NoCutIsTie(rank, order, Start(k, size));
      }
    }
  }
}
