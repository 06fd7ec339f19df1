/**
  The pages of the session list, each from a call of its own.  The queries may return entries alike
  in start time, source and heartbeat either way round, and differently from call to call.
 */
module SessionPages {
  import opened Orders
  import opened RankedPages
  import opened SessionMerge

  /** One call, with the instants its queries ran at and what it returned. */
  datatype Call = Call(asked: int, now: int, sessions: seq<Info>, total: nat)

  /** The `k`-th call asked for the page after `k` others, missed nothing and had `shown` to list. */
  ghost predicate Answered(d: Data, statuses: seq<Status>, limit: nat, shown: set<Info>, k: nat, c: Call) {
    && c.asked <= c.now && NothingCut(d, statuses, c.asked, c.now) && AllShown(d, statuses, c.now) == shown
    && IsAnswer(d, statuses, k + 1, limit, c.asked, c.now, c.sessions, c.total)
  }

  ghost predicate AllAnswered(d: Data, statuses: seq<Status>, limit: nat, shown: set<Info>, calls: seq<Call>) {
    forall k {:trigger Answered(d, statuses, limit, shown, k, calls[k])} :: 0 <= k < |calls| ==>
      Answered(d, statuses, limit, shown, k, calls[k])
  }

  /** Calls for one page after the other, to the last. */
  ghost predicate IsVisit(d: Data, statuses: seq<Status>, limit: nat, shown: set<Info>, calls: seq<Call>) {
    |shown| <= Start(|calls|, limit) && AllAnswered(d, statuses, limit, shown, calls)
  }

  /** All the entries of all the pages, in the order they were shown. */
  function Seen(calls: seq<Call>): seq<Info> {
    Concatenated(Pages(calls))
  }

  function Pages(calls: seq<Call>): (r: seq<seq<Info>>)
    ensures |r| == |calls| && forall k :: 0 <= k < |calls| ==> r[k] == calls[k].sessions
  {
    seq(|calls|, k requires 0 <= k < |calls| => calls[k].sessions)
  }

  /** The entries on the two sides of each page boundary differ in start time, source or heartbeat. */
  ghost predicate NoTieAcross(all: seq<Info>, size: nat) {
    forall k: nat :: 0 < Start(k, size) < |all| ==> Before(all[Start(k, size) - 1], all[Start(k, size)])
  }

  // ----- a clean cut -----

  ghost predicate SameFirst(a: seq<Info>, c: seq<Info>, b: nat) {
    b <= |a| && b <= |c| && forall x :: x in a[..b] <==> x in c[..b]
  }

  lemma AcrossCut(all: seq<Info>, b: nat, i: nat, j: nat)
    requires Sorted(all) && 0 < b < |all| && Before(all[b - 1], all[b]) && i < b <= j < |all|
    ensures Before(all[i], all[j])
  {
    assert i == b - 1 || !Before(all[b - 1], all[i]);
    assert j == b || !Before(all[j], all[b]);
  }

  /** What is ahead of a clean cut in one list is ahead of it in every list. */
  lemma CutOfAny(shown: set<Info>, all: seq<Info>, c: seq<Info>, b: nat)
    requires IsList(shown, all) && IsList(shown, c)
    requires 0 < b < |all| && Before(all[b - 1], all[b])
    ensures SameFirst(all, c, b)
  {
    EnumerationLength(all, shown);
    EnumerationLength(c, shown);
    forall q | 0 <= q < b ensures c[q] in all[..b] {
      if c[q] !in all[..b] {
        AllAheadOf(shown, all, c, b, q);
        TooFew(all[..b], c[..q]);
      }
    }
    forall x | x in c[..b] ensures x in all[..b] {
      var q :| 0 <= q < b && c[q] == x;
    }
    Pigeonhole(c[..b], all[..b]);
  }

  lemma AllAheadOf(shown: set<Info>, all: seq<Info>, c: seq<Info>, b: nat, q: nat)
    requires IsList(shown, all) && IsList(shown, c) && q < |c|
    requires 0 < b < |all| && Before(all[b - 1], all[b]) && c[q] !in all[..b]
    ensures forall x :: x in all[..b] ==> x in c[..q]
  {
    assert c[q] in shown && c[q] in all;
    SplitMember(all, b, c[q]);
    var j :| 0 <= j < |all[b..]| && all[b..][j] == c[q];
    forall x | x in all[..b] ensures x in c[..q] {
      var i :| 0 <= i < b && all[i] == x;
      AcrossCut(all, b, i, b + j);
      assert x in shown && x in c;
      var p :| 0 <= p < |c| && c[p] == x;
      assert p < q;
      assert c[..q][p] == x;
    }
  }

  lemma TooFew(a: seq<Info>, b: seq<Info>)
    requires Distinct(a) && Distinct(b) && |b| < |a|
    ensures exists x :: x in a && x !in b
  {
    var sa, sb := set x | x in a, set x | x in b;
    EnumerationLength(a, sa);
    EnumerationLength(b, sb);
    if forall x :: x in a ==> x in b {
      SubsetSize(sa, sb);
    }
  }

  /** Two lists that agree on what is ahead of `b` can be joined there. */
  lemma Spliced(shown: set<Info>, a: seq<Info>, c: seq<Info>, b: nat)
    requires IsList(shown, a) && IsList(shown, c) && SameFirst(a, c, b)
    ensures IsList(shown, a[..b] + c[b..])
  {
    var s := a[..b] + c[b..];
    forall i, j | 0 <= i < j < |s| ensures s[i] != s[j] && !Before(s[j], s[i]) {
      if i < b <= j {
        assert a[..b][i] == s[i] && s[i] in c[..b];
        var p :| 0 <= p < b && c[p] == s[i];
        assert s[j] == c[j];
      }
    }
    forall x ensures x in s <==> x in shown {
      SplitMember(a, b, x);
      SplitMember(c, b, x);
    }
  }

  lemma SplitMember(a: seq<Info>, b: nat, x: Info)
    requires b <= |a|
    ensures x in a <==> x in a[..b] || x in a[b..]
  {
    assert a == a[..b] + a[b..];
  }

  // ----- without a tie across a boundary -----

  ghost predicate ListsOf(shown: set<Info>, lists: seq<seq<Info>>) {
    forall k {:trigger IsList(shown, lists[k])} :: 0 <= k < |lists| ==> IsList(shown, lists[k])
  }

  ghost predicate PagesOf(lists: seq<seq<Info>>, size: nat, pages: seq<seq<Info>>) {
    |lists| == |pages| && forall k :: 0 <= k < |pages| ==> pages[k] == Slice(lists[k], Start(k, size), size)
  }

  lemma {:induction false} PagesStartAList(shown: set<Info>, all: seq<Info>, size: nat,
                                           lists: seq<seq<Info>>, pages: seq<seq<Info>>) returns (list: seq<Info>)
    requires IsList(shown, all) && NoTieAcross(all, size)
    requires ListsOf(shown, lists) && PagesOf(lists, size, pages)
    ensures IsList(shown, list) && Concatenated(pages) == list[..Min(Start(|pages|, size), |list|)]
    decreases |pages|
  {
    list := all;
    StartSteps(0, size);
    if pages != [] {
      var n := |pages| - 1;
      list := PagesStartAList(shown, all, size, lists[..n], pages[..n]);
      list := OneMorePage(shown, all, size, list, lists[n], n, Concatenated(pages[..n]), pages[n]);
    }
  }

  lemma SameFirstAtStart(shown: set<Info>, all: seq<Info>, size: nat, a: seq<Info>, c: seq<Info>, n: nat)
    requires IsList(shown, all) && NoTieAcross(all, size) && IsList(shown, a) && IsList(shown, c)
    ensures |a| == |c| && SameFirst(a, c, Min(Start(n, size), |a|))
  {
    EnumerationLength(all, shown);
    EnumerationLength(a, shown);
    EnumerationLength(c, shown);
    var b := Start(n, size);
    if 0 < b < |a| {
      CutOfAny(shown, all, a, b);
      CutOfAny(shown, all, c, b);
    } else if b >= |a| {
      assert a[..|a|] == a && c[..|c|] == c;
    }
  }

  lemma OneMorePage(shown: set<Info>, all: seq<Info>, size: nat, a: seq<Info>, c: seq<Info>, n: nat,
                    seen: seq<Info>, page: seq<Info>) returns (list: seq<Info>)
    requires IsList(shown, all) && NoTieAcross(all, size) && IsList(shown, a) && IsList(shown, c)
    requires seen == a[..Min(Start(n, size), |a|)] && page == Slice(c, Start(n, size), size)
    ensures IsList(shown, list) && seen + page == list[..Min(Start(n + 1, size), |list|)]
  {
    SameFirstAtStart(shown, all, size, a, c, n);
    var b := Min(Start(n, size), |a|);
    Spliced(shown, a, c, b);
    list := a[..b] + c[b..];
    StartSteps(n, size);
    assert list[..Min(Start(n + 1, size), |list|)] == a[..b] + c[b..Min(Start(n + 1, size), |c|)];
  }

  // ----- with a tie across a boundary -----

  /** Two neighbours alike in the order may come either way round. */
  lemma SwappedTie(shown: set<Info>, all: seq<Info>, b: nat) returns (swapped: seq<Info>)
    requires IsList(shown, all) && 0 < b < |all| && !Before(all[b - 1], all[b])
    ensures IsList(shown, swapped) && |swapped| == |all| && swapped[b] == all[b - 1]
  {
    swapped := all[b - 1 := all[b]][b := all[b - 1]];
    forall x ensures x in swapped <==> x in all {
      if x in all {
        var i :| 0 <= i < |all| && all[i] == x;
        assert swapped[if i == b then b - 1 else if i == b - 1 then b else i] == x;
      }
    }
  }

  ghost predicate AllLong(lists: seq<seq<Info>>, m: nat) {
    forall i :: 0 <= i < |lists| ==> |lists[i]| == m
  }

  lemma {:induction false} SeenLength(lists: seq<seq<Info>>, size: nat, pages: seq<seq<Info>>, m: nat)
    requires PagesOf(lists, size, pages) && AllLong(lists, m)
    ensures |Concatenated(pages)| == Min(Start(|pages|, size), m)
    decreases |pages|
  {
    StartSteps(0, size);
    if pages != [] {
      var n := |pages| - 1;
      SeenLength(lists[..n], size, pages[..n], m);
      StartSteps(n, size);
    }
  }

  /** What stands at place `p` of all the pages is what its own page's list has there. */
  lemma {:induction false} SeenAt(lists: seq<seq<Info>>, size: nat, pages: seq<seq<Info>>, m: nat, k: nat, p: nat)
    requires PagesOf(lists, size, pages) && AllLong(lists, m)
    requires k < |pages| && Start(k, size) <= p < Start(k + 1, size) && p < m
    ensures p < |Concatenated(pages)| && Concatenated(pages)[p] == lists[k][p]
    decreases |pages|
  {
    var n := |pages| - 1;
    var seen := Concatenated(pages[..n]);
    SeenLength(lists[..n], size, pages[..n], m);
    assert Concatenated(pages) == seen + pages[n];
    if k < n {
      SeenAt(lists[..n], size, pages[..n], m, k, p);
      assert (seen + pages[n])[p] == seen[p];
    } else {
      assert pages[n][p - |seen|] == lists[n][p];
    }
  }

  /** When one query sees the tie the other way round, one entry is shown twice. */
  lemma ShownTwice(all: seq<Info>, swapped: seq<Info>, size: nat, k: nat, pages: seq<seq<Info>>)
    requires size > 0 && 0 < Start(k, size) < |all| == |swapped|
    requires swapped[Start(k, size)] == all[Start(k, size) - 1]
    requires PagesOf(Repeated(all, swapped, |all|, k), size, pages)
    ensures !Distinct(Concatenated(pages))
  {
    var b, lists := Start(k, size), Repeated(all, swapped, |all|, k);
    StartSteps(0, size);
    StartSteps(k, size);
    StartSteps(k - 1, size);
    SeenAt(lists, size, pages, |all|, k - 1, b - 1);
    SeenAt(lists, size, pages, |all|, k, b);
    assert Concatenated(pages)[b - 1] == Concatenated(pages)[b];
  }

  lemma TieShowsTwice(shown: set<Info>, all: seq<Info>, size: nat, k: nat) returns (lists: seq<seq<Info>>)
    requires size > 0 && IsList(shown, all) && 0 < Start(k, size) < |all|
    requires !Before(all[Start(k, size) - 1], all[Start(k, size)])
    ensures ListsOf(shown, lists) && |lists| == |all|
    ensures forall pages :: PagesOf(lists, size, pages) ==> !Distinct(Concatenated(pages))
  {
    var swapped := SwappedTie(shown, all, Start(k, size));
    lists := Repeated(all, swapped, |all|, k);
    forall pages | PagesOf(lists, size, pages) ensures !Distinct(Concatenated(pages)) {
      ShownTwice(all, swapped, size, k, pages);
    }
  }

  // ----- the calls -----

  lemma ListOfAnswer(d: Data, statuses: seq<Status>, limit: nat, shown: set<Info>, k: nat, c: Call)
    returns (all: seq<Info>)
    requires Answered(d, statuses, limit, shown, k, c)
    ensures IsList(shown, all) && c.sessions == Slice(all, Start(k, limit), limit)
  {
    var taken: seq<Id>;
    taken, all :| IsMerge(d, statuses, c.asked, c.now, taken, all)
      && c.total == |all| && c.sessions == Slice(all, Start(k, limit), limit);
    CompleteIff(d, statuses, taken, c.asked, c.now);
  }

  lemma OneMoreAnswer(d: Data, statuses: seq<Status>, limit: nat, shown: set<Info>, calls: seq<Call>)
    requires AllAnswered(d, statuses, limit, shown, calls) && calls != []
    ensures AllAnswered(d, statuses, limit, shown, calls[..|calls| - 1])
    ensures Answered(d, statuses, limit, shown, |calls| - 1, calls[|calls| - 1])
  {
    var earlier := calls[..|calls| - 1];
    forall k | 0 <= k < |earlier| ensures Answered(d, statuses, limit, shown, k, earlier[k]) {
      assert Answered(d, statuses, limit, shown, k, calls[k]);
    }
  }

  lemma OneMorePageOf(lists: seq<seq<Info>>, size: nat, calls: seq<Call>, all: seq<Info>, c: Call)
    requires PagesOf(lists, size, Pages(calls)) && c.sessions == Slice(all, Start(|calls|, size), size)
    ensures PagesOf(lists + [all], size, Pages(calls + [c]))
  {
    forall k | 0 <= k < |calls| ensures Pages(calls + [c])[k] == Slice(lists[k], Start(k, size), size) {
      assert Pages(calls)[k] == calls[k].sessions;
    }
  }

  lemma OneMoreList(shown: set<Info>, lists: seq<seq<Info>>, all: seq<Info>)
    requires ListsOf(shown, lists) && IsList(shown, all)
    ensures ListsOf(shown, lists + [all])
  {
    forall k | 0 <= k < |lists| ensures IsList(shown, (lists + [all])[k]) {
      assert IsList(shown, lists[k]);
    }
  }

  lemma {:induction false} ListsOfAnswers(d: Data, statuses: seq<Status>, limit: nat, shown: set<Info>, calls: seq<Call>)
    returns (lists: seq<seq<Info>>)
    requires AllAnswered(d, statuses, limit, shown, calls)
    ensures ListsOf(shown, lists) && PagesOf(lists, limit, Pages(calls))
    decreases |calls|
  {
    lists := [];
    if calls != [] {
      var n := |calls| - 1;
      OneMoreAnswer(d, statuses, limit, shown, calls);
      var earlier := ListsOfAnswers(d, statuses, limit, shown, calls[..n]);
      var all := ListOfAnswer(d, statuses, limit, shown, n, calls[n]);
      OneMoreList(shown, earlier, all);
      OneMorePageOf(earlier, limit, calls[..n], all, calls[n]);
      assert calls == calls[..n] + [calls[n]];
      lists := earlier + [all];
    }
  }

  lemma TakenExists(d: Data, statuses: seq<Status>) returns (taken: seq<Id>)
    ensures IsTaken(d, statuses, taken)
  {
    OrdersAreStrict(d, []);
    var ordered := ListingExists(MatchingAgents(d, statuses), LaterHeartbeat(d));
    PrefixIsTaken(d, statuses, ordered);
    taken := ordered[..Min(|ordered|, MAX_MERGE_LIMIT)];
  }

  /** When nothing is cut off, any list of what should be shown may be the one a call cuts up. */
  lemma AnyListAnswers(d: Data, statuses: seq<Status>, limit: nat, asked: int, now: int, k: nat, all: seq<Info>)
    returns (c: Call)
    requires asked <= now && NothingCut(d, statuses, asked, now) && IsList(AllShown(d, statuses, now), all)
    ensures Answered(d, statuses, limit, AllShown(d, statuses, now), k, c)
    ensures c.sessions == Slice(all, Start(k, limit), limit)
  {
    var taken := TakenExists(d, statuses);
    CompleteIff(d, statuses, taken, asked, now);
    c := Call(asked, now, Slice(all, Start(k, limit), limit), |all|);
    assert IsMerge(d, statuses, asked, now, taken, all);
  }

  lemma {:induction false} AnyListsAnswer(d: Data, statuses: seq<Status>, limit: nat, asked: int, now: int,
                                          lists: seq<seq<Info>>) returns (calls: seq<Call>)
    requires asked <= now && NothingCut(d, statuses, asked, now) && ListsOf(AllShown(d, statuses, now), lists)
    ensures |calls| == |lists| && PagesOf(lists, limit, Pages(calls))
    ensures AllAnswered(d, statuses, limit, AllShown(d, statuses, now), calls)
    decreases |lists|
  {
    calls := [];
    if lists != [] {
      var n := |lists| - 1;
      var earlier := AnyListsAnswer(d, statuses, limit, asked, now, lists[..n]);
      var c := AnyListAnswers(d, statuses, limit, asked, now, n, lists[n]);
      OneMorePageOf(lists[..n], limit, earlier, lists[n], c);
      assert lists == lists[..n] + [lists[n]];
      calls := earlier + [c];
    }
  }

  /** Without a tie across a boundary, whatever the queries return, the pages make up a list in order. */
  lemma VisitIsList(d: Data, statuses: seq<Status>, limit: nat, shown: set<Info>, all: seq<Info>, calls: seq<Call>)
    requires IsList(shown, all) && NoTieAcross(all, limit)
    requires IsVisit(d, statuses, limit, shown, calls)
    ensures IsList(shown, Seen(calls))
  {
    var lists := ListsOfAnswers(d, statuses, limit, shown, calls);
    var list := PagesStartAList(shown, all, limit, lists, Pages(calls));
    EnumerationLength(list, shown);
    assert list[..|list|] == list;
  }

  lemma TieCanShowTwice(d: Data, statuses: seq<Status>, limit: nat, asked: int, now: int, all: seq<Info>)
    returns (calls: seq<Call>)
    requires asked <= now && NothingCut(d, statuses, asked, now)
    requires IsList(AllShown(d, statuses, now), all) && !NoTieAcross(all, limit)
    ensures IsVisit(d, statuses, limit, AllShown(d, statuses, now), calls) && !Distinct(Seen(calls))
  {
    var k: nat :| 0 < Start(k, limit) < |all| && !Before(all[Start(k, limit) - 1], all[Start(k, limit)]);
    var lists := TieShowsTwice(AllShown(d, statuses, now), all, limit, k);
    calls := AnyListsAnswer(d, statuses, limit, asked, now, lists);
    EnumerationLength(all, AllShown(d, statuses, now));
    StartSteps(|all|, limit);
  }

  /**
    Calls for all the pages are sure to show each session of the user exactly once iff no two
    entries alike in start time, source and heartbeat lie on the two sides of a page boundary;
    and what they show is then in order.
   */
  lemma PagesShowEachOnceIff(d: Data, statuses: seq<Status>, limit: nat, asked: int, now: int, all: seq<Info>)
    requires asked <= now && NothingCut(d, statuses, asked, now)
    requires IsList(AllShown(d, statuses, now), all)
    ensures (forall calls :: IsVisit(d, statuses, limit, AllShown(d, statuses, now), calls) ==>
               Enumerates(Seen(calls), AllShown(d, statuses, now)))
       <==> NoTieAcross(all, limit)
    ensures NoTieAcross(all, limit) ==>
              forall calls :: IsVisit(d, statuses, limit, AllShown(d, statuses, now), calls) ==>
                IsList(AllShown(d, statuses, now), Seen(calls))
  {
    var shown := AllShown(d, statuses, now);
    if NoTieAcross(all, limit) {
      forall calls | IsVisit(d, statuses, limit, shown, calls) ensures IsList(shown, Seen(calls)) {
        VisitIsList(d, statuses, limit, shown, all, calls);
      }
    } else {
      var calls := TieCanShowTwice(d, statuses, limit, asked, now, all);
    }
  }
}
