/**
  The session list of a user: agent sessions of the user's projects and the user's OAuth access
  tokens, queried apart, merged, filtered by status, sorted newest first and cut into pages.
 */
module SessionMerge {
  import opened Wrappers
  import opened Orders
  import opened RankedPages

  datatype Status = ACTIVE | IDLE | ENDED | TIMEOUT

  datatype AgentSession = AgentSession(projectId: Id, clientId: string, status: Status, startedAt: int,
                                       lastHeartbeat: int, endedAt: Option<int>)

  datatype AccessToken = AccessToken(userId: Id, clientId: string, createdAt: int, expiresAt: int,
                                     revokedAt: Option<int>)

  datatype Source = Agent | OAuth

  datatype Info = Info(id: Id, source: Source, projectId: Option<Id>, clientId: string, status: Status,
                       startedAt: int, lastHeartbeat: int, endedAt: Option<int>)

  /** The two tables, and the projects of the user. */
  datatype Data = Data(agents: map<Id, AgentSession>, tokens: map<Id, AccessToken>, projects: set<Id>, userId: Id)

  const MAX_MERGE_LIMIT := 1000

  // ----- the two sources -----

  function AgentInfo(d: Data, id: Id): Info
    requires id in d.agents
  {
    var a := d.agents[id];
    Info(id, Agent, Some(a.projectId), a.clientId, a.status, a.startedAt, a.lastHeartbeat, a.endedAt)
  }

  function AgentInfos(d: Data, ids: seq<Id>): (r: seq<Info>)
    requires forall id :: id in ids ==> id in d.agents
    ensures |r| == |ids| && forall i :: 0 <= i < |ids| ==> ids[i] in d.agents && r[i] == AgentInfo(d, ids[i])
  {
    if ids == [] then [] else [AgentInfo(d, ids[0])] + AgentInfos(d, ids[1..])
  }

  function TokenStatus(t: AccessToken, now: int): Status {
    if t.revokedAt.Some? then ENDED else if t.expiresAt < now then TIMEOUT else ACTIVE
  }

  function TokenInfo(d: Data, id: Id, now: int): Info
    requires id in d.tokens
  {
    var t := d.tokens[id];
    Info(id, OAuth, None, t.clientId, TokenStatus(t, now), t.createdAt, t.createdAt, t.revokedAt)
  }

  function TokenInfos(d: Data, ids: seq<Id>, now: int): (r: seq<Info>)
    requires forall id :: id in ids ==> id in d.tokens
    ensures |r| == |ids| && forall i :: 0 <= i < |ids| ==> ids[i] in d.tokens && r[i] == TokenInfo(d, ids[i], now)
  {
    if ids == [] then [] else [TokenInfo(d, ids[0], now)] + TokenInfos(d, ids[1..], now)
  }

  function MatchingAgents(d: Data, statuses: seq<Status>): set<Id> {
    set id | id in d.agents && d.agents[id].projectId in d.projects && d.agents[id].status in statuses
  }

  predicate IncludesEnded(statuses: seq<Status>) {
    ENDED in statuses || TIMEOUT in statuses
  }

  /** The tokens the query returns, asked at `asked`. */
  function FetchedTokens(d: Data, statuses: seq<Status>, asked: int): set<Id> {
    set id | id in d.tokens && d.tokens[id].userId == d.userId
      && (IncludesEnded(statuses) || (d.tokens[id].revokedAt.None? && d.tokens[id].expiresAt > asked))
  }

  function UserTokens(d: Data): set<Id> {
    set id | id in d.tokens && d.tokens[id].userId == d.userId
  }

  function LaterHeartbeat(d: Data): (Id, Id) -> bool {
    (a, b) => a in d.agents && b in d.agents && d.agents[a].lastHeartbeat > d.agents[b].lastHeartbeat
  }

  /** `orderBy: lastHeartbeat desc`, `take: 1000`. */
  ghost predicate IsTaken(d: Data, statuses: seq<Status>, taken: seq<Id>) {
    && Distinct(taken) && NoInversion(taken, LaterHeartbeat(d))
    && (forall id :: id in taken ==> id in MatchingAgents(d, statuses))
    && |taken| == Min(|MatchingAgents(d, statuses)|, MAX_MERGE_LIMIT)
    && (forall id, other :: id in taken && other in MatchingAgents(d, statuses) ==>
          LaterHeartbeat(d)(other, id) ==> other in taken)
  }

  // ----- the order of the list -----

  /**
    Newest first; of one start time, agent sessions before tokens; of those agent sessions, the
    latest heartbeat first.  Only entries alike in all three may come either way round.
   */
  predicate Before(x: Info, y: Info) {
    || x.startedAt > y.startedAt
    || (x.startedAt == y.startedAt && x.source == Agent && y.source == OAuth)
    || (x.startedAt == y.startedAt && x.source == y.source && x.lastHeartbeat > y.lastHeartbeat)
  }

  predicate Sorted(s: seq<Info>) {
    forall i, j :: 0 <= i < j < |s| ==> !Before(s[j], s[i])
  }

  predicate SortedByTime(s: seq<Info>) {
    forall i, j :: 0 <= i < j < |s| ==> s[i].startedAt >= s[j].startedAt
  }

  // ----- the merge -----

  function Filtered(s: seq<Info>, statuses: seq<Status>): (r: seq<Info>)
    ensures forall x :: x in r <==> x in s && x.status in statuses
    ensures Distinct(s) ==> Distinct(r)
  {
    if s == [] then []
    else if s[0].status in statuses then [s[0]] + Filtered(s[1..], statuses)
    else Filtered(s[1..], statuses)
  }

  lemma ConsSorted(x: Info, s: seq<Info>)
    requires SortedByTime(s) && forall y :: y in s ==> x.startedAt >= y.startedAt
    ensures SortedByTime([x] + s)
  {
    var r := [x] + s;
    forall i, j | 0 <= i < j < |r| ensures r[i].startedAt >= r[j].startedAt {
      assert r[j] == s[j - 1];
    }
  }

  lemma ConsDistinct(x: Info, s: seq<Info>)
    requires Distinct(s) && x !in s
    ensures Distinct([x] + s)
  {
  }

  /** Puts `x` before the first entry that did not start later. */
  function Inserted(x: Info, s: seq<Info>): (r: seq<Info>)
    requires SortedByTime(s)
    ensures SortedByTime(r)
    ensures forall y :: y in r <==> y == x || y in s
    ensures Distinct(s) && x !in s ==> Distinct(r)
  {
    if s == [] || s[0].startedAt <= x.startedAt then
      ConsSorted(x, s);
      [x] + s
    else
      var rest := Inserted(x, s[1..]);
      ConsSorted(s[0], rest);
      assert Distinct(s) && x !in s ==> Distinct([s[0]] + rest) by {
        if Distinct(s) && x !in s {
          ConsDistinct(s[0], rest);
        }
      }
      [s[0]] + rest
  }

  /** Newest first; entries of one time keep their order. */
  function SortedByStart(s: seq<Info>): (r: seq<Info>)
    ensures SortedByTime(r)
    ensures forall y :: y in r <==> y in s
    ensures Distinct(s) ==> Distinct(r)
  {
    if s == [] then [] else Inserted(s[0], SortedByStart(s[1..]))
  }

  function Merge(agentSessions: seq<Info>, oauthSessions: seq<Info>, statuses: seq<Status>): seq<Info> {
    SortedByStart(Filtered(agentSessions + oauthSessions, statuses))
  }

  // ----- the sort is stable -----

  /** Some place of `x` in `s` is ahead of some place of `y`. */
  ghost predicate Ahead(s: seq<Info>, x: Info, y: Info) {
    exists i, j :: 0 <= i < j < |s| && s[i] == x && s[j] == y
  }

  lemma AheadCons(h: Info, s: seq<Info>, x: Info, y: Info)
    ensures Ahead(s, x, y) ==> Ahead([h] + s, x, y)
    ensures y in s ==> Ahead([h] + s, h, y)
  {
    var r := [h] + s;
    if Ahead(s, x, y) {
      var i, j :| 0 <= i < j < |s| && s[i] == x && s[j] == y;
      assert r[i + 1] == x && r[j + 1] == y;
    }
    if y in s {
      var j :| 0 <= j < |s| && s[j] == y;
      assert r[0] == h && r[j + 1] == y;
    }
  }

  /** `y` stands behind `x` in the result `r` of an insertion for one of three reasons. */
  ghost predicate InOrder(x: Info, s: seq<Info>, y: Info, z: Info) {
    Ahead(s, y, z) || (y == x && z in s) || (z == x && y.startedAt > x.startedAt)
  }

  /** The entry is put behind all that started later, ahead of the rest. */
  lemma {:induction false} InsertedAt(x: Info, s: seq<Info>) returns (k: nat)
    requires SortedByTime(s)
    ensures k <= |s| && Inserted(x, s) == s[..k] + [x] + s[k..]
    ensures forall i :: 0 <= i < k ==> s[i].startedAt > x.startedAt
    decreases s
  {
    k := 0;
    if s != [] && s[0].startedAt > x.startedAt {
      k := InsertedAt(x, s[1..]);
      assert [s[0]] + (s[1..][..k] + [x] + s[1..][k..]) == s[..k + 1] + [x] + s[k + 1..];
      k := k + 1;
    }
  }

  /** Insertion leaves the others in order, and puts `x` behind none that started with it. */
  lemma InsertedOrder(x: Info, s: seq<Info>, i: nat, j: nat)
    requires SortedByTime(s) && i < j < |Inserted(x, s)|
    ensures InOrder(x, s, Inserted(x, s)[i], Inserted(x, s)[j])
  {
    var k := InsertedAt(x, s);
    var r := s[..k] + [x] + s[k..];
    var p, q := if i < k then i else i - 1, if j < k then j else j - 1;
    assert i != k ==> r[i] == s[p];
    assert j != k ==> r[j] == s[q];
  }

  lemma {:induction false} SortIsStable(s: seq<Info>, i: nat, j: nat)
    requires i < j < |SortedByStart(s)|
    ensures var r := SortedByStart(s); r[i].startedAt > r[j].startedAt || Ahead(s, r[i], r[j])
    decreases s
  {
    if s != [] {
      var x, rest := s[0], SortedByStart(s[1..]);
      var r := SortedByStart(s);
      assert s == [x] + s[1..];
      InsertedOrder(x, rest, i, j);
      AheadCons(x, s[1..], r[i], r[j]);
      if Ahead(rest, r[i], r[j]) {
        var p, q :| 0 <= p < q < |rest| && rest[p] == r[i] && rest[q] == r[j];
        SortIsStable(s[1..], p, q);
      }
    }
  }

  lemma AheadUncons(h: Info, s: seq<Info>, x: Info, y: Info)
    requires Ahead([h] + s, x, y)
    ensures y in s && (x == h || Ahead(s, x, y))
  {
    var r := [h] + s;
    var i, j :| 0 <= i < j < |r| && r[i] == x && r[j] == y;
    assert s[j - 1] == y;
    if i > 0 {
      assert s[i - 1] == x;
    }
  }

  lemma {:induction false} FilterKeepsOrder(s: seq<Info>, statuses: seq<Status>, x: Info, y: Info)
    requires Ahead(Filtered(s, statuses), x, y)
    ensures Ahead(s, x, y)
    decreases s
  {
    var rest := Filtered(s[1..], statuses);
    assert s == [s[0]] + s[1..];
    AheadCons(s[0], s[1..], x, y);
    if s[0].status in statuses {
      AheadUncons(s[0], rest, x, y);
      if Ahead(rest, x, y) {
        FilterKeepsOrder(s[1..], statuses, x, y);
      }
    } else {
      FilterKeepsOrder(s[1..], statuses, x, y);
    }
  }

  /** Two entries of one start time stand in the merged list as they stood in the queries' results. */
  lemma MergeKeepsOrder(a: seq<Info>, b: seq<Info>, statuses: seq<Status>, i: nat, j: nat)
    requires i < j < |Merge(a, b, statuses)|
    ensures var all := Merge(a, b, statuses);
            all[i].startedAt > all[j].startedAt || Ahead(a + b, all[i], all[j])
  {
    var all := Merge(a, b, statuses);
    SortIsStable(Filtered(a + b, statuses), i, j);
    if all[i].startedAt <= all[j].startedAt {
      FilterKeepsOrder(a + b, statuses, all[i], all[j]);
    }
  }

  // ----- what the list holds -----

  /** The agent sessions and tokens with these ids, of a requested status. */
  function Shown(d: Data, agents: set<Id>, tokens: set<Id>, statuses: seq<Status>, now: int): set<Info>
    requires agents <= d.agents.Keys && tokens <= d.tokens.Keys
  {
    (set id | id in agents :: AgentInfo(d, id))
    + (set id | id in tokens && TokenStatus(d.tokens[id], now) in statuses :: TokenInfo(d, id, now))
  }

  /** Everything the list should hold. */
  function AllShown(d: Data, statuses: seq<Status>, now: int): set<Info> {
    Shown(d, MatchingAgents(d, statuses), UserTokens(d), statuses, now)
  }

  function Elements(s: seq<Id>): set<Id> {
    set x | x in s
  }

  /** A list of `shown` in the order of the code. */
  ghost predicate IsList(shown: set<Info>, all: seq<Info>) {
    Enumerates(all, shown) && Sorted(all)
  }

  function NewerToken(d: Data): (Id, Id) -> bool {
    (a, b) => a in d.tokens && b in d.tokens && d.tokens[a].createdAt > d.tokens[b].createdAt
  }

  /** What the two queries may return. */
  ghost predicate AreQueried(d: Data, statuses: seq<Status>, asked: int, ids: seq<Id>, tokenIds: seq<Id>) {
    IsTaken(d, statuses, ids) && OrderedBy(tokenIds, FetchedTokens(d, statuses, asked), NewerToken(d))
  }

  lemma AppendDistinct(a: seq<Info>, b: seq<Info>)
    requires Distinct(a) && Distinct(b) && forall x :: x in a ==> x !in b
    ensures Distinct(a + b)
  {
    var both := a + b;
    forall i, j | 0 <= i < j < |both| ensures both[i] != both[j] {
      if i < |a| <= j {
        assert both[i] in a && both[j] == b[j - |a|];
      }
    }
  }

  lemma InfosDistinct(d: Data, ids: seq<Id>, tokenIds: seq<Id>, now: int)
    requires Distinct(ids) && Distinct(tokenIds)
    requires (forall id :: id in ids ==> id in d.agents) && (forall id :: id in tokenIds ==> id in d.tokens)
    ensures Distinct(AgentInfos(d, ids) + TokenInfos(d, tokenIds, now))
  {
    var a, b := AgentInfos(d, ids), TokenInfos(d, tokenIds, now);
    forall i, j | 0 <= i < j < |a| ensures a[i] != a[j] {
      assert a[i].id == ids[i] && a[j].id == ids[j];
    }
    forall i, j | 0 <= i < j < |b| ensures b[i] != b[j] {
      assert b[i].id == tokenIds[i] && b[j].id == tokenIds[j];
    }
    AppendDistinct(a, b);
  }

  lemma InfoOf(d: Data, ids: seq<Id>, tokenIds: seq<Id>, now: int, x: Info)
    requires (forall id :: id in ids ==> id in d.agents) && (forall id :: id in tokenIds ==> id in d.tokens)
    ensures x in AgentInfos(d, ids) <==> x.id in ids && x == AgentInfo(d, x.id)
    ensures x in TokenInfos(d, tokenIds, now) <==> x.id in tokenIds && x == TokenInfo(d, x.id, now)
  {
    if x.id in ids && x == AgentInfo(d, x.id) {
      var i :| 0 <= i < |ids| && ids[i] == x.id;
      assert AgentInfos(d, ids)[i] == x;
    }
    if x.id in tokenIds && x == TokenInfo(d, x.id, now) {
      var i :| 0 <= i < |tokenIds| && tokenIds[i] == x.id;
      assert TokenInfos(d, tokenIds, now)[i] == x;
    }
  }

  lemma MergedIsShown(d: Data, statuses: seq<Status>, asked: int, now: int, ids: seq<Id>, tokenIds: seq<Id>)
    requires AreQueried(d, statuses, asked, ids, tokenIds)
    ensures Enumerates(Merge(AgentInfos(d, ids), TokenInfos(d, tokenIds, now), statuses),
                       Shown(d, Elements(ids), FetchedTokens(d, statuses, asked), statuses, now))
  {
    InfosDistinct(d, ids, tokenIds, now);
    var a, b := AgentInfos(d, ids), TokenInfos(d, tokenIds, now);
    var shown := Shown(d, Elements(ids), FetchedTokens(d, statuses, asked), statuses, now);
    forall x: Info ensures x in a + b && x.status in statuses <==> x in shown {
      InfoOf(d, ids, tokenIds, now, x);
    }
  }

  lemma AheadInConcat(a: seq<Info>, b: seq<Info>, x: Info, y: Info)
    requires Ahead(a + b, x, y)
    ensures Ahead(a, x, y) || Ahead(b, x, y) || (x in a && y in b)
  {
    var both := a + b;
    var i, j :| 0 <= i < j < |both| && both[i] == x && both[j] == y;
    if j < |a| {
      assert a[i] == x && a[j] == y;
    } else if i >= |a| {
      assert b[i - |a|] == x && b[j - |a|] == y;
    } else {
      assert a[i] == x && b[j - |a|] == y;
    }
  }

  ghost predicate IdsAhead(ids: seq<Id>, p: Id, q: Id) {
    exists i, j :: 0 <= i < j < |ids| && ids[i] == p && ids[j] == q
  }

  lemma AgentsAhead(d: Data, ids: seq<Id>, x: Info, y: Info)
    requires (forall id :: id in ids ==> id in d.agents) && Ahead(AgentInfos(d, ids), x, y)
    ensures IdsAhead(ids, x.id, y.id) && x.source == Agent && y.source == Agent
    ensures NoInversion(ids, LaterHeartbeat(d)) ==> x.lastHeartbeat >= y.lastHeartbeat
  {
    var a := AgentInfos(d, ids);
    var i, j :| 0 <= i < j < |a| && a[i] == x && a[j] == y;
    assert ids[i] == x.id && ids[j] == y.id;
    if NoInversion(ids, LaterHeartbeat(d)) {
      assert !LaterHeartbeat(d)(ids[j], ids[i]);
    }
  }

  lemma TokensAhead(d: Data, tokenIds: seq<Id>, now: int, x: Info, y: Info)
    requires (forall id :: id in tokenIds ==> id in d.tokens) && Ahead(TokenInfos(d, tokenIds, now), x, y)
    ensures IdsAhead(tokenIds, x.id, y.id) && x.source == OAuth && y.source == OAuth
    ensures x.lastHeartbeat == x.startedAt && y.lastHeartbeat == y.startedAt
  {
    var b := TokenInfos(d, tokenIds, now);
    var i, j :| 0 <= i < j < |b| && b[i] == x && b[j] == y;
    assert tokenIds[i] == x.id && tokenIds[j] == y.id;
  }

  /** How two entries of one start time stand in the merged list: as in their query, agents first. */
  ghost predicate AsQueried(ids: seq<Id>, tokenIds: seq<Id>, x: Info, y: Info) {
    || (x.source == Agent && y.source == OAuth)
    || (x.source == Agent && y.source == Agent && IdsAhead(ids, x.id, y.id) && x.lastHeartbeat >= y.lastHeartbeat)
    || (x.source == OAuth && y.source == OAuth && IdsAhead(tokenIds, x.id, y.id)
        && x.lastHeartbeat == x.startedAt && y.lastHeartbeat == y.startedAt)
  }

  lemma AheadInBoth(d: Data, ids: seq<Id>, tokenIds: seq<Id>, now: int, x: Info, y: Info)
    requires (forall id :: id in ids ==> id in d.agents) && (forall id :: id in tokenIds ==> id in d.tokens)
    requires NoInversion(ids, LaterHeartbeat(d))
    requires Ahead(AgentInfos(d, ids) + TokenInfos(d, tokenIds, now), x, y)
    ensures AsQueried(ids, tokenIds, x, y)
  {
    var a, b := AgentInfos(d, ids), TokenInfos(d, tokenIds, now);
    AheadInConcat(a, b, x, y);
    if Ahead(a, x, y) {
      AgentsAhead(d, ids, x, y);
    } else if Ahead(b, x, y) {
      TokensAhead(d, tokenIds, now, x, y);
    }
  }

  lemma MergedAsQueried(d: Data, statuses: seq<Status>, now: int, ids: seq<Id>, tokenIds: seq<Id>, i: nat, j: nat)
    requires (forall id :: id in ids ==> id in d.agents) && (forall id :: id in tokenIds ==> id in d.tokens)
    requires NoInversion(ids, LaterHeartbeat(d))
    requires i < j < |Merge(AgentInfos(d, ids), TokenInfos(d, tokenIds, now), statuses)|
    ensures var all := Merge(AgentInfos(d, ids), TokenInfos(d, tokenIds, now), statuses);
            || all[i].startedAt > all[j].startedAt
            || (all[i].startedAt == all[j].startedAt && AsQueried(ids, tokenIds, all[i], all[j]))
  {
    var a, b := AgentInfos(d, ids), TokenInfos(d, tokenIds, now);
    var all := Merge(a, b, statuses);
    assert SortedByTime(all);
    MergeKeepsOrder(a, b, statuses, i, j);
    if all[i].startedAt <= all[j].startedAt {
      AheadInBoth(d, ids, tokenIds, now, all[i], all[j]);
    }
  }

  lemma QueriedNotBefore(ids: seq<Id>, tokenIds: seq<Id>, x: Info, y: Info)
    requires x.startedAt > y.startedAt || (x.startedAt == y.startedAt && AsQueried(ids, tokenIds, x, y))
    ensures !Before(y, x)
  {
  }

  lemma MergedIsSorted(d: Data, statuses: seq<Status>, now: int, ids: seq<Id>, tokenIds: seq<Id>)
    requires (forall id :: id in ids ==> id in d.agents) && (forall id :: id in tokenIds ==> id in d.tokens)
    requires NoInversion(ids, LaterHeartbeat(d))
    ensures Sorted(Merge(AgentInfos(d, ids), TokenInfos(d, tokenIds, now), statuses))
  {
    var all := Merge(AgentInfos(d, ids), TokenInfos(d, tokenIds, now), statuses);
    forall i, j | 0 <= i < j < |all| ensures !Before(all[j], all[i]) {
      MergedAsQueried(d, statuses, now, ids, tokenIds, i, j);
      QueriedNotBefore(ids, tokenIds, all[i], all[j]);
    }
  }

  /** Whatever the queries return, the merged list is in the order of the code. */
  lemma MergedIsList(d: Data, statuses: seq<Status>, asked: int, now: int, ids: seq<Id>, tokenIds: seq<Id>)
    requires AreQueried(d, statuses, asked, ids, tokenIds)
    ensures IsList(Shown(d, Elements(ids), FetchedTokens(d, statuses, asked), statuses, now),
                   Merge(AgentInfos(d, ids), TokenInfos(d, tokenIds, now), statuses))
  {
    MergedIsShown(d, statuses, asked, now, ids, tokenIds);
    MergedIsSorted(d, statuses, now, ids, tokenIds);
  }

  // ----- every such list can come about -----

  /** The place of the entry with this source and id. */
  function PlaceOf(all: seq<Info>, source: Source, id: Id): (p: nat)
    ensures p <= |all|
    ensures p < |all| ==> all[p].source == source && all[p].id == id
    ensures forall i :: 0 <= i < p ==> !(all[i].source == source && all[i].id == id)
  {
    if all == [] || (all[0].source == source && all[0].id == id) then 0 else 1 + PlaceOf(all[1..], source, id)
  }

  /** By heartbeat, and of one heartbeat as in `all`. */
  function AgentOrder(d: Data, all: seq<Info>): (Id, Id) -> bool {
    (a, b) => LaterHeartbeat(d)(a, b) ||
      (a in d.agents && b in d.agents && d.agents[a].lastHeartbeat == d.agents[b].lastHeartbeat
       && PlaceOf(all, Agent, a) < PlaceOf(all, Agent, b))
  }

  /** By creation, and of one creation time as in `all`. */
  function TokenOrder(d: Data, all: seq<Info>): (Id, Id) -> bool {
    (a, b) => NewerToken(d)(a, b) ||
      (a in d.tokens && b in d.tokens && d.tokens[a].createdAt == d.tokens[b].createdAt
       && PlaceOf(all, OAuth, a) < PlaceOf(all, OAuth, b))
  }

  ghost predicate OnePerId(all: seq<Info>) {
    forall i, j :: 0 <= i < j < |all| ==> !(all[i].source == all[j].source && all[i].id == all[j].id)
  }

  lemma PlaceOfEntry(all: seq<Info>, i: nat)
    requires OnePerId(all) && i < |all|
    ensures PlaceOf(all, all[i].source, all[i].id) == i
  {
    var p := PlaceOf(all, all[i].source, all[i].id);
    assert p <= i;
  }

  lemma ListHasOnePerId(d: Data, agents: set<Id>, tokens: set<Id>, statuses: seq<Status>, now: int, all: seq<Info>)
    requires agents <= d.agents.Keys && tokens <= d.tokens.Keys
    requires Enumerates(all, Shown(d, agents, tokens, statuses, now))
    ensures OnePerId(all)
  {
    forall i, j | 0 <= i < j < |all| ensures !(all[i].source == all[j].source && all[i].id == all[j].id) {
      assert all[i] in Shown(d, agents, tokens, statuses, now) && all[j] in Shown(d, agents, tokens, statuses, now);
    }
  }

  lemma ShownEntry(d: Data, agents: set<Id>, tokens: set<Id>, statuses: seq<Status>, now: int, x: Info)
    requires agents <= d.agents.Keys && tokens <= d.tokens.Keys && x in Shown(d, agents, tokens, statuses, now)
    ensures x.source == Agent ==> x.id in agents && x == AgentInfo(d, x.id)
    ensures x.source == OAuth ==> x.id in tokens && x == TokenInfo(d, x.id, now)
  {
  }

  lemma OrdersAreStrict(d: Data, all: seq<Info>)
    ensures StrictOrder(LaterHeartbeat(d)) && StrictOrder(NewerToken(d))
    ensures StrictOrder(AgentOrder(d, all)) && StrictOrder(TokenOrder(d, all))
  {
  }

  /** The taken sessions, in heartbeat order and of one heartbeat as in `all`, could have been returned just so. */
  lemma TakenInOrder(d: Data, statuses: seq<Status>, taken: seq<Id>, all: seq<Info>) returns (ids: seq<Id>)
    requires IsTaken(d, statuses, taken)
    ensures IsTaken(d, statuses, ids) && Elements(ids) == Elements(taken) && NoInversion(ids, AgentOrder(d, all))
  {
    OrdersAreStrict(d, all);
    ids := ListingExists(Elements(taken), AgentOrder(d, all));
    assert forall x :: x in ids <==> x in taken;
    EnumerationLength(ids, Elements(taken));
    EnumerationLength(taken, Elements(taken));
    forall i, j | 0 <= i < j < |ids| ensures !LaterHeartbeat(d)(ids[j], ids[i]) {
      assert !AgentOrder(d, all)(ids[j], ids[i]);
    }
  }

  lemma TokensInOrder(d: Data, statuses: seq<Status>, asked: int, all: seq<Info>) returns (tokenIds: seq<Id>)
    ensures OrderedBy(tokenIds, FetchedTokens(d, statuses, asked), NewerToken(d))
    ensures NoInversion(tokenIds, TokenOrder(d, all))
  {
    OrdersAreStrict(d, all);
    tokenIds := ListingExists(FetchedTokens(d, statuses, asked), TokenOrder(d, all));
    forall i, j | 0 <= i < j < |tokenIds| ensures !NewerToken(d)(tokenIds[j], tokenIds[i]) {
      assert !TokenOrder(d, all)(tokenIds[j], tokenIds[i]);
    }
  }

  function Place(all: seq<Info>, x: Info): nat {
    PlaceOf(all, x.source, x.id)
  }

  lemma BeforeInPlace(all: seq<Info>, x: Info, y: Info)
    requires Sorted(all) && OnePerId(all) && x in all && y in all && Before(x, y)
    ensures Place(all, x) < Place(all, y)
  {
    var i :| 0 <= i < |all| && all[i] == x;
    var j :| 0 <= j < |all| && all[j] == y;
    PlaceOfEntry(all, i);
    PlaceOfEntry(all, j);
  }

  lemma IdsAheadInOrder(ids: seq<Id>, less: (Id, Id) -> bool, p: Id, q: Id)
    requires NoInversion(ids, less) && IdsAhead(ids, p, q)
    ensures !less(q, p)
  {
    var i, j :| 0 <= i < j < |ids| && ids[i] == p && ids[j] == q;
    assert !less(ids[j], ids[i]);
  }

  /** Queried in the order of `all`, two entries come out of the merge in the order of `all`. */
  lemma QueriedInPlace(d: Data, statuses: seq<Status>, now: int, all: seq<Info>, agents: set<Id>, tokens: set<Id>,
                       ids: seq<Id>, tokenIds: seq<Id>, x: Info, y: Info)
    requires agents <= d.agents.Keys && tokens <= d.tokens.Keys
    requires IsList(Shown(d, agents, tokens, statuses, now), all) && x in all && y in all
    requires NoInversion(ids, AgentOrder(d, all)) && NoInversion(tokenIds, TokenOrder(d, all))
    requires x.startedAt > y.startedAt || (x.startedAt == y.startedAt && AsQueried(ids, tokenIds, x, y))
    ensures Place(all, x) <= Place(all, y)
  {
    ListHasOnePerId(d, agents, tokens, statuses, now, all);
    ShownEntry(d, agents, tokens, statuses, now, x);
    ShownEntry(d, agents, tokens, statuses, now, y);
    if Before(x, y) {
      BeforeInPlace(all, x, y);
    } else if x.source == Agent {
      IdsAheadInOrder(ids, AgentOrder(d, all), x.id, y.id);
    } else {
      IdsAheadInOrder(tokenIds, TokenOrder(d, all), x.id, y.id);
    }
  }

  function InPlace(all: seq<Info>): (Info, Info) -> bool {
    (x, y) => Place(all, x) < Place(all, y)
  }

  lemma SameByPlace(s: seq<Info>, all: seq<Info>)
    requires OnePerId(all) && Distinct(s) && Distinct(all) && forall x :: x in s <==> x in all
    requires forall i, j :: 0 <= i < j < |s| ==> Place(all, s[i]) <= Place(all, s[j])
    ensures s == all
  {
    forall i, j | 0 <= i < j < |all| ensures InPlace(all)(all[i], all[j]) {
      PlaceOfEntry(all, i);
      PlaceOfEntry(all, j);
    }
    StrictOrderUnique(s, all, InPlace(all));
  }

  /** The order of the list leaves open nothing else: any such list is the merge of what some queries return. */
  lemma MergeRealizable(d: Data, statuses: seq<Status>, asked: int, now: int, taken: seq<Id>, all: seq<Info>)
    returns (ids: seq<Id>, tokenIds: seq<Id>)
    requires IsTaken(d, statuses, taken)
    requires IsList(Shown(d, Elements(taken), FetchedTokens(d, statuses, asked), statuses, now), all)
    ensures AreQueried(d, statuses, asked, ids, tokenIds) && Elements(ids) == Elements(taken)
    ensures Merge(AgentInfos(d, ids), TokenInfos(d, tokenIds, now), statuses) == all
  {
    ids := TakenInOrder(d, statuses, taken, all);
    tokenIds := TokensInOrder(d, statuses, asked, all);
    var tokens := FetchedTokens(d, statuses, asked);
    var merged := Merge(AgentInfos(d, ids), TokenInfos(d, tokenIds, now), statuses);
    MergedIsShown(d, statuses, asked, now, ids, tokenIds);
    ListHasOnePerId(d, Elements(taken), tokens, statuses, now, all);
    forall i, j | 0 <= i < j < |merged| ensures Place(all, merged[i]) <= Place(all, merged[j]) {
      MergedAsQueried(d, statuses, now, ids, tokenIds, i, j);
      QueriedInPlace(d, statuses, now, all, Elements(taken), tokens, ids, tokenIds, merged[i], merged[j]);
    }
    SameByPlace(merged, all);
  }

  // ----- the call -----

  lemma PrefixIsTaken(d: Data, statuses: seq<Status>, ordered: seq<Id>)
    requires OrderedBy(ordered, MatchingAgents(d, statuses), LaterHeartbeat(d))
    ensures IsTaken(d, statuses, ordered[..Min(|ordered|, MAX_MERGE_LIMIT)])
  {
    var taken := ordered[..Min(|ordered|, MAX_MERGE_LIMIT)];
    EnumerationLength(ordered, MatchingAgents(d, statuses));
    forall id, other | id in taken && other in MatchingAgents(d, statuses) && LaterHeartbeat(d)(other, id)
      ensures other in taken
    {
      assert other in ordered;
      var i :| 0 <= i < |taken| && taken[i] == id;
      var j :| 0 <= j < |ordered| && ordered[j] == other;
      assert ordered[i] == id;
    }
  }

  method FindAgentSessions(d: Data, statuses: seq<Status>) returns (taken: seq<Id>)
    ensures IsTaken(d, statuses, taken)
    ensures forall id :: id in taken ==>
              id in d.agents && d.agents[id].projectId in d.projects && d.agents[id].status in statuses
    ensures forall id, other ::
              && id in taken && other in d.agents && other !in taken
              && d.agents[other].projectId in d.projects && d.agents[other].status in statuses ==>
                d.agents[other].lastHeartbeat <= d.agents[id].lastHeartbeat
  {
    var ordered := OrderBy(MatchingAgents(d, statuses), LaterHeartbeat(d));
    PrefixIsTaken(d, statuses, ordered);
    taken := ordered[..Min(|ordered|, MAX_MERGE_LIMIT)];
  }

  /** `all` lists, as of `now`, the sessions `taken` and the tokens fetched at `asked`. */
  ghost predicate IsMerge(d: Data, statuses: seq<Status>, asked: int, now: int, taken: seq<Id>, all: seq<Info>) {
    && IsTaken(d, statuses, taken)
    && IsList(Shown(d, Elements(taken), FetchedTokens(d, statuses, asked), statuses, now), all)
  }

  /** The page and the total are those of a merged list. */
  ghost predicate IsAnswer(d: Data, statuses: seq<Status>, page: nat, limit: nat, asked: int, now: int,
                           sessions: seq<Info>, total: nat)
    requires page >= 1
  {
    exists taken, all :: IsMerge(d, statuses, asked, now, taken, all)
      && total == |all| && sessions == Slice(all, Start(page - 1, limit), limit)
  }

  /** The answers are exactly the pages of what may come out of the merge. */
  lemma AnswerIffMerged(d: Data, statuses: seq<Status>, page: nat, limit: nat, asked: int, now: int,
                        sessions: seq<Info>, total: nat)
    requires page >= 1
    ensures IsAnswer(d, statuses, page, limit, asked, now, sessions, total) <==>
              exists ids, tokenIds :: AreQueried(d, statuses, asked, ids, tokenIds)
                && var all := Merge(AgentInfos(d, ids), TokenInfos(d, tokenIds, now), statuses);
                   total == |all| && sessions == Slice(all, Start(page - 1, limit), limit)
  {
    if IsAnswer(d, statuses, page, limit, asked, now, sessions, total) {
      var taken, all :| IsMerge(d, statuses, asked, now, taken, all)
        && total == |all| && sessions == Slice(all, Start(page - 1, limit), limit);
      var ids, tokenIds := MergeRealizable(d, statuses, asked, now, taken, all);
    }
    forall ids, tokenIds | AreQueried(d, statuses, asked, ids, tokenIds)
      ensures IsMerge(d, statuses, asked, now, ids, Merge(AgentInfos(d, ids), TokenInfos(d, tokenIds, now), statuses))
    {
      MergedIsList(d, statuses, asked, now, ids, tokenIds);
    }
  }

  // ----- the entries, column by column -----

  /** The entry shows a stored agent session of one of the user's projects. */
  ghost predicate IsAgentEntry(d: Data, x: Info) {
    && x.id in d.agents && d.agents[x.id].projectId in d.projects
    && var a := d.agents[x.id];
       x.projectId == Some(a.projectId) && x.clientId == a.clientId && x.status == a.status
       && x.startedAt == a.startedAt && x.lastHeartbeat == a.lastHeartbeat && x.endedAt == a.endedAt
  }

  /** The entry shows a stored access token of the user, as it is at `now`. */
  ghost predicate IsTokenEntry(d: Data, now: int, x: Info) {
    && x.id in d.tokens && d.tokens[x.id].userId == d.userId
    && var t := d.tokens[x.id];
       x.projectId == None && x.clientId == t.clientId
       && x.startedAt == t.createdAt && x.lastHeartbeat == t.createdAt && x.endedAt == t.revokedAt
       && (x.status == ENDED <==> t.revokedAt.Some?)
       && (x.status == TIMEOUT <==> t.revokedAt.None? && t.expiresAt < now)
       && (x.status == ACTIVE <==> t.revokedAt.None? && t.expiresAt >= now)
  }

  ghost predicate IsEntry(d: Data, statuses: seq<Status>, now: int, x: Info) {
    x.status in statuses && if x.source == Agent then IsAgentEntry(d, x) else IsTokenEntry(d, now, x)
  }

  lemma AllShownIff(d: Data, statuses: seq<Status>, now: int, x: Info)
    ensures x in AllShown(d, statuses, now) <==> IsEntry(d, statuses, now, x)
  {
    if x.source == Agent && IsEntry(d, statuses, now, x) {
      assert x == AgentInfo(d, x.id);
    }
    if x.source == OAuth && IsEntry(d, statuses, now, x) {
      assert x == TokenInfo(d, x.id, now);
    }
  }

  lemma ShownAreEntries(d: Data, statuses: seq<Status>, asked: int, now: int, taken: seq<Id>, x: Info)
    requires IsTaken(d, statuses, taken)
    requires x in Shown(d, Elements(taken), FetchedTokens(d, statuses, asked), statuses, now)
    ensures IsEntry(d, statuses, now, x)
  {
    assert x in AllShown(d, statuses, now);
    AllShownIff(d, statuses, now, x);
  }

  /**
    The list holds every session it should iff at most 1000 agent sessions match and, when ended ones
    are not asked for but active ones are, no unrevoked token of the user expires at the very instant
    of its query.
   */
  lemma ListedIff(d: Data, statuses: seq<Status>, asked: int, now: int, taken: seq<Id>, all: seq<Info>)
    requires IsMerge(d, statuses, asked, now, taken, all) && asked <= now
    ensures forall x :: x in all ==> IsEntry(d, statuses, now, x)
    ensures (forall x :: IsEntry(d, statuses, now, x) ==> x in all) <==>
              && |set id | id in d.agents && d.agents[id].projectId in d.projects && d.agents[id].status in statuses| <= 1000
              && (asked == now && ACTIVE in statuses && ENDED !in statuses && TIMEOUT !in statuses ==>
                    forall id :: id in d.tokens && d.tokens[id].userId == d.userId && d.tokens[id].revokedAt.None? ==>
                      d.tokens[id].expiresAt != now)
  {
    var got := Shown(d, Elements(taken), FetchedTokens(d, statuses, asked), statuses, now);
    forall x | x in all ensures IsEntry(d, statuses, now, x) {
      ShownAreEntries(d, statuses, asked, now, taken, x);
    }
    forall x ensures x in AllShown(d, statuses, now) <==> IsEntry(d, statuses, now, x) {
      AllShownIff(d, statuses, now, x);
    }
    CompleteIff(d, statuses, taken, asked, now);
    assert MatchingAgents(d, statuses)
        == set id | id in d.agents && d.agents[id].projectId in d.projects && d.agents[id].status in statuses;
    if forall x :: IsEntry(d, statuses, now, x) ==> x in all {
      assert got == AllShown(d, statuses, now);
    }
  }

  /** An agent session that is left out was heard of no later than any that is listed. */
  lemma LeftOutIsOlder(d: Data, statuses: seq<Status>, asked: int, now: int, taken: seq<Id>, all: seq<Info>,
                       x: Info, y: Info)
    requires IsMerge(d, statuses, asked, now, taken, all)
    requires x in all && x.source == Agent
    requires IsEntry(d, statuses, now, y) && y.source == Agent && y !in all
    ensures y.lastHeartbeat <= x.lastHeartbeat
  {
    assert y == AgentInfo(d, y.id) && y.id in MatchingAgents(d, statuses);
    assert y.id !in taken;
    assert x.id in taken && x == AgentInfo(d, x.id);
    assert !LaterHeartbeat(d)(y.id, x.id);
  }

  /** Newest first, then agent sessions before tokens, then the latest heartbeat first. */
  lemma SliceInOrder(all: seq<Info>, offset: nat, limit: nat)
    requires Sorted(all)
    ensures var s := Slice(all, offset, limit);
            forall i, j :: 0 <= i < j < |s| ==>
              || s[i].startedAt > s[j].startedAt
              || (s[i].startedAt == s[j].startedAt && s[i].source == Agent && s[j].source == OAuth)
              || (s[i].startedAt == s[j].startedAt && s[i].source == s[j].source && s[i].lastHeartbeat >= s[j].lastHeartbeat)
  {
    var s := Slice(all, offset, limit);
    forall i, j | 0 <= i < j < |s| ensures !Before(s[j], s[i]) {
      assert s[i] == all[Min(offset, |all|) + i] && s[j] == all[Min(offset, |all|) + j];
    }
  }

  /** `asked` is when the token query ran. */
  method GetSessionsByUser(d: Data, statuses: seq<Status>, page: nat, limit: nat, asked: int, now: int)
    returns (sessions: seq<Info>, total: nat)
    requires page >= 1
    ensures IsAnswer(d, statuses, page, limit, asked, now, sessions, total)
    ensures |sessions| <= limit && forall x :: x in sessions ==> IsEntry(d, statuses, now, x)
    ensures forall i, j :: 0 <= i < j < |sessions| ==>
              || sessions[i].startedAt > sessions[j].startedAt
              || (sessions[i].startedAt == sessions[j].startedAt
                  && sessions[i].source == Agent && sessions[j].source == OAuth)
              || (sessions[i].startedAt == sessions[j].startedAt && sessions[i].source == sessions[j].source
                  && sessions[i].lastHeartbeat >= sessions[j].lastHeartbeat)
  {
    var ids := FindAgentSessions(d, statuses);
    var tokenIds := OrderBy(FetchedTokens(d, statuses, asked), NewerToken(d));
    var agentSessions := AgentInfos(d, ids);
    var oauthSessions := TokenInfos(d, tokenIds, now);
    var allSessions := Merge(agentSessions, oauthSessions, statuses);
    MergedIsList(d, statuses, asked, now, ids, tokenIds);
    assert IsMerge(d, statuses, asked, now, ids, allSessions);
    total := |allSessions|;
    sessions := Slice(allSessions, Start(page - 1, limit), limit);
    SliceInOrder(allSessions, Start(page - 1, limit), limit);
    forall x | x in sessions ensures IsEntry(d, statuses, now, x) {
      ShownAreEntries(d, statuses, asked, now, ids, x);
    }
  }

  // ----- what is missing -----

  /** The query, asked at `asked`, drops a token that would be listed at `now`. */
  predicate Lost(t: AccessToken, statuses: seq<Status>, asked: int, now: int) {
    TokenStatus(t, now) in statuses && !IncludesEnded(statuses) && !(t.revokedAt.None? && t.expiresAt > asked)
  }

  /** Dropping revoked and expired tokens in the query loses only a token that expires at that very instant. */
  lemma LostAtTheInstantOnly(t: AccessToken, statuses: seq<Status>, asked: int, now: int)
    requires asked <= now
    ensures Lost(t, statuses, asked, now) <==>
              ACTIVE in statuses && !IncludesEnded(statuses)
              && t.revokedAt.None? && t.expiresAt == now && asked == now
  {
  }

  lemma TakenAll(d: Data, statuses: seq<Status>, taken: seq<Id>)
    requires IsTaken(d, statuses, taken)
    ensures Elements(taken) == MatchingAgents(d, statuses) <==> |MatchingAgents(d, statuses)| <= MAX_MERGE_LIMIT
  {
    var matching := MatchingAgents(d, statuses);
    EnumerationLength(taken, Elements(taken));
    if |matching| <= MAX_MERGE_LIMIT && Elements(taken) != matching {
      var x :| x in matching && x !in Elements(taken);
      SubsetSize(Elements(taken), matching - {x});
    }
  }

  /** Only active sessions are asked for, and an unrevoked token of the user expires at `now`, when its query runs. */
  predicate ExpiresAsAsked(d: Data, statuses: seq<Status>, asked: int, now: int) {
    && asked == now && ACTIVE in statuses && !IncludesEnded(statuses)
    && exists id :: id in UserTokens(d) && d.tokens[id].revokedAt.None? && d.tokens[id].expiresAt == now
  }

  /** At most 1000 agent sessions match, and no listed token expires at the very instant of the query. */
  predicate NothingCut(d: Data, statuses: seq<Status>, asked: int, now: int) {
    |MatchingAgents(d, statuses)| <= MAX_MERGE_LIMIT && !ExpiresAsAsked(d, statuses, asked, now)
  }

  lemma NoneLostIff(d: Data, statuses: seq<Status>, asked: int, now: int)
    requires asked <= now
    ensures (forall id :: id in UserTokens(d) ==> !Lost(d.tokens[id], statuses, asked, now))
       <==> !ExpiresAsAsked(d, statuses, asked, now)
  {
    forall id | id in UserTokens(d)
      ensures Lost(d.tokens[id], statuses, asked, now) ==> ExpiresAsAsked(d, statuses, asked, now)
    {
      LostAtTheInstantOnly(d.tokens[id], statuses, asked, now);
    }
    if ExpiresAsAsked(d, statuses, asked, now) {
      var id :| id in UserTokens(d) && d.tokens[id].revokedAt.None? && d.tokens[id].expiresAt == now;
      LostAtTheInstantOnly(d.tokens[id], statuses, asked, now);
    }
  }

  /** When the list holds everything it should. */
  lemma CompleteIff(d: Data, statuses: seq<Status>, taken: seq<Id>, asked: int, now: int)
    requires IsTaken(d, statuses, taken) && asked <= now
    ensures Shown(d, Elements(taken), FetchedTokens(d, statuses, asked), statuses, now) == AllShown(d, statuses, now)
       <==> NothingCut(d, statuses, asked, now)
  {
    TakenAll(d, statuses, taken);
    NoneLostIff(d, statuses, asked, now);
    var got := Shown(d, Elements(taken), FetchedTokens(d, statuses, asked), statuses, now);
    var want := AllShown(d, statuses, now);
    forall id | id in MatchingAgents(d, statuses)
      ensures AgentInfo(d, id) in want && (AgentInfo(d, id) in got <==> id in Elements(taken))
    {
    }
    forall id | id in UserTokens(d) && TokenStatus(d.tokens[id], now) in statuses
      ensures TokenInfo(d, id, now) in want && (TokenInfo(d, id, now) in got <==> id in FetchedTokens(d, statuses, asked))
    {
    }
  }
}
