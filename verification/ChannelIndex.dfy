/**
  The WebSocket server's indexes: which connections each user has, and which connections listen to
  each channel.  Every handler runs to its end; each Redis call may fail.
 */
module ChannelIndex {
  import opened Wrappers

  const USER_PREFIX := "user:"
  const MAX_AUTH_ATTEMPTS := 5

  // ----- channel names -----

  predicate IsHex(c: char) {
    '0' <= c <= '9' || 'a' <= c <= 'f'
  }

  predicate IsUuid(s: string) {
    |s| == 36 && forall i :: 0 <= i < 36 ==> if i in {8, 13, 18, 23} then s[i] == '-' else IsHex(s[i])
  }

  predicate StartsWith(s: string, prefix: string) {
    |prefix| <= |s| && s[..|prefix|] == prefix
  }

  predicate Names(channel: string, prefix: string) {
    StartsWith(channel, prefix) && IsUuid(channel[|prefix|..])
  }

  predicate IsValidChannel(channel: string) {
    Names(channel, "project:") || Names(channel, "test_suite:") || Names(channel, "test_case:")
    || Names(channel, "execution:") || Names(channel, USER_PREFIX)
  }

  /** Groups of eight, four, four, four and twelve lower-case hexadecimal digits. */
  predicate AreGroups(groups: seq<string>) {
    && |groups| == 5
    && |groups[0]| == 8 && |groups[1]| == 4 && |groups[2]| == 4 && |groups[3]| == 4 && |groups[4]| == 12
    && forall g, c :: g in groups && c in g ==> '0' <= c <= '9' || 'a' <= c <= 'f'
  }

  function Dashed(groups: seq<string>): string
    requires |groups| == 5
  {
    groups[0] + "-" + groups[1] + "-" + groups[2] + "-" + groups[3] + "-" + groups[4]
  }

  lemma UuidIff(s: string)
    ensures IsUuid(s) <==> exists groups :: AreGroups(groups) && s == Dashed(groups)
  {
    if IsUuid(s) {
      var groups := [s[..8], s[9..13], s[14..18], s[19..23], s[24..]];
      forall g, c | g in groups && c in g ensures IsHex(c) {
        var i :| 0 <= i < 36 && s[i] == c && i !in {8, 13, 18, 23};
      }
      assert s == Dashed(groups);
      assert AreGroups(groups);
    }
    forall groups | AreGroups(groups) && s == Dashed(groups) ensures IsUuid(s) {
      forall i | 0 <= i < 36 && i !in {8, 13, 18, 23} ensures IsHex(s[i]) {
        var g, j := if i < 8 then 0 else if i < 13 then 1 else if i < 18 then 2 else if i < 23 then 3 else 4,
                    if i < 8 then i else if i < 13 then i - 9 else if i < 18 then i - 14 else if i < 23 then i - 19 else i - 24;
        assert s[i] == groups[g][j] && groups[g] in groups && groups[g][j] in groups[g];
      }
    }
  }

  /** The channel is one of five kinds, a colon, and five groups of hexadecimal digits. */
  ghost predicate IsOfKind(channel: string, kind: string) {
    exists groups :: AreGroups(groups) && channel == kind + ":" + Dashed(groups)
  }

  lemma NamesIff(channel: string, kind: string)
    ensures Names(channel, kind + ":") <==> IsOfKind(channel, kind)
  {
    var prefix := kind + ":";
    if Names(channel, prefix) {
      UuidIff(channel[|prefix|..]);
      assert channel == prefix + channel[|prefix|..];
    }
    forall groups | AreGroups(groups) && channel == prefix + Dashed(groups) ensures Names(channel, prefix) {
      UuidIff(Dashed(groups));
      assert channel[|prefix|..] == Dashed(groups);
    }
  }

  lemma ValidChannelIff(channel: string)
    ensures IsValidChannel(channel) <==>
              exists kind :: kind in ["project", "test_suite", "test_case", "execution", "user"] && IsOfKind(channel, kind)
  {
    var kinds := ["project", "test_suite", "test_case", "execution", "user"];
    assert "project" + ":" == "project:" && "test_suite" + ":" == "test_suite:" && "test_case" + ":" == "test_case:"
      && "execution" + ":" == "execution:" && "user" + ":" == "user:";
    forall kind | kind in kinds ensures Names(channel, kind + ":") <==> IsOfKind(channel, kind) {
      NamesIff(channel, kind);
    }
    assert kinds[0] in kinds && kinds[1] in kinds && kinds[2] in kinds && kinds[3] in kinds && kinds[4] in kinds;
  }

  /** A connection may not listen to another user's channel, and may to any other. */
  lemma AuthorizedIff(userId: Option<string>, channel: string)
    ensures IsAuthorizedForChannel(userId, channel) <==> forall u :: channel == "user:" + u ==> userId == Some(u)
  {
    if StartsWith(channel, "user:") {
      assert channel == "user:" + channel[5..];
    }
    forall u | channel == "user:" + u ensures channel[5..] == u && StartsWith(channel, "user:") {
    }
  }

  predicate IsAuthorizedForChannel(userId: Option<string>, channel: string) {
    StartsWith(channel, USER_PREFIX) ==> userId == Some(channel[|USER_PREFIX|..])
  }

  function UserChannel(userId: string): string {
    USER_PREFIX + userId
  }

  // ----- the index -----

  class Connection {
    var userId: Option<string>
    var channels: set<string>
    var authAttempts: nat
    var isAlive: bool

    constructor ()
      ensures userId == None && channels == {} && authAttempts == 0 && isAlive
    {
      userId, channels, authAttempts, isAlive := None, {}, 0, true;
    }
  }

  type Index = map<string, set<Connection>>

  function At(m: Index, key: string): set<Connection> {
    if key in m then m[key] else {}
  }

  /** The index with `ws` listed under each of `keys`. */
  function Added(m: Index, ws: Connection, keys: set<string>): Index {
    map k | k in m.Keys + keys :: At(m, k) + (if k in keys then {ws} else {})
  }

  /** The index with `ws` taken off each of `keys`, and no empty set left under them. */
  function Removed(m: Index, ws: Connection, keys: set<string>): Index {
    map k | k in m && (k in keys ==> m[k] - {ws} != {}) :: if k in keys then m[k] - {ws} else m[k]
  }

  lemma SameIndex(a: Index, b: Index)
    requires a.Keys == b.Keys && forall k :: k in a ==> a[k] == b[k]
    ensures a == b
  {
  }

  lemma AddedNowhere(m: Index, ws: Connection)
    ensures Added(m, ws, {}) == m
  {
    SameIndex(Added(m, ws, {}), m);
  }

  /** Adding key by key: a missing set is created first. */
  lemma AddedOne(m: Index, ws: Connection, key: string)
    ensures key in m ==> m[key := m[key] + {ws}] == Added(m, ws, {key})
    ensures key !in m ==> m[key := {}][key := {} + {ws}] == Added(m, ws, {key})
  {
    SameIndex(m[key := At(m, key) + {ws}], Added(m, ws, {key}));
  }

  lemma AddedOnceMore(m: Index, ws: Connection, keys: set<string>, key: string)
    ensures Added(Added(m, ws, keys), ws, {key}) == Added(m, ws, keys + {key})
  {
    SameIndex(Added(Added(m, ws, keys), ws, {key}), Added(m, ws, keys + {key}));
  }

  /** `ws` is among the connections listed under the key. */
  predicate Listed(m: Index, key: string, ws: Connection) {
    key in m && ws in m[key]
  }

  lemma AddedLists(m: Index, ws: Connection, keys: set<string>)
    ensures forall k, w {:trigger Listed(Added(m, ws, keys), k, w)} ::
              Listed(Added(m, ws, keys), k, w) <==> Listed(m, k, w) || (w == ws && k in keys)
  {
  }

  lemma RemovedLists(m: Index, ws: Connection, keys: set<string>)
    ensures forall k, w {:trigger Listed(Removed(m, ws, keys), k, w)} ::
              Listed(Removed(m, ws, keys), k, w) <==> Listed(m, k, w) && !(w == ws && k in keys)
  {
    forall k, w | Listed(m, k, w) && !(w == ws && k in keys) ensures Listed(Removed(m, ws, keys), k, w) {
      assert k in keys ==> w in m[k] - {ws};
    }
  }

  predicate NoEmptySet(m: Index) {
    forall k :: k in m ==> m[k] != {}
  }

  /** Taking a connection off twice is taking it off once. */
  lemma RemovedTwice(m: Index, ws: Connection, keys: set<string>, again: set<string>)
    requires NoEmptySet(m) && again <= keys
    ensures Removed(Removed(m, ws, keys), ws, again) == Removed(m, ws, keys)
  {
    var once := Removed(m, ws, keys);
    forall k | k in once && k in again ensures once[k] - {ws} == once[k] != {} {
      assert ws !in once[k];
    }
  }

  lemma RemovedAt(m: Index, ws: Connection, keys: set<string>)
    requires NoEmptySet(m)
    ensures forall c :: At(Removed(m, ws, keys), c) == At(m, c) - if c in keys then {ws} else {}
  {
  }

  lemma RemovedNowhere(m: Index, ws: Connection)
    ensures Removed(m, ws, {}) == m
  {
    SameIndex(Removed(m, ws, {}), m);
  }

  lemma RemovedOnceMore(m: Index, ws: Connection, keys: set<string>, key: string)
    requires NoEmptySet(m)
    ensures Removed(Removed(m, ws, keys), ws, {key}) == Removed(m, ws, keys + {key})
  {
    SameIndex(Removed(Removed(m, ws, keys), ws, {key}), Removed(m, ws, keys + {key}));
  }

  /** One key: the set shrinks, and goes when nobody is left. */
  lemma RemovedOne(m: Index, ws: Connection, key: string)
    requires NoEmptySet(m)
    ensures key !in m ==> Removed(m, ws, {key}) == m
    ensures key in m && m[key] - {ws} != {} ==> Removed(m, ws, {key}) == m[key := m[key] - {ws}]
    ensures key in m && m[key] - {ws} == {} ==> Removed(m, ws, {key}) == m - {key}
  {
    var less := if key !in m then m else if m[key] - {ws} == {} then m - {key} else m[key := m[key] - {ws}];
    SameIndex(Removed(m, ws, {key}), less);
  }

  /** The keys whose set is gone, and that Redis agreed to drop. */
  function Dropped(m: Index, m': Index, redisOk: string -> bool): set<string> {
    set k | k in m && k !in m' && redisOk(k)
  }

  lemma DroppedOnceMore(m: Index, ws: Connection, keys: set<string>, key: string, redisOk: string -> bool)
    requires NoEmptySet(m)
    ensures var less, least := Removed(m, ws, keys), Removed(m, ws, keys + {key});
            Dropped(m, less, redisOk) + Dropped(less, least, redisOk) == Dropped(m, least, redisOk)
  {
  }

  /** Taking a connection off just where it was put on undoes it. */
  lemma RemovedUndoesAdded(m: Index, ws: Connection, keys: set<string>)
    requires NoEmptySet(m) && forall k :: k in keys && k in m ==> ws !in m[k]
    ensures Removed(Added(m, ws, keys), ws, keys) == m
  {
    var more := Added(m, ws, keys);
    var back := Removed(more, ws, keys);
    forall k | k in more && k in keys ensures more[k] - {ws} == At(m, k) {
    }
    assert back.Keys == m.Keys;
    forall k | k in m ensures back[k] == m[k] {
    }
  }

  /** The channel of a subscribe request is joined: it is well formed, allowed, and Redis delivers it. */
  predicate Joins(indexed: set<string>, userId: Option<string>, channel: string, redisOk: bool) {
    IsValidChannel(channel) && IsAuthorizedForChannel(userId, channel) && (channel in indexed || redisOk)
  }

  /** The channels a subscribe request joins, in order; `redisOk(k)` says whether Redis takes the k-th. */
  function Joined(indexed: set<string>, userId: Option<string>, channels: seq<string>, redisOk: nat -> bool): (r: seq<string>)
  {
    if channels == [] then []
    else
      var k := |channels| - 1;
      var before := Joined(indexed, userId, channels[..k], redisOk);
      if Joins(indexed + Elements(before), userId, channels[k], redisOk(k)) then before + [channels[k]] else before
  }

  function Elements(s: seq<string>): set<string> {
    set c | c in s
  }

  /** A requested channel is joined iff it is allowed, and indexed already or taken by Redis at one of its places. */
  lemma {:induction false} JoinedIff(indexed: set<string>, userId: Option<string>, channels: seq<string>,
                                     redisOk: nat -> bool, c: string)
    ensures c in Joined(indexed, userId, channels, redisOk) <==>
              c in channels && IsValidChannel(c) && IsAuthorizedForChannel(userId, c)
              && (c in indexed || exists k :: 0 <= k < |channels| && channels[k] == c && redisOk(k))
    ensures c in Joined(indexed, userId, channels, redisOk) <==>
              && c in channels && (forall u :: c == "user:" + u ==> userId == Some(u))
              && (exists kind :: kind in ["project", "test_suite", "test_case", "execution", "user"] && IsOfKind(c, kind))
              && (c in indexed || exists k :: 0 <= k < |channels| && channels[k] == c && redisOk(k))
  {
    ValidChannelIff(c);
    AuthorizedIff(userId, c);
    if channels != [] {
      var k := |channels| - 1;
      JoinedIff(indexed, userId, channels[..k], redisOk, c);
      assert channels == channels[..k] + [channels[k]];
    }
  }

  // ----- the server -----

  datatype ClientMessage =
    | Authenticate(token: string)
    | Subscribe(channels: seq<string>)
    | Unsubscribe(channels: seq<string>)
    | Ping
    | Heartbeat
    | Malformed

  datatype ServerMessage =
    | Authenticated(userId: string)
    | Subscribed(channels: seq<string>)
    | Pong
    | Failure(code: string)
    | Silence

  /** The answer to a login message, from what the connection was before it and what the token verifies to. */
  function LoginReply(userId: Option<string>, authAttempts: nat, user: Option<string>): ServerMessage {
    if userId.Some? then Failure("ALREADY_AUTHENTICATED")
    else if authAttempts >= MAX_AUTH_ATTEMPTS then Failure("TOO_MANY_ATTEMPTS")
    else if user.None? then Failure("AUTHENTICATION_FAILED")
    else Authenticated(user.value)
  }

  /** A login joins the user's own channel, if some connection listens to it already or Redis takes it. */
  function OwnChannel(indexed: set<string>, userId: string, redisOk: bool): set<string> {
    if UserChannel(userId) in indexed || redisOk then {UserChannel(userId)} else {}
  }

  class WebSocketServer {
    var userConnections: Index
    var channelSubscribers: Index
    /** The channels Redis delivers to this server. */
    var redisChannels: set<string>
    /** Every connection the server has accepted. */
    ghost var Conns: set<Connection>

    ghost predicate Valid()
      reads this, Conns
    {
      && ListsAgree(channelSubscribers, Conns)
      && channelSubscribers.Keys <= redisChannels
      && OwnChannelsOnly(Conns)
      && UsersAgree(userConnections, Conns)
    }

    constructor ()
      ensures Valid() && Conns == {} && channelSubscribers == map[] && userConnections == map[]
    {
      userConnections, channelSubscribers, redisChannels := map[], map[], {};
      Conns := {};
    }

    /** Lists `ws` under the channel, which Redis must deliver from now on. */
    method Join(ws: Connection, channel: string, redisOk: bool) returns (joined: bool)
      requires Valid() && ws in Conns && ws.userId.Some? && IsAuthorizedForChannel(ws.userId, channel)
      modifies this`channelSubscribers, this`redisChannels, ws`channels
      ensures Valid()
      ensures joined <==> channel in old(channelSubscribers) || redisOk
      ensures joined ==> channelSubscribers == Added(old(channelSubscribers), ws, {channel})
      ensures joined ==> ws.channels == old(ws.channels) + {channel} && redisChannels == old(redisChannels) + {channel}
      ensures !joined ==> channelSubscribers == old(channelSubscribers) && ws.channels == old(ws.channels)
      ensures !joined ==> redisChannels == old(redisChannels)
    {
      AddedOne(channelSubscribers, ws, channel);
      if channel !in channelSubscribers {
        if !redisOk {
          return false;
        }
        redisChannels := redisChannels + {channel};
        channelSubscribers := channelSubscribers[channel := {}];
      }
      channelSubscribers := channelSubscribers[channel := channelSubscribers[channel] + {ws}];
      ws.channels := ws.channels + {channel};
      joined := true;
    }

    method HandleSubscribe(ws: Connection, channels: seq<string>, redisOk: nat -> bool) returns (reply: ServerMessage)
      requires Valid() && ws in Conns && ws.userId.Some?
      modifies this`channelSubscribers, this`redisChannels, ws`channels
      ensures Valid()
      ensures reply == Subscribed(Joined(old(channelSubscribers).Keys, ws.userId, channels, redisOk))
      ensures channelSubscribers == Added(old(channelSubscribers), ws, Elements(reply.channels))
      ensures ws.channels == old(ws.channels) + Elements(reply.channels)
      ensures redisChannels == old(redisChannels) + Elements(reply.channels)
      ensures forall c, w :: Listed(channelSubscribers, c, w) <==>
                Listed(old(channelSubscribers), c, w) || (w == ws && c in reply.channels)
    {
      var subscribedChannels := [];
      ghost var indexed, all: set<string> := channelSubscribers, {};
      AddedNowhere(indexed, ws);
      for k := 0 to |channels|
        invariant Valid() && ws.userId.Some?
        invariant subscribedChannels == Joined(indexed.Keys, ws.userId, channels[..k], redisOk)
        invariant all == Elements(subscribedChannels)
        invariant channelSubscribers == Added(indexed, ws, all)
        invariant ws.channels == old(ws.channels) + all
        invariant redisChannels == old(redisChannels) + all
      {
        assert channels[..k + 1][..k] == channels[..k];
        var channel := channels[k];
        if !IsValidChannel(channel) {
          continue;
        }
        if !IsAuthorizedForChannel(ws.userId, channel) {
          continue;
        }
        AddedOnceMore(indexed, ws, all, channel);
        var joined := Join(ws, channel, redisOk(k));
        if !joined {
          continue;
        }
        subscribedChannels := subscribedChannels + [channel];
        all := all + {channel};
      }
      assert channels[..|channels|] == channels;
      AddedLists(indexed, ws, all);
      reply := Subscribed(subscribedChannels);
    }

    /** Takes `ws` off the channel's list; a channel without listeners is dropped, in Redis too. */
    method TakeOff(ws: Connection, channel: string, redisOk: string -> bool)
      requires NoEmptySet(channelSubscribers)
      modifies this`channelSubscribers, this`redisChannels
      ensures channelSubscribers == Removed(old(channelSubscribers), ws, {channel})
      ensures redisChannels == old(redisChannels) - Dropped(old(channelSubscribers), channelSubscribers, redisOk)
    {
      RemovedOne(channelSubscribers, ws, channel);
      if channel in channelSubscribers {
        var subscribers := channelSubscribers[channel] - {ws};
        if subscribers == {} {
          channelSubscribers := channelSubscribers - {channel};
          if redisOk(channel) {
            redisChannels := redisChannels - {channel};
          }
        } else {
          channelSubscribers := channelSubscribers[channel := subscribers];
        }
      }
    }

    method Leave(ws: Connection, channel: string, redisOk: string -> bool)
      requires Valid() && ws in Conns
      modifies this`channelSubscribers, this`redisChannels, ws`channels
      ensures Valid()
      ensures channelSubscribers == Removed(old(channelSubscribers), ws, {channel})
      ensures ws.channels == old(ws.channels) - {channel}
      ensures redisChannels == old(redisChannels) - Dropped(old(channelSubscribers), channelSubscribers, redisOk)
    {
      RemovedAt(channelSubscribers, ws, {channel});
      TakeOff(ws, channel, redisOk);
      ws.channels := ws.channels - {channel};
    }

    method HandleUnsubscribe(ws: Connection, channels: seq<string>, redisOk: string -> bool)
      requires Valid() && ws in Conns
      modifies this`channelSubscribers, this`redisChannels, ws`channels
      ensures Valid()
      ensures channelSubscribers == Removed(old(channelSubscribers), ws, Elements(channels))
      ensures ws.channels == old(ws.channels) - Elements(channels)
      ensures redisChannels == old(redisChannels) - Dropped(old(channelSubscribers), channelSubscribers, redisOk)
      ensures forall c, w :: Listed(channelSubscribers, c, w) <==>
                Listed(old(channelSubscribers), c, w) && !(w == ws && c in channels)
      ensures forall c :: c in redisChannels <==>
                c in old(redisChannels) && !(c in old(channelSubscribers) && c !in channelSubscribers && redisOk(c))
    {
      ghost var indexed, all: set<string> := channelSubscribers, {};
      RemovedNowhere(indexed, ws);
      for k := 0 to |channels|
        invariant Valid()
        invariant all == Elements(channels[..k])
        invariant channelSubscribers == Removed(indexed, ws, all)
        invariant ws.channels == old(ws.channels) - all
        invariant redisChannels == old(redisChannels) - Dropped(indexed, channelSubscribers, redisOk)
      {
        var channel := channels[k];
        RemovedOnceMore(indexed, ws, all, channel);
        DroppedOnceMore(indexed, ws, all, channel, redisOk);
        Leave(ws, channel, redisOk);
        assert channels[..k + 1] == channels[..k] + [channel];
        all := all + {channel};
      }
      assert channels[..|channels|] == channels;
      RemovedLists(indexed, ws, all);
    }

    /** Takes the connection off its user's list. */
    method ForgetUser(ws: Connection)
      requires UsersAgree(userConnections, Conns)
      modifies this`userConnections
      ensures UsersAgree(userConnections, Conns)
      ensures ws.userId.Some? ==> userConnections == Removed(old(userConnections), ws, {ws.userId.value})
      ensures ws.userId.None? ==> userConnections == old(userConnections)
      ensures forall u :: ws !in At(userConnections, u)
    {
      if ws.userId.Some? {
        var userId := ws.userId.value;
        RemovedOne(userConnections, ws, userId);
        if userId in userConnections {
          var connections := userConnections[userId] - {ws};
          if connections == {} {
            userConnections := userConnections - {userId};
          } else {
            userConnections := userConnections[userId := connections];
          }
        }
      }
    }

    /** Takes the connection off the list of each of its channels. */
    method TakeOffAll(ws: Connection, redisOk: string -> bool)
      requires NoEmptySet(channelSubscribers)
      modifies this`channelSubscribers, this`redisChannels
      ensures channelSubscribers == Removed(old(channelSubscribers), ws, ws.channels)
      ensures redisChannels == old(redisChannels) - Dropped(old(channelSubscribers), channelSubscribers, redisOk)
    {
      ghost var indexed, all: set<string> := channelSubscribers, {};
      RemovedNowhere(indexed, ws);
      var rest := ws.channels;
      while rest != {}
        invariant rest <= ws.channels && all == ws.channels - rest
        invariant channelSubscribers == Removed(indexed, ws, all)
        invariant redisChannels == old(redisChannels) - Dropped(indexed, channelSubscribers, redisOk)
        decreases rest
      {
        var channel :| channel in rest;
        RemovedOnceMore(indexed, ws, all, channel);
        DroppedOnceMore(indexed, ws, all, channel, redisOk);
        TakeOff(ws, channel, redisOk);
        rest, all := rest - {channel}, all + {channel};
      }
      assert all == ws.channels;
    }

    method RegisterConnection(ws: Connection)
      requires Valid() && ws in Conns && ws.userId.Some?
      modifies this`userConnections
      ensures Valid()
      ensures userConnections == Added(old(userConnections), ws, {ws.userId.value})
      ensures forall u, w :: Listed(userConnections, u, w) <==>
                Listed(old(userConnections), u, w) || (w == ws && u == ws.userId.value)
    {
      var userId := ws.userId.value;
      AddedOne(userConnections, ws, userId);
      AddedLists(userConnections, ws, {userId});
      if userId !in userConnections {
        userConnections := userConnections[userId := {}];
      }
      userConnections := userConnections[userId := userConnections[userId] + {ws}];
    }

    /** A login by cookie or by message: registers the connection and joins the user's own channel. */
    method AdmitUser(ws: Connection, userId: string, redisOk: bool)
      requires Valid() && ws in Conns && ws.userId.None?
      modifies this`userConnections, this`channelSubscribers, this`redisChannels, ws`userId, ws`channels
      ensures Valid()
      ensures ws.userId == Some(userId)
      ensures userConnections == Added(old(userConnections), ws, {userId})
      ensures ws.channels == OwnChannel(old(channelSubscribers).Keys, userId, redisOk)
      ensures ws.channels == if "user:" + userId in old(channelSubscribers) || redisOk then {"user:" + userId} else {}
      ensures channelSubscribers == Added(old(channelSubscribers), ws, ws.channels)
      ensures redisChannels == old(redisChannels) + ws.channels
    {
      ws.userId := Some(userId);
      RegisterConnection(ws);
      AddedNowhere(channelSubscribers, ws);
      var joined := Join(ws, UserChannel(userId), redisOk);
    }

    method HandleConnection(cookieUser: Option<string>, redisOk: bool) returns (ws: Connection)
      requires Valid()
      modifies this
      ensures Valid() && fresh(ws) && Conns == old(Conns) + {ws} && ws.userId == cookieUser
      ensures cookieUser.None? ==> ws.channels == {} && userConnections == old(userConnections)
      ensures cookieUser.Some? ==> userConnections == Added(old(userConnections), ws, {cookieUser.value})
      ensures cookieUser.Some? ==> ws.channels == OwnChannel(old(channelSubscribers).Keys, cookieUser.value, redisOk)
      ensures cookieUser.Some? ==>
        ws.channels == if "user:" + cookieUser.value in old(channelSubscribers) || redisOk
                       then {"user:" + cookieUser.value} else {}
      ensures channelSubscribers == Added(old(channelSubscribers), ws, ws.channels)
      ensures redisChannels == old(redisChannels) + ws.channels
      ensures ws.authAttempts == 0 && ws.isAlive
    {
      ws := new Connection();
      Conns := Conns + {ws};
      AddedNowhere(channelSubscribers, ws);
      if cookieUser.Some? {
        AdmitUser(ws, cookieUser.value, redisOk);
      }
    }

    /** `user` is what the token verifies to; `mayClose` says that the server hangs up. */
    method HandleAuthenticate(ws: Connection, user: Option<string>, redisOk: bool)
      returns (reply: ServerMessage, mayClose: bool)
      requires Valid() && ws in Conns
      modifies this`userConnections, this`channelSubscribers, this`redisChannels
      modifies ws`userId, ws`channels, ws`authAttempts
      ensures Valid()
      ensures reply == LoginReply(old(ws.userId), old(ws.authAttempts), user)
      ensures reply == if old(ws.userId).None? && old(ws.authAttempts) < 5 && user.Some? then Authenticated(user.value)
                       else Failure(if old(ws.userId).Some? then "ALREADY_AUTHENTICATED"
                                    else if user.None? && old(ws.authAttempts) < 5 then "AUTHENTICATION_FAILED"
                                    else "TOO_MANY_ATTEMPTS")
      ensures (mayClose <==> old(ws.userId).None? && old(ws.authAttempts) >= 5)
      ensures ws.authAttempts == old(ws.authAttempts) + if old(ws.userId).None? then 1 else 0
      ensures reply.Failure? ==>
                && ws.userId == old(ws.userId) && ws.channels == old(ws.channels)
                && userConnections == old(userConnections) && channelSubscribers == old(channelSubscribers)
                && redisChannels == old(redisChannels)
      ensures reply.Authenticated? ==>
                && ws.userId == user && userConnections == Added(old(userConnections), ws, {user.value})
                && ws.channels == OwnChannel(old(channelSubscribers).Keys, user.value, redisOk)
                && ws.channels == (if "user:" + user.value in old(channelSubscribers) || redisOk
                                   then {"user:" + user.value} else {})
                && channelSubscribers == Added(old(channelSubscribers), ws, ws.channels)
                && redisChannels == old(redisChannels) + ws.channels
    {
      mayClose := false;
      if ws.userId.Some? {
        reply := Failure("ALREADY_AUTHENTICATED");
        return;
      }
      ws.authAttempts := ws.authAttempts + 1;
      if ws.authAttempts > MAX_AUTH_ATTEMPTS {
        return Failure("TOO_MANY_ATTEMPTS"), true;
      }
      if user.None? {
        reply := Failure("AUTHENTICATION_FAILED");
        return;
      }
      AdmitUser(ws, user.value, redisOk);
      reply := Authenticated(user.value);
    }

    /** Only a login is served before a login; `user` is what an offered token verifies to. */
    method HandleMessage(ws: Connection, message: ClientMessage, user: Option<string>,
                         subscribeOk: nat -> bool, unsubscribeOk: string -> bool)
      returns (reply: ServerMessage, mayClose: bool)
      requires Valid() && ws in Conns
      modifies this`userConnections, this`channelSubscribers, this`redisChannels, ws
      ensures Valid()
      ensures message.Authenticate? ==> reply == LoginReply(old(ws.userId), old(ws.authAttempts), user)
      ensures message.Authenticate? ==> (mayClose <==> old(ws.userId).None? && old(ws.authAttempts) >= 5)
      ensures message.Authenticate? ==> ws.authAttempts == old(ws.authAttempts) + if old(ws.userId).None? then 1 else 0
      ensures message.Authenticate? && reply.Failure? ==>
                && ws.userId == old(ws.userId) && ws.channels == old(ws.channels)
                && userConnections == old(userConnections) && channelSubscribers == old(channelSubscribers)
                && redisChannels == old(redisChannels)
      ensures message.Authenticate? && reply.Authenticated? ==>
                && ws.userId == user && userConnections == Added(old(userConnections), ws, {user.value})
                && ws.channels == OwnChannel(old(channelSubscribers).Keys, user.value, subscribeOk(0))
                && ws.channels == (if "user:" + user.value in old(channelSubscribers) || subscribeOk(0)
                                   then {"user:" + user.value} else {})
                && channelSubscribers == Added(old(channelSubscribers), ws, ws.channels)
                && redisChannels == old(redisChannels) + ws.channels
      ensures message.Malformed? ==> reply == Failure("INVALID_MESSAGE")
      ensures !message.Authenticate? && !message.Malformed? && old(ws.userId).None? ==> reply == Failure("NOT_AUTHENTICATED")
      ensures !message.Authenticate? ==>
                && userConnections == old(userConnections) && ws.userId == old(ws.userId)
                && ws.authAttempts == old(ws.authAttempts) && !mayClose
      ensures !message.Authenticate? && (old(ws.userId).None? || !(message.Subscribe? || message.Unsubscribe?)) ==>
                && ws.channels == old(ws.channels) && channelSubscribers == old(channelSubscribers)
                && redisChannels == old(redisChannels)
      ensures ws.isAlive == (old(ws.isAlive) || (message.Heartbeat? && old(ws.userId).Some?))
      ensures message.Subscribe? && old(ws.userId).Some? ==>
                && reply == Subscribed(Joined(old(channelSubscribers).Keys, ws.userId, message.channels, subscribeOk))
                && channelSubscribers == Added(old(channelSubscribers), ws, Elements(reply.channels))
                && ws.channels == old(ws.channels) + Elements(reply.channels)
                && redisChannels == old(redisChannels) + Elements(reply.channels)
      ensures message.Unsubscribe? && old(ws.userId).Some? ==>
                && channelSubscribers == Removed(old(channelSubscribers), ws, Elements(message.channels))
                && ws.channels == old(ws.channels) - Elements(message.channels) && reply == Silence
                && redisChannels == old(redisChannels) - Dropped(old(channelSubscribers), channelSubscribers, unsubscribeOk)
      ensures old(ws.userId).Some? ==> (message.Ping? ==> reply == Pong) && (message.Heartbeat? ==> reply == Silence)
      ensures ws.userId.None? ==> ws.channels == {}
    {
      mayClose := false;
      if message.Malformed? {
        reply := Failure("INVALID_MESSAGE");
        return;
      }
      if !message.Authenticate? && ws.userId.None? {
        reply := Failure("NOT_AUTHENTICATED");
        return;
      }
      match message {
        case Authenticate(_) => reply, mayClose := HandleAuthenticate(ws, user, subscribeOk(0));
        case Subscribe(channels) => reply := HandleSubscribe(ws, channels, subscribeOk);
        case Unsubscribe(channels) =>
          HandleUnsubscribe(ws, channels, unsubscribeOk);
          reply := Silence;
        case Ping => reply := Pong;
        case Heartbeat =>
          ws.isAlive := true;
          reply := Silence;
      }
    }

    /** Who a Redis message on the channel is sent to. */
    method HandleRedisMessage(channel: string) returns (recipients: set<Connection>)
      requires Valid()
      ensures forall w :: w in recipients <==> w in Conns && channel in w.channels
      ensures forall w :: w in recipients && StartsWith(channel, USER_PREFIX) ==>
                w.userId == Some(channel[|USER_PREFIX|..])
      ensures forall u, w :: channel == "user:" + u && w in recipients ==> w.userId == Some(u)
    {
      forall u | channel == "user:" + u ensures StartsWith(channel, "user:") && channel[5..] == u {
      }
      recipients := At(channelSubscribers, channel);
    }

    /** Forgets a connection; its own channels are cleared last. */
    method CleanupConnection(ws: Connection, redisOk: string -> bool)
      requires Valid() && ws in Conns
      modifies this`userConnections, this`channelSubscribers, this`redisChannels, ws`channels
      ensures Valid()
      ensures ws.channels == {}
      ensures channelSubscribers == Removed(old(channelSubscribers), ws, old(ws.channels))
      ensures ws.userId.Some? ==> userConnections == Removed(old(userConnections), ws, {ws.userId.value})
      ensures ws.userId.None? ==> userConnections == old(userConnections)
      ensures redisChannels == old(redisChannels) - Dropped(old(channelSubscribers), channelSubscribers, redisOk)
      ensures forall c, w :: Listed(channelSubscribers, c, w) <==> Listed(old(channelSubscribers), c, w) && w != ws
      ensures forall u, w :: Listed(userConnections, u, w) <==> Listed(old(userConnections), u, w) && w != ws
      ensures forall c :: c in redisChannels <==>
                c in old(redisChannels) && !(c in old(channelSubscribers) && c !in channelSubscribers && redisOk(c))
      ensures forall c :: ws !in At(channelSubscribers, c)
      ensures forall u :: ws !in At(userConnections, u)
    {
      RemovedLists(channelSubscribers, ws, ws.channels);
      if ws.userId.Some? {
        RemovedLists(userConnections, ws, {ws.userId.value});
      }
      ForgetUser(ws);
      RemovedAt(channelSubscribers, ws, ws.channels);
      TakeOffAll(ws, redisOk);
      ws.channels := {};
    }
  }

  /** A connection is listed under a channel iff the channel is among its own; no list is empty. */
  ghost predicate ListsAgree(subscribers: Index, conns: set<Connection>)
    reads conns
  {
    && NoEmptySet(subscribers)
    && (forall c :: c in subscribers ==> subscribers[c] <= conns)
    && (forall w, c :: w in conns ==> (c in w.channels <==> w in At(subscribers, c)))
  }

  /** A `user:` channel is only ever among the channels of that user's connections. */
  ghost predicate OwnChannelsOnly(conns: set<Connection>)
    reads conns
  {
    forall w, c :: w in conns && c in w.channels ==> w.userId.Some? && IsAuthorizedForChannel(w.userId, c)
  }

  ghost predicate UsersAgree(users: Index, conns: set<Connection>)
    reads conns
  {
    && NoEmptySet(users)
    && (forall u :: u in users ==> users[u] <= conns)
    && (forall u, w :: u in users && w in users[u] ==> w.userId == Some(u))
  }
}
