/** The list of a browser's own rooms: one pipeline for the metadata of all of them, one batch for the sockets of
    all of them, and statistics per room drawn from the shared batch. */
module RoomListing {
  import opened Options
  import opened RedisTables
  import opened Store
  import opened Rooms
  import opened RouletteService

  // ----- the metadata pipeline -----

  datatype Query = GetTitle(room: string) | GetActivity(room: string) | GetOwner(room: string)
      | ListMembers(room: string)

  datatype Result = Text(text: Option<string>) | Instant(instant: Option<int>) | List(list: seq<string>)

  datatype Metadata = Metadata(title: Option<string>, lastActivity: Option<int>, ownerRid: Option<string>,
      members: seq<string>)

  /** The answer a query gets when it is asked on its own. */
  ghost predicate Answers(db: Db, now: int, q: Query, r: Result) {
    match q
    case GetTitle(room) => r == Text(Get(db.title, room, now))
    case GetActivity(room) => r == Instant(Get(db.lastActivity, room, now))
    case GetOwner(room) => r == Text(OwnerOf(db, now, room))
    case ListMembers(room) => r.List? && Lists(r.list, Members(db, now, room))
  }

  method Execute(redis: RedisService, pipeline: seq<Query>) returns (results: seq<Result>)
    ensures |results| == |pipeline|
    ensures forall i :: 0 <= i < |pipeline| ==> Answers(redis.db, redis.now, pipeline[i], results[i])
  {
    results := [];
    for i := 0 to |pipeline|
      invariant |results| == i
      invariant forall j :: 0 <= j < i ==> Answers(redis.db, redis.now, pipeline[j], results[j])
    {
      var result;
      match pipeline[i] {
        case GetTitle(room) => result := Text(Get(redis.db.title, room, redis.now));
        case GetActivity(room) => result := Instant(Get(redis.db.lastActivity, room, redis.now));
        case GetOwner(room) => result := Text(OwnerOf(redis.db, redis.now, room));
        case ListMembers(room) =>
          var list := redis.GetRoomMembers(room);
          result := List(list);
      }
      results := results + [result];
    }
  }

  /** A room's metadata as single reads give it. */
  ghost predicate Describes(db: Db, now: int, room: string, meta: Metadata) {
    && meta.title == Get(db.title, room, now)
    && meta.lastActivity == Get(db.lastActivity, room, now)
    && meta.ownerRid == OwnerOf(db, now, room)
    && Lists(meta.members, Members(db, now, room))
  }

  /** The four queries about a room sit at four times its index. */
  predicate AsksAbout(pipeline: seq<Query>, index: nat, room: string) {
    && 4 * index + 3 < |pipeline|
    && pipeline[4 * index] == GetTitle(room) && pipeline[4 * index + 1] == GetActivity(room)
    && pipeline[4 * index + 2] == GetOwner(room) && pipeline[4 * index + 3] == ListMembers(room)
  }

  method BuildPipeline(rooms: seq<string>) returns (pipeline: seq<Query>)
    ensures forall i :: 0 <= i < |rooms| ==> AsksAbout(pipeline, i, rooms[i])
  {
    pipeline := [];
    for i := 0 to |rooms|
      invariant |pipeline| == 4 * i
      invariant forall j :: 0 <= j < i ==> AsksAbout(pipeline, j, rooms[j])
    {
      var room := rooms[i];
      pipeline := pipeline + [GetTitle(room), GetActivity(room), GetOwner(room), ListMembers(room)];
      assert AsksAbout(pipeline, i, room);
    }
  }

  /** The flattened pipeline gives each room its own title, activity, owner and members. */
  method GetRoomMetadataBatch(redis: RedisService, rooms: seq<string>) returns (batch: map<string, Metadata>)
    ensures batch.Keys == SetOf(rooms)
    ensures forall room :: room in rooms ==> Describes(redis.db, redis.now, room, batch[room])
  {
    var pipeline := BuildPipeline(rooms);
    var results := Execute(redis, pipeline);
    batch := map[];
    for index := 0 to |rooms|
      invariant batch.Keys == SetOf(rooms[..index])
      invariant forall room :: room in rooms[..index] ==> Describes(redis.db, redis.now, room, batch[room])
    {
      var base := index * 4;
      assert AsksAbout(pipeline, index, rooms[index]);
      assert Answers(redis.db, redis.now, pipeline[base], results[base]);
      assert Answers(redis.db, redis.now, pipeline[base + 1], results[base + 1]);
      assert Answers(redis.db, redis.now, pipeline[base + 2], results[base + 2]);
      assert Answers(redis.db, redis.now, pipeline[base + 3], results[base + 3]);
      var meta := Metadata(results[base].text, results[base + 1].instant, results[base + 2].text,
          results[base + 3].list);
      batch := batch[rooms[index] := meta];
      assert rooms[..index + 1] == rooms[..index] + [rooms[index]];
    }
    assert rooms[..|rooms|] == rooms;
  }

  // ----- statistics -----

  function Participants(db: Db, now: int, room: string): set<string> {
    set s | s in Members(db, now, room) && Info(db, now, s).Some? && Info(db, now, s).value.role.Participant?
  }

  /** The nickname of some listed member that carries the room's owner rid, or the default if none does. */
  ghost predicate OwnerName(db: Db, now: int, room: string, listed: seq<string>, nickname: string) {
    if forall s :: s in listed ==> !OwnerSocket(db, now, room, s) then nickname == OWNER_NICKNAME
    else exists s :: s in listed && OwnerSocket(db, now, room, s) && Info(db, now, s).value.nickname == nickname
  }

  /** Read room by room: how many members are registered as participants, and the nickname of a member that
      carries the room's owner rid, or the default if there is none. */
  ghost predicate Statistics(db: Db, now: int, room: string, ownerNickname: string, participantCount: int) {
    && participantCount ==
       |set s | s in Members(db, now, room) && Info(db, now, s).Some?
                && Info(db, now, s).value.role == Role.Participant|
    && if forall s :: !OwnerSocket(db, now, room, s) then ownerNickname == OWNER_NICKNAME
       else exists s :: OwnerSocket(db, now, room, s) && Info(db, now, s).value.nickname == ownerNickname
  }

  /** The shared batch gives each room the statistics that reading its own sockets would. */
  method ExtractRoomStats(redis: RedisService, room: string, meta: Metadata, infos: map<string, Option<SocketInfo>>)
    returns (ownerNickname: string, participantCount: int)
    requires Describes(redis.db, redis.now, room, meta)
    requires forall s :: s in meta.members ==> s in infos && infos[s] == Info(redis.db, redis.now, s)
    ensures Statistics(redis.db, redis.now, room, ownerNickname, participantCount)
  {
    ownerNickname, participantCount := OWNER_NICKNAME, 0;
    var members := meta.members;
    for n := 0 to |members|
      invariant StatsSoFar(redis.db, redis.now, room, members, n, ownerNickname, participantCount)
    {
      StatsStep(redis.db, redis.now, room, members, n, ownerNickname, participantCount);
      var found := infos[members[n]];
      if found.Some? {
        if meta.ownerRid == Some(found.value.rid) {
          ownerNickname := found.value.nickname;
        }
        if found.value.role.Participant? {
          participantCount := participantCount + 1;
        }
      }
    }
    assert members[..|members|] == members;
    AllListed(redis.db, redis.now, room, members, ownerNickname);
  }

  ghost predicate StatsSoFar(db: Db, now: int, room: string, members: seq<string>, n: nat, nickname: string,
                             count: int) {
    && n <= |members|
    && count == |Participants(db, now, room) * SetOf(members[..n])|
    && OwnerName(db, now, room, members[..n], nickname)
  }

  lemma StatsStep(db: Db, now: int, room: string, members: seq<string>, n: nat, nickname: string, count: int)
    requires Lists(members, Members(db, now, room)) && n < |members|
    requires StatsSoFar(db, now, room, members, n, nickname, count)
    ensures members[n] in Members(db, now, room)
    ensures StatsSoFar(db, now, room, members, n + 1,
                       if OwnerSocket(db, now, room, members[n]) then Info(db, now, members[n]).value.nickname
                           else nickname,
                       count + if members[n] in Participants(db, now, room) then 1 else 0)
  {
    CountOne(db, now, room, members, n);
    NameStep(db, now, room, members, n, nickname);
  }

  lemma NameStep(db: Db, now: int, room: string, members: seq<string>, n: nat, nickname: string)
    requires n < |members| && OwnerName(db, now, room, members[..n], nickname)
    ensures OwnerName(db, now, room, members[..n + 1],
                      if OwnerSocket(db, now, room, members[n]) then Info(db, now, members[n]).value.nickname
                          else nickname)
  {
    NameOne(db, now, room, members[..n], members[n], nickname);
    assert members[..n + 1] == members[..n] + [members[n]];
  }

  lemma AllListed(db: Db, now: int, room: string, members: seq<string>, nickname: string)
    requires Lists(members, Members(db, now, room)) && OwnerName(db, now, room, members, nickname)
    ensures Statistics(db, now, room, nickname, |Participants(db, now, room) * SetOf(members)|)
  {
    assert Participants(db, now, room) * SetOf(members) == Participants(db, now, room);
    assert Participants(db, now, room) ==
           set s | s in Members(db, now, room) && Info(db, now, s).Some?
                   && Info(db, now, s).value.role == Role.Participant;
    assert forall s :: OwnerSocket(db, now, room, s) ==> s in members;
  }

  lemma CountOne(db: Db, now: int, room: string, members: seq<string>, n: nat)
    requires Lists(members, Members(db, now, room)) && n < |members|
    ensures |Participants(db, now, room) * SetOf(members[..n + 1])| ==
            |Participants(db, now, room) * SetOf(members[..n])| +
            if members[n] in Participants(db, now, room) then 1 else 0
    ensures members[n] in Members(db, now, room)
  {
    var all, before := Participants(db, now, room), SetOf(members[..n]);
    assert members[..n + 1] == members[..n] + [members[n]];
    assert members[n] !in before;
    assert all * SetOf(members[..n + 1]) == all * before + if members[n] in all then {members[n]} else {};
  }

  lemma NameOne(db: Db, now: int, room: string, listed: seq<string>, socket: string, nickname: string)
    requires OwnerName(db, now, room, listed, nickname)
    ensures if OwnerSocket(db, now, room, socket)
            then OwnerName(db, now, room, listed + [socket], Info(db, now, socket).value.nickname)
            else OwnerName(db, now, room, listed + [socket], nickname)
  {
    assert socket in listed + [socket];
    if s :| s in listed && OwnerSocket(db, now, room, s) && Info(db, now, s).value.nickname == nickname {
      assert s in listed + [socket];
    }
  }

  // ----- the list -----

  datatype Summary = Summary(
    roomId: string, title: string, participantCount: int, winnersCount: int, winSentiment: Sentiment,
    lastActivity: int, ownerNickname: string)

  /** The token matches the stored one and the room has a config. */
  predicate IsOwn(db: Db, now: int, room: string, token: string) {
    Get(db.token, room, now) == Some(token) && Get(db.config, room, now).Some?
  }

  /** What the list says about a room, as single reads of its keys give it. A live title that is not empty is shown
      as it is, and so is a live last activity that is not 0. */
  ghost predicate Summarises(db: Db, now: int, room: string, s: Summary) {
    var title, activity := Get(db.title, room, now), Get(db.lastActivity, room, now);
    && s.roomId == room
    && (title.Some? && title.value != "" ==> s.title == title.value)
    && (title.None? || title.value == "" ==> s.title == "룰렛 방")
    && Get(db.config, room, now).Some?
    && s.winnersCount == Get(db.config, room, now).value.winnersCount
    && s.winSentiment == Get(db.config, room, now).value.winSentiment
    && (activity.Some? && activity.value != 0 ==> s.lastActivity == activity.value)
    && (activity.None? || activity.value == 0 ==> s.lastActivity == now)
    && Statistics(db, now, room, s.ownerNickname, s.participantCount)
  }

  function OwnRooms(db: Db, now: int, rooms: seq<string>, tokens: map<string, string>): seq<string>
    requires forall r :: r in rooms ==> r in tokens
  {
    if rooms == [] then []
    else
      var last := rooms[|rooms| - 1];
      OwnRooms(db, now, rooms[..|rooms| - 1], tokens) + if IsOwn(db, now, last, tokens[last]) then [last] else []
  }

  method SelectOwn(redis: RedisService, rooms: seq<string>, tokens: map<string, string>)
    returns (valid: seq<string>, cleared: set<string>)
    requires forall r :: r in rooms ==> r in tokens
    ensures valid == OwnRooms(redis.db, redis.now, rooms, tokens)
    ensures forall r :: r in valid ==> Get(redis.db.config, r, redis.now).Some?
    ensures cleared == set r | r in rooms && !IsOwn(redis.db, redis.now, r, tokens[r])
  {
    valid, cleared := [], {};
    for i := 0 to |rooms|
      invariant valid == OwnRooms(redis.db, redis.now, rooms[..i], tokens)
      invariant forall r :: r in valid ==> Get(redis.db.config, r, redis.now).Some?
      invariant cleared == set r | r in rooms[..i] && !IsOwn(redis.db, redis.now, r, tokens[r])
    {
      var room := rooms[i];
      assert rooms[..i + 1] == rooms[..i] + [room];
      assert rooms[..i + 1][..i] == rooms[..i];
      if IsOwn(redis.db, redis.now, room, tokens[room]) {
        valid := valid + [room];
      } else {
        cleared := cleared + {room};
      }
    }
    assert rooms[..|rooms|] == rooms;
  }

  method AllSockets(rooms: seq<string>, metadata: map<string, Metadata>) returns (all: set<string>)
    requires forall r :: r in rooms ==> r in metadata
    ensures forall r, s :: r in rooms && s in metadata[r].members ==> s in all
  {
    all := {};
    for i := 0 to |rooms|
      invariant forall r, s :: r in rooms[..i] && s in metadata[r].members ==> s in all
    {
      all := all + SetOf(metadata[rooms[i]].members);
      assert rooms[..i + 1] == rooms[..i] + [rooms[i]];
    }
    assert rooms[..|rooms|] == rooms;
  }

  method Summarise(redis: RedisService, room: string, meta: Metadata, infos: map<string, Option<SocketInfo>>)
    returns (summary: Summary)
    requires Describes(redis.db, redis.now, room, meta) && Get(redis.db.config, room, redis.now).Some?
    requires forall s :: s in meta.members ==> s in infos && infos[s] == Info(redis.db, redis.now, s)
    ensures Summarises(redis.db, redis.now, room, summary)
  {
    var config := Get(redis.db.config, room, redis.now).value;
    var ownerNickname, participantCount := ExtractRoomStats(redis, room, meta, infos);
    var title := if meta.title.Some? && meta.title.value != "" then meta.title.value else DEFAULT_TITLE;
    var activity := if meta.lastActivity.Some? && meta.lastActivity.value != 0 then meta.lastActivity.value
                    else redis.now;
    summary := Summary(room, title, participantCount, config.winnersCount, config.winSentiment, activity,
                       ownerNickname);
  }

  /** One occurrence of the first item comes before one of the second. */
  ghost predicate Before(xs: seq<string>, x: string, y: string) {
    exists i, j :: 0 <= i < j < |xs| && xs[i] == x && xs[j] == y
  }

  /** The rooms selected are those with the browser's token and a config, in the order given and without
      repetition. */
  ghost predicate OwnInOrder(db: Db, now: int, rooms: seq<string>, tokens: map<string, string>, own: seq<string>)
    requires forall r :: r in rooms ==> r in tokens
  {
    && (forall r :: r in own <==>
                      r in rooms && Get(db.token, r, now) == Some(tokens[r]) && Get(db.config, r, now).Some?)
    && (forall x, y :: Before(own, x, y) ==> Before(rooms, x, y))
    && (Distinct(rooms) ==> Distinct(own))
  }

  lemma {:induction false} OwnRoomsMembers(db: Db, now: int, rooms: seq<string>, tokens: map<string, string>)
    requires forall r :: r in rooms ==> r in tokens
    ensures OwnInOrder(db, now, rooms, tokens, OwnRooms(db, now, rooms, tokens))
  {
    if rooms != [] {
      var rest, last := rooms[..|rooms| - 1], rooms[|rooms| - 1];
      OwnRoomsMembers(db, now, rest, tokens);
      assert rooms == rest + [last];
      var fewer := OwnRooms(db, now, rest, tokens);
      var own := OwnRooms(db, now, rooms, tokens);
      forall x, y | Before(own, x, y) ensures Before(rooms, x, y) {
        var i, j :| 0 <= i < j < |own| && own[i] == x && own[j] == y;
        if j < |fewer| {
          assert fewer[i] == x && fewer[j] == y;
          assert Before(fewer, x, y);
          var k, m :| 0 <= k < m < |rest| && rest[k] == x && rest[m] == y;
          assert rooms[k] == x && rooms[m] == y;
        } else {
          assert fewer[i] == x && x in rest;
          var k :| 0 <= k < |rest| && rest[k] == x;
          assert rooms[k] == x && rooms[|rooms| - 1] == y;
        }
      }
    }
  }

  /** The rooms whose token the browser holds, in order, each summarised as single reads would. The cookies of
      the others are cleared. */
  method FetchRoomsWithInfo(redis: RedisService, rooms: seq<string>, tokens: map<string, string>)
    returns (list: seq<Summary>, cleared: set<string>)
    requires forall r :: r in rooms ==> r in tokens
    ensures var own := OwnRooms(redis.db, redis.now, rooms, tokens);
            && |list| == |own|
            && (forall i :: 0 <= i < |own| ==> Summarises(redis.db, redis.now, own[i], list[i]))
            && OwnInOrder(redis.db, redis.now, rooms, tokens, own)
            && (forall r :: r in cleared <==> r in rooms && r !in own)
  {
    var valid;
    valid, cleared := SelectOwn(redis, rooms, tokens);
    OwnRoomsMembers(redis.db, redis.now, rooms, tokens);
    list := SummariseAll(redis, valid);
  }

  /** The batches behind the list, and the list. */
  method SummariseAll(redis: RedisService, valid: seq<string>) returns (list: seq<Summary>)
    requires forall r :: r in valid ==> Get(redis.db.config, r, redis.now).Some?
    ensures |list| == |valid| && forall i :: 0 <= i < |valid| ==> Summarises(redis.db, redis.now, valid[i], list[i])
  {
    var metadata := GetRoomMetadataBatch(redis, valid);
    var all := AllSockets(valid, metadata);
    var sockets := Listing(all);
    var infos := redis.GetSocketInfoBatch(sockets);
    list := [];
    for i := 0 to |valid|
      invariant |list| == i
      invariant forall j :: 0 <= j < i ==> Summarises(redis.db, redis.now, valid[j], list[j])
    {
      var summary := Summarise(redis, valid[i], metadata[valid[i]], infos);
      list := list + [summary];
    }
  }

  /** The statistics do not depend on the order in which members are listed when at most one of them carries
      the owner's rid. */
  lemma StatisticsUnique(db: Db, now: int, room: string, a: string, m: int, b: string, n: int)
    requires Statistics(db, now, room, a, m) && Statistics(db, now, room, b, n)
    requires forall s, t :: OwnerSocket(db, now, room, s) && OwnerSocket(db, now, room, t) ==> s == t
    ensures a == b && m == n
  {}
}
