/** The Redis service and the room service in the server's own form: one store that commands update in place,
    and handlers that issue them one after another. Each handler is proved to do what `Rooms` says. */
module RouletteService {
  import opened Options
  import opened RedisTables
  import opened Store
  import opened SpinRound
  import opened Rooms

  class RedisService {
    var db: Db
    var now: int

    constructor ()
      ensures db == EMPTY && now == 0
    {
      db, now := EMPTY, 0;
    }

    /** SMEMBERS: the members in some order. */
    method GetRoomMembers(room: string) returns (list: seq<string>)
      ensures Lists(list, Members(db, now, room))
    {
      list := Listing(Members(db, now, room));
    }

    method GetSocketInfoBatch(sockets: seq<string>) returns (infos: map<string, Option<SocketInfo>>)
      ensures infos.Keys == SetOf(sockets)
      ensures forall s :: s in sockets ==> infos[s] == Info(db, now, s)
    {
      // One GET per socket, in order, in one pipeline.
      var results := seq(|sockets|, i requires 0 <= i < |sockets| reads this => Info(db, now, sockets[i]));
      infos := map[];
      for index := 0 to |sockets|
        invariant infos.Keys == SetOf(sockets[..index])
        invariant forall s :: s in sockets[..index] ==> infos[s] == Info(db, now, s)
      {
        assert sockets[..index + 1] == sockets[..index] + [sockets[index]];
        infos := infos[sockets[index] := results[index]];
      }
      assert sockets[..|sockets|] == sockets;
    }

    method GetActiveOwnerSocketId(room: string) returns (found: Option<string>)
      ensures OwnerSocketChoice(db, now, room, found)
    {
      var ownerRid := OwnerOf(db, now, room);
      if ownerRid.None? {
        return None;
      }
      var members := GetRoomMembers(room);
      if |members| == 0 {
        return None;
      }
      var infos := GetSocketInfoBatch(members);
      for n := 0 to |members|
        invariant forall s :: s in members[..n] ==> !OwnerSocket(db, now, room, s)
      {
        var info := infos[members[n]];
        if info.Some? && info.value.rid == ownerRid.value {
          return Some(members[n]);
        }
        assert members[..n + 1] == members[..n] + [members[n]];
      }
      assert members[..|members|] == members;
      found := None;
    }

    method ExtendRoomTTL(room: string)
      modifies this`db
      ensures db == Store.ExtendRoomTTL(old(db), now, room)
    {
      var members := GetRoomMembers(room);
      db := ExtendRoomKeys(db, now, room);
      ghost var before := db;
      assert SetOf(members[..0]) == {} && ExpireAll(before.sockets, {}, now, ROOM_DATA_TTL) == before.sockets;
      for n := 0 to |members|
        invariant db == before.(sockets := ExpireAll(before.sockets, SetOf(members[..n]), now, ROOM_DATA_TTL))
      {
        assert members[..n + 1] == members[..n] + [members[n]];
        ExpireOneMore(before.sockets, members[..n], members[n], now);
        db := db.(sockets := Expire(db.sockets, members[n], now, ROOM_DATA_TTL));
      }
      assert members[..|members|] == members;
      assert SetOf(members) == Members(old(db), now, room);
    }

    /** The reads of a spin: three in parallel, then one batch. */
    method ReadSnapshot(room: string) returns (snap: Snapshot)
      ensures ReadsSnapshot(db, now, room, snap)
    {
      var members := GetRoomMembers(room);
      var ready := ReadyOf(db, now, room);
      var config := Get(db.config, room, now);
      var infos := GetSocketInfoBatch(members);
      snap := Snapshot(members, ready, config, map s | s in infos && infos[s].Some? :: infos[s].value);
    }
  }

  lemma ExpireOneMore<V>(t: Table<string, V>, xs: seq<string>, x: string, now: int)
    requires x !in xs
    ensures Expire(ExpireAll(t, SetOf(xs), now, ROOM_DATA_TTL), x, now, ROOM_DATA_TTL) ==
            ExpireAll(t, SetOf(xs + [x]), now, ROOM_DATA_TTL)
  {
    assert SetOf(xs + [x]) == SetOf(xs) + {x};
  }

  /** Some listing of a set. */
  method Listing(s: set<string>) returns (list: seq<string>)
    ensures Lists(list, s)
  {
    list := [];
    var left := s;
    while left != {}
      invariant left <= s && Lists(list, s - left)
      decreases left
    {
      var x :| x in left;
      left := left - {x};
      list := list + [x];
    }
  }

  lemma RemoveOneMore(db: Db, xs: seq<string>, x: string, kept: string)
    ensures var removed := RemoveSocketInfos(db, SetOf(xs) - {kept});
            RemoveSocketInfos(db, SetOf(xs + [x]) - {kept}) == if x == kept then removed
                else RemoveSocketInfo(removed, x)
  {
    assert SetOf(xs + [x]) == SetOf(xs) + {x};
    assert db.sockets - (SetOf(xs + [x]) - {kept}) ==
           if x == kept then db.sockets - (SetOf(xs) - {kept}) else (db.sockets - (SetOf(xs) - {kept})) - {x};
  }

  lemma OwnerAmongMembers(db: Db, now: int, room: string, rid: string, snap: Snapshot)
    requires OwnerOf(db, now, room) == Some(rid) && ReadsSnapshot(db, now, room, snap)
    ensures OwnerAmong(rid, snap.infos, snap.members) <==> exists s :: OwnerSocket(db, now, room, s)
  {
    if OwnerAmong(rid, snap.infos, snap.members) {
      var s :| s in snap.members && s in snap.infos && snap.infos[s].rid == rid;
      assert OwnerSocket(db, now, room, s);
    }
    if s :| OwnerSocket(db, now, room, s) {
      assert s in snap.members && s in snap.infos;
    }
  }

  /** The first n draws of a random source. */
  function DrawsOf(random: nat -> nat, n: nat): (draws: seq<nat>)
    ensures |draws| == n && forall i :: 0 <= i < n ==> draws[i] == random(i)
  {
    seq(n, i requires 0 <= i < n => random(i))
  }

  class RoomService {
    const redis: RedisService
    var conns: map<string, Conn>

    constructor (redis: RedisService)
      ensures this.redis == redis && conns == map[]
    {
      this.redis, conns := redis, map[];
    }

    ghost function World(): World
      reads this, redis
    {
      Rooms.World(redis.db, redis.now, conns)
    }

    /** A connection's own rid is 16 fresh random bytes. */
    method HandleConnection(socket: string, rid: string)
      modifies this`conns
      ensures conns == old(conns)[socket := Conn(rid, None, None)]
    {
      conns := conns[socket := Conn(rid, None, None)];
    }

    method HandleRoomJoin(socket: string, room: string, role: Role, cookies: OwnerCookies, provided: string)
      returns (reply: Reply, existing: Option<string>)
      modifies this`conns, redis`db
      ensures role.Owner? && reply.Joined? ==> OwnerSocketChoice(old(redis.db), redis.now, room, existing)
      ensures (World(), reply) == Join(old(World()), socket, room, role, cookies, provided, existing)
    {
      existing := None;
      if room == "" {
        return Rejected(INVALID_REQUEST), existing;
      }
      if socket !in conns {
        return Rejected(INVALID_RID), existing;
      }
      var rid := conns[socket].rid;
      var nickname;
      if role.Owner? {
        var verdict := VerifyOwnerToken(redis.db, redis.now, room, cookies);
        if verdict.Refused? {
          return Rejected(verdict.reason), existing;
        }
        if verdict.rid.Some? {
          rid := verdict.rid.value;
          conns := conns[socket := conns[socket].(rid := rid)];
        }
        nickname, existing := HandleOwnerJoin(room, rid, provided);
      } else {
        if Get(redis.db.config, room, redis.now).None? {
          return Rejected(ROOM_NOT_FOUND), existing;
        }
        nickname := HandleParticipantJoin(room, provided);
      }
      reply := DoCompleteJoin(socket, room, rid, role, nickname);
      assert conns == old(conns)[socket := conns[socket]];
    }

    method HandleOwnerJoin(room: string, rid: string, provided: string)
      returns (nickname: string, existing: Option<string>)
      modifies redis`db
      ensures OwnerSocketChoice(old(redis.db), redis.now, room, existing)
      ensures var evicted := Evict(old(redis.db), redis.now, room, existing);
              var (name, db) := OwnerNickname(evicted, redis.now, room, provided);
              nickname == name && redis.db == SetRoomOwner(db, redis.now, room, rid)
    {
      existing := redis.GetActiveOwnerSocketId(room);
      if existing.Some? {
        redis.db := RemoveRoomMember(redis.db, redis.now, room, existing.value);
        redis.db := RemoveSocketInfo(redis.db, existing.value);
      }
      nickname := provided;
      if nickname == "" {
        var initial := Get(redis.db.initialNickname, room, redis.now);
        if initial.Some? && initial.value != "" {
          nickname := initial.value;
          redis.db := RemoveInitialOwnerNickname(redis.db, room);
        }
        if nickname == "" {
          nickname := OWNER_NICKNAME;
        }
      }
      if OwnerOf(redis.db, redis.now, room).None? {
        redis.db := SetRoomOwner(redis.db, redis.now, room, rid);
      }
    }

    method HandleParticipantJoin(room: string, provided: string) returns (nickname: string)
      modifies redis`db
      ensures (nickname, redis.db) == ParticipantNickname(old(redis.db), redis.now, room, provided)
    {
      nickname := provided;
      if nickname == "" {
        nickname := "참가자 " + Numeral(NextParticipantNumber(redis.db, redis.now, room));
        redis.db := BumpParticipantCounter(redis.db, redis.now, room);
      }
    }

    method DoCompleteJoin(socket: string, room: string, rid: string, role: Role, nickname: string)
      returns (reply: Reply)
      modifies this`conns, redis`db
      ensures (World(), reply) == CompleteJoin(old(World()), socket, room, rid, role, nickname)
    {
      redis.db := AddRoomMember(redis.db, redis.now, room, socket);
      conns := conns[socket := Conn(rid, Some(role), Some(nickname))];
      redis.db := SetSocketInfo(redis.db, redis.now, socket, SocketInfo(room, rid, nickname, role, redis.now));
      var isOwner := OwnerOf(redis.db, redis.now, room) == Some(rid);
      if Get(redis.db.config, room, redis.now).None? {
        redis.db := SetRoomConfig(redis.db, redis.now, room, RoomConfig(1, Positive, redis.now));
      }
      reply := Joined(rid, isOwner, nickname);
      var _ := BroadcastParticipantsToOwner(room);
      redis.db := SetRoomLastActivity(redis.db, redis.now, room);
    }

    /** The list the owner is sent: there is one exactly when a member carries the owner's rid. */
    method BroadcastParticipantsToOwner(room: string) returns (sent: Option<ParticipantList>)
      ensures sent.Some? <==> exists s :: OwnerSocket(redis.db, redis.now, room, s)
      ensures sent.Some? ==>
                exists rid, snap :: && OwnerOf(redis.db, redis.now, room) == Some(rid)
                                    && ReadsSnapshot(redis.db, redis.now, room, snap)
                                    && Shows(rid, snap, sent.value)
    {
      sent := None;
      var ownerRid := OwnerOf(redis.db, redis.now, room);
      if ownerRid.Some? {
        var snap := redis.ReadSnapshot(room);
        var rows, ownerSocket, readyCount, allReady := ParticipantsForOwner(ownerRid.value, snap);
        OwnerAmongMembers(redis.db, redis.now, room, ownerRid.value, snap);
        if ownerSocket.Some? {
          sent := Some(ParticipantList(rows, readyCount, |rows|, allReady));
        }
      }
    }

    method HandleDisconnect(socket: string)
      modifies redis`db
      ensures redis.db == Disconnect(old(redis.db), redis.now, socket)
    {
      var info := Info(redis.db, redis.now, socket);
      if info.Some? {
        var room := info.value.roomId;
        redis.db := RemoveParticipantReady(redis.db, redis.now, room, socket);
        redis.db := RemoveRoomMember(redis.db, redis.now, room, socket);
        redis.db := RemoveSocketInfo(redis.db, socket);
        if info.value.role.Owner? {
          redis.ExtendRoomTTL(room);
        } else {
          var _ := BroadcastParticipantsToOwner(room);
        }
      }
    }

    method HandleRoomLeave(socket: string, room: string) returns (reply: Reply)
      modifies redis`db
      ensures (World(), reply) == Leave(old(World()), socket, room)
    {
      if socket !in conns || conns[socket].role.None? {
        return Rejected(INVALID_REQUEST);
      }
      var info := Info(redis.db, redis.now, socket);
      if info.None? || info.value.roomId != room {
        return Rejected(NOT_IN_ROOM);
      }
      if conns[socket].role.value.Owner? {
        redis.db := RemoveRoomMember(redis.db, redis.now, room, socket);
        redis.db := RemoveSocketInfo(redis.db, socket);
        redis.db := ClearRoomOwner(redis.db, room);
        redis.ExtendRoomTTL(room);
      } else {
        HandleDisconnect(socket);
      }
      reply := Accepted;
    }

    method HandleRoomDelete(socket: string, room: string) returns (reply: Reply)
      modifies redis`db
      ensures (World(), reply) == Delete(old(World()), socket, room)
    {
      if socket !in conns {
        return Rejected(INVALID_RID);
      }
      if OwnerOf(redis.db, redis.now, room) != Some(conns[socket].rid) {
        return Rejected(NOT_OWNER);
      }
      var members := redis.GetRoomMembers(room);
      for n := 0 to |members|
        invariant redis.db == RemoveSocketInfos(old(redis.db), SetOf(members[..n]) - {socket})
      {
        assert members[..n + 1] == members[..n] + [members[n]];
        RemoveOneMore(old(redis.db), members[..n], members[n], socket);
        if members[n] != socket {
          redis.db := RemoveSocketInfo(redis.db, members[n]);
        }
      }
      assert members[..|members|] == members;
      redis.db := RemoveSocketInfo(redis.db, socket);
      assert redis.db.sockets == old(redis.db).sockets - (Members(old(redis.db), redis.now, room) + {socket});
      redis.db := DeleteRoom(redis.db, room);
      reply := Accepted;
    }

    method HandleRoomConfigSet(socket: string, room: string, winnersCount: int, sentiment: Sentiment)
      returns (reply: Reply)
      modifies redis`db
      ensures (World(), reply) == SetConfig(old(World()), socket, room, winnersCount, sentiment)
    {
      if socket !in conns {
        return Ignored;
      }
      if winnersCount < 1 {
        return Rejected(INVALID);
      }
      if OwnerOf(redis.db, redis.now, room) != Some(conns[socket].rid) {
        return Rejected(NOT_OWNER);
      }
      redis.db := SetRoomConfig(redis.db, redis.now, room, RoomConfig(winnersCount, sentiment, redis.now));
      redis.db := SetRoomLastActivity(redis.db, redis.now, room);
      reply := Accepted;
    }

    method HandleReadyToggle(socket: string, room: string, ready: bool) returns (reply: Reply)
      modifies redis`db
      ensures (World(), reply) == ToggleReady(old(World()), socket, room, ready)
    {
      if socket !in conns {
        return Ignored;
      }
      var info := Info(redis.db, redis.now, socket);
      if info.None? {
        return Ignored;
      }
      if info.value.role != Participant {
        return Rejected(ONLY_PARTICIPANTS_CAN_READY);
      }
      if ready {
        redis.db := SetParticipantReady(redis.db, redis.now, room, socket);
      } else {
        redis.db := RemoveParticipantReady(redis.db, redis.now, room, socket);
      }
      var _ := BroadcastParticipantsToOwner(room);
      redis.db := SetRoomLastActivity(redis.db, redis.now, room);
      reply := Accepted;
    }

    method HandleNicknameChange(socket: string, room: string, nickname: string) returns (reply: Reply)
      modifies redis`db
      ensures (World(), reply) == ChangeNickname(old(World()), socket, room, nickname)
    {
      if socket !in conns {
        return Ignored;
      }
      if nickname == "" || |nickname| > 20 {
        return Rejected(INVALID_NICKNAME);
      }
      var info := Info(redis.db, redis.now, socket);
      if info.Some? {
        redis.db := SetSocketInfo(redis.db, redis.now, socket, info.value.(nickname := nickname));
      }
      var _ := BroadcastParticipantsToOwner(room);
      redis.db := SetRoomLastActivity(redis.db, redis.now, room);
      reply := Accepted;
    }

    /** `random` stands for the random source: it yields a draw for each shuffled position, and the spin is the one that
        these draws determine. */
    method HandleSpinRequest(socket: string, room: string, requestId: string, spinId: string,
                             random: nat -> nat, online: set<string>)
      returns (reply: Reply, snap: Snapshot, round: Option<Round>)
      requires forall i :: random(i) <= i
      modifies redis`db
      ensures (World(), reply) == Spin(old(World()), socket, room, requestId, spinId, snap)
      ensures reply.Accepted? || reply in {Rejected(NO_MEMBERS), Rejected(NOT_ALL_READY), Rejected(ROOM_NOT_FOUND)} ==>
                ReadsSnapshot(old(redis.db), redis.now, room, snap)
      ensures round.Some? <==> reply.Accepted?
      ensures round.Some? ==>
                && GateOf(room, snap).Pass? && snap.config.Some?
                && RoundOf(room, snap, DrawsOf(random, |Active(room, snap, |snap.members|)|), online, round.value)
    {
      snap, round := Snapshot([], {}, None, map[]), None;
      if socket !in conns {
        return Ignored, snap, round;
      }
      if OwnerOf(redis.db, redis.now, room) != Some(conns[socket].rid) {
        return Rejected(NOT_OWNER), snap, round;
      }
      if Get(redis.db.idem, (room, requestId), redis.now).Some? {
        return Rejected(IDEMPOTENT_REPLAY), snap, round;
      }
      if Get(redis.db.lock, room, redis.now).Some? {
        return Rejected(ALREADY_SPINNING), snap, round;
      }
      redis.db := AcquireSpinLock(redis.db, redis.now, room, spinId, SPIN_LOCK_TTL);
      snap := redis.ReadSnapshot(room);
      var gate, active := CheckGate(room, snap);
      match gate {
        case NoMembers => reply := Rejected(NO_MEMBERS);
        case NotAllReady => reply := Rejected(NOT_ALL_READY);
        case RoomNotFound => reply := Rejected(ROOM_NOT_FOUND);
        case Pass =>
          var draws := DrawsOf(random, |active|);
          redis.db := SetIdempotency(redis.db, redis.now, room, requestId, spinId);
          var resolved := ResolveRound(room, snap, active, draws, online);
          round := Some(resolved);
          redis.db := SetRoomLastActivity(redis.db, redis.now, room);
          redis.db := SetRoomState(redis.db, redis.now, room, LastSpin(spinId, redis.now));
          reply := Accepted;
      }
      redis.db := ReleaseSpinLock(redis.db, redis.now, room, spinId);
    }
  }

  class RouletteController {
    const redis: RedisService

    constructor (redis: RedisService)
      ensures this.redis == redis
    {
      this.redis := redis;
    }

    /** The room id, the token and the rid are fresh draws; title and nickname are the trimmed ones. */
    method CreateRoom(room: string, token: string, rid: string, title: string, nickname: string,
                      winnersCount: Option<int>, sentiment: Option<Sentiment>)
      modifies redis`db
      ensures redis.db == Rooms.CreateRoom(old(redis.db), redis.now, room, token, rid, title, nickname,
                                           if winnersCount.Some? then winnersCount.value else 1,
                                           if sentiment.Some? then sentiment.value else Positive)
    {
      redis.db := SetRoomOwnerToken(redis.db, redis.now, room, token);
      var roomTitle := if title != "" then title else DEFAULT_TITLE;
      redis.db := SetRoomTitle(redis.db, redis.now, room, roomTitle);
      var ownerNickname := if nickname != "" then nickname else OWNER_NICKNAME;
      redis.db := SetInitialOwnerNickname(redis.db, redis.now, room, ownerNickname);
      var config := RoomConfig(if winnersCount.Some? then winnersCount.value else 1,
                               if sentiment.Some? then sentiment.value else Positive, redis.now);
      redis.db := SetRoomConfig(redis.db, redis.now, room, config);
      redis.db := SetRoomOwner(redis.db, redis.now, room, rid);
      redis.db := SetRoomLastActivity(redis.db, redis.now, room);
    }
  }
}
