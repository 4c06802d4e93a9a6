/** What a client can rely on, request by request: when exactly a request is accepted and why it is refused otherwise,
    in terms of the store and the cookies alone, and what it leaves in the store, key by key. */
module Requests {
  import opened Options
  import opened RedisTables
  import opened Store
  import opened SpinRound
  import opened Rooms
  import opened RoomEffects

  /** The connection is known and carries the room's stored owner rid. */
  predicate ActsAsOwner(w: World, socket: string, room: string) {
    socket in w.conns && Get(w.db.owner, room, w.now) == Some(w.conns[socket].rid)
  }

  /** The table with this key set for 2 hours. */
  function TwoHours<K(==), V>(t: Table<K, V>, k: K, v: V, now: int): Table<K, V> {
    t[k := Cell(v, Some(now + 7_200_000))]
  }

  /** The key keeps its value, and if it is live its life ends in half an hour; other keys are as they were. */
  ghost predicate HalfHour<V>(t: Table<string, V>, u: Table<string, V>, room: string, now: int) {
    && u - {room} == t - {room} && Get(u, room, now) == Get(t, room, now)
    && (Get(u, room, now).Some? ==> u[room].expires == Some(now + 1_800_000))
  }

  /** The room's set has lost this one and is otherwise, with its expiry, as it was. */
  ghost predicate Without(t: Table<string, set<string>>, u: Table<string, set<string>>, room: string, x: string,
                          now: int) {
    && u - {room} == t - {room} && Elements(u, room, now) == Elements(t, room, now) - {x}
    && (room in u ==> room in t && u[room].expires == t[room].expires)
  }

  // ----- creating a room -----

  /** A creation writes six keys for 2 hours: what is not given gets its default, and an owner rid that is already
      there stays. */
  lemma CreateExactly(db: Db, now: int, room: string, token: string, rid: string, title: string, nickname: string,
                      winnersCount: int, sentiment: Sentiment)
    ensures CreateRoom(db, now, room, token, rid, title, nickname, winnersCount, sentiment) ==
            db.(token := TwoHours(db.token, room, token, now),
                title := TwoHours(db.title, room, if title != "" then title else "룰렛 방", now),
                initialNickname :=
                  TwoHours(db.initialNickname, room, if nickname != "" then nickname else "생성자", now),
                config := TwoHours(db.config, room, RoomConfig(winnersCount, sentiment, now), now),
                owner := if Get(db.owner, room, now).None? then TwoHours(db.owner, room, rid, now) else db.owner,
                lastActivity := TwoHours(db.lastActivity, room, now, now))
  {}

  // ----- joining -----

  /** Why a join is refused: the first of these that holds. */
  lemma JoinReplies(w: World, socket: string, room: string, role: Role, cookies: OwnerCookies, provided: string,
                    choice: Option<string>)
    requires OwnerSocketChoice(w.db, w.now, room, choice)
    ensures var (v, reply) := Join(w, socket, room, role, cookies, provided, choice);
            var known, stored := room != "" && socket in w.conns, Get(w.db.owner, room, w.now);
            var proved :=
              known && role == Owner && cookies.token.Some? && Get(w.db.token, room, w.now) == cookies.token;
            var fits := cookies.rid.Some? ==>
                          && |cookies.rid.value| == 32
                          && forall c :: c in cookies.rid.value ==> '0' <= c <= '9' || 'a' <= c <= 'f';
            var other := cookies.rid.Some? && stored.Some? && cookies.rid != stored;
            && (reply == Rejected(INVALID_REQUEST) <==> room == "")
            && (reply == Rejected(INVALID_RID) <==> room != "" && !known)
            && (reply == Rejected(ROOM_NOT_FOUND) <==>
                  known && role == Participant && Get(w.db.config, room, w.now).None?)
            && (reply == Rejected(MISSING_OWNER_TOKEN) <==> known && role == Owner && cookies.token.None?)
            && (reply == Rejected(INVALID_OWNER_TOKEN) <==>
                  known && role == Owner && cookies.token.Some? && !proved)
            && (reply == Rejected(INVALID_RID_FORMAT) <==> proved && !fits)
            && (reply == Rejected(INVALID_OWNER_RID) <==> proved && fits && other)
            && (reply.Joined? <==>
                  || (proved && fits && !other)
                  || (known && role == Participant && Get(w.db.config, room, w.now).Some?))
            && (!reply.Joined? ==> v == w)
  {
    JoinHas(w, socket, room, role, cookies, provided, choice);
  }

  /** What somebody who joins is told and registered with: a participant the rid of its connection; an owner the rid of
      its cookie, else the stored one, else that of its connection; and a nickname. */
  lemma JoinTells(w: World, socket: string, room: string, role: Role, cookies: OwnerCookies, provided: string,
                  choice: Option<string>)
    requires OwnerSocketChoice(w.db, w.now, room, choice)
    requires Join(w, socket, room, role, cookies, provided, choice).1.Joined?
    ensures var (v, reply) := Join(w, socket, room, role, cookies, provided, choice);
            var stored, initial := Get(w.db.owner, room, w.now), Get(w.db.initialNickname, room, w.now);
            && (role == Participant ==> reply.rid == w.conns[socket].rid)
            && (role == Owner && cookies.rid.Some? ==> reply.rid == cookies.rid.value)
            && (role == Owner && cookies.rid.None? ==>
                  reply.rid == if stored.Some? then stored.value else w.conns[socket].rid)
            && (provided != "" ==> reply.nickname == provided)
            && (provided == "" && role == Owner ==>
                  reply.nickname == if initial.Some? && initial.value != "" then initial.value else "생성자")
            && (provided == "" && role == Participant ==>
                  reply.nickname == "참가자 " + Numeral(
                    if Get(w.db.counter, room, w.now).Some? then Get(w.db.counter, room, w.now).value + 1 else 1))
            && (reply.isOwner <==> Some(reply.rid) == if role == Owner && stored.None? then Some(reply.rid) else stored)
            && v.conns == w.conns[socket := Conn(reply.rid, Some(role), Some(reply.nickname))]
            && Get(v.db.sockets, socket, w.now) == Some(SocketInfo(room, reply.rid, reply.nickname, role, w.now))
            && v.db.sockets[socket].expires == Some(w.now + 7_200_000)
  {
    JoinHas(w, socket, room, role, cookies, provided, choice);
  }

  /** The room's set has lost those and gained this one; it gets no new expiry, and other sets are as they were. */
  ghost predicate Gained(t: Table<string, set<string>>, u: Table<string, set<string>>, room: string, x: string,
                         out: set<string>, now: int) {
    && u - {room} == t - {room} && Elements(u, room, now) == Elements(t, room, now) - out + {x}
    && (room in u && u[room].expires.Some? ==> room in t && u[room].expires == t[room].expires)
  }

  /** The room's keys after somebody has come in: the connection that acted as the owner has made way for a new owner;
      the member set has gained the socket; what was missing of owner rid and config is written, and a nickname that
      had to be found is used up or counted. */
  ghost predicate CameIn(c: Core, d: Core, now: int, room: string, socket: string, rid: string, role: Role,
                         unnamed: bool, out: set<string>)
  {
    var initial, count := Get(c.initialNickname, room, now), Get(c.counter, room, now);
    && Gained(c.members, d.members, room, socket, out, now)
    && d.sockets - {socket} == c.sockets - out - {socket}
    && d.owner == (if role == Owner && Get(c.owner, room, now).None? then TwoHours(c.owner, room, rid, now)
                   else c.owner)
    && d.config == (if Get(c.config, room, now).Some? then c.config
                    else TwoHours(c.config, room, RoomConfig(1, Positive, now), now))
    && d.counter == (if role == Owner || !unnamed then c.counter
                     else TwoHours(c.counter, room, if count.Some? then count.value + 1 else 1, now))
    && d.initialNickname == (if role == Owner && unnamed && initial.Some? && initial.value != ""
                             then c.initialNickname - {room} else c.initialNickname)
    && d.token == c.token && d.title == c.title && d.ready == c.ready
  }

  lemma EnterLeaves(c: Core, now: int, e: Effect)
    requires e.Enter? && (e.info.role.Participant? ==> e.evicted.None?)
    ensures CameIn(c, Apply(c, now, e), now, e.room, e.socket, e.info.rid, e.info.role, e.unnamed,
                   if e.evicted.Some? then {e.evicted.value} else {})
  {
    var d := Apply(c, now, e);
    EnterMembers(c.members, e.room, e.socket, e.evicted, now);
    EnterSockets(c.sockets, e.socket, e.info, e.evicted, now);
    assert d.members == MembersAfter(c, now, e) && d.sockets == SocketsAfter(c, now, e);
  }

  lemma EnterSockets(t: Table<string, SocketInfo>, x: string, info: SocketInfo, evicted: Option<string>, now: int)
    ensures Put(if evicted.Some? then Del(t, evicted.value) else t, x, info, now, SOCKET_DATA_TTL) - {x} ==
            t - (if evicted.Some? then {evicted.value} else {}) - {x}
  {}

  lemma EnterMembers(t: Table<string, set<string>>, room: string, x: string, evicted: Option<string>, now: int)
    ensures Gained(t, SAdd(if evicted.Some? then SRem(t, room, evicted.value, now) else t, room, x, now), room, x,
                   if evicted.Some? then {evicted.value} else {}, now)
  {}

  lemma JoinLeaves(w: World, socket: string, room: string, role: Role, cookies: OwnerCookies, provided: string,
                   choice: Option<string>)
    requires OwnerSocketChoice(w.db, w.now, room, choice)
    requires Join(w, socket, room, role, cookies, provided, choice).1.Joined?
    ensures var (v, reply) := Join(w, socket, room, role, cookies, provided, choice);
            CameIn(CoreOf(w.db), CoreOf(v.db), w.now, room, socket, reply.rid, role, provided == "",
                   if role == Owner && choice.Some? then {choice.value} else {})
  {
    JoinHas(w, socket, room, role, cookies, provided, choice);
    EnterLeaves(CoreOf(w.db), w.now, JoinEffect(w, socket, room, role, cookies, provided, choice));
  }

  /** The room's time of last activity is this one; locks, requests and spins are as they were. */
  ghost predicate Renewed(a: Db, b: Db, room: string, now: int) {
    && b.lastActivity == TwoHours(a.lastActivity, room, now, now)
    && b.state == a.state && b.lock == a.lock && b.idem == a.idem
  }

  lemma CompleteJoinRenews(w: World, socket: string, room: string, rid: string, role: Role, nickname: string)
    ensures Renewed(w.db, CompleteJoin(w, socket, room, rid, role, nickname).0.db, room, w.now)
  {}

  lemma JoinRenews(w: World, socket: string, room: string, role: Role, cookies: OwnerCookies, provided: string,
                   choice: Option<string>)
    requires Join(w, socket, room, role, cookies, provided, choice).1.Joined?
    ensures Renewed(w.db, Join(w, socket, room, role, cookies, provided, choice).0.db, room, w.now)
  {
    if role == Participant {
      var (nickname, db) := ParticipantNickname(w.db, w.now, room, provided);
      CompleteJoinRenews(w.(db := db), socket, room, w.conns[socket].rid, role, nickname);
    } else {
      var rid := OwnerRid(w, socket, VerifyOwnerToken(w.db, w.now, room, cookies));
      var (nickname, db) := OwnerNickname(Evict(w.db, w.now, room, choice), w.now, room, provided);
      CompleteJoinRenews(w.(db := SetRoomOwner(db, w.now, room, rid)), socket, room, rid, role, nickname);
    }
  }

  // ----- going away -----

  /** Extending a room's life gives every live key of the room, and every live info of its members, half an hour. The
      lock, the idempotency records and everything else stay. */
  ghost predicate Extended(a: Db, b: Db, room: string, now: int) {
    && HalfHour(a.config, b.config, room, now) && HalfHour(a.owner, b.owner, room, now)
    && HalfHour(a.token, b.token, room, now) && HalfHour(a.initialNickname, b.initialNickname, room, now)
    && HalfHour(a.title, b.title, room, now) && HalfHour(a.counter, b.counter, room, now)
    && HalfHour(a.members, b.members, room, now) && HalfHour(a.ready, b.ready, room, now)
    && HalfHour(a.state, b.state, room, now) && HalfHour(a.lastActivity, b.lastActivity, room, now)
    && b.lock == a.lock && b.idem == a.idem && b.sockets.Keys == a.sockets.Keys
    && forall x :: x in a.sockets ==>
         b.sockets[x] == if x in Elements(a.members, room, now) && Get(a.sockets, x, now).Some?
                         then Cell(a.sockets[x].value, Some(now + 1_800_000)) else a.sockets[x]
  }

  lemma ExtendExactly(db: Db, now: int, room: string)
    ensures Extended(db, ExtendRoomTTL(db, now, room), room, now)
  {
    ExpireHalfHour(db.config, room, now);
    ExpireHalfHour(db.owner, room, now);
    ExpireHalfHour(db.token, room, now);
    ExpireHalfHour(db.initialNickname, room, now);
    ExpireHalfHour(db.title, room, now);
    ExpireHalfHour(db.counter, room, now);
    ExpireHalfHour(db.members, room, now);
    ExpireHalfHour(db.ready, room, now);
    ExpireHalfHour(db.state, room, now);
    ExpireHalfHour(db.lastActivity, room, now);
  }

  lemma ExpireHalfHour<V>(t: Table<string, V>, room: string, now: int)
    ensures HalfHour(t, Expire(t, room, now, ROOM_DATA_TTL), room, now)
  {}

  /** The socket has gone from the room: from its members, from its ready set too if that is said, and its info; and
      the owner rid has gone with it if that is said. */
  ghost predicate TakenFrom(a: Db, b: Db, room: string, socket: string, now: int, unready: bool, ownerless: bool) {
    && Without(a.members, b.members, room, socket, now)
    && (if unready then Without(a.ready, b.ready, room, socket, now) else b.ready == a.ready)
    && b == a.(members := b.members, ready := b.ready, sockets := a.sockets - {socket},
               owner := if ownerless then a.owner - {room} else a.owner)
  }

  /** A disconnection goes by the info stored for the socket: without a live one nothing happens; a participant is taken
      out of its room; when an owner is, the room's life is extended. */
  lemma DisconnectExactly(db: Db, now: int, socket: string)
    ensures var info, after := Get(db.sockets, socket, now), Disconnect(db, now, socket);
            if info.None? then after == db
            else if info.value.role == Participant then
              TakenFrom(db, after, info.value.roomId, socket, now, true, false)
            else exists out :: TakenFrom(db, out, info.value.roomId, socket, now, true, false)
                               && Extended(out, after, info.value.roomId, now)
  {
    var info := Get(db.sockets, socket, now);
    if info.Some? {
      var out := TakenOut(db, now, info.value.roomId, socket);
      assert TakenFrom(db, out, info.value.roomId, socket, now, true, false);
      ExtendExactly(out, now, info.value.roomId);
    }
  }

  /** Leaving takes a role and a live info that names the room. An owner's exit leaves the ready set alone and takes the
      owner rid away; a participant's is a disconnection. */
  lemma LeaveExactly(w: World, socket: string, room: string)
    ensures var (v, reply) := Leave(w, socket, room);
            var role := if socket in w.conns then w.conns[socket].role else None;
            var info := Get(w.db.sockets, socket, w.now);
            && (reply == Rejected(INVALID_REQUEST) <==> role.None?)
            && (reply == Rejected(NOT_IN_ROOM) <==> role.Some? && (info.None? || info.value.roomId != room))
            && (reply == Accepted <==> role.Some? && info.Some? && info.value.roomId == room)
            && (reply == Accepted && role == Some(Role.Owner) ==>
                  exists out :: TakenFrom(w.db, out, room, socket, w.now, false, true)
                                && Extended(out, v.db, room, w.now))
            && (reply == Accepted && role == Some(Role.Participant) ==> v.db == Disconnect(w.db, w.now, socket))
            && v == if reply == Accepted then w.(db := v.db) else w
  {
    var out := ClearRoomOwner(RemoveSocketInfo(RemoveRoomMember(w.db, w.now, room, socket), socket), room);
    assert TakenFrom(w.db, out, room, socket, w.now, false, true);
    ExtendExactly(out, w.now, room);
  }

  /** A deletion is the owner's: it takes the infos of the members and of the owner's connection and every key of the
      room, and nothing else. */
  lemma DeleteExactly(w: World, socket: string, room: string)
    ensures var (v, reply) := Delete(w, socket, room); var d := w.db;
            && (reply == Rejected(INVALID_RID) <==> socket !in w.conns)
            && (reply == Rejected(NOT_OWNER) <==> socket in w.conns && !ActsAsOwner(w, socket, room))
            && (reply == Accepted <==> ActsAsOwner(w, socket, room))
            && v == if reply == Accepted then
                      w.(db := Db(d.config - {room}, d.owner - {room}, d.token - {room}, d.initialNickname - {room},
                                  d.title - {room}, d.counter - {room}, d.members - {room}, d.ready - {room},
                                  d.sockets - (Elements(d.members, room, w.now) + {socket}), d.state - {room},
                                  d.lastActivity - {room}, d.lock - {room}, d.idem))
                    else w
  {}

  // ----- settings -----

  /** The config is changed by the owner alone, to what it asks for. */
  lemma ConfigSetExactly(w: World, socket: string, room: string, winnersCount: int, sentiment: Sentiment)
    ensures var (v, reply) := SetConfig(w, socket, room, winnersCount, sentiment);
            && (reply == Ignored <==> socket !in w.conns)
            && (reply == Rejected(INVALID) <==> socket in w.conns && winnersCount < 1)
            && (reply == Rejected(NOT_OWNER) <==>
                  socket in w.conns && winnersCount >= 1 && !ActsAsOwner(w, socket, room))
            && (reply == Accepted <==> winnersCount >= 1 && ActsAsOwner(w, socket, room))
            && v == if reply == Accepted then
                      w.(db := w.db.(
                           config := TwoHours(w.db.config, room, RoomConfig(winnersCount, sentiment, w.now), w.now),
                           lastActivity := TwoHours(w.db.lastActivity, room, w.now, w.now)))
                    else w
  {}

  /** A participant is ready in the room it names, or not, as it says. */
  lemma ToggleExactly(w: World, socket: string, room: string, ready: bool)
    ensures var (v, reply) := ToggleReady(w, socket, room, ready);
            var info := if socket in w.conns then Get(w.db.sockets, socket, w.now) else None;
            && (reply == Ignored <==> info.None?)
            && (reply == Rejected(ONLY_PARTICIPANTS_CAN_READY) <==> info.Some? && info.value.role == Owner)
            && (reply == Accepted <==> info.Some? && info.value.role == Participant)
            && (reply == Accepted && ready ==> Gained(w.db.ready, v.db.ready, room, socket, {}, w.now))
            && (reply == Accepted && !ready ==> Without(w.db.ready, v.db.ready, room, socket, w.now))
            && v == if reply == Accepted then
                      w.(db := w.db.(ready := v.db.ready,
                                     lastActivity := TwoHours(w.db.lastActivity, room, w.now, w.now)))
                    else w
  {}

  /** A nickname of 1 to 20 characters is written into the socket's info, for 2 hours, if it has one. */
  lemma NicknameExactly(w: World, socket: string, room: string, nickname: string)
    ensures var (v, reply) := ChangeNickname(w, socket, room, nickname);
            var info := Get(w.db.sockets, socket, w.now);
            && (reply == Ignored <==> socket !in w.conns)
            && (reply == Rejected(INVALID_NICKNAME) <==> socket in w.conns && !(1 <= |nickname| <= 20))
            && (reply == Accepted <==> socket in w.conns && 1 <= |nickname| <= 20)
            && v == if reply == Accepted then
                      w.(db := w.db.(
                           sockets := if info.None? then w.db.sockets
                                      else TwoHours(w.db.sockets, socket,
                                                    SocketInfo(info.value.roomId, info.value.rid, nickname,
                                                               info.value.role, info.value.lastSeen), w.now),
                           lastActivity := TwoHours(w.db.lastActivity, room, w.now, w.now)))
                    else w
  {}

  // ----- spinning -----

  /** The socket is a member of the room, with a live info that names it. */
  predicate Present(w: World, room: string, x: string) {
    && x in Elements(w.db.members, room, w.now) && Get(w.db.sockets, x, w.now).Some?
    && Get(w.db.sockets, x, w.now).value.roomId == room
  }

  ghost predicate Somebody(w: World, room: string) {
    exists x :: Present(w, room, x)
  }

  /** Every participant that is present is ready. */
  ghost predicate Everybody(w: World, room: string) {
    forall x :: Present(w, room, x) && Get(w.db.sockets, x, w.now).value.role == Participant ==>
                  x in Elements(w.db.ready, room, w.now)
  }

  lemma GateOfStore(w: World, room: string, snap: Snapshot)
    requires ReadsSnapshot(w.db, w.now, room, snap)
    ensures var gate := GateOf(room, snap);
            && (gate == NoMembers <==> !Somebody(w, room))
            && (gate == NotAllReady <==> Somebody(w, room) && !Everybody(w, room))
            && (gate == RoomNotFound <==>
                  Somebody(w, room) && Everybody(w, room) && Get(w.db.config, room, w.now).None?)
  {
    assert forall x :: Present(w, room, x) <==> x in snap.members && Registered(room, snap.infos, x);
  }

  /** A spin is the owner's, of a request that has not been resolved in the last 30 seconds, in a room with a free lock
      and a config where somebody is present and every participant present is ready. It records the request for 30
      seconds and the spin for 2 hours, and leaves the lock free. */
  lemma SpinExactly(w: World, socket: string, room: string, requestId: string, spinId: string, snap: Snapshot)
    requires ReadsSnapshot(w.db, w.now, room, snap)
    ensures var (v, reply) := Spin(w, socket, room, requestId, spinId, snap);
            var mine, unlocked := ActsAsOwner(w, socket, room), Get(w.db.lock, room, w.now).None?;
            var unseen := Get(w.db.idem, (room, requestId), w.now).None?;
            var present, ready := Somebody(w, room), Everybody(w, room);
            var configured := Get(w.db.config, room, w.now).Some?;
            && (reply == Ignored <==> socket !in w.conns)
            && (reply == Rejected(NOT_OWNER) <==> socket in w.conns && !mine)
            && (reply == Rejected(IDEMPOTENT_REPLAY) <==> mine && !unseen)
            && (reply == Rejected(ALREADY_SPINNING) <==> mine && unseen && !unlocked)
            && (reply == Rejected(NO_MEMBERS) <==> mine && unseen && unlocked && !present)
            && (reply == Rejected(NOT_ALL_READY) <==> mine && unseen && unlocked && present && !ready)
            && (reply == Rejected(ROOM_NOT_FOUND) <==> mine && unseen && unlocked && present && ready && !configured)
            && (reply == Accepted <==> mine && unseen && unlocked && present && ready && configured)
            && v == if reply == Accepted then
                      w.(db := w.db.(
                           idem := w.db.idem[(room, requestId) := Cell(spinId, Some(w.now + 30_000))],
                           state := TwoHours(w.db.state, room, LastSpin(spinId, w.now), w.now),
                           lastActivity := TwoHours(w.db.lastActivity, room, w.now, w.now),
                           lock := w.db.lock - {room}))
                    else if mine && unseen && unlocked then w.(db := w.db.(lock := w.db.lock - {room}))
                    else w
  {
    GateOfStore(w, room, snap);
    if Get(w.db.lock, room, w.now).None? {
      SpinLeaves(w, room, requestId, spinId);
    }
  }

  lemma SpinLeaves(w: World, room: string, requestId: string, spinId: string)
    requires Get(w.db.lock, room, w.now).None?
    ensures var locked := AcquireSpinLock(w.db, w.now, room, spinId, SPIN_LOCK_TTL);
            && ReleaseSpinLock(locked, w.now, room, spinId) == w.db.(lock := w.db.lock - {room})
            && ReleaseSpinLock(Resolve(locked, w.now, room, requestId, spinId), w.now, room, spinId) ==
               w.db.(idem := w.db.idem[(room, requestId) := Cell(spinId, Some(w.now + 30_000))],
                     state := TwoHours(w.db.state, room, LastSpin(spinId, w.now), w.now),
                     lastActivity := TwoHours(w.db.lastActivity, room, w.now, w.now),
                     lock := w.db.lock - {room})
  {
    var locked := AcquireSpinLock(w.db, w.now, room, spinId, SPIN_LOCK_TTL);
    LockLeaves(w.db, w.now, room, spinId);
    assert Resolve(locked, w.now, room, requestId, spinId).lock == locked.lock;
  }

  lemma LockLeaves(db: Db, now: int, room: string, spinId: string)
    requires Get(db.lock, room, now).None?
    ensures var locked := AcquireSpinLock(db, now, room, spinId, SPIN_LOCK_TTL);
            && Get(locked.lock, room, now) == Some(spinId) && locked.lock - {room} == db.lock - {room}
            && locked == db.(lock := locked.lock)
  {}
}
