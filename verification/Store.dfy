/** Everything the server keeps in Redis, and what each command group of the Redis service does to it. */
module Store {
  import opened Options
  import opened RedisTables

  datatype Sentiment = Positive | Negative
  datatype Role = Owner | Participant
  datatype RoomConfig = RoomConfig(winnersCount: int, winSentiment: Sentiment, updatedAt: int)
  datatype LastSpin = LastSpin(spinId: string, decidedAt: int)
  datatype SocketInfo = SocketInfo(roomId: string, rid: string, nickname: string, role: Role, lastSeen: int)

  // Times are in milliseconds.
  const SOCKET_DATA_TTL := 7_200_000
  const ROOM_DATA_TTL := 1_800_000
  const SPIN_LOCK_TTL := 10_000
  const IDEMPOTENCY_TTL := 30_000

  /** One table per key family, indexed by room, by socket, or by (room, request). */
  datatype Db = Db(
    config: Table<string, RoomConfig>,
    owner: Table<string, string>,
    token: Table<string, string>,
    initialNickname: Table<string, string>,
    title: Table<string, string>,
    counter: Table<string, nat>,
    members: Table<string, set<string>>,
    ready: Table<string, set<string>>,
    sockets: Table<string, SocketInfo>,
    state: Table<string, LastSpin>,
    lastActivity: Table<string, int>,
    lock: Table<string, string>,
    idem: Table<(string, string), string>)

  const EMPTY := Db(map[], map[], map[], map[], map[], map[], map[], map[], map[], map[], map[], map[], map[])

  // ----- reads -----

  function OwnerOf(db: Db, now: int, room: string): Option<string> {
    Get(db.owner, room, now)
  }

  function Members(db: Db, now: int, room: string): set<string> {
    Elements(db.members, room, now)
  }

  function ReadyOf(db: Db, now: int, room: string): set<string> {
    Elements(db.ready, room, now)
  }

  function Info(db: Db, now: int, socket: string): Option<SocketInfo> {
    Get(db.sockets, socket, now)
  }

  // ----- writes -----

  function SetRoomConfig(db: Db, now: int, room: string, config: RoomConfig): Db {
    db.(config := Put(db.config, room, config, now, SOCKET_DATA_TTL))
  }

  function SetRoomOwner(db: Db, now: int, room: string, rid: string): Db {
    db.(owner := PutNx(db.owner, room, rid, now, SOCKET_DATA_TTL))
  }

  function ClearRoomOwner(db: Db, room: string): Db {
    db.(owner := Del(db.owner, room))
  }

  function AddRoomMember(db: Db, now: int, room: string, socket: string): Db {
    db.(members := SAdd(db.members, room, socket, now))
  }

  function RemoveRoomMember(db: Db, now: int, room: string, socket: string): Db {
    db.(members := SRem(db.members, room, socket, now))
  }

  function SetSocketInfo(db: Db, now: int, socket: string, info: SocketInfo): Db {
    db.(sockets := Put(db.sockets, socket, info, now, SOCKET_DATA_TTL))
  }

  function RemoveSocketInfo(db: Db, socket: string): Db {
    db.(sockets := Del(db.sockets, socket))
  }

  function AcquireSpinLock(db: Db, now: int, room: string, spinId: string, ttl: int): Db {
    db.(lock := PutNx(db.lock, room, spinId, now, ttl))
  }

  /** The compare-and-delete script: only the stored owner's lock goes away. */
  function ReleaseSpinLock(db: Db, now: int, room: string, spinId: string): Db {
    if Get(db.lock, room, now) == Some(spinId) then db.(lock := Del(db.lock, room)) else db
  }

  function SetIdempotency(db: Db, now: int, room: string, requestId: string, spinId: string): Db {
    db.(idem := Put(db.idem, (room, requestId), spinId, now, IDEMPOTENCY_TTL))
  }

  function SetRoomState(db: Db, now: int, room: string, spin: LastSpin): Db {
    db.(state := Put(db.state, room, spin, now, SOCKET_DATA_TTL))
  }

  function SetRoomOwnerToken(db: Db, now: int, room: string, token: string): Db {
    db.(token := Put(db.token, room, token, now, SOCKET_DATA_TTL))
  }

  /** INCR keeps the expiry and starts a missing counter at 1; the EXPIRE that follows resets it. */
  function BumpParticipantCounter(db: Db, now: int, room: string): Db {
    db.(counter := Put(db.counter, room, NextParticipantNumber(db, now, room), now, SOCKET_DATA_TTL))
  }

  function NextParticipantNumber(db: Db, now: int, room: string): nat {
    match Get(db.counter, room, now)
    case None => 1
    case Some(n) => n + 1
  }

  function SetParticipantReady(db: Db, now: int, room: string, socket: string): Db {
    db.(ready := SAdd(db.ready, room, socket, now))
  }

  function RemoveParticipantReady(db: Db, now: int, room: string, socket: string): Db {
    db.(ready := SRem(db.ready, room, socket, now))
  }

  function SetInitialOwnerNickname(db: Db, now: int, room: string, nickname: string): Db {
    db.(initialNickname := Put(db.initialNickname, room, nickname, now, SOCKET_DATA_TTL))
  }

  function RemoveInitialOwnerNickname(db: Db, room: string): Db {
    db.(initialNickname := Del(db.initialNickname, room))
  }

  function SetRoomTitle(db: Db, now: int, room: string, title: string): Db {
    db.(title := Put(db.title, room, title, now, SOCKET_DATA_TTL))
  }

  function SetRoomLastActivity(db: Db, now: int, room: string): Db {
    db.(lastActivity := Put(db.lastActivity, room, now, now, SOCKET_DATA_TTL))
  }

  /** One pipeline: every key of the room except the idempotency records. */
  function DeleteRoom(db: Db, room: string): Db {
    Db(Del(db.config, room), Del(db.owner, room), Del(db.token, room), Del(db.initialNickname, room),
       Del(db.title, room), Del(db.counter, room), Del(db.members, room), Del(db.ready, room),
       db.sockets, Del(db.state, room), Del(db.lastActivity, room), Del(db.lock, room), db.idem)
  }

  /** One pipeline: the room's keys and its members' socket keys all get 30 minutes. The lock and the
      idempotency records are not touched. */
  function ExtendRoomTTL(db: Db, now: int, room: string): Db {
    ExtendRoomKeys(db, now, room).(sockets := ExpireAll(db.sockets, Members(db, now, room), now, ROOM_DATA_TTL))
  }

  function ExtendRoomKeys(db: Db, now: int, room: string): Db {
    Db(Expire(db.config, room, now, ROOM_DATA_TTL), Expire(db.owner, room, now, ROOM_DATA_TTL),
       Expire(db.token, room, now, ROOM_DATA_TTL), Expire(db.initialNickname, room, now, ROOM_DATA_TTL),
       Expire(db.title, room, now, ROOM_DATA_TTL), Expire(db.counter, room, now, ROOM_DATA_TTL),
       Expire(db.members, room, now, ROOM_DATA_TTL), Expire(db.ready, room, now, ROOM_DATA_TTL),
       db.sockets, Expire(db.state, room, now, ROOM_DATA_TTL),
       Expire(db.lastActivity, room, now, ROOM_DATA_TTL), db.lock, db.idem)
  }
}
