/** What each handler of the room service does to Redis and to the sockets' own data, as one function of the
    state before it: a handler runs at one instant, with nothing else in between. */
module Rooms {
  import opened Options
  import opened RedisTables
  import opened Store
  import opened SpinRound

  /** The data the server keeps on a socket object. */
  datatype Conn = Conn(rid: string, role: Option<Role>, nickname: Option<string>)

  datatype World = World(db: Db, now: int, conns: map<string, Conn>)

  /** What the cookie header of a socket says about a room: a well-formed owner token and the raw rid. */
  datatype OwnerCookies = OwnerCookies(token: Option<string>, rid: Option<string>)

  datatype Reason =
    | INVALID_REQUEST | INVALID_RID | MISSING_OWNER_TOKEN | INVALID_OWNER_TOKEN | INVALID_RID_FORMAT
    | INVALID_OWNER_RID | ROOM_NOT_FOUND | INVALID | NOT_OWNER | NOT_IN_ROOM | ONLY_PARTICIPANTS_CAN_READY
    | INVALID_NICKNAME | IDEMPOTENT_REPLAY | ALREADY_SPINNING | NO_MEMBERS | NOT_ALL_READY

  datatype Reply = Joined(rid: string, isOwner: bool, nickname: string) | Accepted | Rejected(reason: Reason) | Ignored

  const OWNER_NICKNAME := "생성자"
  const DEFAULT_TITLE := "룰렛 방"

  predicate IsHex(s: string, n: nat) {
    |s| == n && forall c :: c in s ==> '0' <= c <= '9' || 'a' <= c <= 'f'
  }

  /** A decimal numeral, for the automatic nickname of a participant. */
  function Numeral(n: nat): string {
    (if n < 10 then "" else Numeral(n / 10)) + ['0' + (n % 10) as char]
  }

  // ----- creating a room -----

  function CreateRoom(db: Db, now: int, room: string, token: string, rid: string, title: string, nickname: string,
                      winnersCount: int, sentiment: Sentiment): Db {
    var db := SetRoomOwnerToken(db, now, room, token);
    var db := SetRoomTitle(db, now, room, if title == "" then DEFAULT_TITLE else title);
    var db := SetInitialOwnerNickname(db, now, room, if nickname == "" then OWNER_NICKNAME else nickname);
    var db := SetRoomConfig(db, now, room, RoomConfig(winnersCount, sentiment, now));
    var db := SetRoomOwner(db, now, room, rid);
    SetRoomLastActivity(db, now, room)
  }

  // ----- joining -----

  /** The owner's identity check: a reason to refuse, or the rid to use if one is known. */
  datatype Verdict = Refused(reason: Reason) | Verified(rid: Option<string>)

  function VerifyOwnerToken(db: Db, now: int, room: string, cookies: OwnerCookies): Verdict {
    var stored := OwnerOf(db, now, room);
    if cookies.token.None? then Refused(MISSING_OWNER_TOKEN)
    else if Get(db.token, room, now) != cookies.token then Refused(INVALID_OWNER_TOKEN)
    else if cookies.rid.Some? && !IsHex(cookies.rid.value, 32) then Refused(INVALID_RID_FORMAT)
    else if stored.Some? && cookies.rid.Some? && cookies.rid != stored then Refused(INVALID_OWNER_RID)
    else Verified(if cookies.rid.Some? then cookies.rid else stored)
  }

  /** A member of the room that carries the room's owner rid. */
  predicate OwnerSocket(db: Db, now: int, room: string, socket: string) {
    && socket in Members(db, now, room)
    && Info(db, now, socket).Some?
    && OwnerOf(db, now, room) == Some(Info(db, now, socket).value.rid)
  }

  /** The search for the owner's connection ends at the first such member in an arbitrary order. */
  ghost predicate OwnerSocketChoice(db: Db, now: int, room: string, choice: Option<string>) {
    match choice
    case Some(socket) => OwnerSocket(db, now, room, socket)
    case None => forall socket :: !OwnerSocket(db, now, room, socket)
  }

  function Evict(db: Db, now: int, room: string, choice: Option<string>): Db {
    match choice
    case None => db
    case Some(socket) => RemoveSocketInfo(RemoveRoomMember(db, now, room, socket), socket)
  }

  /** The owner's nickname, and the store once an initial nickname has been used up. */
  function OwnerNickname(db: Db, now: int, room: string, provided: string): (string, Db) {
    var initial := Get(db.initialNickname, room, now);
    if provided != "" then (provided, db)
    else if initial.Some? && initial.value != "" then (initial.value, RemoveInitialOwnerNickname(db, room))
    else (OWNER_NICKNAME, db)
  }

  function ParticipantNickname(db: Db, now: int, room: string, provided: string): (string, Db) {
    if provided != "" then (provided, db)
    else ("참가자 " + Numeral(NextParticipantNumber(db, now, room)), BumpParticipantCounter(db, now, room))
  }

  function CompleteJoin(w: World, socket: string, room: string, rid: string, role: Role, nickname: string): (World,
                        Reply) {
    var db := AddRoomMember(w.db, w.now, room, socket);
    var db := SetSocketInfo(db, w.now, socket, SocketInfo(room, rid, nickname, role, w.now));
    var isOwner := OwnerOf(db, w.now, room) == Some(rid);
    var db := if Get(db.config, room, w.now).Some? then db
              else SetRoomConfig(db, w.now, room, RoomConfig(1, Positive, w.now));
    var db := SetRoomLastActivity(db, w.now, room);
    (World(db, w.now, w.conns[socket := Conn(rid, Some(role), Some(nickname))]), Joined(rid, isOwner, nickname))
  }

  function JoinAsOwner(w: World, socket: string, room: string, rid: string, provided: string, choice: Option<string>):
    (World, Reply)
  {
    var db := Evict(w.db, w.now, room, choice);
    var (nickname, db) := OwnerNickname(db, w.now, room, provided);
    var db := SetRoomOwner(db, w.now, room, rid);
    CompleteJoin(w.(db := db), socket, room, rid, Owner, nickname)
  }

  function JoinAsParticipant(w: World, socket: string, room: string, rid: string, provided: string): (World, Reply) {
    if Get(w.db.config, room, w.now).None? then (w, Rejected(ROOM_NOT_FOUND))
    else
      var (nickname, db) := ParticipantNickname(w.db, w.now, room, provided);
      CompleteJoin(w.(db := db), socket, room, rid, Participant, nickname)
  }

  /** The rid an owner joins with: the cookie's, else the stored one, else the connection's own. */
  function OwnerRid(w: World, socket: string, verdict: Verdict): string
    requires socket in w.conns && verdict.Verified?
  {
    if verdict.rid.Some? then verdict.rid.value else w.conns[socket].rid
  }

  function Join(w: World, socket: string, room: string, role: Role, cookies: OwnerCookies, provided: string,
                choice: Option<string>): (World, Reply)
  {
    if room == "" then (w, Rejected(INVALID_REQUEST))
    else if socket !in w.conns then (w, Rejected(INVALID_RID))
    else if role.Participant? then JoinAsParticipant(w, socket, room, w.conns[socket].rid, provided)
    else
      var verdict := VerifyOwnerToken(w.db, w.now, room, cookies);
      if verdict.Refused? then (w, Rejected(verdict.reason))
      else
        JoinAsOwner(w, socket, room, OwnerRid(w, socket, verdict), provided, choice)
  }

  // ----- leaving -----

  function Disconnect(db: Db, now: int, socket: string): Db {
    match Info(db, now, socket)
    case None => db
    case Some(info) =>
      var db := RemoveParticipantReady(db, now, info.roomId, socket);
      var db := RemoveRoomMember(db, now, info.roomId, socket);
      var db := RemoveSocketInfo(db, socket);
      if info.role.Owner? then ExtendRoomTTL(db, now, info.roomId) else db
  }

  function OwnerExit(db: Db, now: int, room: string, socket: string): Db {
    var db := RemoveRoomMember(db, now, room, socket);
    var db := RemoveSocketInfo(db, socket);
    var db := ClearRoomOwner(db, room);
    ExtendRoomTTL(db, now, room)
  }

  function Leave(w: World, socket: string, room: string): (World, Reply) {
    if socket !in w.conns || w.conns[socket].role.None? then (w, Rejected(INVALID_REQUEST))
    else
      var info := Info(w.db, w.now, socket);
      if info.None? || info.value.roomId != room then (w, Rejected(NOT_IN_ROOM))
      else if w.conns[socket].role.value.Owner? then (w.(db := OwnerExit(w.db, w.now, room, socket)), Accepted)
      else (w.(db := Disconnect(w.db, w.now, socket)), Accepted)
  }

  function RemoveSocketInfos(db: Db, sockets: set<string>): Db {
    db.(sockets := db.sockets - sockets)
  }

  function Delete(w: World, socket: string, room: string): (World, Reply) {
    if socket !in w.conns then (w, Rejected(INVALID_RID))
    else if OwnerOf(w.db, w.now, room) != Some(w.conns[socket].rid) then (w, Rejected(NOT_OWNER))
    else (w.(db := DeleteRoom(RemoveSocketInfos(w.db, Members(w.db, w.now, room) + {socket}), room)), Accepted)
  }

  // ----- settings -----

  function SetConfig(w: World, socket: string, room: string, winnersCount: int, sentiment: Sentiment): (World, Reply) {
    if socket !in w.conns then (w, Ignored)
    else if winnersCount < 1 then (w, Rejected(INVALID))
    else if OwnerOf(w.db, w.now, room) != Some(w.conns[socket].rid) then (w, Rejected(NOT_OWNER))
    else
      var db := SetRoomConfig(w.db, w.now, room, RoomConfig(winnersCount, sentiment, w.now));
      (w.(db := SetRoomLastActivity(db, w.now, room)), Accepted)
  }

  /** The room is the one the request names, which need not be the room the socket is in. */
  function ToggleReady(w: World, socket: string, room: string, ready: bool): (World, Reply) {
    var info := Info(w.db, w.now, socket);
    if socket !in w.conns || info.None? then (w, Ignored)
    else if !info.value.role.Participant? then (w, Rejected(ONLY_PARTICIPANTS_CAN_READY))
    else
      var db := if ready then SetParticipantReady(w.db, w.now, room, socket)
                else RemoveParticipantReady(w.db, w.now, room, socket);
      (w.(db := SetRoomLastActivity(db, w.now, room)), Accepted)
  }

  /** The nickname is the trimmed one. */
  function ChangeNickname(w: World, socket: string, room: string, nickname: string): (World, Reply) {
    if socket !in w.conns then (w, Ignored)
    else if nickname == "" || |nickname| > 20 then (w, Rejected(INVALID_NICKNAME))
    else
      var info := Info(w.db, w.now, socket);
      var db := if info.None? then w.db
                else SetSocketInfo(w.db, w.now, socket, info.value.(nickname := nickname));
      (w.(db := SetRoomLastActivity(db, w.now, room)), Accepted)
  }

  // ----- spinning -----

  /** The snapshot is what the batch of reads returns, the members in an arbitrary order. */
  ghost predicate ReadsSnapshot(db: Db, now: int, room: string, snap: Snapshot) {
    && Lists(snap.members, Members(db, now, room))
    && snap.ready == ReadyOf(db, now, room)
    && snap.config == Get(db.config, room, now)
    && (forall s :: s in snap.infos <==> s in snap.members && Info(db, now, s).Some?)
    && (forall s :: s in snap.infos ==> snap.infos[s] == Info(db, now, s).value)
  }

  ghost function GateReason(gate: Gate): Reason
    requires !gate.Pass?
  {
    match gate
    case NoMembers => NO_MEMBERS
    case NotAllReady => NOT_ALL_READY
    case RoomNotFound => ROOM_NOT_FOUND
  }

  ghost function Spin(w: World, socket: string, room: string, requestId: string, spinId: string, snap: Snapshot):
    (World, Reply)
  {
    if socket !in w.conns then (w, Ignored)
    else if OwnerOf(w.db, w.now, room) != Some(w.conns[socket].rid) then (w, Rejected(NOT_OWNER))
    else if Get(w.db.idem, (room, requestId), w.now).Some? then (w, Rejected(IDEMPOTENT_REPLAY))
    else if Get(w.db.lock, room, w.now).Some? then (w, Rejected(ALREADY_SPINNING))
    else
      var db := AcquireSpinLock(w.db, w.now, room, spinId, SPIN_LOCK_TTL);
      var gate := GateOf(room, snap);
      if !gate.Pass? then (w.(db := ReleaseSpinLock(db, w.now, room, spinId)), Rejected(GateReason(gate)))
      else (w.(db := ReleaseSpinLock(Resolve(db, w.now, room, requestId, spinId), w.now, room, spinId)), Accepted)
  }

  function Resolve(db: Db, now: int, room: string, requestId: string, spinId: string): Db {
    var db := SetIdempotency(db, now, room, requestId, spinId);
    var db := SetRoomLastActivity(db, now, room);
    SetRoomState(db, now, room, LastSpin(spinId, now))
  }
}
