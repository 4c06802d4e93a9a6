/** The net effect of each handler on the keys that the rooms' invariants are about. */
module RoomEffects {
  import opened Options
  import opened RedisTables
  import opened Store
  import opened SpinRound
  import opened Rooms

  /** Who is where, who is ready, and what identifies a room. */
  datatype Core = Core(
    sockets: Table<string, SocketInfo>, members: Table<string, set<string>>, ready: Table<string, set<string>>,
    owner: Table<string, string>, token: Table<string, string>, config: Table<string, RoomConfig>,
    counter: Table<string, nat>, title: Table<string, string>, initialNickname: Table<string, string>)

  function CoreOf(db: Db): Core {
    Core(db.sockets, db.members, db.ready, db.owner, db.token, db.config, db.counter, db.title, db.initialNickname)
  }

  datatype Effect =
    | Nothing
    | Create(room: string, token: string, rid: string, config: RoomConfig, title: string, nickname: string)
    | Enter(room: string, socket: string, info: SocketInfo, evicted: Option<string>, unnamed: bool)
    | Depart(room: string, socket: string)                      // a participant's disconnection
    | OwnerDepart(room: string, socket: string, leaving: bool)  // an owner's disconnection, or its leaving
    | Erase(room: string, socket: string)
    | Configure(room: string, socket: string, config: RoomConfig)
    | Rename(socket: string, info: SocketInfo)
    | Toggle(room: string, socket: string, isReady: bool)

  function NextNumber(counter: Table<string, nat>, now: int, room: string): nat {
    match Get(counter, room, now)
    case None => 1
    case Some(n) => n + 1
  }

  function SocketsAfter(c: Core, now: int, e: Effect): Table<string, SocketInfo> {
    match e
    case Enter(_, socket, info, evicted, _) =>
      Put(if evicted.Some? then Del(c.sockets, evicted.value) else c.sockets, socket, info, now, SOCKET_DATA_TTL)
    case Depart(_, socket) => Del(c.sockets, socket)
    case OwnerDepart(room, socket, _) =>
      ExpireAll(Del(c.sockets, socket), Elements(SRem(c.members, room, socket, now), room, now), now, ROOM_DATA_TTL)
    case Erase(room, socket) => c.sockets - (Elements(c.members, room, now) + {socket})
    case Rename(socket, info) => Put(c.sockets, socket, info, now, SOCKET_DATA_TTL)
    case _ => c.sockets
  }

  function MembersAfter(c: Core, now: int, e: Effect): Table<string, set<string>> {
    match e
    case Enter(room, socket, _, evicted, _) =>
      SAdd(if evicted.Some? then SRem(c.members, room, evicted.value, now) else c.members, room, socket, now)
    case Depart(room, socket) => SRem(c.members, room, socket, now)
    case OwnerDepart(room, socket, _) => Expire(SRem(c.members, room, socket, now), room, now, ROOM_DATA_TTL)
    case Erase(room, _) => Del(c.members, room)
    case _ => c.members
  }

  function ReadyAfter(c: Core, now: int, e: Effect): Table<string, set<string>> {
    match e
    case Depart(room, socket) => SRem(c.ready, room, socket, now)
    case OwnerDepart(room, socket, leaving) =>
      Expire(if leaving then c.ready else SRem(c.ready, room, socket, now), room, now, ROOM_DATA_TTL)
    case Erase(room, _) => Del(c.ready, room)
    case Toggle(room, socket, isReady) =>
      if isReady then SAdd(c.ready, room, socket, now) else SRem(c.ready, room, socket, now)
    case _ => c.ready
  }

  function OwnerAfter(c: Core, now: int, e: Effect): Table<string, string> {
    match e
    case Create(room, _, rid, _, _, _) => PutNx(c.owner, room, rid, now, SOCKET_DATA_TTL)
    case Enter(room, _, info, _, _) =>
      if info.role.Owner? then PutNx(c.owner, room, info.rid, now, SOCKET_DATA_TTL) else c.owner
    case OwnerDepart(room, _, leaving) =>
      if leaving then Del(c.owner, room) else Expire(c.owner, room, now, ROOM_DATA_TTL)
    case Erase(room, _) => Del(c.owner, room)
    case _ => c.owner
  }

  function TokenAfter(c: Core, now: int, e: Effect): Table<string, string> {
    match e
    case Create(room, token, _, _, _, _) => Put(c.token, room, token, now, SOCKET_DATA_TTL)
    case OwnerDepart(room, _, _) => Expire(c.token, room, now, ROOM_DATA_TTL)
    case Erase(room, _) => Del(c.token, room)
    case _ => c.token
  }

  function ConfigAfter(c: Core, now: int, e: Effect): Table<string, RoomConfig> {
    match e
    case Create(room, _, _, config, _, _) => Put(c.config, room, config, now, SOCKET_DATA_TTL)
    case Enter(room, _, _, _, _) =>
      if Get(c.config, room, now).Some? then c.config
      else Put(c.config, room, RoomConfig(1, Positive, now), now, SOCKET_DATA_TTL)
    case OwnerDepart(room, _, _) => Expire(c.config, room, now, ROOM_DATA_TTL)
    case Erase(room, _) => Del(c.config, room)
    case Configure(room, _, config) => Put(c.config, room, config, now, SOCKET_DATA_TTL)
    case _ => c.config
  }

  function CounterAfter(c: Core, now: int, e: Effect): Table<string, nat> {
    match e
    case Enter(room, _, info, _, unnamed) =>
      if unnamed && info.role.Participant?
      then Put(c.counter, room, NextNumber(c.counter, now, room), now, SOCKET_DATA_TTL) else c.counter
    case OwnerDepart(room, _, _) => Expire(c.counter, room, now, ROOM_DATA_TTL)
    case Erase(room, _) => Del(c.counter, room)
    case _ => c.counter
  }

  function TitleAfter(c: Core, now: int, e: Effect): Table<string, string> {
    match e
    case Create(room, _, _, _, title, _) => Put(c.title, room, title, now, SOCKET_DATA_TTL)
    case OwnerDepart(room, _, _) => Expire(c.title, room, now, ROOM_DATA_TTL)
    case Erase(room, _) => Del(c.title, room)
    case _ => c.title
  }

  /** The nickname given at the creation is used up by the first owner that brings none. */
  function InitialNicknameAfter(c: Core, now: int, e: Effect): Table<string, string> {
    match e
    case Create(room, _, _, _, _, nickname) => Put(c.initialNickname, room, nickname, now, SOCKET_DATA_TTL)
    case Enter(room, _, info, _, unnamed) =>
      if unnamed && info.role.Owner? && Get(c.initialNickname, room, now) !in {None, Some("")}
      then Del(c.initialNickname, room) else c.initialNickname
    case OwnerDepart(room, _, _) => Expire(c.initialNickname, room, now, ROOM_DATA_TTL)
    case Erase(room, _) => Del(c.initialNickname, room)
    case _ => c.initialNickname
  }

  function Apply(c: Core, now: int, e: Effect): Core {
    Core(SocketsAfter(c, now, e), MembersAfter(c, now, e), ReadyAfter(c, now, e), OwnerAfter(c, now, e),
         TokenAfter(c, now, e), ConfigAfter(c, now, e), CounterAfter(c, now, e), TitleAfter(c, now, e),
         InitialNicknameAfter(c, now, e))
  }

  /** A member of the room that carries the room's owner rid. */
  predicate Carries(c: Core, now: int, room: string, x: string) {
    && x in Elements(c.members, room, now) && Get(c.sockets, x, now).Some?
    && Get(c.owner, room, now) == Some(Get(c.sockets, x, now).value.rid)
  }

  /** What somebody who brings no nickname is called: an owner as the room's creation says, if that has not been used
      up; a participant by its number. */
  function AutomaticNickname(c: Core, now: int, room: string, role: Role): string {
    match role
    case Owner =>
      var initial := Get(c.initialNickname, room, now);
      if initial.Some? && initial.value != "" then initial.value else "생성자"
    case Participant => "참가자 " + Numeral(NextNumber(c.counter, now, room))
  }

  /** The checks that the handler with this effect has made. */
  ghost predicate Justified(c: Core, now: int, conns: map<string, Conn>, e: Effect) {
    match e
    case Nothing => true
    case Create(room, _, _, config, _, _) => config.winnersCount >= 1
    case Enter(room, socket, info, evicted, unnamed) =>
      && socket in conns && info.roomId == room && room != ""
      && (unnamed ==> info.nickname == AutomaticNickname(c, now, room, info.role))
      && (info.role.Participant? ==> Get(c.config, room, now).Some? && evicted.None?)
      && (info.role.Owner? ==>
            && Get(c.token, room, now).Some? && Get(c.owner, room, now) in {None, Some(info.rid)}
            && (match evicted
                case Some(x) => Carries(c, now, room, x)
                case None => forall x :: !Carries(c, now, room, x)))
    case Depart(room, socket) =>
      var info := Get(c.sockets, socket, now);
      info.Some? && info.value.roomId == room && info.value.role.Participant?
    case OwnerDepart(room, socket, leaving) =>
      var info := Get(c.sockets, socket, now);
      && info.Some? && info.value.roomId == room
      && if leaving then socket in conns && conns[socket].role == Some(Role.Owner) else info.value.role.Owner?
    case Erase(room, socket) => socket in conns && Get(c.owner, room, now) == Some(conns[socket].rid)
    case Configure(room, socket, config) =>
      socket in conns && Get(c.owner, room, now) == Some(conns[socket].rid) && config.winnersCount >= 1
    case Rename(socket, info) =>
      var was := Get(c.sockets, socket, now);
      was.Some? && info == was.value.(nickname := info.nickname)
    case Toggle(_, socket, _) =>
      var info := Get(c.sockets, socket, now);
      info.Some? && info.value.role.Participant?
  }

  /** The second world is the first one after the effect, which is justified there. */
  ghost predicate Had(w: World, e: Effect, v: World) {
    CoreOf(v.db) == Apply(CoreOf(w.db), w.now, e) && v.now == w.now && Justified(CoreOf(w.db), w.now, w.conns, e)
  }

  // ----- one handler after another -----

  function CreateEffect(now: int, room: string, token: string, rid: string, title: string, nickname: string,
                        winnersCount: int, sentiment: Sentiment): Effect
  {
    Create(room, token, rid, RoomConfig(winnersCount, sentiment, now), if title == "" then "룰렛 방" else title,
           if nickname == "" then "생성자" else nickname)
  }

  lemma CreateHas(db: Db, now: int, room: string, token: string, rid: string, title: string, nickname: string,
                  winnersCount: int, sentiment: Sentiment)
    ensures CoreOf(CreateRoom(db, now, room, token, rid, title, nickname, winnersCount, sentiment)) ==
            Apply(CoreOf(db), now, CreateEffect(now, room, token, rid, title, nickname, winnersCount, sentiment))
  {}

  /** Who may join: a participant a room that has a config; an owner with the room's token, and with the stored owner
      rid, or none, or any well-formed one while none is stored. */
  predicate Admits(w: World, socket: string, room: string, role: Role, cookies: OwnerCookies) {
    && room != "" && socket in w.conns
    && match role
       case Participant => Get(w.db.config, room, w.now).Some?
       case Owner =>
         && cookies.token.Some? && Get(w.db.token, room, w.now) == cookies.token
         && (cookies.rid.Some? ==>
               IsHex(cookies.rid.value, 32) && Get(w.db.owner, room, w.now) in {None, cookies.rid})
  }

  /** The rid somebody joins with: a participant's is its connection's, an owner's that of its cookie, else the stored
      one, else its connection's. */
  function RidFor(w: World, socket: string, room: string, role: Role, cookies: OwnerCookies): string
    requires socket in w.conns
  {
    var stored := Get(w.db.owner, room, w.now);
    if role.Owner? && cookies.rid.Some? then cookies.rid.value
    else if role.Owner? && stored.Some? then stored.value
    else w.conns[socket].rid
  }

  function Entry(w: World, socket: string, room: string, rid: string, role: Role, provided: string,
                 evicted: Option<string>): Effect
  {
    var nickname := if provided != "" then provided else AutomaticNickname(CoreOf(w.db), w.now, room, role);
    Enter(room, socket, SocketInfo(room, rid, nickname, role, w.now), evicted, provided == "")
  }

  function JoinEffect(w: World, socket: string, room: string, role: Role, cookies: OwnerCookies, provided: string,
                      choice: Option<string>): Effect
  {
    if Admits(w, socket, room, role, cookies)
    then Entry(w, socket, room, RidFor(w, socket, room, role, cookies), role, provided,
               if role.Owner? then choice else None)
    else Nothing
  }

  /** What completing a join adds to the store it finds. */
  lemma CompleteJoinHas(w: World, socket: string, room: string, rid: string, role: Role, nickname: string)
    ensures var (v, reply) := CompleteJoin(w, socket, room, rid, role, nickname);
            && CoreOf(v.db) ==
               CoreOf(w.db).(
                 sockets := Put(w.db.sockets, socket, SocketInfo(room, rid, nickname, role, w.now), w.now,
                     SOCKET_DATA_TTL),
                 members := SAdd(w.db.members, room, socket, w.now),
                 config := if Get(w.db.config, room, w.now).Some? then w.db.config
                           else Put(w.db.config, room, RoomConfig(1, Positive, w.now), w.now, SOCKET_DATA_TTL))
            && v.now == w.now && reply.Joined? && reply.rid == rid && reply.nickname == nickname
            && v.conns == w.conns[socket := Conn(rid, Some(role), Some(nickname))]
  {}

  lemma NamingHas(db: Db, now: int, room: string, provided: string)
    ensures var (nickname, named) := OwnerNickname(db, now, room, provided);
            && CoreOf(named) ==
               CoreOf(db).(initialNickname :=
                 if provided == "" && Get(db.initialNickname, room, now) !in {None, Some("")}
                 then Del(db.initialNickname, room) else db.initialNickname)
            && nickname == if provided != "" then provided else AutomaticNickname(CoreOf(db), now, room, Owner)
    ensures var (nickname, named) := ParticipantNickname(db, now, room, provided);
            && CoreOf(named) ==
               CoreOf(db).(counter :=
                 if provided == "" then Put(db.counter, room, NextNumber(db.counter, now, room), now, SOCKET_DATA_TTL)
                 else db.counter)
            && nickname == if provided != "" then provided else AutomaticNickname(CoreOf(db), now, room, Participant)
  {}

  /** Somebody has come in, and is told so. */
  ghost predicate Entered(w: World, e: Effect, v: World, reply: Reply)
    requires e.Enter?
  {
    && CoreOf(v.db) == Apply(CoreOf(w.db), w.now, e) && v.now == w.now
    && reply == Joined(e.info.rid, Get(v.db.owner, e.room, v.now) == Some(e.info.rid), e.info.nickname)
    && v.conns == w.conns[e.socket := Conn(e.info.rid, Some(e.info.role), Some(e.info.nickname))]
  }

  lemma OwnerJoinHas(w: World, socket: string, room: string, rid: string, provided: string, choice: Option<string>)
    ensures var (v, reply) := JoinAsOwner(w, socket, room, rid, provided, choice);
            Entered(w, Entry(w, socket, room, rid, Owner, provided, choice), v, reply)
  {
    var evicted := Evict(w.db, w.now, room, choice);
    var (nickname, db) := OwnerNickname(evicted, w.now, room, provided);
    NamingHas(evicted, w.now, room, provided);
    CompleteJoinHas(w.(db := SetRoomOwner(db, w.now, room, rid)), socket, room, rid, Owner, nickname);
  }

  lemma ParticipantJoinHas(w: World, socket: string, room: string, rid: string, provided: string)
    requires Get(w.db.config, room, w.now).Some?
    ensures var (v, reply) := JoinAsParticipant(w, socket, room, rid, provided);
            Entered(w, Entry(w, socket, room, rid, Participant, provided, None), v, reply)
  {
    var (nickname, db) := ParticipantNickname(w.db, w.now, room, provided);
    NamingHas(w.db, w.now, room, provided);
    CompleteJoinHas(w.(db := db), socket, room, rid, Participant, nickname);
  }

  /** A join has the effect that the store and the cookies call for, and is refused exactly when that is none. */
  lemma JoinHas(w: World, socket: string, room: string, role: Role, cookies: OwnerCookies, provided: string,
                choice: Option<string>)
    requires OwnerSocketChoice(w.db, w.now, room, choice)
    ensures var (v, reply) := Join(w, socket, room, role, cookies, provided, choice);
            var e := JoinEffect(w, socket, room, role, cookies, provided, choice);
            && Had(w, e, v) && (reply.Joined? <==> e.Enter?)
            && if e.Enter? then Entered(w, e, v, reply) else v == w && reply.Rejected?
  {
    if room == "" || socket !in w.conns {
    } else if role.Participant? {
      if Admits(w, socket, room, role, cookies) {
        ParticipantJoinHas(w, socket, room, w.conns[socket].rid, provided);
      }
    } else {
      var verdict := VerifyOwnerToken(w.db, w.now, room, cookies);
      VerdictHas(w, socket, room, cookies);
      if verdict.Verified? {
        OwnerJoinHas(w, socket, room, OwnerRid(w, socket, verdict), provided, choice);
        ChoiceCarries(w.db, w.now, room, choice);
      }
    }
  }

  lemma VerdictHas(w: World, socket: string, room: string, cookies: OwnerCookies)
    requires room != "" && socket in w.conns
    ensures var verdict := VerifyOwnerToken(w.db, w.now, room, cookies);
            && (verdict.Verified? <==> Admits(w, socket, room, Owner, cookies))
            && (verdict.Verified? ==>
                  && OwnerRid(w, socket, verdict) == RidFor(w, socket, room, Owner, cookies)
                  && Get(w.db.owner, room, w.now) in {None, Some(OwnerRid(w, socket, verdict))})
  {}

  lemma ChoiceCarries(db: Db, now: int, room: string, choice: Option<string>)
    requires OwnerSocketChoice(db, now, room, choice)
    ensures match choice
            case Some(x) => Carries(CoreOf(db), now, room, x)
            case None => forall x :: !Carries(CoreOf(db), now, room, x)
  {
    assert forall x :: Carries(CoreOf(db), now, room, x) ==> OwnerSocket(db, now, room, x);
  }

  function DisconnectEffect(db: Db, now: int, socket: string): Effect {
    match Info(db, now, socket)
    case None => Nothing
    case Some(info) =>
      if info.role.Owner? then OwnerDepart(info.roomId, socket, false) else Depart(info.roomId, socket)
  }

  function TakenOut(db: Db, now: int, room: string, socket: string): Db {
    RemoveSocketInfo(RemoveRoomMember(RemoveParticipantReady(db, now, room, socket), now, room, socket), socket)
  }

  lemma TakenOutHas(db: Db, now: int, room: string, socket: string)
    ensures CoreOf(TakenOut(db, now, room, socket)) ==
            CoreOf(db).(sockets := Del(db.sockets, socket), members := SRem(db.members, room, socket, now),
                        ready := SRem(db.ready, room, socket, now))
  {}

  lemma ExtendHas(db: Db, now: int, room: string)
    ensures CoreOf(ExtendRoomTTL(db, now, room)) ==
            Core(ExpireAll(db.sockets, Members(db, now, room), now, ROOM_DATA_TTL),
                 Expire(db.members, room, now, ROOM_DATA_TTL),
                 Expire(db.ready, room, now, ROOM_DATA_TTL), Expire(db.owner, room, now, ROOM_DATA_TTL),
                 Expire(db.token, room, now, ROOM_DATA_TTL), Expire(db.config, room, now, ROOM_DATA_TTL),
                 Expire(db.counter, room, now, ROOM_DATA_TTL), Expire(db.title, room, now, ROOM_DATA_TTL),
                 Expire(db.initialNickname, room, now, ROOM_DATA_TTL))
  {}

  lemma DisconnectHas(db: Db, now: int, socket: string)
    ensures CoreOf(Disconnect(db, now, socket)) == Apply(CoreOf(db), now, DisconnectEffect(db, now, socket))
  {
    var info := Info(db, now, socket);
    if info.Some? {
      var room := info.value.roomId;
      TakenOutHas(db, now, room, socket);
      if info.value.role.Owner? {
        assert Disconnect(db, now, socket) == ExtendRoomTTL(TakenOut(db, now, room, socket), now, room);
        ExtendHas(TakenOut(db, now, room, socket), now, room);
      } else {
        assert Disconnect(db, now, socket) == TakenOut(db, now, room, socket);
      }
    }
  }

  /** Leaving takes a live info that names the room, and goes by the role that the server keeps on the socket. */
  function LeaveEffect(w: World, socket: string, room: string): Effect {
    var info := Get(w.db.sockets, socket, w.now);
    if socket !in w.conns || w.conns[socket].role.None? || info.None? || info.value.roomId != room then Nothing
    else if w.conns[socket].role == Some(Role.Owner) then OwnerDepart(room, socket, true)
    else DisconnectEffect(w.db, w.now, socket)
  }

  lemma ExitHas(db: Db, now: int, room: string, socket: string)
    ensures CoreOf(OwnerExit(db, now, room, socket)) == Apply(CoreOf(db), now, OwnerDepart(room, socket, true))
  {}

  /** Leaving has the effect that the store and the socket's data call for, and is refused exactly when that is none:
      an owner's leaving, or a disconnection. */
  lemma {:induction false} LeaveHas(w: World, socket: string, room: string)
    ensures var (v, reply) := Leave(w, socket, room); var e := LeaveEffect(w, socket, room);
            && Had(w, e, v) && v.conns == w.conns
            && (reply.Accepted? <==> e != Nothing) && (!reply.Accepted? ==> v == w && reply.Rejected?)
  {
    if LeaveEffect(w, socket, room) != Nothing {
      if w.conns[socket].role == Some(Role.Owner) {
        ExitHas(w.db, w.now, room, socket);
        assert Leave(w, socket, room).0.db == OwnerExit(w.db, w.now, room, socket);
      } else {
        DisconnectHas(w.db, w.now, socket);
        assert Leave(w, socket, room).0.db == Disconnect(w.db, w.now, socket);
      }
    }
  }

  /** A deletion takes a connection that carries the stored owner rid. */
  function DeleteEffect(w: World, socket: string, room: string): Effect {
    if socket in w.conns && Get(w.db.owner, room, w.now) == Some(w.conns[socket].rid) then Erase(room, socket)
    else Nothing
  }

  lemma DeleteHas(w: World, socket: string, room: string)
    ensures var (v, reply) := Delete(w, socket, room); var e := DeleteEffect(w, socket, room);
            && Had(w, e, v) && v.conns == w.conns
            && (reply.Accepted? <==> e != Nothing) && (!reply.Accepted? ==> v == w && reply.Rejected?)
  {}

  /** So does a change of the config, which must ask for a winner. */
  function ConfigEffect(w: World, socket: string, room: string, winnersCount: int, sentiment: Sentiment): Effect {
    if socket in w.conns && winnersCount >= 1 && Get(w.db.owner, room, w.now) == Some(w.conns[socket].rid)
    then Configure(room, socket, RoomConfig(winnersCount, sentiment, w.now)) else Nothing
  }

  lemma ConfigHas(w: World, socket: string, room: string, winnersCount: int, sentiment: Sentiment)
    ensures var (v, reply) := SetConfig(w, socket, room, winnersCount, sentiment);
            var e := ConfigEffect(w, socket, room, winnersCount, sentiment);
            && Had(w, e, v) && v.conns == w.conns
            && (reply.Accepted? <==> e != Nothing) && (!reply.Accepted? ==> v == w)
  {}

  /** A nickname takes 1 to 20 characters; a socket without info has none that could change. */
  function NicknameEffect(w: World, socket: string, room: string, nickname: string): Effect {
    var info := Get(w.db.sockets, socket, w.now);
    if socket in w.conns && 1 <= |nickname| <= 20 && info.Some? then Rename(socket, info.value.(nickname := nickname))
    else Nothing
  }

  lemma ActivityHas(db: Db, now: int, room: string)
    ensures CoreOf(SetRoomLastActivity(db, now, room)) == CoreOf(db)
  {}

  lemma NicknameHas(w: World, socket: string, room: string, nickname: string)
    ensures var (v, reply) := ChangeNickname(w, socket, room, nickname);
            var e := NicknameEffect(w, socket, room, nickname);
            && Had(w, e, v) && v.conns == w.conns && (!reply.Accepted? ==> v == w)
            && (reply.Accepted? <==> socket in w.conns && 1 <= |nickname| <= 20)
  {
    var info := Info(w.db, w.now, socket);
    if ChangeNickname(w, socket, room, nickname).1.Accepted? {
      if info.Some? {
        ActivityHas(SetSocketInfo(w.db, w.now, socket, info.value.(nickname := nickname)), w.now, room);
      } else {
        ActivityHas(w.db, w.now, room);
      }
    }
  }

  /** A ready toggle takes a participant's info, of whatever room. */
  function ToggleEffect(w: World, socket: string, room: string, ready: bool): Effect {
    var info := Get(w.db.sockets, socket, w.now);
    if socket in w.conns && info.Some? && info.value.role == Participant then Toggle(room, socket, ready) else Nothing
  }

  lemma ToggleHas(w: World, socket: string, room: string, ready: bool)
    ensures var (v, reply) := ToggleReady(w, socket, room, ready); var e := ToggleEffect(w, socket, room, ready);
            && Had(w, e, v) && v.conns == w.conns
            && (reply.Accepted? <==> e != Nothing) && (!reply.Accepted? ==> v == w)
  {}

  lemma LockHas(db: Db, now: int, room: string, spinId: string)
    ensures CoreOf(AcquireSpinLock(db, now, room, spinId, SPIN_LOCK_TTL)) == CoreOf(db)
    ensures CoreOf(ReleaseSpinLock(db, now, room, spinId)) == CoreOf(db)
  {}

  lemma ResolveHas(db: Db, now: int, room: string, requestId: string, spinId: string)
    ensures CoreOf(Resolve(db, now, room, requestId, spinId)) == CoreOf(db)
  {}

  /** A spin touches none of these keys. */
  lemma SpinHas(w: World, socket: string, room: string, requestId: string, spinId: string, snap: Snapshot)
    ensures var v := Spin(w, socket, room, requestId, spinId, snap).0;
            CoreOf(v.db) == CoreOf(w.db) && v.now == w.now && v.conns == w.conns
  {
    var locked := AcquireSpinLock(w.db, w.now, room, spinId, SPIN_LOCK_TTL);
    LockHas(w.db, w.now, room, spinId);
    LockHas(locked, w.now, room, spinId);
    ResolveHas(locked, w.now, room, requestId, spinId);
    LockHas(Resolve(locked, w.now, room, requestId, spinId), w.now, room, spinId);
  }
}
