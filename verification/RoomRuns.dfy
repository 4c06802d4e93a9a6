/** Whole runs of the room service, one handler at a time, with the clock moving between handlers. */
module RoomRuns {
  import opened Options
  import opened RedisTables
  import opened Store
  import opened SpinRound
  import opened Rooms
  import opened RoomEffects

  /** `created` is the set of room ids drawn so far. */
  datatype State = State(w: World, created: set<string>)

  datatype Action =
    | DoCreate(room: string, token: string, rid: string, title: string, nickname: string, winnersCount: int,
               sentiment: Sentiment)
    | DoConnect(socket: string, rid: string)
    | DoJoin(socket: string, room: string, role: Role, cookies: OwnerCookies, nickname: string, choice: Option<string>)
    | DoLeave(socket: string, room: string)
    | DoDisconnect(socket: string)
    | DoDelete(socket: string, room: string)
    | DoSetConfig(socket: string, room: string, winnersCount: int, sentiment: Sentiment)
    | DoToggleReady(socket: string, room: string, ready: bool)
    | DoChangeNickname(socket: string, room: string, nickname: string)
    | DoSpin(socket: string, room: string, requestId: string, spinId: string, snap: Snapshot)
    | DoTick(until: int)

  /** Room ids are drawn fresh, connections are new, the create request has passed its validation, a choice of
      owner connection is one the search can return, a snapshot is one the reads can return, and the clock
      does not go back. */
  ghost predicate Enabled(s: State, a: Action) {
    match a
    case DoCreate(room, _, _, _, _, winnersCount, _) => room !in s.created && winnersCount >= 1
    case DoConnect(socket, _) => socket !in s.w.conns
    case DoJoin(_, room, _, _, _, choice) => OwnerSocketChoice(s.w.db, s.w.now, room, choice)
    case DoSpin(_, room, _, _, snap) => ReadsSnapshot(s.w.db, s.w.now, room, snap)
    case DoTick(until) => s.w.now <= until
    case _ => true
  }

  ghost function Step(s: State, a: Action): (State, Reply) {
    match a
    case DoCreate(room, token, rid, title, nickname, winnersCount, sentiment) =>
      (State(s.w.(db := CreateRoom(s.w.db, s.w.now, room, token, rid, title, nickname, winnersCount, sentiment)),
             s.created + {room}), Accepted)
    case DoConnect(socket, rid) => (s.(w := s.w.(conns := s.w.conns[socket := Conn(rid, None, None)])), Accepted)
    case DoJoin(socket, room, role, cookies, nickname, choice) =>
      Kept(s, Join(s.w, socket, room, role, cookies, nickname, choice))
    case DoLeave(socket, room) => Kept(s, Leave(s.w, socket, room))
    case DoDisconnect(socket) => (s.(w := s.w.(db := Disconnect(s.w.db, s.w.now, socket))), Accepted)
    case DoDelete(socket, room) => Kept(s, Delete(s.w, socket, room))
    case DoSetConfig(socket, room, winnersCount, sentiment) =>
      Kept(s, SetConfig(s.w, socket, room, winnersCount, sentiment))
    case DoToggleReady(socket, room, ready) => Kept(s, ToggleReady(s.w, socket, room, ready))
    case DoChangeNickname(socket, room, nickname) => Kept(s, ChangeNickname(s.w, socket, room, nickname))
    case DoSpin(socket, room, requestId, spinId, snap) => Kept(s, Spin(s.w, socket, room, requestId, spinId, snap))
    case DoTick(until) => (s.(w := s.w.(now := until)), Accepted)
  }

  function Kept(s: State, r: (World, Reply)): (State, Reply) {
    (s.(w := r.0), r.1)
  }

  ghost function Next(s: State, a: Action): State {
    Step(s, a).0
  }

  const START := State(World(EMPTY, 0, map[]), {})

  ghost function After(run: seq<Action>): State {
    if run == [] then START else Next(After(run[..|run| - 1]), run[|run| - 1])
  }

  ghost predicate Legal(run: seq<Action>) {
    run == [] || (Legal(run[..|run| - 1]) && Enabled(After(run[..|run| - 1]), run[|run| - 1]))
  }

  ghost predicate Reachable(s: State) {
    exists run :: Legal(run) && After(run) == s
  }

  /** A legal continuation of a state. */
  ghost predicate Continues(s: State, run: seq<Action>)
    decreases |run|
  {
    run == [] || (Enabled(s, run[0]) && Continues(Next(s, run[0]), run[1..]))
  }

  ghost function Then(s: State, run: seq<Action>): State
    decreases |run|
  {
    if run == [] then s else Then(Next(s, run[0]), run[1..])
  }

  ghost predicate Follows(s: State, t: State) {
    exists later :: Continues(s, later) && Then(s, later) == t
  }

  // ----- the effect of a step -----

  ghost function EffectOf(s: State, a: Action): Effect {
    match a
    case DoCreate(room, token, rid, title, nickname, winnersCount, sentiment) =>
      CreateEffect(s.w.now, room, token, rid, title, nickname, winnersCount, sentiment)
    case DoJoin(socket, room, role, cookies, nickname, choice) =>
      JoinEffect(s.w, socket, room, role, cookies, nickname, choice)
    case DoLeave(socket, room) => LeaveEffect(s.w, socket, room)
    case DoDisconnect(socket) => DisconnectEffect(s.w.db, s.w.now, socket)
    case DoDelete(socket, room) => DeleteEffect(s.w, socket, room)
    case DoSetConfig(socket, room, winnersCount, sentiment) => ConfigEffect(s.w, socket, room, winnersCount, sentiment)
    case DoToggleReady(socket, room, ready) => ToggleEffect(s.w, socket, room, ready)
    case DoChangeNickname(socket, room, nickname) => NicknameEffect(s.w, socket, room, nickname)
    case _ => Nothing
  }

  function ConnsAfter(conns: map<string, Conn>, a: Action, e: Effect): map<string, Conn> {
    if a.DoConnect? then conns[a.socket := Conn(a.rid, None, None)]
    else if e.Enter? then conns[e.socket := Conn(e.info.rid, Some(e.info.role), Some(e.info.nickname))]
    else conns
  }

  function CoreAt(s: State): Core { CoreOf(s.w.db) }

  /** Every step has its effect, made with the checks that justify it. */
  ghost predicate Has(s: State, a: Action, t: State, e: Effect) {
    && CoreAt(t) == Apply(CoreAt(s), s.w.now, e) && t.w.now == (if a.DoTick? then a.until else s.w.now)
    && t.w.conns == ConnsAfter(s.w.conns, a, e) && Justified(CoreAt(s), s.w.now, s.w.conns, e)
    && t.created == (if a.DoCreate? then s.created + {a.room} else s.created)
    && (e.Create? <==> a.DoCreate?) && (a.DoTick? || a.DoConnect? ==> e == Nothing)
  }

  /** Joins, exits, deletions, config changes and ready toggles are accepted exactly when they have an effect; and who
      joins is told the rid and the nickname it is registered with, and whether it is the owner. */
  ghost predicate Answered(a: Action, t: State, reply: Reply, e: Effect) {
    match a
    case DoJoin(socket, room, role, _, _, _) =>
      && (reply.Joined? <==> e.Enter?)
      && (e.Enter? ==>
            && e.room == room && e.socket == socket && e.info.role == role
            && reply == Joined(e.info.rid, Get(CoreAt(t).owner, room, t.w.now) == Some(e.info.rid), e.info.nickname))
    case DoLeave(_, _) => reply.Accepted? <==> e != Nothing
    case DoDelete(_, _) => reply.Accepted? <==> e != Nothing
    case DoSetConfig(_, _, _, _) => reply.Accepted? <==> e != Nothing
    case DoToggleReady(_, _, _) => reply.Accepted? <==> e != Nothing
    case _ => true
  }

  /** The action brings somebody in or takes somebody out. */
  predicate Moves(a: Action) {
    a.DoJoin? || a.DoLeave? || a.DoDisconnect? || a.DoDelete?
  }

  lemma MoveHas(s: State, a: Action)
    requires Enabled(s, a) && Moves(a)
    ensures Has(s, a, Next(s, a), EffectOf(s, a)) && Answered(a, Next(s, a), Step(s, a).1, EffectOf(s, a))
  {
    match a
    case DoJoin(socket, room, role, cookies, nickname, choice) =>
      JoinHas(s.w, socket, room, role, cookies, nickname, choice);
    case DoLeave(socket, room) => LeaveHas(s.w, socket, room);
    case DoDisconnect(socket) => DisconnectHas(s.w.db, s.w.now, socket);
    case DoDelete(socket, room) => DeleteHas(s.w, socket, room);
  }

  lemma StepHas(s: State, a: Action)
    requires Enabled(s, a)
    ensures Has(s, a, Next(s, a), EffectOf(s, a)) && Answered(a, Next(s, a), Step(s, a).1, EffectOf(s, a))
  {
    if Moves(a) {
      MoveHas(s, a);
    } else {
      match a
      case DoCreate(room, token, rid, title, nickname, winnersCount, sentiment) =>
        CreateHas(s.w.db, s.w.now, room, token, rid, title, nickname, winnersCount, sentiment);
      case DoSetConfig(socket, room, winnersCount, sentiment) => ConfigHas(s.w, socket, room, winnersCount, sentiment);
      case DoToggleReady(socket, room, ready) => ToggleHas(s.w, socket, room, ready);
      case DoChangeNickname(socket, room, nickname) => NicknameHas(s.w, socket, room, nickname);
      case DoSpin(socket, room, requestId, spinId, snap) => SpinHas(s.w, socket, room, requestId, spinId, snap);
      case DoConnect(_, _) =>
      case DoTick(_) =>
    }
  }

  /** The registered owner of the room, or the connection that acts as it, goes away. */
  ghost predicate OwnerDeparts(s: State, a: Action, room: string) {
    EffectOf(s, a).OwnerDepart? && EffectOf(s, a).room == room
  }

  // ----- registration -----

  /** Every socket whose info names the room is in the room's member set. */
  ghost predicate Registration(c: Core, now: int, room: string) {
    forall x :: x in c.sockets && Live(c.sockets[x], now) && c.sockets[x].value.roomId == room ==>
                  x in Elements(c.members, room, now)
  }

  /** No socket registered in the room outlives the room's member set past the instant. */
  ghost predicate TickKeeps(c: Core, until: int, room: string) {
    (exists x :: x in c.sockets && Live(c.sockets[x], until) && c.sockets[x].value.roomId == room) ==>
      room in c.members && Live(c.members[room], until)
  }

  /** No handler breaks registrations, in whatever rooms its socket is. */
  lemma RegistrationApply(c: Core, now: int, conns: map<string, Conn>, e: Effect, room: string)
    requires Registration(c, now, room) && Justified(c, now, conns, e)
    ensures Registration(Apply(c, now, e), now, room)
  {}

  /** Letting the clock move keeps registrations exactly when the member set lasts as long as they do. */
  lemma RegistrationTick(c: Core, now: int, until: int, room: string)
    requires Registration(c, now, room) && now <= until
    ensures Registration(c, until, room) <==> TickKeeps(c, until, room)
  {}

  ghost predicate RegisteredThroughout(run: seq<Action>, room: string) {
    && Registration(CoreAt(After(run)), After(run).w.now, room)
    && (run != [] ==> RegisteredThroughout(run[..|run| - 1], room))
  }

  ghost predicate TicksKeep(run: seq<Action>, room: string) {
    run == [] ||
    (TicksKeep(run[..|run| - 1], room)
     && (run[|run| - 1].DoTick? ==> TickKeeps(CoreAt(After(run[..|run| - 1])), run[|run| - 1].until, room)))
  }

  /** Registrations of a room hold throughout a run exactly when no tick lets the room's member set expire before
      a socket that is registered in it. */
  lemma {:induction false} RegistrationExact(run: seq<Action>, room: string)
    requires Legal(run)
    ensures RegisteredThroughout(run, room) <==> TicksKeep(run, room)
  {
    if run != [] {
      var s, a := After(run[..|run| - 1]), run[|run| - 1];
      RegistrationExact(run[..|run| - 1], room);
      if TicksKeep(run[..|run| - 1], room) {
        assert Registration(CoreAt(s), s.w.now, room);
        StepHas(s, a);
        if a.DoTick? {
          RegistrationTick(CoreAt(s), s.w.now, a.until, room);
        } else {
          RegistrationApply(CoreAt(s), s.w.now, s.w.conns, EffectOf(s, a), room);
        }
      }
    }
  }

  /** A run in which no owner of the room leaves it or disconnects from it. */
  ghost predicate NoDepartures(run: seq<Action>, room: string) {
    run == [] || (NoDepartures(run[..|run| - 1], room) && !OwnerDeparts(After(run[..|run| - 1]), run[|run| - 1], room))
  }

  predicate Lasting(c: Core, room: string) {
    room in c.members ==> c.members[room].expires.None?
  }

  lemma LastingApply(c: Core, now: int, e: Effect, room: string)
    requires Lasting(c, room) && !(e.OwnerDepart? && e.room == room)
    ensures Lasting(Apply(c, now, e), room)
  {}

  /** In every run without a departure of the room's owner, whatever expires, the member set has no expiry and
      every socket whose info names the room is in it. */
  lemma {:induction false} RegistrationWithoutDepartures(run: seq<Action>, room: string)
    requires Legal(run) && NoDepartures(run, room)
    ensures Lasting(CoreAt(After(run)), room) && RegisteredThroughout(run, room)
  {
    if run != [] {
      var s, a := After(run[..|run| - 1]), run[|run| - 1];
      RegistrationWithoutDepartures(run[..|run| - 1], room);
      StepHas(s, a);
      LastingApply(CoreAt(s), s.w.now, EffectOf(s, a), room);
      if a.DoTick? {
        assert Registration(CoreAt(s), s.w.now, room);
      } else {
        RegistrationApply(CoreAt(s), s.w.now, s.w.conns, EffectOf(s, a), room);
      }
    }
  }

  // ----- ready sets -----

  /** Everybody who is ready in the room is one of its members. */
  ghost predicate Within(c: Core, now: int, room: string) {
    Elements(c.ready, room, now) <= Elements(c.members, room, now)
  }

  /** Who declares itself ready in the room is a member; an owner that leaves it is not ready in it; and an owner
      connection that is replaced is not ready in it, unless it is the one that joins. */
  ghost predicate KeepsReady(c: Core, now: int, e: Effect, room: string) {
    match e
    case Toggle(r, x, isReady) => r == room && isReady ==> x in Elements(c.members, room, now)
    case OwnerDepart(r, x, leaving) => r == room && leaving ==> x !in Elements(c.ready, room, now)
    case Enter(r, x, _, evicted, _) =>
      r == room && evicted.Some? && evicted.value != x ==> evicted.value !in Elements(c.ready, room, now)
    case _ => true
  }

  /** The member set does not expire before the ready set. */
  ghost predicate TickKeepsReady(c: Core, until: int, room: string) {
    Elements(c.ready, room, until) != {} ==> room in c.members && Live(c.members[room], until)
  }

  /** The members and the ready set of a room after an effect. */
  lemma ElementsApply(c: Core, now: int, e: Effect, room: string)
    ensures Elements(MembersAfter(c, now, e), room, now) ==
            (match e
             case Enter(r, x, _, evicted, _) =>
               if r != room then Elements(c.members, room, now)
               else Elements(c.members, room, now) - (if evicted.Some? then {evicted.value} else {}) + {x}
             case Depart(r, x) => Elements(c.members, room, now) - if r == room then {x} else {}
             case OwnerDepart(r, x, _) => Elements(c.members, room, now) - if r == room then {x} else {}
             case Erase(r, _) => if r == room then {} else Elements(c.members, room, now)
             case _ => Elements(c.members, room, now))
    ensures Elements(ReadyAfter(c, now, e), room, now) ==
            (match e
             case Depart(r, x) => Elements(c.ready, room, now) - if r == room then {x} else {}
             case OwnerDepart(r, x, leaving) => Elements(c.ready, room, now) - if r == room && !leaving then {x} else {}
             case Erase(r, _) => if r == room then {} else Elements(c.ready, room, now)
             case Toggle(r, x, isReady) =>
               if r != room then Elements(c.ready, room, now)
               else if isReady then Elements(c.ready, room, now) + {x} else Elements(c.ready, room, now) - {x}
             case _ => Elements(c.ready, room, now))
  {}

  lemma ReadyApply(c: Core, now: int, e: Effect, room: string)
    requires Within(c, now, room)
    ensures Within(Apply(c, now, e), now, room) <==> KeepsReady(c, now, e, room)
  {
    ElementsApply(c, now, e, room);
  }

  lemma ReadyTick(c: Core, now: int, until: int, room: string)
    requires Within(c, now, room) && now <= until
    ensures Within(c, until, room) <==> TickKeepsReady(c, until, room)
  {}

  ghost predicate WithinThroughout(run: seq<Action>, room: string) {
    && Within(CoreAt(After(run)), After(run).w.now, room)
    && (run != [] ==> WithinThroughout(run[..|run| - 1], room))
  }

  ghost predicate GuardedThroughout(run: seq<Action>, room: string) {
    run == [] ||
    (GuardedThroughout(run[..|run| - 1], room)
     && var s, a := After(run[..|run| - 1]), run[|run| - 1];
        && KeepsReady(CoreAt(s), s.w.now, EffectOf(s, a), room)
        && (a.DoTick? ==> TickKeepsReady(CoreAt(s), a.until, room)))
  }

  /** A room's ready set stays within its members throughout a run exactly when every step meets its guard: there
      are three ways for handlers to break it and one for the clock. */
  lemma {:induction false} ReadyExact(run: seq<Action>, room: string)
    requires Legal(run)
    ensures WithinThroughout(run, room) <==> GuardedThroughout(run, room)
  {
    if run != [] {
      var s, a := After(run[..|run| - 1]), run[|run| - 1];
      ReadyExact(run[..|run| - 1], room);
      if GuardedThroughout(run[..|run| - 1], room) {
        assert Within(CoreAt(s), s.w.now, room);
        StepHas(s, a);
        if a.DoTick? {
          ReadyTick(CoreAt(s), s.w.now, a.until, room);
        } else {
          ReadyApply(CoreAt(s), s.w.now, EffectOf(s, a), room);
        }
      }
    }
  }

  // ----- rooms that are not in use -----

  /** The room has no config, owner or token. */
  predicate Gone(c: Core, room: string) {
    room !in c.config && room !in c.owner && room !in c.token
  }

  /** No socket's info names the room. */
  ghost predicate Unnamed(c: Core, now: int, room: string) {
    forall x :: x in c.sockets && Live(c.sockets[x], now) ==> c.sockets[x].value.roomId != room
  }

  lemma GoneApply(c: Core, now: int, conns: map<string, Conn>, e: Effect, room: string)
    requires Gone(c, room) && Justified(c, now, conns, e) && !(e.Create? && e.room == room)
    ensures Gone(Apply(c, now, e), room)
    ensures room !in c.members ==> room !in Apply(c, now, e).members
    ensures Unnamed(c, now, room) ==> Unnamed(Apply(c, now, e), now, room)
  {}

  /** Room ids that were never drawn are not in use. */
  ghost predicate Unused(s: State) {
    forall r :: r !in s.created ==> Gone(CoreAt(s), r) && r !in CoreAt(s).members && Unnamed(CoreAt(s), s.w.now, r)
  }

  lemma {:induction false} UnusedHolds(run: seq<Action>)
    requires Legal(run)
    ensures Unused(After(run))
  {
    if run != [] {
      var s, a := After(run[..|run| - 1]), run[|run| - 1];
      UnusedHolds(run[..|run| - 1]);
      StepHas(s, a);
      var t, e := Next(s, a), EffectOf(s, a);
      forall r | r !in t.created
        ensures Gone(CoreAt(t), r) && r !in CoreAt(t).members && Unnamed(CoreAt(t), t.w.now, r)
      {
        GoneApply(CoreAt(s), s.w.now, s.w.conns, e, r);
      }
    }
  }

  // ----- a deleted room stays dead -----

  /** A room without config, owner and token refuses every join, spin, config change and deletion. */
  lemma GoneRefuses(s: State, a: Action, room: string)
    requires Gone(CoreAt(s), room)
    ensures (a.DoJoin? || a.DoSpin? || a.DoSetConfig? || a.DoDelete?) && a.room == room ==>
              Next(s, a) == s && (Step(s, a).1.Rejected? || Step(s, a).1.Ignored?)
  {}

  /** Every join, spin, config change and deletion on the room is refused and changes nothing. (Ready toggles and
      nickname changes do not look at the room they name.) */
  ghost predicate RefusesAll(s: State, room: string) {
    forall a: Action :: (a.DoJoin? || a.DoSpin? || a.DoSetConfig? || a.DoDelete?) && a.room == room ==>
                          Next(s, a) == s && (Step(s, a).1.Rejected? || Step(s, a).1.Ignored?)
  }

  lemma GoneRefusesAll(s: State, room: string)
    requires Gone(CoreAt(s), room)
    ensures RefusesAll(s, room)
  {
    forall a: Action | (a.DoJoin? || a.DoSpin? || a.DoSetConfig? || a.DoDelete?) && a.room == room
      ensures Next(s, a) == s && (Step(s, a).1.Rejected? || Step(s, a).1.Ignored?)
    {
      GoneRefuses(s, a, room);
    }
  }

  lemma {:induction false} GoneLasts(s: State, later: seq<Action>, room: string)
    requires room in s.created && Gone(CoreAt(s), room) && Continues(s, later)
    ensures Gone(CoreAt(Then(s, later)), room)
    ensures Unnamed(CoreAt(s), s.w.now, room) ==> Unnamed(CoreAt(Then(s, later)), Then(s, later).w.now, room)
    decreases |later|
  {
    if later != [] {
      var a := later[0];
      StepHas(s, a);
      GoneApply(CoreAt(s), s.w.now, s.w.conns, EffectOf(s, a), room);
      GoneLasts(Next(s, a), later[1..], room);
    }
  }

  /** The room's owner has just deleted it. */
  ghost predicate JustDeleted(before: State, socket: string, room: string, s: State) {
    && Reachable(before) && Delete(before.w, socket, room).1.Accepted?
    && s == Next(before, DoDelete(socket, room))
  }

  lemma DeletionHas(before: State, socket: string, room: string, s: State)
    requires JustDeleted(before, socket, room, s)
    ensures room in s.created && Gone(CoreAt(s), room) && s.w.now == before.w.now
    ensures CoreAt(s) == Apply(CoreAt(before), before.w.now, Erase(room, socket))
  {
    var run :| Legal(run) && After(run) == before;
    UnusedHolds(run);
    StepHas(before, DoDelete(socket, room));
  }

  /** The socket's info names the room. */
  predicate Names(c: Core, now: int, x: string, room: string) {
    x in c.sockets && Live(c.sockets[x], now) && c.sockets[x].value.roomId == room
  }

  /** A deletion leaves no info that names the room exactly when everybody registered in the room was a member of
      it or is the one who deletes it. */
  lemma DeletionExact(before: State, socket: string, room: string, s: State)
    requires JustDeleted(before, socket, room, s)
    ensures Unnamed(CoreAt(s), s.w.now, room) <==>
            forall x :: Names(CoreAt(before), before.w.now, x, room) ==>
                          x in Members(before.w.db, before.w.now, room) || x == socket
  {
    DeletionHas(before, socket, room, s);
    var c, gone := CoreAt(before), Elements(CoreAt(before).members, room, before.w.now) + {socket};
    assert CoreAt(s).sockets == c.sockets - gone;
    if Unnamed(CoreAt(s), s.w.now, room) {
      forall x | Names(CoreAt(before), before.w.now, x, room)
        ensures x in gone
      {
        assert x !in gone ==> x in CoreAt(s).sockets;
      }
    }
  }

  /** A deleted room stays dead in every continuation, whatever expires: it has no token, config or owner, every
      join, spin, config change and deletion is refused, and if no info names it to begin with, none ever does
      again. */
  lemma DeletedStaysDead(before: State, socket: string, room: string, s: State, t: State)
    requires JustDeleted(before, socket, room, s) && Follows(s, t)
    ensures Gone(CoreAt(t), room) && RefusesAll(t, room)
    ensures Unnamed(CoreAt(s), s.w.now, room) ==> Unnamed(CoreAt(t), t.w.now, room)
  {
    DeletionHas(before, socket, room, s);
    var later :| Continues(s, later) && Then(s, later) == t;
    GoneLasts(s, later, room);
    GoneRefusesAll(t, room);
  }

  // ----- winners counts -----

  predicate AsksForWinners(c: Core) {
    forall r :: r in c.config ==> c.config[r].value.winnersCount >= 1
  }

  lemma AsksApply(c: Core, now: int, conns: map<string, Conn>, e: Effect)
    requires AsksForWinners(c) && Justified(c, now, conns, e)
    ensures AsksForWinners(Apply(c, now, e))
  {}

  lemma {:induction false} AsksHolds(run: seq<Action>)
    requires Legal(run)
    ensures AsksForWinners(CoreAt(After(run)))
  {
    if run != [] {
      var s, a := After(run[..|run| - 1]), run[|run| - 1];
      AsksHolds(run[..|run| - 1]);
      StepHas(s, a);
      AsksApply(CoreAt(s), s.w.now, s.w.conns, EffectOf(s, a));
    }
  }

  lemma ConfigAsks(s: State, room: string)
    requires Reachable(s) && Get(s.w.db.config, room, s.w.now).Some?
    ensures Get(s.w.db.config, room, s.w.now).value.winnersCount >= 1
  {
    var run :| Legal(run) && After(run) == s;
    AsksHolds(run);
    assert room in CoreAt(s).config;
  }

  /** Every spin that is resolved in any run announces as many winners as the room's stored config asks for, or
      everybody if that is more, and at least one; and its private outcomes, its public summary and the announced
      count agree on who wins. */
  lemma EverySpinHasWinners(s: State, room: string, snap: Snapshot, draws: seq<nat>, online: set<string>, round: Round)
    requires Reachable(s) && ReadsSnapshot(s.w.db, s.w.now, room, snap)
    requires GateOf(room, snap).Pass? && RoundOf(room, snap, draws, online, round)
    ensures 1 <= round.announced == Wins(round.outcomes) <= |round.outcomes|
    ensures var config := Get(s.w.db.config, room, s.w.now);
            && config.Some? && round.announced <= config.value.winnersCount
            && (round.announced == config.value.winnersCount || round.announced == |round.outcomes|)
            && round.sentiment == config.value.winSentiment
    ensures forall x :: x in Members(s.w.db, s.w.now, room) && Registered(room, snap.infos, x) <==>
                        exists i :: 0 <= i < |round.outcomes| && round.outcomes[i].socketId == x
    ensures |round.summary| == |round.outcomes|
    ensures forall i :: 0 <= i < |round.summary| ==>
                        round.summary[i] == (round.outcomes[i].nickname, round.outcomes[i].win)
    ensures forall x, w :: (x, w) in round.told <==>
                           x in online && exists i :: 0 <= i < |round.outcomes|
                                                      && round.outcomes[i].socketId == x && round.outcomes[i].win == w
  {
    ConfigAsks(s, room);
    RoundAgrees(room, snap, draws, online, round);
  }

  // ----- automatic nicknames -----

  /** What a decimal numeral stands for. */
  function NumberOf(digits: string): int {
    if digits == "" then 0 else 10 * NumberOf(digits[..|digits| - 1]) + (digits[|digits| - 1] as int - '0' as int)
  }

  /** The numeral of a number is made of decimal digits, without a leading zero, and stands for it. */
  lemma {:induction false} NumeralReads(n: nat)
    ensures NumberOf(Numeral(n)) == n
    ensures Numeral(n) != "" && forall c :: c in Numeral(n) ==> '0' <= c <= '9'
    ensures n > 0 ==> Numeral(n)[0] != '0'
  {
    var front := if n < 10 then "" else Numeral(n / 10);
    assert Numeral(n)[..|front|] == front;
    if n >= 10 {
      NumeralReads(n / 10);
      assert Numeral(n)[0] == front[0];
    }
  }

  lemma NumeralInjective(m: nat, n: nat)
    requires Numeral(m) == Numeral(n)
    ensures m == n
  {
    NumeralReads(m);
    NumeralReads(n);
  }

  /** The room's counter is live in every state of the continuation. */
  ghost predicate CounterLives(s: State, later: seq<Action>, room: string)
    decreases |later|
  {
    && Get(CoreAt(s).counter, room, s.w.now).Some?
    && (later != [] ==> CounterLives(Next(s, later[0]), later[1..], room))
  }

  lemma CounterApply(c: Core, now: int, e: Effect, room: string)
    requires Get(c.counter, room, now).Some? && Get(CounterAfter(c, now, e), room, now).Some?
    ensures Get(c.counter, room, now).value <= Get(CounterAfter(c, now, e), room, now).value
  {}

  lemma CounterTick(counter: Table<string, nat>, now: int, until: int, room: string)
    requires now <= until && Get(counter, room, now).Some? && Get(counter, room, until).Some?
    ensures Get(counter, room, now) == Get(counter, room, until)
  {}

  lemma CounterStep(s: State, a: Action, room: string)
    requires Enabled(s, a) && Get(CoreAt(s).counter, room, s.w.now).Some?
    requires Get(CoreAt(Next(s, a)).counter, room, Next(s, a).w.now).Some?
    ensures Get(CoreAt(s).counter, room, s.w.now).value <=
            Get(CoreAt(Next(s, a)).counter, room, Next(s, a).w.now).value
  {
    StepHas(s, a);
    if a.DoTick? {
      CounterTick(CoreAt(s).counter, s.w.now, a.until, room);
    } else {
      CounterApply(CoreAt(s), s.w.now, EffectOf(s, a), room);
    }
  }

  lemma {:induction false} CounterGrows(s: State, later: seq<Action>, room: string)
    requires Continues(s, later) && CounterLives(s, later, room)
    ensures var t := Then(s, later);
            && Get(CoreAt(t).counter, room, t.w.now).Some?
            && Get(CoreAt(s).counter, room, s.w.now).value <= Get(CoreAt(t).counter, room, t.w.now).value
    decreases |later|
  {
    if later != [] {
      CounterGrows(Next(s, later[0]), later[1..], room);
      CounterStep(s, later[0], room);
    }
  }

  /** The action is a participant's join without a nickname, and it succeeds. */
  ghost predicate JoinsUnnamed(s: State, a: Action, room: string) {
    && a.DoJoin? && a.role.Participant? && a.nickname == "" && a.room == room && Enabled(s, a)
    && Step(s, a).1.Joined?
  }

  lemma UnnamedJoin(s: State, a: Action, room: string)
    requires JoinsUnnamed(s, a, room)
    ensures Step(s, a).1.nickname == "참가자 " + Numeral(NextNumber(CoreAt(s).counter, s.w.now, room))
    ensures Get(CoreAt(Next(s, a)).counter, room, s.w.now) == Some(NextNumber(CoreAt(s).counter, s.w.now, room))
    ensures Next(s, a).w.now == s.w.now
  {
    StepHas(s, a);
  }

  /** While a room's counter lives, the nicknames it gives to participants that bring none all differ. */
  lemma NumberedNicknamesDiffer(s: State, a: Action, later: seq<Action>, b: Action, room: string)
    requires JoinsUnnamed(s, a, room) && Continues(Next(s, a), later) && CounterLives(Next(s, a), later, room)
    requires JoinsUnnamed(Then(Next(s, a), later), b, room)
    ensures Step(s, a).1.nickname != Step(Then(Next(s, a), later), b).1.nickname
  {
    var t := Then(Next(s, a), later);
    UnnamedJoin(s, a, room);
    CounterGrows(Next(s, a), later, room);
    UnnamedJoin(t, b, room);
    var m, n := NextNumber(CoreAt(s).counter, s.w.now, room), NextNumber(CoreAt(t).counter, t.w.now, room);
    var prefix := "참가자 ";
    if Numeral(m) == Numeral(n) {
      NumeralInjective(m, n);
    }
    assert (prefix + Numeral(m))[|prefix|..] == Numeral(m) && (prefix + Numeral(n))[|prefix|..] == Numeral(n);
  }
}
