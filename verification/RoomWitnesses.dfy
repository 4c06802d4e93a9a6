/** Runs in which rooms end up in states that look wrong, for any room id, token and rids of the right form. */
module RoomWitnesses {
  import opened Options
  import opened RedisTables
  import opened Store
  import opened Rooms
  import opened RoomEffects
  import opened RoomRuns
  import opened Cookies

  /** A room with its token and owner rid, a second room id, and the rids of two connections. */
  datatype Cast = Cast(room: string, other: string, token: string, rid: string, guest: string, late: string)
  {
    predicate Valid() {
      && IsRoomId(room) && IsRoomId(other) && other != room && IsHex(token, 64)
      && IsHex(rid, 32) && IsHex(guest, 32) && IsHex(late, 32) && guest != rid && late != rid
    }

    function OwnerCookies(): OwnerCookies { Rooms.OwnerCookies(Some(token), Some(rid)) }

    function NoCookies(): OwnerCookies { Rooms.OwnerCookies(None, None) }

    function OwnerJoins(socket: string, choice: Option<string>): Action {
      DoJoin(socket, room, Owner, OwnerCookies(), "n", choice)
    }

    function GuestJoins(socket: string, choice: Option<string>): Action {
      DoJoin(socket, room, Participant, NoCookies(), "n", choice)
    }
  }

  lemma Extended(run: seq<Action>, a: Action) returns (longer: seq<Action>)
    requires Legal(run) && Enabled(After(run), a)
    ensures Legal(longer) && After(longer) == Next(After(run), a)
  {
    longer := run + [a];
    assert longer[..|run|] == run;
  }

  // ----- the scenes -----

  /** The room has just been created and three sockets are connected. */
  ghost predicate Lobby(k: Cast, s: State) {
    && s.w.db == CreateRoom(EMPTY, 0, k.room, k.token, k.rid, "", "", 1, Sentiment.Positive) && s.w.now == 0
    && s.w.conns.Keys == {"o", "p", "q"} && s.w.conns["p"].rid == k.guest && s.w.conns["q"].rid == k.late
  }

  lemma Opening(k: Cast) returns (run: seq<Action>)
    ensures Legal(run) && Lobby(k, After(run))
  {
    run := [];
    run := Extended(run, DoCreate(k.room, k.token, k.rid, "", "", 1, Sentiment.Positive));
    run := Extended(run, DoConnect("o", k.late));
    run := Extended(run, DoConnect("p", k.guest));
    run := Extended(run, DoConnect("q", k.late));
  }

  /** Of the room's own keys, all set at time 0 for 2 hours. */
  ghost predicate Identity(k: Cast, c: Core) {
    && k.room in c.owner && c.owner[k.room] == Cell(k.rid, Some(SOCKET_DATA_TTL))
    && k.room in c.token && c.token[k.room] == Cell(k.token, Some(SOCKET_DATA_TTL))
    && k.room in c.config && c.config[k.room].expires == Some(SOCKET_DATA_TTL)
  }

  ghost predicate Sits(k: Cast, c: Core, x: string, rid: string, role: Role) {
    && x in c.sockets && c.sockets[x].expires == Some(SOCKET_DATA_TTL)
    && c.sockets[x].value.roomId == k.room && c.sockets[x].value.rid == rid && c.sockets[x].value.role == role
  }

  /** At time 0 exactly these sockets are members of the room, and no other room has any. */
  ghost predicate Seated(k: Cast, c: Core, members: set<string>) {
    c.members == map[k.room := Cell(members, None)] && c.sockets.Keys == members
  }

  /** The owner has come in on its own. */
  ghost predicate OwnerOnly(k: Cast, s: State) {
    var c := CoreAt(s);
    && s.w.now == 0 && s.w.conns.Keys == {"o", "p", "q"} && s.w.conns["p"].rid == k.guest &&
        s.w.conns["q"].rid == k.late
    && Identity(k, c) && Seated(k, c, {"o"}) && Sits(k, c, "o", k.rid, Owner) && c.ready == map[]
  }

  /** Somebody enters a room at time 0 that nobody, or only its owner, is in. */
  lemma Arrival(k: Cast, c: Core, e: Effect, members: set<string>)
    requires Identity(k, c) && c.ready == map[] && c.sockets.Keys == members
    requires c.members == (if members == {} then map[] else map[k.room := Cell(members, None)])
    requires e.Enter? && e.room == k.room && e.info.roomId == k.room && e.evicted.None? && !e.unnamed
    requires e.info.role.Owner? ==> e.info.rid == k.rid
    ensures var d := Apply(c, 0, e);
            && Identity(k, d) && d.ready == map[] && Seated(k, d, members + {e.socket})
            && Sits(k, d, e.socket, e.info.rid, e.info.role)
            && (forall x :: x in c.sockets && x != e.socket ==> d.sockets[x] == c.sockets[x])
  {
    assert Elements(c.members, k.room, 0) == members;
  }

  lemma LobbyHas(k: Cast, s: State)
    requires Lobby(k, s)
    ensures Identity(k, CoreAt(s)) && CoreAt(s).members == map[] && CoreAt(s).sockets == map[] &&
        CoreAt(s).ready == map[]
  {}

  lemma OwnerArrives(k: Cast, s: State)
    requires k.Valid() && Lobby(k, s)
    ensures Enabled(s, k.OwnerJoins("o", None)) && OwnerOnly(k, Next(s, k.OwnerJoins("o", None)))
  {
    LobbyHas(k, s);
    StepHas(s, k.OwnerJoins("o", None));
    assert Step(s, k.OwnerJoins("o", None)).1.Joined?;
    Arrival(k, CoreAt(s), EffectOf(s, k.OwnerJoins("o", None)), {});
    assert {} + {"o"} == {"o"};
  }

  lemma OwnerPresent(k: Cast) returns (run: seq<Action>)
    requires k.Valid()
    ensures Legal(run) && OwnerOnly(k, After(run))
  {
    run := Opening(k);
    OwnerArrives(k, After(run));
    run := Extended(run, k.OwnerJoins("o", None));
  }

  /** The owner and one participant are in. */
  ghost predicate Pair(k: Cast, s: State) {
    var c := CoreAt(s);
    && s.w.now == 0 && s.w.conns.Keys == {"o", "p", "q"} && s.w.conns["q"].rid == k.late
    && Identity(k, c) && Seated(k, c, {"o", "p"}) && c.ready == map[]
    && Sits(k, c, "o", k.rid, Owner) && Sits(k, c, "p", k.guest, Participant)
  }

  lemma GuestArrives(k: Cast, s: State)
    requires k.Valid() && OwnerOnly(k, s)
    ensures Enabled(s, k.GuestJoins("p", Some("o"))) && Pair(k, Next(s, k.GuestJoins("p", Some("o"))))
  {
    StepHas(s, k.GuestJoins("p", Some("o")));
    assert Step(s, k.GuestJoins("p", Some("o"))).1.Joined?;
    Arrival(k, CoreAt(s), EffectOf(s, k.GuestJoins("p", Some("o"))), {"o"});
    assert {"o"} + {"p"} == {"o", "p"};
  }

  lemma Together(k: Cast) returns (run: seq<Action>)
    requires k.Valid()
    ensures Legal(run) && Pair(k, After(run))
  {
    run := OwnerPresent(k);
    GuestArrives(k, After(run));
    run := Extended(run, k.GuestJoins("p", Some("o")));
  }

  // ----- a registration that outlives the member set -----

  /** The owner has gone: everything of the room expires half an hour after that. */
  ghost predicate Deserted(k: Cast, s: State) {
    var c := CoreAt(s);
    && s.w.conns.Keys == {"o", "p", "q"} && s.w.conns["q"].rid == k.late
    && c.members == map[k.room := Cell({"p"}, Some(ROOM_DATA_TTL))] && c.sockets.Keys == {"p"}
    && k.room in c.config && c.config[k.room].expires == Some(ROOM_DATA_TTL)
    && c.sockets["p"].expires == Some(ROOM_DATA_TTL) && c.sockets["p"].value.roomId == k.room
    && c.sockets["p"].value.rid == k.guest
    && k.room in c.owner && c.owner[k.room] == Cell(k.rid, Some(ROOM_DATA_TTL))
    && k.room in c.token && c.token[k.room] == Cell(k.token, Some(ROOM_DATA_TTL))
  }

  lemma OwnerGone(k: Cast, c: Core)
    requires Identity(k, c) && Seated(k, c, {"o", "p"}) && Sits(k, c, "p", k.guest, Participant)
    ensures var d := Apply(c, 0, OwnerDepart(k.room, "o", false));
            && d.members == map[k.room := Cell({"p"}, Some(ROOM_DATA_TTL))] && d.sockets.Keys == {"p"}
            && d.sockets["p"] == Cell(c.sockets["p"].value, Some(ROOM_DATA_TTL))
            && k.room in d.config && d.config[k.room].expires == Some(ROOM_DATA_TTL)
            && k.room in d.owner && d.owner[k.room] == Cell(k.rid, Some(ROOM_DATA_TTL))
            && k.room in d.token && d.token[k.room] == Cell(k.token, Some(ROOM_DATA_TTL))
  {
    assert {"o", "p"} - {"o"} == {"p"};
    assert Elements(c.members, k.room, 0) == {"o", "p"};
  }

  lemma Departure(k: Cast, s: State)
    requires k.Valid() && Pair(k, s)
    ensures Deserted(k, Next(s, DoDisconnect("o"))) && Next(s, DoDisconnect("o")).w.now == 0
  {
    StepHas(s, DoDisconnect("o"));
    assert EffectOf(s, DoDisconnect("o")) == OwnerDepart(k.room, "o", false);
    OwnerGone(k, CoreAt(s));
  }

  /** A second participant has come in 10 minutes later, with an info of its own 2 hours. */
  ghost predicate Crowded(k: Cast, s: State) {
    var c := CoreAt(s);
    && s.w.now == 600_000 && s.w.conns.Keys == {"o", "p", "q"} && c.sockets.Keys == {"p", "q"}
    && c.members == map[k.room := Cell({"p", "q"}, Some(ROOM_DATA_TTL))]
    && c.sockets["p"].expires == Some(ROOM_DATA_TTL) && c.sockets["p"].value.roomId == k.room
    && c.sockets["q"].expires == Some(600_000 + SOCKET_DATA_TTL) && c.sockets["q"].value.roomId == k.room
    && c.sockets["p"].value.rid == k.guest && c.sockets["q"].value.rid == k.late
    && k.room in c.owner && c.owner[k.room] == Cell(k.rid, Some(ROOM_DATA_TTL))
    && k.room in c.token && c.token[k.room] == Cell(k.token, Some(ROOM_DATA_TTL))
  }

  lemma LateEntry(k: Cast, c: Core, e: Effect)
    requires c.members == map[k.room := Cell({"p"}, Some(ROOM_DATA_TTL))] && c.sockets.Keys == {"p"}
    requires e.Enter? && e.room == k.room && e.socket == "q" && e.evicted.None? && e.info.role.Participant?
    ensures var d := Apply(c, 600_000, e);
            && d.members == map[k.room := Cell({"p", "q"}, Some(ROOM_DATA_TTL))] && d.sockets.Keys == {"p", "q"}
            && d.sockets["p"] == c.sockets["p"] && d.sockets["q"] == Cell(e.info, Some(600_000 + SOCKET_DATA_TTL))
            && d.owner == c.owner && d.token == c.token
  {
    assert Elements(c.members, k.room, 600_000) + {"q"} == {"p", "q"};
  }

  lemma LateArrival(k: Cast, s: State)
    requires k.Valid() && Deserted(k, s) && s.w.now == 600_000
    ensures Enabled(s, k.GuestJoins("q", None)) && Crowded(k, Next(s, k.GuestJoins("q", None)))
  {
    StepHas(s, k.GuestJoins("q", None));
    assert Step(s, k.GuestJoins("q", None)).1.Joined?;
    LateEntry(k, CoreAt(s), EffectOf(s, k.GuestJoins("q", None)));
  }

  lemma Crowd(k: Cast) returns (run: seq<Action>)
    requires k.Valid()
    ensures Legal(run) && Crowded(k, After(run))
  {
    run := Together(k);
    Departure(k, After(run));
    run := Extended(run, DoDisconnect("o"));
    run := Extended(run, DoTick(600_000));
    LateArrival(k, After(run));
    run := Extended(run, k.GuestJoins("q", None));
  }

  /** When the owner of a room with a participant disconnects, the member set gets 30 minutes; a participant
      that joins 10 minutes later gets 2 hours of its own. Half an hour after the disconnection that participant
      is still registered, in a room that has no members. */
  lemma ExpiryBreaksRegistration(k: Cast) returns (s: State)
    requires k.Valid()
    ensures Reachable(s) && !Registration(CoreAt(s), s.w.now, k.room)
  {
    var run := Crowd(k);
    s := After(run);
    run := Extended(run, DoTick(1_800_000));
    MembersExpire(k, s.w.db);
    s := After(run);
  }

  lemma MembersExpire(k: Cast, db: Db)
    requires "q" in db.sockets && db.sockets["q"].expires == Some(600_000 + SOCKET_DATA_TTL)
    requires db.sockets["q"].value.roomId == k.room
    requires k.room in db.members && db.members[k.room].expires == Some(ROOM_DATA_TTL)
    ensures !Registration(CoreOf(db), 1_800_000, k.room)
  {
    assert "q" in CoreOf(db).sockets && "q" !in Elements(db.members, k.room, 1_800_000);
  }

  // ----- ready sets that hold strangers -----

  lemma StrangerToggles(k: Cast, s: State)
    requires k.Valid() && Pair(k, s)
    ensures var t := Next(s, DoToggleReady("p", k.other, true)); !Within(CoreAt(t), t.w.now, k.other)
  {
    StepHas(s, DoToggleReady("p", k.other, true));
    var t := Next(s, DoToggleReady("p", k.other, true));
    assert "p" in Elements(CoreAt(t).ready, k.other, 0);
  }

  /** The ready toggle takes the room from the request: a participant of one room is ready in another that nobody
      is in. */
  lemma ReadyWithoutMembership(k: Cast) returns (s: State)
    requires k.Valid()
    ensures Reachable(s) && !Within(CoreAt(s), s.w.now, k.other)
  {
    var run := Together(k);
    StrangerToggles(k, After(run));
    run := Extended(run, DoToggleReady("p", k.other, true));
    s := After(run);
  }

  /** One participant is in, and it is ready. */
  ghost predicate ReadyGuest(k: Cast, s: State) {
    var c := CoreAt(s);
    && s.w.now == 0 && "p" in s.w.conns && Identity(k, c) && Seated(k, c, {"p"})
    && Sits(k, c, "p", k.guest, Participant) && c.ready == map[k.room := Cell({"p"}, None)]
  }

  lemma GuestAlone(k: Cast, s: State)
    requires k.Valid() && Lobby(k, s)
    ensures var t := Next(s, k.GuestJoins("p", None));
            && Enabled(s, k.GuestJoins("p", None)) && t.w.now == 0 && "p" in t.w.conns && Identity(k, CoreAt(t))
            && Seated(k, CoreAt(t), {"p"}) && Sits(k, CoreAt(t), "p", k.guest, Participant) && CoreAt(t).ready == map[]
  {
    LobbyHas(k, s);
    StepHas(s, k.GuestJoins("p", None));
    assert Step(s, k.GuestJoins("p", None)).1.Joined?;
    Arrival(k, CoreAt(s), EffectOf(s, k.GuestJoins("p", None)), {});
    assert {} + {"p"} == {"p"};
  }

  lemma GuestReady(k: Cast, s: State)
    requires k.Valid() && s.w.now == 0 && "p" in s.w.conns && Identity(k, CoreAt(s)) && Seated(k, CoreAt(s), {"p"})
    requires Sits(k, CoreAt(s), "p", k.guest, Participant) && CoreAt(s).ready == map[]
    ensures ReadyGuest(k, Next(s, DoToggleReady("p", k.room, true)))
  {
    StepHas(s, DoToggleReady("p", k.room, true));
    assert EffectOf(s, DoToggleReady("p", k.room, true)) == Toggle(k.room, "p", true);
    assert {} + {"p"} == {"p"};
  }

  /** The participant has become the room's owner on the same socket, and is still ready. */
  ghost predicate ReadyOwner(k: Cast, s: State) {
    var c := CoreAt(s);
    && s.w.now == 0 && "p" in s.w.conns && s.w.conns["p"].role == Some(Role.Owner)
    && Sits(k, c, "p", k.rid, Owner) && "p" in Elements(c.ready, k.room, 0)
  }

  lemma GuestBecomesOwner(k: Cast, s: State)
    requires k.Valid() && ReadyGuest(k, s)
    ensures Enabled(s, k.OwnerJoins("p", None)) && ReadyOwner(k, Next(s, k.OwnerJoins("p", None)))
  {
    StepHas(s, k.OwnerJoins("p", None));
    assert Step(s, k.OwnerJoins("p", None)).1.Joined?;
  }

  lemma ReadyOwnerLeaves(k: Cast, s: State)
    requires k.Valid() && ReadyOwner(k, s)
    ensures var t := Next(s, DoLeave("p", k.room)); !Within(CoreAt(t), t.w.now, k.room)
  {
    StepHas(s, DoLeave("p", k.room));
    ElementsApply(CoreAt(s), 0, OwnerDepart(k.room, "p", true), k.room);
  }

  /** Nor is it enough to be a member when declaring oneself ready: a participant that becomes the owner on the
      same socket and then leaves stays in the ready set, because an owner's exit does not touch it. */
  lemma ReadyAfterLeaving(k: Cast) returns (s: State)
    requires k.Valid()
    ensures Reachable(s) && !Within(CoreAt(s), s.w.now, k.room)
  {
    var run := Opening(k);
    GuestAlone(k, After(run));
    run := Extended(run, k.GuestJoins("p", None));
    GuestReady(k, After(run));
    run := Extended(run, DoToggleReady("p", k.room, true));
    GuestBecomesOwner(k, After(run));
    run := Extended(run, k.OwnerJoins("p", None));
    ReadyOwnerLeaves(k, After(run));
    run := Extended(run, DoLeave("p", k.room));
    s := After(run);
  }

  // ----- a creator that is shut out -----

  /** The owner has left, and its rid with it. */
  ghost predicate Ownerless(k: Cast, s: State) {
    var c := CoreAt(s);
    && s.w.now == 0 && s.w.conns.Keys == {"o", "p", "q"} && s.w.conns["q"].rid == k.late
    && k.room !in c.owner && k.room !in c.members
    && k.room in c.token && c.token[k.room] == Cell(k.token, Some(ROOM_DATA_TTL))
  }

  lemma OwnerLeaves(k: Cast, s: State)
    requires k.Valid() && OwnerOnly(k, s) && s.w.conns["o"].role == Some(Role.Owner)
    ensures Ownerless(k, Next(s, DoLeave("o", k.room)))
  {
    StepHas(s, DoLeave("o", k.room));
    assert EffectOf(s, DoLeave("o", k.room)) == OwnerDepart(k.room, "o", true);
    assert {"o"} - {"o"} == {};
  }

  /** A connection that has the room's token cookie but not its rid cookie. */
  function TokenOnly(k: Cast): Action {
    DoJoin("q", k.room, Owner, OwnerCookies(Some(k.token), None), "n", None)
  }

  lemma TokenSuffices(k: Cast, s: State)
    requires k.Valid() && Ownerless(k, s)
    ensures Step(s, TokenOnly(k)).1.Joined? && Step(s, TokenOnly(k)).1.rid == k.late
  {
    assert VerifyOwnerToken(s.w.db, s.w.now, k.room, OwnerCookies(Some(k.token), None)) == Verified(None);
  }

  lemma AnotherOwner(k: Cast, s: State)
    requires k.Valid() && Ownerless(k, s)
    ensures Enabled(s, TokenOnly(k))
    ensures var t := Next(s, TokenOnly(k));
            && t.w.now == 0 && "p" in t.w.conns && OwnerOf(t.w.db, 0, k.room) == Some(k.late)
            && Get(t.w.db.token, k.room, 0) == Some(k.token)
  {
    TokenSuffices(k, s);
    StepHas(s, TokenOnly(k));
    var e := EffectOf(s, TokenOnly(k));
    assert e.Enter? && e.room == k.room && e.info.role.Owner? && e.info.rid == k.late;
  }

  /** The issued cookies can be refused while the token lives: once the owner has left, a connection with the token
      alone becomes the owner with its own rid. */
  lemma CreatorShutOut(k: Cast, choice: Option<string>) returns (s: State)
    requires k.Valid()
    ensures Reachable(s) && Get(s.w.db.token, k.room, s.w.now) == Some(k.token)
    ensures Join(s.w, "p", k.room, Owner, k.OwnerCookies(), "n", choice).1 == Rejected(INVALID_OWNER_RID)
  {
    var run := Opening(k);
    OwnerArrives(k, After(run));
    OwnerMarked(k, After(run));
    run := Extended(run, k.OwnerJoins("o", None));
    OwnerLeaves(k, After(run));
    run := Extended(run, DoLeave("o", k.room));
    AnotherOwner(k, After(run));
    run := Extended(run, TokenOnly(k));
    s := After(run);
    OtherRidRefused(k, s.w, choice);
  }

  lemma OtherRidRefused(k: Cast, w: World, choice: Option<string>)
    requires k.Valid() && "p" in w.conns && Get(w.db.token, k.room, w.now) == Some(k.token)
    requires OwnerOf(w.db, w.now, k.room) == Some(k.late)
    ensures Join(w, "p", k.room, Owner, k.OwnerCookies(), "n", choice).1 == Rejected(INVALID_OWNER_RID)
  {
    assert VerifyOwnerToken(w.db, w.now, k.room, k.OwnerCookies()) == Refused(INVALID_OWNER_RID);
  }

  lemma OwnerMarked(k: Cast, s: State)
    requires k.Valid() && Lobby(k, s)
    ensures "o" in Next(s, k.OwnerJoins("o", None)).w.conns
    ensures Next(s, k.OwnerJoins("o", None)).w.conns["o"].role == Some(Role.Owner)
    ensures Next(s, k.OwnerJoins("o", None)).w.conns["o"].rid == k.rid
  {
    OwnerArrives(k, s);
    StepHas(s, k.OwnerJoins("o", None));
    assert Step(s, k.OwnerJoins("o", None)).1.Joined? && EffectOf(s, k.OwnerJoins("o", None)).info.rid == k.rid;
  }
}
