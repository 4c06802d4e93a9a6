/** Races with a deletion that leave something behind, in rooms that the room service's handlers lead to. */
module DeleteWitnesses {
  import opened Options
  import opened RedisTables
  import opened Store
  import opened DeleteRace
  import opened RoomWitnesses
  import J = JoinRace
  import Rooms
  import RoomEffects
  import RoomRuns

  /** The owner has come back on a new connection, a moment before the member set expires. */
  ghost predicate Brink(k: Cast, s: RoomRuns.State) {
    var db := s.w.db;
    && s.w.now == 1_799_999 && "x" in s.w.conns && s.w.conns["x"].rid == k.rid
    && db.members == map[k.room := Cell({"p", "q", "x"}, Some(ROOM_DATA_TTL))] && db.sockets.Keys == {"p", "q", "x"}
    && db.sockets["p"].expires == Some(ROOM_DATA_TTL) && db.sockets["p"].value.roomId == k.room
    && db.sockets["q"].expires == Some(600_000 + SOCKET_DATA_TTL) && db.sockets["q"].value.roomId == k.room
    && k.room in db.owner && db.owner[k.room] == Cell(k.rid, Some(ROOM_DATA_TTL))
  }

  lemma OwnerEntry(k: Cast, c: RoomEffects.Core, e: RoomEffects.Effect)
    requires c.members == map[k.room := Cell({"p", "q"}, Some(ROOM_DATA_TTL))] && c.sockets.Keys == {"p", "q"}
    requires k.room in c.owner && c.owner[k.room] == Cell(k.rid, Some(ROOM_DATA_TTL))
    requires e.Enter? && e.room == k.room && e.socket == "x" && e.evicted.None?
    ensures var d := RoomEffects.Apply(c, 600_000, e);
            && d.members == map[k.room := Cell({"p", "q", "x"}, Some(ROOM_DATA_TTL))]
            && d.sockets.Keys == {"p", "q", "x"} && d.owner == c.owner
            && d.sockets["p"] == c.sockets["p"] && d.sockets["q"] == c.sockets["q"]
  {
    assert Elements(c.members, k.room, 600_000) + {"x"} == {"p", "q", "x"};
  }

  lemma OwnerBack(k: Cast, s: RoomRuns.State)
    requires k.Valid() && Crowded(k, s.(w := s.w.(conns := s.w.conns - {"x"}))) && "x" in s.w.conns
    ensures var join := k.OwnerJoins("x", None);
            RoomRuns.Enabled(s, join) && Brink(k, RoomRuns.Next(RoomRuns.Next(s, join), RoomRuns.DoTick(1_799_999)))
  {
    var join := k.OwnerJoins("x", None);
    RoomRuns.StepHas(s, join);
    assert RoomRuns.Step(s, join).1.Joined?;
    OwnerEntry(k, RoomRuns.CoreAt(s), RoomRuns.EffectOf(s, join));
  }

  lemma AtTheBrink(k: Cast) returns (s: RoomRuns.State)
    requires k.Valid()
    ensures RoomRuns.Reachable(s) && Brink(k, s)
  {
    var run := Crowd(k);
    var crowd := RoomRuns.After(run);
    run := Extended(run, RoomRuns.DoConnect("x", k.late));
    var there := RoomRuns.After(run);
    assert there.w.conns - {"x"} == crowd.w.conns;
    OwnerBack(k, there);
    run := Extended(run, k.OwnerJoins("x", None));
    run := Extended(run, RoomRuns.DoTick(1_799_999));
    s := RoomRuns.After(run);
  }

  const RUN: seq<Command> := [Tick(ROOM_DATA_TTL), ListMembers, RemoveOwn, Drop]

  /** One command, none of a disconnection, and then a legal rest. */
  lemma {:induction false} First(room: string, own: string, sockets: set<string>, r: Race, c: Command,
                                 rest: seq<Command>)
    requires Enabled(r, c) && Leaver(c).None? && Legal(room, own, sockets, Next(room, own, r, c), rest)
    ensures Legal(room, own, sockets, r, [c] + rest)
    ensures After(room, own, sockets, r, [c] + rest) == After(room, own, sockets, Next(room, own, r, c), rest)
  {
    var run := [c] + rest;
    assert run[0] == c && run[1..] == rest;
  }

  lemma FourSteps(room: string, own: string, sockets: set<string>, r: Race, a: Race, b: Race, c: Race)
    requires Enabled(r, Tick(ROOM_DATA_TTL)) && a == Next(room, own, r, Tick(ROOM_DATA_TTL))
    requires Enabled(a, ListMembers) && b == Next(room, own, a, ListMembers)
    requires Enabled(b, RemoveOwn) && c == Next(room, own, b, RemoveOwn) && Enabled(c, Drop)
    ensures Legal(room, own, sockets, r, RUN) && After(room, own, sockets, r, RUN) == Next(room, own, c, Drop)
  {
    First(room, own, sockets, c, Drop, []);
    First(room, own, sockets, b, RemoveOwn, [Drop] + []);
    First(room, own, sockets, a, ListMembers, [RemoveOwn] + ([Drop] + []));
    First(room, own, sockets, r, Tick(ROOM_DATA_TTL), [ListMembers] + ([RemoveOwn] + ([Drop] + [])));
    assert RUN == [Tick(ROOM_DATA_TTL)] + ([ListMembers] + ([RemoveOwn] + ([Drop] + [])));
  }

  /** A lapse can happen, and it spares exactly those who came after the owner had departed: in a room that the
      handlers lead to, the returned owner's deletion passes its check a millisecond before the member set expires.
      The participant that joined after the departure keeps its info and the other one does not. */
  lemma LapseSparesTheLate(k: Cast) returns (s: RoomRuns.State, q: Race)
    requires k.Valid()
    ensures RoomRuns.Reachable(s) && Rooms.Delete(s.w, "x", k.room).1.Accepted?
    ensures var r := Race(s.w.db, s.w.now, Checked, map[], false);
            && Start(k.room, "x", {"p", "q"}, r) && Legal(k.room, "x", {"p", "q"}, r, RUN)
            && q == After(k.room, "x", {"p", "q"}, r, RUN) && Complete(q) && q.lapsed
    ensures Info(q.db, q.now, "q").Some? && Info(q.db, q.now, "q").value.roomId == k.room
    ensures Info(q.db, q.now, "p").None?
  {
    s := AtTheBrink(k);
    var r := Race(s.w.db, s.w.now, Checked, map[], false);
    q := Lapse(k, r);
  }

  lemma Lapse(k: Cast, r: Race) returns (q: Race)
    requires r.now == 1_799_999 && r.deletion == Checked && r.leaving == map[] && !r.lapsed
    requires r.db.members == map[k.room := Cell({"p", "q", "x"}, Some(ROOM_DATA_TTL))]
    requires r.db.sockets.Keys == {"p", "q", "x"}
    requires r.db.sockets["p"].expires == Some(ROOM_DATA_TTL) && r.db.sockets["p"].value.roomId == k.room
    requires r.db.sockets["q"].expires == Some(600_000 + SOCKET_DATA_TTL) && r.db.sockets["q"].value.roomId == k.room
    ensures Start(k.room, "x", {"p", "q"}, r) && Legal(k.room, "x", {"p", "q"}, r, RUN)
    ensures q == After(k.room, "x", {"p", "q"}, r, RUN) && Complete(q) && q.lapsed
    ensures Info(q.db, q.now, "q").Some? && Info(q.db, q.now, "q").value.roomId == k.room
    ensures Info(q.db, q.now, "p").None?
  {
    var a := Next(k.room, "x", r, Tick(ROOM_DATA_TTL));
    assert a.lapsed && Members(a.db, a.now, k.room) == {};
    var b := Next(k.room, "x", a, ListMembers);
    assert b.deletion == Removing({});
    var c := Next(k.room, "x", b, RemoveOwn);
    q := Next(k.room, "x", c, Drop);
    FourSteps(k.room, "x", {"p", "q"}, r, a, b, c);
  }

  /** The owner is alone in its room, and so may delete it. */
  lemma Alone(k: Cast) returns (s: RoomRuns.State)
    requires k.Valid()
    ensures RoomRuns.Reachable(s) && OwnerOnly(k, s) && s.w.conns["o"].rid == k.rid
  {
    var run := RoomWitnesses.Opening(k);
    OwnerArrives(k, RoomRuns.After(run));
    OwnerMarked(k, RoomRuns.After(run));
    run := Extended(run, k.OwnerJoins("o", None));
    s := RoomRuns.After(run);
  }

  /** A deleted room can come back: the owner, alone in a room that the handlers lead to, deletes it while a
      participant is between its look at the config and its place among the members. In the end the room has a
      config and that participant as its member, and neither owner rid nor token. */
  lemma DeletedRoomComesBack(k: Cast, info: SocketInfo) returns (s: RoomRuns.State, run: seq<J.Command>)
    requires k.Valid() && info.roomId == k.room
    ensures RoomRuns.Reachable(s) && Rooms.Delete(s.w, "o", k.room).1.Accepted?
    ensures var r := J.Race(s.w.db, s.w.now, J.Checked, map[], {}, {}, map[], {}, {}, {}, None);
            && J.Legal(k.room, "o", {"p"}, r, run) && J.Complete(J.After(k.room, "o", {"p"}, r, run))
            && var q := J.After(k.room, "o", {"p"}, r, run);
               && Get(q.db.config, k.room, q.now).Some? && "p" in Members(q.db, q.now, k.room)
               && Info(q.db, q.now, "p").Some?
               && OwnerOf(q.db, q.now, k.room).None? && Get(q.db.token, k.room, q.now).None?
  {
    s := Alone(k);
    var r := J.Race(s.w.db, s.w.now, J.Checked, map[], {}, {}, map[], {}, {}, {}, None);
    run := J.RoomComesBack(k.room, "o", "p", info, r);
  }
}
