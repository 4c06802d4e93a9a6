/** Creations, deletions, disconnections and joins whose commands run with nothing in between do what the one-step
    handlers do: the two views of the server agree on them. */
module SoloRaces {
  import opened Options
  import opened RedisTables
  import opened Store
  import opened Rooms
  import K = KeyExpiry
  import D = DeleteRace
  import J = JoinRace

  // ----- a creation -----

  lemma {:induction false} Creates(room: string, run: seq<K.Command>, c: K.Command) returns (longer: seq<K.Command>)
    requires K.Legal(room, run) && K.Enabled(room, K.After(room, run), c)
    ensures longer == run + [c] && K.Legal(room, longer)
    ensures K.After(room, longer) == K.Next(room, K.After(room, run), c)
  {
    longer := run + [c];
    assert longer[..|run|] == run;
  }

  /** The first three and the last three commands of a creation. */
  lemma {:induction false} Named(room: string, before: seq<K.Command>, token: string, title: string, nickname: string)
    returns (run: seq<K.Command>)
    requires K.Legal(room, before) && K.After(room, before).created == 0
    ensures |run| == |before| + 3 && before <= run && K.Legal(room, run) && K.After(room, run).created == 3
    ensures var p, q := K.After(room, before), K.After(room, run);
            && q.now == p.now
            && q.db == SetInitialOwnerNickname(
                 SetRoomTitle(SetRoomOwnerToken(p.db, p.now, room, token), p.now, room, title), p.now, room, nickname)
  {
    run := Creates(room, before, K.CreateToken(token));
    run := Creates(room, run, K.CreateTitle(title));
    run := Creates(room, run, K.CreateNickname(nickname));
  }

  lemma {:induction false} Owned(room: string, before: seq<K.Command>, config: RoomConfig, rid: string)
    returns (run: seq<K.Command>)
    requires K.Legal(room, before) && K.After(room, before).created == 3
    ensures |run| == |before| + 3 && before <= run && K.Legal(room, run) && K.After(room, run).created == 6
    ensures var p, q := K.After(room, before), K.After(room, run);
            && q.now == p.now
            && q.db == SetRoomLastActivity(
                 SetRoomOwner(SetRoomConfig(p.db, p.now, room, config), p.now, room, rid), p.now, room)
  {
    run := Creates(room, before, K.CreateConfig(config));
    run := Creates(room, run, K.CreateOwner(rid));
    run := Creates(room, run, K.CreateActivity);
  }

  /** Wherever a room's creation can begin, its six commands can follow with nothing in between, and leave the store as
      the one-step creation does. */
  lemma {:induction false} CreationAlone(room: string, before: seq<K.Command>, token: string, rid: string,
                                         title: string, nickname: string, config: RoomConfig)
    returns (run: seq<K.Command>)
    requires K.Legal(room, before) && K.After(room, before).created == 0
    requires config.updatedAt == K.After(room, before).now
    ensures |run| == |before| + 6 && before <= run && K.Legal(room, run) && K.After(room, run).created == 6
    ensures var p, q := K.After(room, before), K.After(room, run);
            && q.now == p.now
            && q.db == CreateRoom(p.db, p.now, room, token, rid, title, nickname, config.winnersCount,
                                  config.winSentiment)
  {
    run := Named(room, before, token, if title == "" then "룰렛 방" else title,
                 if nickname == "" then "생성자" else nickname);
    run := Owned(room, run, config, rid);
  }

  // ----- a deletion -----

  /** How far an uninterrupted deletion has got from this store. */
  ghost predicate Deleting(room: string, own: string, db: Db, now: int, r: D.Race) {
    var all := Members(db, now, room);
    && r.now == now
    && match r.deletion
       case Checked => r.db == db
       case Removing(left) => left <= all - {own} && r.db == RemoveSocketInfos(db, all - {own} - left)
       case Dropping => r.db == RemoveSocketInfos(db, all + {own})
       case Deleted => r.db == DeleteRoom(RemoveSocketInfos(db, all + {own}), room)
  }

  lemma OneFewer(db: Db, all: set<string>, left: set<string>, x: string)
    requires x in left && left <= all
    ensures RemoveSocketInfo(RemoveSocketInfos(db, all - left), x) == RemoveSocketInfos(db, all - (left - {x}))
  {
    assert db.sockets - (all - left) - {x} == db.sockets - (all - (left - {x}));
  }

  lemma DeletionStep(room: string, own: string, db: Db, now: int, r: D.Race, c: D.Command)
    requires Deleting(room, own, db, now, r) && D.Enabled(r, c) && D.Leaver(c).None? && !c.Tick?
    ensures Deleting(room, own, db, now, D.Next(room, own, r, c))
  {
    var all := Members(db, now, room) - {own};
    match c
    case ListMembers =>
      assert db.sockets - (all - all) == db.sockets;
    case RemoveNext(x) =>
      OneFewer(db, all, r.deletion.left, x);
    case RemoveOwn =>
      assert db.sockets - (all - {}) - {own} == db.sockets - (Members(db, now, room) + {own});
    case Drop =>
  }

  lemma {:induction false} DeletionSteps(room: string, own: string, sockets: set<string>, db: Db, now: int, r: D.Race,
                                         run: seq<D.Command>)
    requires Deleting(room, own, db, now, r) && D.Legal(room, own, sockets, r, run)
    requires forall c :: c in run ==> D.Leaver(c).None? && !c.Tick?
    ensures Deleting(room, own, db, now, D.After(room, own, sockets, r, run))
    decreases |run|
  {
    if run != [] {
      DeletionStep(room, own, db, now, r, run[0]);
      DeletionSteps(room, own, sockets, db, now, D.Next(room, own, r, run[0]), run[1..]);
    }
  }

  /** A deletion that nothing interrupts, in whatever order it removes the infos, ends as the one-step deletion by a
      connection that carries the owner rid does. */
  lemma {:induction false} DeletionAlone(room: string, own: string, sockets: set<string>, w: World, r: D.Race,
                                         run: seq<D.Command>)
    requires r.db == w.db && r.now == w.now && r.deletion.Checked? && D.Legal(room, own, sockets, r, run)
    requires forall c :: c in run ==> D.Leaver(c).None? && !c.Tick?
    requires own in w.conns && OwnerOf(w.db, w.now, room) == Some(w.conns[own].rid)
    ensures var q := D.After(room, own, sockets, r, run);
            q.deletion.Deleted? ==> Delete(w, own, room) == (World(q.db, q.now, w.conns), Accepted)
  {
    DeletionSteps(room, own, sockets, w.db, w.now, r, run);
  }

  // ----- a disconnection -----

  /** From one run to a longer one with commands of this socket's disconnection alone, in no time. */
  ghost predicate Leaves(room: string, own: string, sockets: set<string>, r: D.Race, run: seq<D.Command>,
                         longer: seq<D.Command>, s: string) {
    && D.Legal(room, own, sockets, r, run) && D.Legal(room, own, sockets, r, longer) && run <= longer
    && (forall c :: c in longer[|run|..] ==> D.Leaver(c) == Some(s))
    && D.After(room, own, sockets, r, longer).now == D.After(room, own, sockets, r, run).now
  }

  lemma {:induction false} OneMore(room: string, own: string, sockets: set<string>, r: D.Race, run: seq<D.Command>,
                                   c: D.Command)
    requires D.Legal(room, own, sockets, r, run) && D.Enabled(D.After(room, own, sockets, r, run), c)
    requires D.Leaver(c).Some? ==> D.Leaver(c).value in sockets
    ensures D.Legal(room, own, sockets, r, run + [c])
    ensures D.After(room, own, sockets, r, run + [c]) ==
            D.Next(room, own, D.After(room, own, sockets, r, run), c)
    decreases |run|
  {
    var longer := run + [c];
    if run != [] {
      assert longer[0] == run[0] && longer[1..] == run[1..] + [c];
      OneMore(room, own, sockets, D.Next(room, own, r, run[0]), run[1..], c);
    } else {
      assert longer[1..] == [];
    }
  }

  lemma {:induction false} LeavesOn(room: string, own: string, sockets: set<string>, r: D.Race, run: seq<D.Command>,
                                    longer: seq<D.Command>, s: string, c: D.Command) returns (on: seq<D.Command>)
    requires s in sockets && D.Leaver(c) == Some(s) && Leaves(room, own, sockets, r, run, longer, s)
    requires D.Enabled(D.After(room, own, sockets, r, longer), c)
    ensures Leaves(room, own, sockets, r, run, on, s)
    ensures D.After(room, own, sockets, r, on) == D.Next(room, own, D.After(room, own, sockets, r, longer), c)
  {
    on := longer + [c];
    OneMore(room, own, sockets, r, longer, c);
    assert on[|run|..] == longer[|run|..] + [c];
  }

  /** The first four commands take the socket out of the room. */
  lemma {:induction false} OutAlone(room: string, own: string, sockets: set<string>, r: D.Race, run: seq<D.Command>,
                                    s: string) returns (on: seq<D.Command>)
    requires s in sockets && D.Legal(room, own, sockets, r, run)
    requires var p := D.After(room, own, sockets, r, run); D.PhaseOf(p, s).Idle? && Info(p.db, p.now, s).Some?
    ensures Leaves(room, own, sockets, r, run, on, s)
    ensures var p, q := D.After(room, own, sockets, r, run), D.After(room, own, sockets, r, on);
            && q.db == RemoveSocketInfo(
                 RemoveRoomMember(RemoveParticipantReady(p.db, p.now, room, s), p.now, room, s), s)
            && D.PhaseOf(q, s) == if Info(p.db, p.now, s).value.role.Owner? then D.Listing else D.Gone
  {
    on := LeavesOn(room, own, sockets, r, run, run, s, D.Look(s));
    on := LeavesOn(room, own, sockets, r, run, on, s, D.RemoveReady(s));
    on := LeavesOn(room, own, sockets, r, run, on, s, D.RemoveMember(s));
    on := LeavesOn(room, own, sockets, r, run, on, s, D.RemoveInfo(s));
  }

  lemma {:induction false} ExtendAlone(room: string, own: string, sockets: set<string>, r: D.Race, run: seq<D.Command>,
                                       out: seq<D.Command>, s: string) returns (on: seq<D.Command>)
    requires s in sockets && Leaves(room, own, sockets, r, run, out, s)
    requires D.PhaseOf(D.After(room, own, sockets, r, out), s).Listing?
    ensures Leaves(room, own, sockets, r, run, on, s)
    ensures var p, q := D.After(room, own, sockets, r, out), D.After(room, own, sockets, r, on);
            q.db == ExtendRoomTTL(p.db, p.now, room) && D.PhaseOf(q, s).Gone?
  {
    on := LeavesOn(room, own, sockets, r, run, out, s, D.ListForTtl(s));
    on := LeavesOn(room, own, sockets, r, run, on, s, D.ExtendTtl(s));
  }

  /** Wherever the disconnection of a registered socket can begin, its commands can follow with nothing in between, and
      leave the store as the one-step disconnection does. */
  lemma {:induction false} DisconnectionAlone(room: string, own: string, sockets: set<string>, r: D.Race,
                                              run: seq<D.Command>, s: string) returns (on: seq<D.Command>)
    requires s in sockets && D.Legal(room, own, sockets, r, run)
    requires var p := D.After(room, own, sockets, r, run);
             D.PhaseOf(p, s).Idle? && Info(p.db, p.now, s).Some? && Info(p.db, p.now, s).value.roomId == room
    ensures Leaves(room, own, sockets, r, run, on, s)
    ensures var p, q := D.After(room, own, sockets, r, run), D.After(room, own, sockets, r, on);
            D.PhaseOf(q, s).Gone? && q.db == Disconnect(p.db, p.now, s)
  {
    on := OutAlone(room, own, sockets, r, run, s);
    if D.PhaseOf(D.After(room, own, sockets, r, on), s).Listing? {
      on := ExtendAlone(room, own, sockets, r, run, on, s);
    }
  }

  // ----- a join -----

  /** From one run to a longer one with commands of this join alone, in no time. */
  ghost predicate Enters(room: string, own: string, joiners: set<string>, r: J.Race, run: seq<J.Command>,
                         longer: seq<J.Command>, j: string) {
    && J.Legal(room, own, joiners, r, run) && J.Legal(room, own, joiners, r, longer) && run <= longer
    && (forall c :: c in longer[|run|..] ==> J.Joiner(c) == Some(j))
    && J.After(room, own, joiners, r, longer).now == J.After(room, own, joiners, r, run).now
  }

  lemma {:induction false} EntersOn(room: string, own: string, joiners: set<string>, r: J.Race, run: seq<J.Command>,
                                    longer: seq<J.Command>, j: string, c: J.Command) returns (on: seq<J.Command>)
    requires j in joiners && J.Joiner(c) == Some(j) && Enters(room, own, joiners, r, run, longer, j)
    requires J.Enabled(room, J.After(room, own, joiners, r, longer), c)
    ensures Enters(room, own, joiners, r, run, on, j)
    ensures J.After(room, own, joiners, r, on) == J.Next(room, own, J.After(room, own, joiners, r, longer), c)
  {
    on := longer + [c];
    assert on[..|longer|] == longer && on[|run|..] == longer[|run|..] + [c];
  }

  lemma SeatSteps(room: string, own: string, p: J.Race, j: string, info: SocketInfo)
    returns (a: J.Race, b: J.Race, c: J.Race)
    requires J.PhaseOf(p, j).Outside? && Get(p.db.config, room, p.now).Some? && info.roomId == room
    ensures J.Enabled(room, p, J.CheckConfig(j)) && a == J.Next(room, own, p, J.CheckConfig(j))
    ensures J.Enabled(room, a, J.Sit(j)) && b == J.Next(room, own, a, J.Sit(j))
    ensures J.Enabled(room, b, J.Enroll(j, info)) && c == J.Next(room, own, b, J.Enroll(j, info))
    ensures c.db == SetSocketInfo(AddRoomMember(p.db, p.now, room, j), p.now, j, info) && c.now == p.now
    ensures J.PhaseOf(c, j).Enrolled?
  {
    a := J.Next(room, own, p, J.CheckConfig(j));
    b := J.Next(room, own, a, J.Sit(j));
    c := J.Next(room, own, b, J.Enroll(j, info));
  }

  lemma TouchSteps(room: string, own: string, p: J.Race, j: string) returns (a: J.Race, b: J.Race)
    requires J.PhaseOf(p, j).Enrolled? && Get(p.db.config, room, p.now).Some?
    ensures J.Enabled(room, p, J.Recheck(j)) && a == J.Next(room, own, p, J.Recheck(j))
    ensures J.Enabled(room, a, J.Touch(j)) && b == J.Next(room, own, a, J.Touch(j))
    ensures b.db == SetRoomLastActivity(p.db, p.now, room) && J.PhaseOf(b, j).Joined?
  {
    a := J.Next(room, own, p, J.Recheck(j));
    b := J.Next(room, own, a, J.Touch(j));
  }

  lemma JoinParts(w: World, j: string, room: string, rid: string, nickname: string)
    requires nickname != "" && Get(w.db.config, room, w.now).Some?
    ensures var info := SocketInfo(room, rid, nickname, Participant, w.now);
            var (v, reply) := JoinAsParticipant(w, j, room, rid, nickname);
            && reply.Joined?
            && v.db == SetRoomLastActivity(SetSocketInfo(AddRoomMember(w.db, w.now, room, j), w.now, j, info), w.now,
                                           room)
  {}

  /** Wherever the join of a participant that brings a nickname can begin, its commands can follow with nothing in
      between; they leave the store as the one-step join does, and refuse exactly when that one does. */
  lemma {:induction false} JoinAlone(room: string, own: string, joiners: set<string>, r: J.Race, run: seq<J.Command>,
                                     w: World, j: string, rid: string, nickname: string)
    returns (on: seq<J.Command>)
    requires j in joiners && J.Legal(room, own, joiners, r, run) && nickname != ""
    requires var p := J.After(room, own, joiners, r, run);
             J.PhaseOf(p, j).Outside? && w.db == p.db && w.now == p.now
    ensures Enters(room, own, joiners, r, run, on, j)
    ensures var q, (v, reply) := J.After(room, own, joiners, r, on), JoinAsParticipant(w, j, room, rid, nickname);
            q.db == v.db && J.PhaseOf(q, j) == if reply.Joined? then J.Joined else J.Refused
  {
    on := EntersOn(room, own, joiners, r, run, run, j, J.CheckConfig(j));
    if Get(w.db.config, room, w.now).Some? {
      var info := SocketInfo(room, rid, nickname, Participant, w.now);
      var a, b, c := SeatSteps(room, own, J.After(room, own, joiners, r, run), j, info);
      on := EntersOn(room, own, joiners, r, run, on, j, J.Sit(j));
      on := EntersOn(room, own, joiners, r, run, on, j, J.Enroll(j, info));
      var d, e := TouchSteps(room, own, c, j);
      on := EntersOn(room, own, joiners, r, run, on, j, J.Recheck(j));
      on := EntersOn(room, own, joiners, r, run, on, j, J.Touch(j));
      JoinParts(w, j, room, rid, nickname);
    }
  }
}
