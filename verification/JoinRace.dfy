/** The deletion of a room racing, command by command, with participants that are joining it and with the clock:
    what a deletion can leave behind. */
module JoinRace {
  import opened Options
  import opened RedisTables
  import opened Store

  /** Where the deletion is: before it lists the members, removing the listed sockets' info, then its own
      socket's, then dropping the room. */
  datatype Deletion = Checked | Removing(left: set<string>) | Dropping | Deleted

  /** Where a participant's join is: it reads the config, adds itself to the members, stores its info, reads the
      config again, writes a default one if there is none, and notes the activity. */
  datatype Joining = Outside | Refused | Admitted | Seated | Enrolled | Lacking | Settled | Joined

  /** What has happened so far is kept beside the store: whom the deletion has `listed` and whose info it has
      `removed`; who stored an info when (`enrolled`), and who did so after the deletion had removed it (`late`);
      who was added to the members after the room was dropped (`returned`); who was still short of its second
      look at the config when the room was dropped (`pending`); and when a config was last written after that. */
  datatype Race = Race(
    db: Db, now: int, deletion: Deletion, joining: map<string, Joining>,
    listed: set<string>, removed: set<string>, enrolled: map<string, int>, late: set<string>,
    returned: set<string>, pending: set<string>, rewritten: Option<int>)

  datatype Command =
    | ListMembers | RemoveNext(socket: string) | RemoveOwn | Drop
    | CheckConfig(socket: string) | Sit(socket: string) | Enroll(socket: string, info: SocketInfo)
    | Recheck(socket: string) | WriteConfig(socket: string) | Touch(socket: string)
    | Tick(until: int)

  function PhaseOf(r: Race, j: string): Joining {
    if j in r.joining then r.joining[j] else Outside
  }

  /** The join has looked at the config once and not yet for the last time, or is about to write one. */
  predicate Underway(p: Joining) {
    p in {Admitted, Seated, Enrolled, Lacking}
  }

  function Joiner(c: Command): Option<string> {
    match c
    case CheckConfig(j) => Some(j)
    case Sit(j) => Some(j)
    case Enroll(j, _) => Some(j)
    case Recheck(j) => Some(j)
    case WriteConfig(j) => Some(j)
    case Touch(j) => Some(j)
    case _ => None
  }

  predicate Enabled(room: string, r: Race, c: Command) {
    match c
    case ListMembers => r.deletion.Checked?
    case RemoveNext(s) => r.deletion.Removing? && s in r.deletion.left
    case RemoveOwn => r.deletion == Removing({})
    case Drop => r.deletion.Dropping?
    case CheckConfig(j) => PhaseOf(r, j).Outside?
    case Sit(j) => PhaseOf(r, j).Admitted?
    case Enroll(j, info) => PhaseOf(r, j).Seated? && info.roomId == room
    case Recheck(j) => PhaseOf(r, j).Enrolled?
    case WriteConfig(j) => PhaseOf(r, j).Lacking?
    case Touch(j) => PhaseOf(r, j).Settled?
    case Tick(until) => r.now <= until
  }

  function DbAfter(room: string, own: string, r: Race, c: Command): Db {
    match c
    case RemoveNext(s) => RemoveSocketInfo(r.db, s)
    case RemoveOwn => RemoveSocketInfo(r.db, own)
    case Drop => DeleteRoom(r.db, room)
    case Sit(j) => AddRoomMember(r.db, r.now, room, j)
    case Enroll(j, info) => SetSocketInfo(r.db, r.now, j, info)
    case WriteConfig(j) => SetRoomConfig(r.db, r.now, room, RoomConfig(1, Positive, r.now))
    case Touch(j) => SetRoomLastActivity(r.db, r.now, room)
    case _ => r.db
  }

  function DeletionAfter(room: string, own: string, r: Race, c: Command): Deletion
    requires Enabled(room, r, c)
  {
    match c
    case ListMembers => Removing(Members(r.db, r.now, room) - {own})
    case RemoveNext(s) => Removing(r.deletion.left - {s})
    case RemoveOwn => Dropping
    case Drop => Deleted
    case _ => r.deletion
  }

  function JoiningAfter(room: string, r: Race, c: Command): map<string, Joining> {
    var there := Get(r.db.config, room, r.now).Some?;
    match c
    case CheckConfig(j) => r.joining[j := if there then Admitted else Refused]
    case Sit(j) => r.joining[j := Seated]
    case Enroll(j, _) => r.joining[j := Enrolled]
    case Recheck(j) => r.joining[j := if there then Settled else Lacking]
    case WriteConfig(j) => r.joining[j := Settled]
    case Touch(j) => r.joining[j := Joined]
    case _ => r.joining
  }

  function Next(room: string, own: string, r: Race, c: Command): Race
    requires Enabled(room, r, c)
  {
    Race(DbAfter(room, own, r, c), if c.Tick? then c.until else r.now, DeletionAfter(room, own, r, c),
         JoiningAfter(room, r, c),
         if c.ListMembers? then Members(r.db, r.now, room) else r.listed,
         if c.RemoveNext? then r.removed + {c.socket} else r.removed,
         if c.Enroll? then r.enrolled[c.socket := r.now] else r.enrolled,
         if c.Enroll? && c.socket in r.removed then r.late + {c.socket} else r.late,
         if c.Sit? && r.deletion.Deleted? then r.returned + {c.socket} else r.returned,
         if c.Drop? then set j | j in r.joining && Underway(r.joining[j]) else r.pending,
         if c.WriteConfig? && r.deletion.Deleted? then Some(r.now) else r.rewritten)
  }

  /** The start: the deletion's owner check has passed and no join has begun. */
  predicate Start(r: Race) {
    && r.deletion == Checked && r.joining == map[] && r.listed == {} && r.removed == {} && r.enrolled == map[]
    && r.late == {} && r.returned == {} && r.pending == {} && r.rewritten.None?
  }

  /** The joiners are connections that are not registered anywhere yet, and not the one that deletes. */
  ghost predicate Legal(room: string, own: string, joiners: set<string>, r: Race, run: seq<Command>)
    decreases |run|, 0
  {
    if run == [] then Start(r) && own !in joiners && forall j :: j in joiners ==> j !in r.db.sockets
    else
      && Legal(room, own, joiners, r, run[..|run| - 1])
      && Enabled(room, After(room, own, joiners, r, run[..|run| - 1]), run[|run| - 1])
      && (Joiner(run[|run| - 1]).Some? ==> Joiner(run[|run| - 1]).value in joiners)
  }

  ghost function After(room: string, own: string, joiners: set<string>, r: Race, run: seq<Command>): Race
    requires Legal(room, own, joiners, r, run)
    decreases |run|, 1
  {
    if run == [] then r else Next(room, own, After(room, own, joiners, r, run[..|run| - 1]), run[|run| - 1])
  }

  /** The deletion is over, and every join that began is over too. */
  predicate Complete(r: Race) {
    r.deletion.Deleted? && forall j :: j in r.joining ==> r.joining[j] in {Outside, Refused, Joined}
  }

  // ----- what holds throughout -----

  /** Nobody but joins that were underway when the room was dropped brings a config back. */
  ghost predicate ConfigInv(room: string, r: Race) {
    if !r.deletion.Deleted? then r.rewritten.None? && r.returned == {}
    else
      && (match r.rewritten
          case None => room !in r.db.config
          case Some(t) =>
            room in r.db.config && r.db.config[room] == Cell(RoomConfig(1, Positive, t), Some(t + 7_200_000)))
      && (r.pending == {} ==>
            r.rewritten.None? && r.returned == {} && forall j :: j in r.joining ==> !Underway(r.joining[j]))
      && (r.rewritten.None? ==> forall j :: j in r.pending ==> Underway(PhaseOf(r, j)))
  }

  lemma ConfigStep(room: string, own: string, r: Race, c: Command)
    requires Enabled(room, r, c) && ConfigInv(room, r)
    ensures ConfigInv(room, Next(room, own, r, c))
  {
    if c.Drop? {
      ConfigDropped(room, own, r);
    }
  }

  lemma ConfigDropped(room: string, own: string, r: Race)
    requires Enabled(room, r, Drop) && ConfigInv(room, r)
    ensures ConfigInv(room, Next(room, own, r, Drop))
  {
    var q := Next(room, own, r, Drop);
    forall j | j in r.joining && Underway(r.joining[j]) ensures j in q.pending {}
  }

  /** Who was added after the drop makes up the member set; nothing else of the room's identity comes back. */
  ghost predicate MembersInv(room: string, r: Race) {
    if !r.deletion.Deleted? then r.returned == {}
    else
      && (if r.returned == {} then room !in r.db.members
          else room in r.db.members && r.db.members[room] == Cell(r.returned, None))
      && room !in r.db.owner && room !in r.db.token && room !in r.db.title && room !in r.db.ready
  }

  lemma MembersStep(room: string, own: string, r: Race, c: Command)
    requires Enabled(room, r, c) && MembersInv(room, r)
    ensures MembersInv(room, Next(room, own, r, c))
  {}

  /** What the deletion has still to remove. */
  ghost predicate ListInv(own: string, r: Race) {
    match r.deletion
    case Checked => r.listed == {} && r.removed == {}
    case Removing(left) => left == r.listed - {own} - r.removed && r.removed <= r.listed
    case _ => r.listed - {own} <= r.removed <= r.listed
  }

  lemma ListStep(room: string, own: string, r: Race, c: Command)
    requires Enabled(room, r, c) && ListInv(own, r)
    ensures ListInv(own, Next(room, own, r, c))
  {}

  /** A joiner's info is stored from the moment it stores it, unless the deletion removes it after that. */
  ghost predicate InfoInv(room: string, r: Race, j: string) {
    && (j in r.enrolled <==> PhaseOf(r, j) in {Enrolled, Lacking, Settled, Joined})
    && (j in r.late ==> j in r.removed && j in r.enrolled)
    && (j in r.db.sockets <==> j in r.enrolled && (j in r.removed ==> j in r.late))
    && (j in r.db.sockets ==>
          r.db.sockets[j].expires == Some(r.enrolled[j] + 7_200_000) && r.db.sockets[j].value.roomId == room)
  }

  lemma InfoStep(room: string, own: string, r: Race, c: Command, j: string)
    requires Enabled(room, r, c) && InfoInv(room, r, j) && j != own
    requires r.deletion.Removing? ==> r.deletion.left !! r.removed
    ensures InfoInv(room, Next(room, own, r, c), j)
  {}

  ghost predicate Inv(room: string, own: string, joiners: set<string>, r: Race) {
    && ConfigInv(room, r) && MembersInv(room, r) && ListInv(own, r) && own !in joiners
    && forall j :: j in joiners ==> InfoInv(room, r, j)
  }

  lemma {:induction false} Reached(room: string, own: string, joiners: set<string>, r: Race, run: seq<Command>)
    requires Legal(room, own, joiners, r, run)
    ensures Inv(room, own, joiners, After(room, own, joiners, r, run))
  {
    if run != [] {
      var p, c := After(room, own, joiners, r, run[..|run| - 1]), run[|run| - 1];
      Reached(room, own, joiners, r, run[..|run| - 1]);
      ConfigStep(room, own, p, c);
      MembersStep(room, own, p, c);
      ListStep(room, own, p, c);
      forall j | j in joiners ensures InfoInv(room, Next(room, own, p, c), j) {
        InfoStep(room, own, p, c, j);
      }
    }
  }

  // ----- how every race ends -----

  /** Whatever the interleaving, a deletion brings back exactly this much: a config exactly when some join that had
      found one was not yet done with it when the room was dropped, and then the default one; as members exactly the
      joiners that were added after that; and the info of exactly the joiners that the deletion had not listed, or
      reached before they stored it. Owner rid, token, title and ready set stay gone. */
  lemma {:induction false} WhatReturns(room: string, own: string, joiners: set<string>, r: Race, run: seq<Command>)
    requires Legal(room, own, joiners, r, run) && Complete(After(room, own, joiners, r, run))
    ensures var q := After(room, own, joiners, r, run);
            && (q.rewritten.Some? <==> q.pending != {})
            && Get(q.db.config, room, q.now) ==
               (if q.rewritten.Some? && q.now < q.rewritten.value + 7_200_000
                then Some(RoomConfig(1, Positive, q.rewritten.value)) else None)
            && Members(q.db, q.now, room) == q.returned
            && OwnerOf(q.db, q.now, room).None? && Get(q.db.token, room, q.now).None?
            && Get(q.db.title, room, q.now).None? && ReadyOf(q.db, q.now, room) == {}
            && (forall j :: j in joiners ==>
                  (Info(q.db, q.now, j).Some? <==>
                     && j in q.enrolled && (j in q.listed ==> j in q.late)
                     && q.now < q.enrolled[j] + 7_200_000))
  {
    Reached(room, own, joiners, r, run);
    var q := After(room, own, joiners, r, run);
    forall j | j in joiners
      ensures Info(q.db, q.now, j).Some? <==>
              && j in q.enrolled && (j in q.listed ==> j in q.late) && q.now < q.enrolled[j] + 7_200_000
    {
      assert InfoInv(room, q, j);
    }
  }

  /** If no join is underway when the room is dropped, the room gets neither a config nor a member again. */
  lemma {:induction false} NothingReturns(room: string, own: string, joiners: set<string>, r: Race, run: seq<Command>)
    requires Legal(room, own, joiners, r, run)
    requires var q := After(room, own, joiners, r, run); q.deletion.Deleted? && q.pending == {}
    ensures var q := After(room, own, joiners, r, run);
            Get(q.db.config, room, q.now).None? && Members(q.db, q.now, room) == {}
  {
    Reached(room, own, joiners, r, run);
  }

  // ----- a room that comes back -----

  lemma {:induction false} Extended(room: string, own: string, joiners: set<string>, r: Race, run: seq<Command>,
                                    p: Race, c: Command, q: Race) returns (longer: seq<Command>)
    requires Legal(room, own, joiners, r, run) && p == After(room, own, joiners, r, run)
    requires Enabled(room, p, c) && q == Next(room, own, p, c) && (Joiner(c).Some? ==> Joiner(c).value in joiners)
    ensures Legal(room, own, joiners, r, longer) && After(room, own, joiners, r, longer) == q
  {
    longer := run + [c];
    assert longer[..|run|] == run;
  }

  /** The room has been dropped while one join was between its look at the config and its place among the members. */
  ghost predicate Caught(room: string, own: string, j: string, r: Race) {
    && r.deletion.Deleted? && r.joining == map[j := Admitted] && r.listed <= {own} && r.enrolled == map[]
    && r.pending == {j} && room !in r.db.config && room !in r.db.members
  }

  /** A deletion between two commands of a join, in a room with no other member than the deleter. */
  lemma DropSteps(room: string, own: string, j: string, r: Race) returns (a: Race, b: Race, c: Race, d: Race)
    requires Start(r) && j != own && Get(r.db.config, room, r.now).Some? && Members(r.db, r.now, room) <= {own}
    ensures Enabled(room, r, CheckConfig(j)) && a == Next(room, own, r, CheckConfig(j))
    ensures Enabled(room, a, ListMembers) && b == Next(room, own, a, ListMembers)
    ensures Enabled(room, b, RemoveOwn) && c == Next(room, own, b, RemoveOwn)
    ensures Enabled(room, c, Drop) && d == Next(room, own, c, Drop) && Caught(room, own, j, d) && d.now == r.now
  {
    a := Next(room, own, r, CheckConfig(j));
    b := Next(room, own, a, ListMembers);
    assert b.deletion == Removing({});
    c := Next(room, own, b, RemoveOwn);
    d := Next(room, own, c, Drop);
  }

  lemma {:induction false} Dropped(room: string, own: string, j: string, r: Race) returns (run: seq<Command>)
    requires Start(r) && j != own && j !in r.db.sockets && Get(r.db.config, room, r.now).Some?
    requires Members(r.db, r.now, room) <= {own}
    ensures Legal(room, own, {j}, r, run) && Caught(room, own, j, After(room, own, {j}, r, run))
    ensures After(room, own, {j}, r, run).now == r.now
  {
    var a, b, c, d := DropSteps(room, own, j, r);
    run := Extended(room, own, {j}, r, [], r, CheckConfig(j), a);
    run := Extended(room, own, {j}, r, run, a, ListMembers, b);
    run := Extended(room, own, {j}, r, run, b, RemoveOwn, c);
    run := Extended(room, own, {j}, r, run, c, Drop, d);
  }

  lemma SitSteps(room: string, own: string, j: string, info: SocketInfo, r: Race) returns (a: Race, b: Race)
    requires Caught(room, own, j, r) && info.roomId == room
    ensures Enabled(room, r, Sit(j)) && a == Next(room, own, r, Sit(j))
    ensures Enabled(room, a, Enroll(j, info)) && b == Next(room, own, a, Enroll(j, info))
    ensures b.deletion.Deleted? && b.joining == map[j := Enrolled] && b.listed <= {own} && b.enrolled == map[j := r.now]
    ensures room !in b.db.config && j in b.returned && b.now == r.now
  {
    a := Next(room, own, r, Sit(j));
    b := Next(room, own, a, Enroll(j, info));
  }

  lemma ConfigSteps(room: string, own: string, j: string, r: Race) returns (a: Race, b: Race, c: Race)
    requires r.deletion.Deleted? && r.joining == map[j := Enrolled] && room !in r.db.config
    ensures Enabled(room, r, Recheck(j)) && a == Next(room, own, r, Recheck(j))
    ensures Enabled(room, a, WriteConfig(j)) && b == Next(room, own, a, WriteConfig(j))
    ensures Enabled(room, b, Touch(j)) && c == Next(room, own, b, Touch(j))
    ensures Complete(c) && c.listed == r.listed && c.enrolled == r.enrolled && c.returned == r.returned
    ensures c.now == r.now && c.rewritten == Some(r.now)
  {
    a := Next(room, own, r, Recheck(j));
    b := Next(room, own, a, WriteConfig(j));
    c := Next(room, own, b, Touch(j));
  }

  /** The rest of a join. */
  lemma {:induction false} Finished(room: string, own: string, j: string, info: SocketInfo, r: Race, run: seq<Command>,
                                    p: Race) returns (longer: seq<Command>, q: Race)
    requires Legal(room, own, {j}, r, run) && p == After(room, own, {j}, r, run) && Caught(room, own, j, p)
    requires info.roomId == room
    ensures Legal(room, own, {j}, r, longer) && q == After(room, own, {j}, r, longer) && Complete(q) && q.now == p.now
    ensures j in q.returned && q.enrolled == map[j := q.now] && q.listed <= {own} && q.rewritten == Some(q.now)
  {
    var a, b := SitSteps(room, own, j, info, p);
    var c, d, e := ConfigSteps(room, own, j, b);
    longer := Extended(room, own, {j}, r, run, p, Sit(j), a);
    longer := Extended(room, own, {j}, r, longer, a, Enroll(j, info), b);
    longer := Extended(room, own, {j}, r, longer, b, Recheck(j), c);
    longer := Extended(room, own, {j}, r, longer, c, WriteConfig(j), d);
    longer := Extended(room, own, {j}, r, longer, d, Touch(j), e);
    q := e;
  }

  /** A deleted room can come back: a participant that found the room's config before the deletion goes on to
      become its only member and to write it a default config for 2 hours. It has no owner rid and no token. */
  lemma {:induction false} RoomComesBack(room: string, own: string, j: string, info: SocketInfo, r: Race)
    returns (run: seq<Command>)
    requires Start(r) && j != own && j !in r.db.sockets && info.roomId == room
    requires Get(r.db.config, room, r.now).Some? && Members(r.db, r.now, room) <= {own}
    ensures Legal(room, own, {j}, r, run) && Complete(After(room, own, {j}, r, run))
    ensures var q := After(room, own, {j}, r, run);
            && Get(q.db.config, room, q.now).Some? && j in Members(q.db, q.now, room) && Info(q.db, q.now, j).Some?
            && OwnerOf(q.db, q.now, room).None? && Get(q.db.token, room, q.now).None?
  {
    run := Dropped(room, own, j, r);
    var q;
    run, q := Finished(room, own, j, info, r, run, After(room, own, {j}, r, run));
    WhatReturns(room, own, {j}, r, run);
  }
}
