/** The deletion of a room racing, command by command, with the disconnections of its sockets and with the clock. */
module DeleteRace {
  import opened Options
  import opened RedisTables
  import opened Store

  /** Where the deletion is: before it lists the members, removing the listed sockets' info, then its own
      socket's, then dropping the room. */
  datatype Deletion = Checked | Removing(left: set<string>) | Dropping | Deleted

  /** Where a disconnection is. `Absent` found no info; `Listing` and `Extending` are an owner's extra commands. */
  datatype Leaving =
    | Idle | Absent | Looked(role: Role) | Unready(role: Role) | Unlisted(role: Role)
    | Listing | Extending(members: set<string>) | Gone

  /** For one room and the socket that deletes it. `lapsed` says that the room's member set expired before the
      deletion had listed it. */
  datatype Race = Race(db: Db, now: int, deletion: Deletion, leaving: map<string, Leaving>, lapsed: bool)

  datatype Command =
    | ListMembers | RemoveNext(socket: string) | RemoveOwn | Drop
    | Look(socket: string) | RemoveReady(socket: string) | RemoveMember(socket: string) | RemoveInfo(socket: string)
    | ListForTtl(socket: string) | ExtendTtl(socket: string)
    | Tick(until: int)

  function PhaseOf(r: Race, socket: string): Leaving {
    if socket in r.leaving then r.leaving[socket] else Idle
  }

  predicate Enabled(r: Race, c: Command) {
    match c
    case ListMembers => r.deletion.Checked?
    case RemoveNext(s) => r.deletion.Removing? && s in r.deletion.left
    case RemoveOwn => r.deletion == Removing({})
    case Drop => r.deletion.Dropping?
    case Look(s) => PhaseOf(r, s).Idle?
    case RemoveReady(s) => PhaseOf(r, s).Looked?
    case RemoveMember(s) => PhaseOf(r, s).Unready?
    case RemoveInfo(s) => PhaseOf(r, s).Unlisted?
    case ListForTtl(s) => PhaseOf(r, s).Listing?
    case ExtendTtl(s) => PhaseOf(r, s).Extending?
    case Tick(until) => r.now <= until
  }

  /** The room's member set is there now and expires by then. */
  predicate Lapses(db: Db, now: int, room: string, until: int) {
    room in db.members && Live(db.members[room], now) && !Live(db.members[room], until)
  }

  function DbAfter(room: string, own: string, r: Race, c: Command): Db
    requires Enabled(r, c)
  {
    match c
    case RemoveNext(s) => RemoveSocketInfo(r.db, s)
    case RemoveOwn => RemoveSocketInfo(r.db, own)
    case Drop => DeleteRoom(r.db, room)
    case RemoveReady(s) => RemoveParticipantReady(r.db, r.now, room, s)
    case RemoveMember(s) => RemoveRoomMember(r.db, r.now, room, s)
    case RemoveInfo(s) => RemoveSocketInfo(r.db, s)
    case ExtendTtl(s) =>
      ExtendRoomKeys(r.db, r.now, room)
      .(sockets := ExpireAll(r.db.sockets, PhaseOf(r, s).members, r.now, ROOM_DATA_TTL))
    case _ => r.db
  }

  function DeletionAfter(room: string, own: string, r: Race, c: Command): Deletion
    requires Enabled(r, c)
  {
    match c
    case ListMembers => Removing(Members(r.db, r.now, room) - {own})
    case RemoveNext(s) => Removing(r.deletion.left - {s})
    case RemoveOwn => Dropping
    case Drop => Deleted
    case _ => r.deletion
  }

  function LeavingAfter(room: string, r: Race, c: Command): map<string, Leaving>
    requires Enabled(r, c)
  {
    match c
    case Look(s) =>
      var info := Info(r.db, r.now, s);
      r.leaving[s := if info.None? then Absent else Looked(info.value.role)]
    case RemoveReady(s) => r.leaving[s := Unready(PhaseOf(r, s).role)]
    case RemoveMember(s) => r.leaving[s := Unlisted(PhaseOf(r, s).role)]
    case RemoveInfo(s) => r.leaving[s := if PhaseOf(r, s).role.Owner? then Listing else Gone]
    case ListForTtl(s) => r.leaving[s := Extending(Members(r.db, r.now, room))]
    case ExtendTtl(s) => r.leaving[s := Gone]
    case _ => r.leaving
  }

  function Next(room: string, own: string, r: Race, c: Command): Race
    requires Enabled(r, c)
  {
    Race(DbAfter(room, own, r, c), if c.Tick? then c.until else r.now, DeletionAfter(room, own, r, c),
         LeavingAfter(room, r, c),
         r.lapsed || (c.Tick? && r.deletion.Checked? && Lapses(r.db, r.now, room, c.until)))
  }

  /** The start: the owner check has passed, nobody has begun to leave, every socket in `sockets` is registered
      in the room and is one of its members, and the room has no other members than these and the deleter. */
  ghost predicate Start(room: string, own: string, sockets: set<string>, r: Race) {
    && r.deletion == Checked && r.leaving == map[] && !r.lapsed && own !in sockets
    && (forall s :: s in sockets ==>
          && s in r.db.sockets && Live(r.db.sockets[s], r.now) && r.db.sockets[s].value.roomId == room
          && s in Members(r.db, r.now, room))
    && Members(r.db, r.now, room) <= sockets + {own}
  }

  ghost predicate Legal(room: string, own: string, sockets: set<string>, r: Race, run: seq<Command>)
    decreases |run|
  {
    run == [] ||
    (Enabled(r, run[0]) && (Leaver(run[0]).Some? ==> Leaver(run[0]).value in sockets)
     && Legal(room, own, sockets, Next(room, own, r, run[0]), run[1..]))
  }

  function Leaver(c: Command): Option<string> {
    match c
    case Look(s) => Some(s)
    case RemoveReady(s) => Some(s)
    case RemoveMember(s) => Some(s)
    case RemoveInfo(s) => Some(s)
    case ListForTtl(s) => Some(s)
    case ExtendTtl(s) => Some(s)
    case _ => None
  }

  ghost function After(room: string, own: string, sockets: set<string>, r: Race, run: seq<Command>): Race
    requires Legal(room, own, sockets, r, run)
    decreases |run|
  {
    if run == [] then r else After(room, own, sockets, Next(room, own, r, run[0]), run[1..])
  }

  /** The deletion is over, and every disconnection that began is over too. */
  predicate Complete(r: Race) {
    r.deletion.Deleted? && forall s :: s in r.leaving ==> r.leaving[s] in {Idle, Absent, Gone}
  }

  /** The socket's disconnection has not begun, or found nothing to do. */
  predicate Stays(r: Race, s: string) {
    PhaseOf(r, s) in {Idle, Absent}
  }

  /** A socket whose info is still stored is going to lose it, unless the member set has lapsed: it is a member the
      deletion has yet to list, or one it has listed and not reached, or it is leaving and past the member set. */
  ghost predicate Doomed(room: string, r: Race, s: string) {
    s in r.db.sockets ==>
      || r.lapsed
      || (r.deletion.Checked? && s in Members(r.db, r.now, room))
      || (r.deletion.Removing? && s in r.deletion.left)
      || PhaseOf(r, s).Unlisted?
  }

  /** When the member set has lapsed, only its own disconnection removes a socket's info. */
  ghost predicate Spared(r: Race, s: string) {
    && (r.deletion.Checked? && Stays(r, s) ==> s in r.db.sockets)
    && (r.lapsed ==> (s in r.db.sockets <==> Stays(r, s) || PhaseOf(r, s).Looked? || PhaseOf(r, s).Unready?
                                             || PhaseOf(r, s).Unlisted?))
    && (PhaseOf(r, s) in {Listing, Gone} || PhaseOf(r, s).Extending? ==> s !in r.db.sockets)
    && (r.deletion.Checked? && (PhaseOf(r, s).Looked? || PhaseOf(r, s).Unready? || PhaseOf(r, s).Unlisted?) ==>
          s in r.db.sockets)
  }

  /** A member set that has lapsed stays empty, and the deletion finds nobody in it. */
  ghost predicate Empty(room: string, r: Race) {
    r.lapsed ==> Members(r.db, r.now, room) == {} && (r.deletion.Removing? ==> r.deletion.left == {})
  }

  ghost predicate Bounded(room: string, own: string, sockets: set<string>, r: Race) {
    && (forall s :: s in r.leaving && r.leaving[s].Extending? ==> r.leaving[s].members <= sockets + {own})
    && (r.deletion.Removing? ==> r.deletion.left <= sockets)
    && (r.deletion in {Dropping, Deleted} ==> own !in r.db.sockets)
    && Members(r.db, r.now, room) <= sockets + {own}
    && (r.deletion.Deleted? ==> room !in r.db.members && room !in r.db.ready)
  }

  ghost predicate Apart(room: string, own: string, sockets: set<string>, start: Db, db: Db) {
    && db.members - {room} == start.members - {room}
    && db.ready - {room} == start.ready - {room}
    && db.sockets - (sockets + {own}) == start.sockets - (sockets + {own})
  }

  ghost predicate Inv(room: string, own: string, sockets: set<string>, start: Db, r: Race) {
    && (forall s :: s in sockets ==> Doomed(room, r, s) && Spared(r, s))
    && Empty(room, r) && Bounded(room, own, sockets, r) && Apart(room, own, sockets, start, r.db) && own !in sockets
  }

  lemma StillDoomed(room: string, own: string, sockets: set<string>, start: Db, r: Race, c: Command, s: string)
    requires Inv(room, own, sockets, start, r) && Enabled(r, c) && s in sockets
    ensures Doomed(room, Next(room, own, r, c), s)
  {
    assert Doomed(room, r, s);
  }

  lemma StillSpared(room: string, own: string, sockets: set<string>, start: Db, r: Race, c: Command, s: string)
    requires Inv(room, own, sockets, start, r) && Enabled(r, c) && s in sockets
    ensures Spared(Next(room, own, r, c), s)
  {
    assert Spared(r, s);
  }

  lemma StillEmpty(room: string, own: string, sockets: set<string>, start: Db, r: Race, c: Command)
    requires Inv(room, own, sockets, start, r) && Enabled(r, c)
    ensures Empty(room, Next(room, own, r, c))
  {}

  lemma StillBounded(room: string, own: string, sockets: set<string>, start: Db, r: Race, c: Command)
    requires Inv(room, own, sockets, start, r) && Enabled(r, c) && (Leaver(c).Some? ==> Leaver(c).value in sockets)
    ensures Bounded(room, own, sockets, Next(room, own, r, c))
  {}

  lemma StillApart(room: string, own: string, sockets: set<string>, start: Db, r: Race, c: Command)
    requires Inv(room, own, sockets, start, r) && Enabled(r, c) && (Leaver(c).Some? ==> Leaver(c).value in sockets)
    ensures Apart(room, own, sockets, start, DbAfter(room, own, r, c))
  {}

  lemma Step(room: string, own: string, sockets: set<string>, start: Db, r: Race, c: Command)
    requires Inv(room, own, sockets, start, r) && Enabled(r, c) && (Leaver(c).Some? ==> Leaver(c).value in sockets)
    ensures Inv(room, own, sockets, start, Next(room, own, r, c))
  {
    forall s | s in sockets ensures Doomed(room, Next(room, own, r, c), s) && Spared(Next(room, own, r, c), s) {
      StillDoomed(room, own, sockets, start, r, c, s);
      StillSpared(room, own, sockets, start, r, c, s);
    }
    StillEmpty(room, own, sockets, start, r, c);
    StillBounded(room, own, sockets, start, r, c);
    StillApart(room, own, sockets, start, r, c);
  }

  lemma {:induction false} Reached(room: string, own: string, sockets: set<string>, start: Db, r: Race,
                                   run: seq<Command>)
    requires Inv(room, own, sockets, start, r) && Legal(room, own, sockets, r, run)
    ensures Inv(room, own, sockets, start, After(room, own, sockets, r, run))
    decreases |run|
  {
    if run != [] {
      Step(room, own, sockets, start, r, run[0]);
      Reached(room, own, sockets, start, Next(room, own, r, run[0]), run[1..]);
    }
  }

  lemma StartInv(room: string, own: string, sockets: set<string>, r: Race)
    requires Start(room, own, sockets, r)
    ensures Inv(room, own, sockets, r.db, r)
  {}

  // ----- when an info that is still stored expires -----

  /** The expiry of a stored info after a command: only an owner's disconnection that had listed the socket, and
      finds the info live, moves it. */
  function EndAfter(r: Race, c: Command, s: string, end: Option<int>): Option<int>
    requires Enabled(r, c)
  {
    if c.ExtendTtl? && s in PhaseOf(r, c.socket).members && Until(end, r.now) then Some(r.now + 1_800_000) else end
  }

  predicate Until(end: Option<int>, now: int) {
    end.None? || now < end.value
  }

  ghost function EndOf(room: string, own: string, sockets: set<string>, r: Race, run: seq<Command>, s: string,
                       end: Option<int>): Option<int>
    requires Legal(room, own, sockets, r, run)
    decreases |run|
  {
    if run == [] then end
    else EndOf(room, own, sockets, Next(room, own, r, run[0]), run[1..], s, EndAfter(r, run[0], s, end))
  }

  predicate Expires(db: Db, s: string, end: Option<int>) {
    s in db.sockets ==> db.sockets[s].expires == end
  }

  lemma ExpiresStep(room: string, own: string, r: Race, c: Command, s: string, end: Option<int>)
    requires Enabled(r, c) && Expires(r.db, s, end)
    ensures Expires(DbAfter(room, own, r, c), s, EndAfter(r, c, s, end))
  {}

  lemma {:induction false} ExpiresThen(room: string, own: string, sockets: set<string>, r: Race, run: seq<Command>,
                                       s: string, end: Option<int>)
    requires Legal(room, own, sockets, r, run) && Expires(r.db, s, end)
    ensures Expires(After(room, own, sockets, r, run).db, s, EndOf(room, own, sockets, r, run, s, end))
    decreases |run|
  {
    if run != [] {
      ExpiresStep(room, own, r, run[0], s, end);
      ExpiresThen(room, own, sockets, Next(room, own, r, run[0]), run[1..], s, EndAfter(r, run[0], s, end));
    }
  }

  // ----- how every race ends -----

  /** The info that is still stored when the race is over: that of the sockets that did not disconnect, if the
      member set has lapsed. */
  lemma {:induction false} StillStored(room: string, own: string, sockets: set<string>, r: Race, run: seq<Command>,
                                       s: string)
    requires Start(room, own, sockets, r) && Legal(room, own, sockets, r, run) && s in sockets
    requires Complete(After(room, own, sockets, r, run))
    ensures var q := After(room, own, sockets, r, run); s in q.db.sockets <==> q.lapsed && Stays(q, s)
  {
    StartInv(room, own, sockets, r);
    Reached(room, own, sockets, r.db, r, run);
    var q := After(room, own, sockets, r, run);
    assert Doomed(room, q, s) && Spared(q, s);
    assert s in q.leaving ==> q.leaving[s] in {Idle, Absent, Gone};
  }

  /** Confluence: every complete interleaving, whatever the clock does, ends with the room's members and ready set
      gone and everything else in these families as it was. The info of the room's sockets can no longer be read,
      except that when the member set expired before the deletion listed it, exactly the sockets that did not
      disconnect and whose info has not expired keep theirs. */
  lemma {:induction false} Confluence(room: string, own: string, sockets: set<string>, r: Race, run: seq<Command>)
    requires Start(room, own, sockets, r) && Legal(room, own, sockets, r, run)
    requires Complete(After(room, own, sockets, r, run))
    ensures var q := After(room, own, sockets, r, run);
            && q.db.members == r.db.members - {room} && q.db.ready == r.db.ready - {room}
            && q.db.sockets - sockets == r.db.sockets - (sockets + {own})
            && (forall s :: s in sockets ==>
                  (Info(q.db, q.now, s).Some? <==>
                     && q.lapsed && Stays(q, s)
                     && Until(EndOf(room, own, sockets, r, run, s, r.db.sockets[s].expires), q.now)))
  {
    StartInv(room, own, sockets, r);
    Reached(room, own, sockets, r.db, r, run);
    var q := After(room, own, sockets, r, run);
    assert own !in q.db.sockets;
    forall s | s in sockets
      ensures Info(q.db, q.now, s).Some? <==>
              && q.lapsed && Stays(q, s)
              && Until(EndOf(room, own, sockets, r, run, s, r.db.sockets[s].expires), q.now)
    {
      StillStored(room, own, sockets, r, run, s);
      ExpiresThen(room, own, sockets, r, run, s, r.db.sockets[s].expires);
    }
    assert q.db.members == q.db.members - {room};
    assert q.db.ready == q.db.ready - {room};
    assert q.db.sockets - sockets == q.db.sockets - (sockets + {own});
  }

  /** Without an owner among those who disconnect, infos keep the expiry they had at the start. */
  lemma {:induction false} EndStands(room: string, own: string, sockets: set<string>, r: Race, run: seq<Command>,
                                     s: string, end: Option<int>)
    requires Legal(room, own, sockets, r, run) && forall c :: c in run ==> !c.ExtendTtl?
    ensures EndOf(room, own, sockets, r, run, s, end) == end
    decreases |run|
  {
    if run != [] {
      EndStands(room, own, sockets, Next(room, own, r, run[0]), run[1..], s, end);
    }
  }

  /** The member set, as long as it is there, expires then; once it has lapsed, that instant has passed. */
  predicate SetEnds(r: Race, room: string, end: int) {
    && (room in r.db.members ==> r.db.members[room].expires == Some(end))
    && (r.lapsed ==> end <= r.now)
  }

  lemma SetEndsStep(room: string, own: string, r: Race, c: Command, end: int)
    requires Enabled(r, c) && !c.ExtendTtl? && SetEnds(r, room, end)
    ensures SetEnds(Next(room, own, r, c), room, end)
  {}

  lemma {:induction false} SetEndsThen(room: string, own: string, sockets: set<string>, r: Race, run: seq<Command>,
                                       end: int)
    requires Legal(room, own, sockets, r, run) && SetEnds(r, room, end) && forall c :: c in run ==> !c.ExtendTtl?
    ensures SetEnds(After(room, own, sockets, r, run), room, end)
    decreases |run|
  {
    if run != [] {
      SetEndsStep(room, own, r, run[0], end);
      SetEndsThen(room, own, sockets, Next(room, own, r, run[0]), run[1..], end);
    }
  }

  /** An owner's departure gives the member set and the infos of the members the same 30 minutes. A socket whose
      info does not outlive the member set loses it in any case: only sockets whose info was written after the
      departure can keep theirs. */
  lemma {:induction false} SharedExpirySparesNobody(room: string, own: string, sockets: set<string>, r: Race,
                                                    run: seq<Command>, s: string, end: int)
    requires Start(room, own, sockets, r) && Legal(room, own, sockets, r, run) && s in sockets
    requires Complete(After(room, own, sockets, r, run)) && forall c :: c in run ==> !c.ExtendTtl?
    requires room in r.db.members && r.db.members[room].expires == Some(end)
    requires s in r.db.sockets && r.db.sockets[s].expires.Some? && r.db.sockets[s].expires.value <= end
    ensures var q := After(room, own, sockets, r, run); Info(q.db, q.now, s).None?
  {
    Confluence(room, own, sockets, r, run);
    EndStands(room, own, sockets, r, run, s, r.db.sockets[s].expires);
    SetEndsThen(room, own, sockets, r, run, end);
  }

  predicate Lasting(db: Db, room: string) {
    room in db.members ==> db.members[room].expires.None?
  }

  lemma LastingStep(room: string, own: string, r: Race, c: Command)
    requires Enabled(r, c) && !c.ExtendTtl? && !r.lapsed && Lasting(r.db, room)
    ensures !Next(room, own, r, c).lapsed && Lasting(DbAfter(room, own, r, c), room)
  {}

  /** A room whose member set has no expiry, because no owner has ever departed from it, does not lapse while only
      participants disconnect: then nobody keeps any info. */
  lemma {:induction false} NoExpiryNoLapse(room: string, own: string, sockets: set<string>, r: Race, run: seq<Command>)
    requires Legal(room, own, sockets, r, run) && !r.lapsed && Lasting(r.db, room)
    requires forall c :: c in run ==> !c.ExtendTtl?
    ensures !After(room, own, sockets, r, run).lapsed
    decreases |run|
  {
    if run != [] {
      LastingStep(room, own, r, run[0]);
      NoExpiryNoLapse(room, own, sockets, Next(room, own, r, run[0]), run[1..]);
    }
  }
}
