/** A spin handler that nobody interrupts, run command by command: what it amounts to. */
module SpinSolo {
  import opened Options
  import opened RedisTables
  import opened Store
  import opened SpinRound
  import opened SpinProtocol
  import Rooms

  /** The handler's next command. `list` is the order in which it is going to get the members. */
  function Own(p: Proto, h: string, list: seq<string>): Action
    requires h in p.handlers && !p.handlers[h].phase.Done?
  {
    match p.handlers[h].phase
    case Arrived => CheckOwner(h)
    case OwnerChecked => CheckReplay(h)
    case ReplayChecked => Acquire(h)
    case Locked => ReadMembers(h, list)
    case Listed => SpinProtocol.Action.ReadReady(h)
    case ReadyRead => SpinProtocol.Action.ReadConfig(h)
    case ConfigRead => ReadInfos(h)
    case Gated => Commit(h)
    case Committed => Announce(h)
    case Announced => Touch(h)
    case Touched => WriteState(h)
    case Releasing => Release(h)
  }

  function Left(phase: Phase): nat {
    match phase
    case Arrived => 12
    case OwnerChecked => 11
    case ReplayChecked => 10
    case Locked => 9
    case Listed => 8
    case ReadyRead => 7
    case ConfigRead => 6
    case Gated => 5
    case Committed => 4
    case Announced => 3
    case Touched => 2
    case Releasing => 1
    case Done => 0
  }

  /** The handler has listed the members, or this is one of the orders in which it can get them. */
  ghost predicate Fits(p: Proto, h: string, list: seq<string>) {
    && h in p.handlers
    && (Left(p.handlers[h].phase) >= 9 ==> Lists(list, Members(p.db, p.now, p.handlers[h].room)))
  }

  lemma OwnEnabled(p: Proto, h: string, list: seq<string>)
    requires Fits(p, h, list) && !p.handlers[h].phase.Done?
    ensures Enabled(p, Own(p, h, list)) && ByHandler(Own(p, h, list)) && Own(p, h, list).h == h
    ensures var y := HandlerAfter(p, Own(p, h, list));
            Left(y.phase) < Left(p.handlers[h].phase) && y.room == p.handlers[h].room
  {}

  lemma MembersStay(p: Proto, a: Action)
    requires Enabled(p, a) && ByHandler(a)
    ensures DbAfter(p, a).members == p.db.members
  {}

  lemma OwnAdvances(p: Proto, h: string, list: seq<string>)
    requires Fits(p, h, list) && !p.handlers[h].phase.Done?
    ensures Enabled(p, Own(p, h, list))
    ensures var q := Next(p, Own(p, h, list));
            Fits(q, h, list) && Left(q.handlers[h].phase) < Left(p.handlers[h].phase)
  {
    OwnEnabled(p, h, list);
    MembersStay(p, Own(p, h, list));
  }

  /** The state once the handler has issued the rest of its commands, with nothing in between. */
  ghost function Alone(p: Proto, h: string, list: seq<string>): Proto
    requires Fits(p, h, list)
    decreases Left(p.handlers[h].phase)
  {
    if p.handlers[h].phase.Done? then p
    else
      OwnAdvances(p, h, list);
      Alone(Next(p, Own(p, h, list)), h, list)
  }

  lemma Extended(run: seq<Action>, a: Action) returns (longer: seq<Action>)
    requires Legal(run) && Enabled(After(run), a)
    ensures Legal(longer) && After(longer) == Next(After(run), a)
  {
    longer := run + [a];
    assert longer[..|run|] == run;
  }

  /** Running alone is one of the ways to go on. */
  lemma {:induction false} AloneIsRun(run: seq<Action>, h: string, list: seq<string>) returns (longer: seq<Action>)
    requires Legal(run) && Fits(After(run), h, list)
    ensures Legal(longer) && After(longer) == Alone(After(run), h, list)
    decreases Left(After(run).handlers[h].phase)
  {
    longer := run;
    if !After(run).handlers[h].phase.Done? {
      OwnAdvances(After(run), h, list);
      longer := Extended(run, Own(After(run), h, list));
      longer := AloneIsRun(longer, h, list);
    }
  }

  // ----- what the rest of a handler amounts to -----

  /** The handler has ended; only it, the store and the log may have changed. */
  ghost predicate Ended(p: Proto, q: Proto, h: string)
    requires h in p.handlers
  {
    && h in q.handlers && q.handlers[h].phase.Done? && q.handlers[h].Key() == p.handlers[h].Key()
    && (forall k :: k != h && k in p.handlers ==> k in q.handlers && q.handlers[k] == p.handlers[k])
    && q.now == p.now && q.deleted == p.deleted
  }

  /** It has ended with this store, and has announced a spin or not; a commit is marked if there was one. */
  ghost predicate EndsWith(p: Proto, q: Proto, h: string, db: Db, announced: bool)
    requires h in p.handlers
  {
    var room := p.handlers[h].room;
    && Ended(p, q, h) && q.db == db
    && q.log == (if announced then p.log[room := p.Log(room) + [LastSpin(h, p.now)]] else p.log)
    && q.handlers[h].HasCommitted() == (announced || p.handlers[h].HasCommitted())
  }

  /** The store once a spin has been resolved and its lock released. */
  function Resolved(db: Db, now: int, room: string, requestId: string, h: string): Db {
    ReleaseSpinLock(Rooms.Resolve(db, now, room, requestId, h), now, room, h)
  }

  /** From one state to another the handler has gone on, has announced its spin or not, and has committed if so. */
  ghost predicate Onwards(p: Proto, r: Proto, h: string, announced: bool) {
    && h in p.handlers && h in r.handlers
    && r.handlers[h].room == p.handlers[h].room && r.handlers[h].requestId == p.handlers[h].requestId
    && (forall k :: k != h && k in p.handlers ==> k in r.handlers && r.handlers[k] == p.handlers[k])
    && r.now == p.now && r.deleted == p.deleted
    && r.log == (if announced then p.log[p.handlers[h].room := p.Log(p.handlers[h].room) + [LastSpin(h, p.now)]]
                 else p.log)
    && r.handlers[h].HasCommitted() == (announced || p.handlers[h].HasCommitted())
  }

  /** Nothing but the handler and the store has changed. */
  ghost predicate Ends(p: Proto, q: Proto, h: string) {
    && h in p.handlers && h in q.handlers
    && q.handlers[h].room == p.handlers[h].room && q.handlers[h].requestId == p.handlers[h].requestId
    && (forall k :: k != h && k in p.handlers ==> k in q.handlers && q.handlers[k] == p.handlers[k])
    && q.now == p.now && q.deleted == p.deleted && q.log == p.log
  }

  lemma EndsLater(p: Proto, r: Proto, q: Proto, h: string, db: Db, before: bool, after: bool)
    requires Onwards(p, r, h, before) && EndsWith(r, q, h, db, after) && !(before && after)
    ensures EndsWith(p, q, h, db, before || after)
  {}

  lemma AloneNext(p: Proto, h: string, list: seq<string>)
    requires Fits(p, h, list) && !p.handlers[h].phase.Done?
    ensures Fits(Next(p, Own(p, h, list)), h, list) && Enabled(p, Own(p, h, list))
    ensures Alone(p, h, list) == Alone(Next(p, Own(p, h, list)), h, list)
  {
    OwnAdvances(p, h, list);
  }

  lemma FromReleasing(p: Proto, h: string, list: seq<string>)
    requires At(p, h, Releasing)
    ensures EndsWith(p, Alone(p, h, list), h, ReleaseSpinLock(p.db, p.now, p.handlers[h].room, h), false)
  {
    var r := ReleaseStep(p, h);
    AloneNext(p, h, list);
  }

  lemma ReleaseStep(p: Proto, h: string) returns (r: Proto)
    requires At(p, h, Releasing)
    ensures Enabled(p, Release(h)) && r == Next(p, Release(h))
    ensures EndsWith(p, r, h, ReleaseSpinLock(p.db, p.now, p.handlers[h].room, h), false)
  {
    r := Next(p, Release(h));
  }

  lemma FromTouched(p: Proto, h: string, list: seq<string>)
    requires At(p, h, Touched)
    ensures var x := p.handlers[h]; var db := SetRoomState(p.db, p.now, x.room, LastSpin(h, x.decidedAt));
            EndsWith(p, Alone(p, h, list), h, ReleaseSpinLock(db, p.now, p.handlers[h].room, h), false)
  {
    var r := Next(p, WriteState(h));
    AloneNext(p, h, list);
    FromReleasing(r, h, list);
    EndsLater(p, r, Alone(r, h, list), h, Alone(r, h, list).db, false, false);
  }

  lemma FromAnnounced(p: Proto, h: string, list: seq<string>)
    requires At(p, h, Announced)
    ensures var x := p.handlers[h];
            var db := SetRoomState(SetRoomLastActivity(p.db, p.now, x.room), p.now, x.room, LastSpin(h, x.decidedAt));
            EndsWith(p, Alone(p, h, list), h, ReleaseSpinLock(db, p.now, x.room, h), false)
  {
    var r := Next(p, Touch(h));
    AloneNext(p, h, list);
    FromTouched(r, h, list);
    EndsLater(p, r, Alone(r, h, list), h, Alone(r, h, list).db, false, false);
  }

  lemma CommitStep(p: Proto, h: string) returns (q: Proto)
    requires At(p, h, Gated) && |p.handlers[h].marks| == COMMIT
    ensures Enabled(p, Commit(h)) && q == Next(p, Commit(h)) && At(q, h, Committed)
    ensures q.db == SetIdempotency(p.db, p.now, p.handlers[h].room, p.handlers[h].requestId, h)
    ensures q.handlers[h].HasCommitted() && Ends(p, q, h)
  {
    q := Next(p, Commit(h));
  }

  lemma FromCommitted(p: Proto, h: string, list: seq<string>)
    requires At(p, h, Committed) && p.handlers[h].HasCommitted()
    ensures var x := p.handlers[h];
            var db := SetRoomState(SetRoomLastActivity(p.db, p.now, x.room), p.now, x.room, LastSpin(h, p.now));
            EndsWith(p, Alone(p, h, list), h, ReleaseSpinLock(db, p.now, x.room, h), true)
  {
    var r := Next(p, Announce(h));
    AloneNext(p, h, list);
    FromAnnounced(r, h, list);
    EndsLater(p, r, Alone(r, h, list), h, Alone(r, h, list).db, true, false);
  }

  lemma Forget(p: Proto, r: Proto, q: Proto, h: string, db: Db)
    requires Ends(p, r, h) && EndsWith(r, q, h, db, true)
    ensures EndsWith(p, q, h, db, true)
  {}

  lemma FromGated(p: Proto, h: string, list: seq<string>)
    requires At(p, h, Gated) && |p.handlers[h].marks| == COMMIT
    ensures var x := p.handlers[h];
            EndsWith(p, Alone(p, h, list), h, Resolved(p.db, p.now, x.room, x.requestId, h), true)
  {
    var r := CommitStep(p, h);
    AloneNext(p, h, list);
    FromCommitted(r, h, list);
    ResolveParts(p.db, p.now, p.handlers[h].room, p.handlers[h].requestId, h);
    Forget(p, r, Alone(r, h, list), h, Alone(r, h, list).db);
  }

  lemma ResolveParts(db: Db, now: int, room: string, requestId: string, h: string)
    ensures SetRoomState(SetRoomLastActivity(SetIdempotency(db, now, room, requestId, h), now, room), now, room,
                         LastSpin(h, now)) == Rooms.Resolve(db, now, room, requestId, h)
  {}

  /** What a handler alone reads at an instant. */
  function Reading(db: Db, now: int, room: string, list: seq<string>): Snapshot {
    Snapshot(list, ReadyOf(db, now, room), Get(db.config, room, now), InfosOf(db, now, list))
  }

  /** Alone, the handler goes from one state to its gate in the other, with this snapshot. */
  ghost predicate ToGate(p: Proto, r: Proto, h: string, list: seq<string>, snap: Snapshot) {
    && Ends(p, r, h) && r.db == p.db && |r.handlers[h].marks| == COMMIT
    && r.handlers[h].phase == (if GateOf(p.handlers[h].room, snap).Pass? then Gated else Releasing)
    && Fits(p, h, list) && Fits(r, h, list) && Alone(p, h, list) == Alone(r, h, list)
  }

  lemma ToGateLater(p: Proto, q: Proto, r: Proto, h: string, list: seq<string>, snap: Snapshot)
    requires Ends(p, q, h) && q.db == p.db && Fits(p, h, list) && Fits(q, h, list)
    requires Alone(p, h, list) == Alone(q, h, list) && ToGate(q, r, h, list, snap)
    ensures ToGate(p, r, h, list, snap)
  {}

  lemma InfosRead(p: Proto, h: string, list: seq<string>) returns (r: Proto)
    requires At(p, h, ConfigRead) && Counted(p.handlers[h])
    ensures var was := p.handlers[h].snapshot;
            ToGate(p, r, h, list, was.(infos := InfosOf(p.db, p.now, was.members)))
  {
    AloneNext(p, h, list);
    r := Next(p, ReadInfos(h));
  }

  lemma ConfigStep(p: Proto, h: string) returns (q: Proto)
    requires At(p, h, ReadyRead) && Counted(p.handlers[h])
    ensures var a := SpinProtocol.Action.ReadConfig(h); Enabled(p, a) && q == Next(p, a)
    ensures Ends(p, q, h) && q.db == p.db && At(q, h, ConfigRead) && Counted(q.handlers[h])
    ensures q.handlers[h].snapshot == p.handlers[h].snapshot.(config := Get(p.db.config, p.handlers[h].room, p.now))
  {
    q := Next(p, SpinProtocol.Action.ReadConfig(h));
  }

  lemma ConfigAndInfosRead(p: Proto, h: string, list: seq<string>) returns (r: Proto)
    requires At(p, h, ReadyRead) && Counted(p.handlers[h])
    ensures var was, x := p.handlers[h].snapshot, p.handlers[h];
            ToGate(p, r, h, list, was.(config := Get(p.db.config, x.room, p.now),
                                       infos := InfosOf(p.db, p.now, was.members)))
  {
    var q := ConfigStep(p, h);
    AloneNext(p, h, list);
    r := InfosRead(q, h, list);
    var read := q.handlers[h].snapshot;
    ToGateLater(p, q, r, h, list, read.(infos := InfosOf(p.db, p.now, read.members)));
  }

  lemma ReadyStep(p: Proto, h: string) returns (q: Proto)
    requires At(p, h, Listed) && Counted(p.handlers[h])
    ensures var a := SpinProtocol.Action.ReadReady(h); Enabled(p, a) && q == Next(p, a)
    ensures Ends(p, q, h) && q.db == p.db && At(q, h, ReadyRead) && Counted(q.handlers[h])
    ensures q.handlers[h].snapshot == p.handlers[h].snapshot.(ready := ReadyOf(p.db, p.now, p.handlers[h].room))
  {
    q := Next(p, SpinProtocol.Action.ReadReady(h));
  }

  lemma ReadsRest(p: Proto, h: string, list: seq<string>) returns (r: Proto)
    requires At(p, h, Listed) && Counted(p.handlers[h]) && p.handlers[h].snapshot.members == list
    ensures ToGate(p, r, h, list, Reading(p.db, p.now, p.handlers[h].room, list))
  {
    var q := ReadyStep(p, h);
    AloneNext(p, h, list);
    r := ConfigAndInfosRead(q, h, list);
    ToGateLater(p, q, r, h, list, Reading(p.db, p.now, p.handlers[h].room, list));
  }

  lemma ListStep(p: Proto, h: string, list: seq<string>) returns (q: Proto)
    requires At(p, h, Locked) && Counted(p.handlers[h]) && Fits(p, h, list)
    ensures Enabled(p, ReadMembers(h, list)) && q == Next(p, ReadMembers(h, list))
    ensures Ends(p, q, h) && q.db == p.db && At(q, h, Listed) && Counted(q.handlers[h])
    ensures q.handlers[h].snapshot.members == list
  {
    q := Next(p, ReadMembers(h, list));
  }

  /** A handler that has the lock reads the room as it is now and goes on to its gate. */
  lemma ReadsAll(p: Proto, h: string, list: seq<string>) returns (r: Proto)
    requires At(p, h, Locked) && Counted(p.handlers[h]) && Fits(p, h, list)
    ensures ToGate(p, r, h, list, Reading(p.db, p.now, p.handlers[h].room, list))
  {
    var q := ListStep(p, h, list);
    AloneNext(p, h, list);
    r := ReadsRest(q, h, list);
    ToGateLater(p, q, r, h, list, Reading(p.db, p.now, p.handlers[h].room, list));
  }

  lemma FromLocked(p: Proto, h: string, list: seq<string>)
    requires At(p, h, Locked) && Counted(p.handlers[h]) && Fits(p, h, list)
    ensures var x, q := p.handlers[h], Alone(p, h, list);
            if GateOf(x.room, Reading(p.db, p.now, x.room, list)).Pass? then
              EndsWith(p, q, h, Resolved(p.db, p.now, x.room, x.requestId, h), true)
            else EndsWith(p, q, h, ReleaseSpinLock(p.db, p.now, x.room, h), false)
  {
    var r := ReadsAll(p, h, list);
    assert Onwards(p, r, h, false);
    if r.handlers[h].phase.Gated? {
      FromGated(r, h, list);
      EndsLater(p, r, Alone(r, h, list), h, Alone(r, h, list).db, false, true);
    } else {
      FromReleasing(r, h, list);
      EndsLater(p, r, Alone(r, h, list), h, Alone(r, h, list).db, false, false);
    }
  }

  /** From its request for the lock on, a handler alone commits, and is announced, exactly when the lock is free
      and what it reads passes the gate: it does not look at the idempotency records again. */
  lemma FromReplayChecked(p: Proto, h: string, list: seq<string>)
    requires At(p, h, ReplayChecked) && Counted(p.handlers[h]) && Fits(p, h, list)
    ensures var x, q := p.handlers[h], Alone(p, h, list);
            var locked := AcquireSpinLock(p.db, p.now, x.room, h, SPIN_LOCK_TTL);
            if Get(p.db.lock, x.room, p.now).Some? then EndsWith(p, q, h, p.db, false)
            else if GateOf(x.room, Reading(p.db, p.now, x.room, list)).Pass? then
              EndsWith(p, q, h, Resolved(locked, p.now, x.room, x.requestId, h), true)
            else EndsWith(p, q, h, ReleaseSpinLock(locked, p.now, x.room, h), false)
  {
    var r := AcquireStep(p, h);
    AloneNext(p, h, list);
    if Get(p.db.lock, p.handlers[h].room, p.now).None? {
      FitsStill(p, r, h, list);
      FromLocked(r, h, list);
      LockedReading(p.db, p.now, p.handlers[h].room, h, list);
      EndsLater(p, r, Alone(r, h, list), h, Alone(r, h, list).db, false,
                GateOf(p.handlers[h].room, Reading(p.db, p.now, p.handlers[h].room, list)).Pass?);
    }
  }

  lemma FitsStill(p: Proto, r: Proto, h: string, list: seq<string>)
    requires Fits(p, h, list) && At(p, h, ReplayChecked) && h in r.handlers && r.handlers[h].room == p.handlers[h].room
    requires r.db.members == p.db.members && r.now == p.now
    ensures Fits(r, h, list)
  {}

  lemma AcquireStep(p: Proto, h: string) returns (r: Proto)
    requires At(p, h, ReplayChecked) && Counted(p.handlers[h])
    ensures Enabled(p, Acquire(h)) && r == Next(p, Acquire(h)) && Onwards(p, r, h, false)
    ensures r.db == AcquireSpinLock(p.db, p.now, p.handlers[h].room, h, SPIN_LOCK_TTL) && r.db.members == p.db.members
    ensures if Get(p.db.lock, p.handlers[h].room, p.now).None? then At(r, h, Locked) && Counted(r.handlers[h])
            else At(r, h, Done) && r.db == p.db
  {
    r := Next(p, Acquire(h));
  }

  /** Taking the lock changes nothing that is read. */
  lemma LockedReading(db: Db, now: int, room: string, h: string, list: seq<string>)
    ensures Reading(AcquireSpinLock(db, now, room, h, SPIN_LOCK_TTL), now, room, list) == Reading(db, now, room, list)
  {}

  lemma FromOwnerChecked(p: Proto, h: string, list: seq<string>)
    requires At(p, h, OwnerChecked) && Counted(p.handlers[h]) && Fits(p, h, list)
    ensures var x, q := p.handlers[h], Alone(p, h, list);
            var locked := AcquireSpinLock(p.db, p.now, x.room, h, SPIN_LOCK_TTL);
            if Get(p.db.idem, x.Key(), p.now).Some? || Get(p.db.lock, x.room, p.now).Some?
                then EndsWith(p, q, h, p.db, false)
            else if GateOf(x.room, Reading(p.db, p.now, x.room, list)).Pass? then
              EndsWith(p, q, h, Resolved(locked, p.now, x.room, x.requestId, h), true)
            else EndsWith(p, q, h, ReleaseSpinLock(locked, p.now, x.room, h), false)
  {
    var r := Next(p, CheckReplay(h));
    AloneNext(p, h, list);
    if r.handlers[h].phase.ReplayChecked? {
      FromReplayChecked(r, h, list);
      EndsLater(p, r, Alone(r, h, list), h, Alone(r, h, list).db, false, Alone(r, h, list).handlers[h].HasCommitted());
    }
  }

  // ----- the uninterrupted handler is the atomic one -----

  /** What is read alone is a snapshot of the store. */
  lemma {:induction false} ReadingIsSnapshot(db: Db, now: int, room: string, list: seq<string>)
    requires Lists(list, Members(db, now, room))
    ensures Rooms.ReadsSnapshot(db, now, room, Reading(db, now, room, list))
  {}

  /** A spin request whose commands all run with nothing in between leaves the store exactly as the one-step
      handler does on what it reads, and is announced exactly when that one accepts it. */
  lemma SoloIsAtomic(p: Proto, h: string, room: string, requestId: string, list: seq<string>,
                     conns: map<string, Rooms.Conn>, socket: string)
    requires h !in p.handlers && socket in conns && Lists(list, Members(p.db, p.now, room))
    ensures var arrived := Next(p, Arrive(h, room, requestId, conns[socket].rid));
            var snap := Reading(p.db, p.now, room, list);
            && Fits(arrived, h, list) && Rooms.ReadsSnapshot(p.db, p.now, room, snap)
            && var q := Alone(arrived, h, list);
               var (w, reply) := Rooms.Spin(Rooms.World(p.db, p.now, conns), socket, room, requestId, h, snap);
               && w == Rooms.World(q.db, q.now, conns)
               && q.log == if reply.Accepted? then p.log[room := p.Log(room) + [LastSpin(h, p.now)]] else p.log
  {
    ReadingIsSnapshot(p.db, p.now, room, list);
    var arrived := Next(p, Arrive(h, room, requestId, conns[socket].rid));
    AloneNext(arrived, h, list);
    var known := Next(arrived, CheckOwner(h));
    if OwnerOf(p.db, p.now, room) == Some(conns[socket].rid) {
      FromOwnerChecked(known, h, list);
    }
  }
}
