/** The spin handler, one Redis command at a time, interleaved with any number of other spins, with the clock,
    and with every other command the server can send.

    A handler is named by the spin id it draws; drawing a fresh one is the only thing assumed of it. A handler
    may stop anywhere and never move again (a crash), or jump to its final release (a failed command). */
module SpinProtocol {
  import opened Options
  import opened RedisTables
  import opened Store
  import opened SpinRound

  datatype Phase =
    | Arrived | OwnerChecked | ReplayChecked   // before the lock
    | Locked | Listed | ReadyRead | ConfigRead // reading inside the try block
    | Gated | Committed | Announced | Touched | Releasing
    | Done

  datatype Mark = Mark(step: nat, time: int)

  // The commands a handler marks when they let it go on, in the order in which it issues them.
  const OWNER_CHECK := 0
  const REPLAY_CHECK := 1
  const LOCK := 2
  const LIST := 3
  const READY := 4
  const CONFIG := 5
  const INFOS := 6
  const COMMIT := 7

  const NOTHING_READ := Snapshot([], {}, None, map[])

  /** `marks` says when each of its commands so far ran, `snapshot` what it has read, and `decidedAt` when it announced
      its spin, if it has. */
  datatype Handler = Handler(
    room: string, requestId: string, rid: string, phase: Phase, marks: seq<Mark>, snapshot: Snapshot, decidedAt: int)
  {
    predicate Inside() {
      phase !in {Arrived, OwnerChecked, ReplayChecked, Done}
    }

    function Key(): (string, string) { (room, requestId) }

    predicate HasCommitted() { |marks| > COMMIT }

    function Go(phase: Phase, step: nat, now: int): Handler {
      this.(phase := phase, marks := marks + [Mark(step, now)])
    }
  }

  /** `log` holds, per room, the spins announced so far; `deleted` the step at which a room was last deleted. */
  datatype Proto = Proto(
    db: Db, now: int, step: nat, handlers: map<string, Handler>, log: map<string, seq<LastSpin>>,
    deleted: map<string, nat>)
  {
    function Log(room: string): seq<LastSpin> { if room in log then log[room] else [] }

    /** The handler is inside the try block and has been for less than the lock's lifetime. */
    predicate InTime(h: string) {
      && h in handlers && handlers[h].Inside() && |handlers[h].marks| > LOCK
      && now < handlers[h].marks[LOCK].time + 10_000
    }

    /** The handler's room has not been deleted since the handler got the lock. */
    predicate Undeleted(h: string)
      requires h in handlers && |handlers[h].marks| > LOCK
    {
      handlers[h].room in deleted ==> deleted[handlers[h].room] < handlers[h].marks[LOCK].step
    }
  }

  datatype Action =
    | Arrive(h: string, room: string, requestId: string, rid: string)
    | CheckOwner(h: string)
    | CheckReplay(h: string)
    | Acquire(h: string)
    | ReadMembers(h: string, list: seq<string>)
    | ReadReady(h: string)
    | ReadConfig(h: string)
    | ReadInfos(h: string)
    | Commit(h: string)
    | Announce(h: string)
    | Touch(h: string)
    | WriteState(h: string)
    | Release(h: string)
    | Fail(h: string)
    | Tick(until: int)
    | Extend(room: string)
    | Delete(room: string)
    | Elsewhere(db: Db)

  predicate At(p: Proto, h: string, phase: Phase) {
    h in p.handlers && p.handlers[h].phase == phase
  }

  ghost predicate Enabled(p: Proto, a: Action) {
    match a
    case Arrive(h, _, _, _) => h !in p.handlers
    case CheckOwner(h) => At(p, h, Arrived)
    case CheckReplay(h) => At(p, h, OwnerChecked)
    case Acquire(h) => At(p, h, ReplayChecked)
    case ReadMembers(h, list) => At(p, h, Locked) && Lists(list, Members(p.db, p.now, p.handlers[h].room))
    case ReadReady(h) => At(p, h, Listed)
    case ReadConfig(h) => At(p, h, ReadyRead)
    case ReadInfos(h) => At(p, h, ConfigRead)
    case Commit(h) => At(p, h, Gated)
    case Announce(h) => At(p, h, Committed)
    case Touch(h) => At(p, h, Announced)
    case WriteState(h) => At(p, h, Touched)
    case Release(h) => At(p, h, Releasing)
    case Fail(h) => h in p.handlers && p.handlers[h].Inside()
    case Tick(until) => p.now <= until
    case Extend(_) => true
    case Delete(_) => true
    // Any other command: nothing else writes these three key families.
    case Elsewhere(db) => db.lock == p.db.lock && db.idem == p.db.idem && db.state == p.db.state
  }

  predicate ByHandler(a: Action) {
    !a.Tick? && !a.Extend? && !a.Delete? && !a.Elsewhere?
  }

  /** The action is a command of the handler. */
  predicate IsOwn(a: Action, h: string) {
    ByHandler(a) && a.h == h
  }

  /** What a handler's command makes of the handler. */
  ghost function HandlerAfter(p: Proto, a: Action): Handler
    requires Enabled(p, a) && ByHandler(a)
  {
    if a.Arrive? then Handler(a.room, a.requestId, a.rid, Arrived, [], NOTHING_READ, 0)
    else
      var x := p.handlers[a.h];
      match a
      case CheckOwner(_) =>
        if OwnerOf(p.db, p.now, x.room) == Some(x.rid) then x.Go(OwnerChecked, p.step, p.now) else x.(phase := Done)
      case CheckReplay(_) =>
        if Get(p.db.idem, x.Key(), p.now).None? then x.Go(ReplayChecked, p.step, p.now) else x.(phase := Done)
      case Acquire(_) =>
        if Get(p.db.lock, x.room, p.now).None? then x.Go(Locked, p.step, p.now) else x.(phase := Done)
      case ReadMembers(_, list) => x.Go(Listed, p.step, p.now).(snapshot := x.snapshot.(members := list))
      case ReadReady(_) =>
        x.Go(ReadyRead, p.step, p.now).(snapshot := x.snapshot.(ready := ReadyOf(p.db, p.now, x.room)))
      case ReadConfig(_) =>
        x.Go(ConfigRead, p.step, p.now).(snapshot := x.snapshot.(config := Get(p.db.config, x.room, p.now)))
      case ReadInfos(_) =>
        var read := x.snapshot.(infos := InfosOf(p.db, p.now, x.snapshot.members));
        x.Go(if GateOf(x.room, read).Pass? then Gated else Releasing, p.step, p.now).(snapshot := read)
      case Commit(_) => x.Go(Committed, p.step, p.now)
      case Announce(_) => x.(phase := Announced, decidedAt := p.now)
      case Touch(_) => x.(phase := Touched)
      case WriteState(_) => x.(phase := Releasing)
      case Fail(_) => x.(phase := Releasing)
      case Release(_) => x.(phase := Done)
  }

  ghost function HandlersAfter(p: Proto, a: Action): map<string, Handler>
    requires Enabled(p, a)
  {
    if ByHandler(a) then p.handlers[a.h := HandlerAfter(p, a)] else p.handlers
  }

  ghost function DbAfter(p: Proto, a: Action): Db
    requires Enabled(p, a)
  {
    match a
    case Acquire(h) => AcquireSpinLock(p.db, p.now, p.handlers[h].room, h, SPIN_LOCK_TTL)
    case Commit(h) => SetIdempotency(p.db, p.now, p.handlers[h].room, p.handlers[h].requestId, h)
    case Touch(h) => SetRoomLastActivity(p.db, p.now, p.handlers[h].room)
    case WriteState(h) => SetRoomState(p.db, p.now, p.handlers[h].room, LastSpin(h, p.handlers[h].decidedAt))
    case Release(h) => ReleaseSpinLock(p.db, p.now, p.handlers[h].room, h)
    case Extend(room) => ExtendRoomTTL(p.db, p.now, room)
    case Delete(room) => DeleteRoom(p.db, room)
    case Elsewhere(db) => db
    case _ => p.db
  }

  ghost function LogAfter(p: Proto, a: Action): map<string, seq<LastSpin>>
    requires Enabled(p, a)
  {
    if a.Announce? then
      var room := p.handlers[a.h].room;
      p.log[room := p.Log(room) + [LastSpin(a.h, p.now)]]
    else p.log
  }

  ghost function Next(p: Proto, a: Action): Proto
    requires Enabled(p, a)
  {
    Proto(DbAfter(p, a), if a.Tick? then a.until else p.now, p.step + 1, HandlersAfter(p, a), LogAfter(p, a),
          if a.Delete? then p.deleted[a.room := p.step] else p.deleted)
  }

  // ----- runs -----

  const START := Proto(EMPTY, 0, 0, map[], map[], map[])

  ghost predicate Legal(run: seq<Action>)
    decreases |run|, 0
  {
    run == [] || (Legal(run[..|run| - 1]) && Enabled(After(run[..|run| - 1]), run[|run| - 1]))
  }

  ghost function After(run: seq<Action>): Proto
    requires Legal(run)
    decreases |run|, 1
  {
    if run == [] then START else Next(After(run[..|run| - 1]), run[|run| - 1])
  }

  ghost predicate Reachable(p: Proto) {
    exists run :: Legal(run) && After(run) == p
  }

  // ----- what one step does to one handler -----

  /** Which of its marks a handler gets when the command lets it go on. */
  function Adds(a: Action): Option<nat> {
    match a
    case CheckOwner(_) => Some(OWNER_CHECK)
    case CheckReplay(_) => Some(REPLAY_CHECK)
    case Acquire(_) => Some(LOCK)
    case ReadMembers(_, _) => Some(LIST)
    case ReadReady(_) => Some(READY)
    case ReadConfig(_) => Some(CONFIG)
    case ReadInfos(_) => Some(INFOS)
    case Commit(_) => Some(COMMIT)
    case _ => None
  }

  /** How many commands a handler has marked once it is in a phase. */
  predicate Counted(x: Handler) {
    match x.phase
    case Arrived => |x.marks| == 0
    case OwnerChecked => |x.marks| == 1
    case ReplayChecked => |x.marks| == 2
    case Locked => |x.marks| == 3
    case Listed => |x.marks| == 4
    case ReadyRead => |x.marks| == 5
    case ConfigRead => |x.marks| == 6
    case Gated => |x.marks| == 7
    case Releasing => 3 <= |x.marks| <= 8
    case Done => |x.marks| <= 8
    case _ => |x.marks| == 8
  }

  /** The handler is the same one, and has at most one mark more, for the action that adds it. */
  ghost predicate Evolves(x: Handler, y: Handler, h: string, a: Action, m: Mark) {
    && y.room == x.room && y.requestId == x.requestId && y.rid == x.rid
    && (y.marks == x.marks || (y.marks == x.marks + [m] && IsOwn(a, h) && Adds(a) == Some(|x.marks|)))
    && (y.Inside() ==> x.Inside() || (a.Acquire? && |y.marks| > LOCK))
  }

  lemma OthersStand(p: Proto, a: Action, h: string)
    requires Enabled(p, a) && h in Next(p, a).handlers && !IsOwn(a, h)
    ensures h in p.handlers && Next(p, a).handlers[h] == p.handlers[h]
  {}

  lemma OwnEvolves(p: Proto, a: Action)
    requires Enabled(p, a) && ByHandler(a) && a.h in p.handlers && Counted(p.handlers[a.h])
    ensures Counted(HandlerAfter(p, a))
    ensures Evolves(p.handlers[a.h], HandlerAfter(p, a), a.h, a, Mark(p.step, p.now))
  {}

  /** What any step does to a handler. */
  ghost predicate Stepped(p: Proto, a: Action, q: Proto, h: string) {
    && h in q.handlers && Counted(q.handlers[h])
    && if h in p.handlers then Evolves(p.handlers[h], q.handlers[h], h, a, Mark(p.step, p.now))
       else q.handlers[h].phase.Arrived?
  }

  lemma HandlerStep(p: Proto, a: Action, h: string)
    requires Enabled(p, a) && h in Next(p, a).handlers
    requires h in p.handlers ==> Counted(p.handlers[h])
    ensures Stepped(p, a, Next(p, a), h)
  {
    if !IsOwn(a, h) {
      OthersStand(p, a, h);
    } else if h in p.handlers {
      OwnEvolves(p, a);
    }
  }

  lemma Clocks(p: Proto, a: Action)
    requires Enabled(p, a)
    ensures p.now <= Next(p, a).now && Next(p, a).step == p.step + 1
  {}

  lemma LockMoves(p: Proto, a: Action)
    requires Enabled(p, a) && !a.Acquire? && !a.Release? && !a.Delete?
    ensures Next(p, a).db.lock == p.db.lock
  {}

  lemma RecordsMove(p: Proto, a: Action)
    requires Enabled(p, a) && !a.Commit?
    ensures DbAfter(p, a).idem == p.db.idem
  {}

  // ----- what a handler's marks say -----

  ghost predicate Marked(x: Handler, step: nat, now: int) {
    && Counted(x)
    && (forall i :: 0 <= i < |x.marks| ==> x.marks[i].step < step && x.marks[i].time <= now)
    && (forall i, j :: 0 <= i < j < |x.marks| ==>
          x.marks[i].step < x.marks[j].step && x.marks[i].time <= x.marks[j].time)
  }

  ghost predicate MarksInv(p: Proto) {
    && (forall h :: h in p.handlers ==> Marked(p.handlers[h], p.step, p.now))
    && (forall room :: room in p.deleted ==> p.deleted[room] < p.step)
  }

  lemma MarkedEvolves(x: Handler, y: Handler, h: string, a: Action, step: nat, now: int, later: int)
    requires Marked(x, step, now) && Counted(y) && Evolves(x, y, h, a, Mark(step, now)) && now <= later
    ensures Marked(y, step + 1, later)
  {}

  lemma MarkedStep(p: Proto, a: Action, h: string)
    requires Enabled(p, a) && MarksInv(p) && h in Next(p, a).handlers
    ensures Marked(Next(p, a).handlers[h], p.step + 1, Next(p, a).now) && Stepped(p, a, Next(p, a), h)
  {
    assert h in p.handlers ==> Marked(p.handlers[h], p.step, p.now);
    HandlerStep(p, a, h);
    Clocks(p, a);
    if h in p.handlers {
      MarkedEvolves(p.handlers[h], Next(p, a).handlers[h], h, a, p.step, p.now, Next(p, a).now);
    }
  }

  lemma MarksStep(p: Proto, a: Action)
    requires Enabled(p, a) && MarksInv(p)
    ensures MarksInv(Next(p, a))
  {
    Clocks(p, a);
    forall h | h in Next(p, a).handlers ensures Marked(Next(p, a).handlers[h], p.step + 1, Next(p, a).now) {
      MarkedStep(p, a, h);
    }
  }

  // ----- the lock -----

  /** In time and in a room that has not been deleted since: the lock is this handler's. */
  ghost predicate Holds(p: Proto, h: string) {
    p.InTime(h) && p.Undeleted(h) ==>
      var x := p.handlers[h];
      x.room in p.db.lock && p.db.lock[x.room] == Cell(h, Some(x.marks[LOCK].time + 10_000))
  }

  /** Once the room has been deleted after a handler got the lock, the lock is never that handler's again. */
  ghost predicate Lost(p: Proto, h: string) {
    h in p.handlers && |p.handlers[h].marks| > LOCK && !p.Undeleted(h) ==>
      var room := p.handlers[h].room;
      room in p.db.lock ==> p.db.lock[room].value != h
  }

  ghost predicate LockInv(p: Proto) {
    forall h :: h in p.handlers ==> Holds(p, h) && Lost(p, h)
  }

  /** A step that leaves the locks and the deletions alone. */
  lemma LockStands(p: Proto, a: Action, q: Proto, h: string)
    requires Stepped(p, a, q, h) && (h in p.handlers ==> Holds(p, h) && Lost(p, h))
    requires q.db.lock == p.db.lock && q.deleted == p.deleted && p.now <= q.now && !a.Acquire?
    ensures Holds(q, h) && Lost(q, h)
  {}

  /** A handler that gets the lock. */
  lemma LockTaken(p: Proto, k: string, h: string)
    requires At(p, k, ReplayChecked) && MarksInv(p) && h in Next(p, Acquire(k)).handlers
    requires h in p.handlers ==> Holds(p, h) && Lost(p, h)
    ensures Holds(Next(p, Acquire(k)), h) && Lost(Next(p, Acquire(k)), h)
  {
    MarkedStep(p, Acquire(k), h);
    assert Marked(p.handlers[k], p.step, p.now);
    if h != k {
      OthersStand(p, Acquire(k), h);
    }
  }

  lemma LockReleased(p: Proto, k: string, h: string)
    requires At(p, k, Releasing) && h in Next(p, Release(k)).handlers
    requires h in p.handlers ==> Holds(p, h) && Lost(p, h)
    ensures Holds(Next(p, Release(k)), h) && Lost(Next(p, Release(k)), h)
  {
    if h != k {
      OthersStand(p, Release(k), h);
    }
  }

  lemma LockDeleted(p: Proto, room: string, h: string)
    requires MarksInv(p) && h in p.handlers && Holds(p, h) && Lost(p, h)
    ensures Holds(Next(p, Delete(room)), h) && Lost(Next(p, Delete(room)), h)
  {
    assert Marked(p.handlers[h], p.step, p.now);
  }

  lemma LockStep(p: Proto, a: Action, h: string)
    requires Enabled(p, a) && MarksInv(p) && LockInv(p) && h in Next(p, a).handlers
    ensures Holds(Next(p, a), h) && Lost(Next(p, a), h)
  {
    assert h in p.handlers ==> Holds(p, h) && Lost(p, h);
    if a.Acquire? {
      LockTaken(p, a.h, h);
    } else if a.Release? {
      LockReleased(p, a.h, h);
    } else if a.Delete? {
      OthersStand(p, a, h);
      LockDeleted(p, a.room, h);
    } else {
      MarkedStep(p, a, h);
      LockMoves(p, a);
      Clocks(p, a);
      LockStands(p, a, Next(p, a), h);
    }
  }

  lemma {:induction false} LockSafety(run: seq<Action>)
    requires Legal(run)
    ensures MarksInv(After(run)) && LockInv(After(run))
  {
    if run != [] {
      var p, a := After(run[..|run| - 1]), run[|run| - 1];
      LockSafety(run[..|run| - 1]);
      MarksStep(p, a);
      forall h | h in Next(p, a).handlers ensures Holds(Next(p, a), h) && Lost(Next(p, a), h) {
        LockStep(p, a, h);
      }
    }
  }

  lemma LockInvHolds(p: Proto)
    requires Reachable(p)
    ensures MarksInv(p) && LockInv(p)
  {
    var run :| Legal(run) && After(run) == p;
    LockSafety(run);
  }

  /** For a handler that is in time the lock is its own exactly when its room has not been deleted since it got
      the lock. */
  lemma LockIsOwn(p: Proto, h: string)
    requires Reachable(p) && p.InTime(h)
    ensures Get(p.db.lock, p.handlers[h].room, p.now) == Some(h) <==> p.Undeleted(h)
  {
    LockInvHolds(p);
    assert Holds(p, h) && Lost(p, h);
  }

  /** Two handlers are never both inside the critical section of a room with less than 10 seconds elapsed since
      each got the lock, unless the room was deleted after one of them got it. */
  lemma MutualExclusion(p: Proto, h: string, k: string)
    requires Reachable(p) && p.InTime(h) && p.InTime(k)
    requires p.handlers[h].room == p.handlers[k].room && p.Undeleted(h) && p.Undeleted(k)
    ensures h == k
  {
    LockIsOwn(p, h);
    LockIsOwn(p, k);
  }

  /** No step of anybody else, a late release included, takes the lock away from a handler that is in time. */
  lemma LockKept(p: Proto, a: Action, h: string)
    requires Reachable(p) && Enabled(p, a) && p.InTime(h)
    requires Next(p, a).InTime(h) && Next(p, a).Undeleted(h)
    ensures var q, room := Next(p, a), p.handlers[h].room;
            && Get(q.db.lock, room, q.now) == Some(h)
            && room in p.db.lock && q.db.lock[room] == p.db.lock[room]
  {
    LockInvHolds(p);
    LockStep(p, a, h);
    MarkedStep(p, a, h);
    if a.Delete? {
      assert Marked(p.handlers[h], p.step, p.now);
      OthersStand(p, a, h);
    }
    assert Holds(p, h) && Holds(Next(p, a), h);
  }

  // ----- idempotency -----

  ghost predicate Committer(p: Proto, h: string) {
    h in p.handlers && p.handlers[h].HasCommitted()
  }

  /** A commit keeps its record alive for 30 seconds. */
  ghost predicate Recorded(p: Proto, h: string)
    requires h in p.handlers
  {
    var x := p.handlers[h];
    x.HasCommitted() && p.now < x.marks[COMMIT].time + 30_000 ==>
      && x.Key() in p.db.idem && p.db.idem[x.Key()].expires.Some?
      && x.marks[COMMIT].time + 30_000 <= p.db.idem[x.Key()].expires.value
  }

  /** A record comes from a commit and expires 30 seconds after it. */
  ghost predicate Sourced(p: Proto, key: (string, string))
    requires key in p.db.idem
  {
    var h := p.db.idem[key].value;
    && Committer(p, h) && p.handlers[h].Key() == key
    && p.db.idem[key].expires == Some(p.handlers[h].marks[COMMIT].time + 30_000)
  }

  ghost predicate RecordInv(p: Proto) {
    && (forall h :: h in p.handlers ==> Recorded(p, h))
    && (forall key :: key in p.db.idem ==> Sourced(p, key))
  }

  /** A check that came after a commit of the same request came 30 seconds after it. */
  ghost predicate Spaced(x: Handler, y: Handler) {
    x.Key() == y.Key() && x.HasCommitted() && |y.marks| > REPLAY_CHECK &&
    x.marks[COMMIT].step < y.marks[REPLAY_CHECK].step ==>
      x.marks[COMMIT].time + 30_000 <= y.marks[REPLAY_CHECK].time
  }

  ghost predicate SpacedInv(p: Proto) {
    forall h, k :: h in p.handlers && k in p.handlers ==> Spaced(p.handlers[h], p.handlers[k])
  }

  /** A commit marks its handler now and writes its record to last for 30 seconds. */
  lemma CommitMade(p: Proto, h: string)
    requires MarksInv(p) && At(p, h, Gated)
    ensures var q, x := Next(p, Commit(h)), p.handlers[h];
            && Committer(q, h) && q.handlers[h].Key() == x.Key() && q.handlers[h].marks[COMMIT] == Mark(p.step, p.now)
            && q.db.idem == p.db.idem[x.Key() := Cell(h, Some(p.now + 30_000))] && q.now == p.now
  {
    assert Marked(p.handlers[h], p.step, p.now);
  }

  lemma SourcedStands(p: Proto, a: Action, q: Proto, key: (string, string))
    requires key in p.db.idem && Sourced(p, key) && q.db.idem == p.db.idem
    requires Stepped(p, a, q, p.db.idem[key].value)
    ensures Sourced(q, key)
  {}

  lemma HandlersStay(p: Proto, a: Action, h: string)
    requires Enabled(p, a) && h in p.handlers
    ensures h in Next(p, a).handlers
  {}

  lemma SourcedStep(p: Proto, a: Action, key: (string, string))
    requires Enabled(p, a) && MarksInv(p) && RecordInv(p) && key in Next(p, a).db.idem
    ensures Sourced(Next(p, a), key)
  {
    if a.Commit? {
      CommitMade(p, a.h);
      if key != p.handlers[a.h].Key() {
        assert Sourced(p, key);
        OthersKeepRecords(p, a, key);
      }
    } else {
      RecordsMove(p, a);
      assert Sourced(p, key);
      HandlersStay(p, a, p.db.idem[key].value);
      MarkedStep(p, a, p.db.idem[key].value);
      SourcedStands(p, a, Next(p, a), key);
    }
  }

  lemma OthersKeepRecords(p: Proto, a: Action, key: (string, string))
    requires Enabled(p, a) && a.Commit? && key in p.db.idem && Sourced(p, key) && key != p.handlers[a.h].Key()
    ensures key in Next(p, a).db.idem && Sourced(Next(p, a), key)
  {}

  lemma RecordedStands(p: Proto, a: Action, q: Proto, h: string)
    requires Stepped(p, a, q, h) && (h in p.handlers ==> Recorded(p, h) && Counted(p.handlers[h]))
    requires q.db.idem == p.db.idem && p.now <= q.now && !a.Commit?
    ensures Recorded(q, h)
  {}

  lemma RecordedStep(p: Proto, a: Action, h: string)
    requires Enabled(p, a) && MarksInv(p) && RecordInv(p) && h in Next(p, a).handlers
    ensures Recorded(Next(p, a), h)
  {
    assert h in p.handlers ==> Recorded(p, h) && Marked(p.handlers[h], p.step, p.now);
    if a.Commit? {
      CommitMade(p, a.h);
      if a.h != h {
        OthersStand(p, a, h);
      }
    } else {
      Clocks(p, a);
      RecordsMove(p, a);
      MarkedStep(p, a, h);
      RecordedStands(p, a, Next(p, a), h);
    }
  }

  lemma RecordStep(p: Proto, a: Action)
    requires Enabled(p, a) && MarksInv(p) && RecordInv(p)
    ensures RecordInv(Next(p, a))
  {
    var q := Next(p, a);
    forall h | h in q.handlers ensures Recorded(q, h) {
      RecordedStep(p, a, h);
    }
    forall key | key in q.db.idem ensures Sourced(q, key) {
      SourcedStep(p, a, key);
    }
  }

  /** The replay check lets a request through only when every commit of it is 30 seconds old. */
  lemma SpacedCheck(p: Proto, h: string, k: string)
    requires RecordInv(p) && At(p, k, OwnerChecked) && Committer(p, h) && p.handlers[h].Key() == p.handlers[k].Key()
    ensures At(Next(p, CheckReplay(k)), k, ReplayChecked) ==>
              p.handlers[h].marks[COMMIT].time + 30_000 <= p.now
  {
    assert Recorded(p, h);
  }

  /** Two handlers after a step, given what is known of any commit older than a check that was just made. */
  lemma SpacedStands(p: Proto, a: Action, q: Proto, h: string, k: string)
    requires Stepped(p, a, q, h) && Stepped(p, a, q, k)
    requires h in p.handlers ==> Marked(p.handlers[h], p.step, p.now)
    requires k in p.handlers ==> Marked(p.handlers[k], p.step, p.now)
    requires h in p.handlers && k in p.handlers ==> Spaced(p.handlers[h], p.handlers[k])
    requires a.CheckReplay? && a.h == k && k in p.handlers && |q.handlers[k].marks| > REPLAY_CHECK && Committer(p, h)
             && p.handlers[h].Key() == p.handlers[k].Key() ==>
               p.handlers[h].marks[COMMIT].time + 30_000 <= p.now
    ensures Spaced(q.handlers[h], q.handlers[k])
  {}

  lemma SpacedPair(p: Proto, a: Action, h: string, k: string)
    requires Enabled(p, a) && MarksInv(p) && RecordInv(p) && SpacedInv(p)
    requires h in Next(p, a).handlers && k in Next(p, a).handlers
    ensures Spaced(Next(p, a).handlers[h], Next(p, a).handlers[k])
  {
    MarkedStep(p, a, h);
    MarkedStep(p, a, k);
    assert h in p.handlers ==> Marked(p.handlers[h], p.step, p.now);
    assert k in p.handlers ==> Marked(p.handlers[k], p.step, p.now);
    if a.CheckReplay? && a.h == k && Committer(p, h) && p.handlers[h].Key() == p.handlers[k].Key() {
      SpacedCheck(p, h, k);
    }
    SpacedStands(p, a, Next(p, a), h, k);
  }

  lemma SpacedStep(p: Proto, a: Action)
    requires Enabled(p, a) && MarksInv(p) && RecordInv(p) && SpacedInv(p)
    ensures SpacedInv(Next(p, a))
  {
    forall h, k | h in Next(p, a).handlers && k in Next(p, a).handlers
      ensures Spaced(Next(p, a).handlers[h], Next(p, a).handlers[k])
    {
      SpacedPair(p, a, h, k);
    }
  }

  lemma {:induction false} IdempotencySafety(run: seq<Action>)
    requires Legal(run)
    ensures MarksInv(After(run)) && RecordInv(After(run)) && SpacedInv(After(run))
  {
    if run != [] {
      var p, a := After(run[..|run| - 1]), run[|run| - 1];
      IdempotencySafety(run[..|run| - 1]);
      MarksStep(p, a);
      RecordStep(p, a);
      SpacedStep(p, a);
    }
  }

  lemma IdempotencyHolds(p: Proto)
    requires Reachable(p)
    ensures MarksInv(p) && RecordInv(p) && SpacedInv(p)
  {
    var run :| Legal(run) && After(run) == p;
    IdempotencySafety(run);
  }

  lemma ReplayCheckPasses(p: Proto, k: string)
    requires At(p, k, OwnerChecked)
    ensures At(Next(p, CheckReplay(k)), k, ReplayChecked) <==> Get(p.db.idem, p.handlers[k].Key(), p.now).None?
  {}

  /** The replay check lets a request through exactly when every spin that committed it did so at least 30
      seconds ago. */
  lemma ReplayCheckIsExact(p: Proto, k: string)
    requires Reachable(p) && At(p, k, OwnerChecked)
    ensures At(Next(p, CheckReplay(k)), k, ReplayChecked) <==>
            forall h :: Committer(p, h) && p.handlers[h].Key() == p.handlers[k].Key() ==>
                          p.handlers[h].marks[COMMIT].time + 30_000 <= p.now
  {
    IdempotencyHolds(p);
    ReplayCheckPasses(p, k);
    var key := p.handlers[k].Key();
    if Get(p.db.idem, key, p.now).None? {
      forall h | Committer(p, h) && p.handlers[h].Key() == key
        ensures p.handlers[h].marks[COMMIT].time + 30_000 <= p.now
      {
        assert Recorded(p, h);
      }
    } else {
      assert Sourced(p, key);
    }
  }

  /** Two spins of one request that commit less than 30 seconds apart were both checked before the first of
      them committed: a retry sent after a commit never spins again within 30 seconds. This holds even across
      deletions of the room. */
  lemma NoReplay(p: Proto, h: string, k: string)
    requires Reachable(p) && Committer(p, h) && Committer(p, k)
    requires p.handlers[h].Key() == p.handlers[k].Key()
    requires p.handlers[h].marks[COMMIT].step < p.handlers[k].marks[COMMIT].step
    requires p.handlers[k].marks[COMMIT].time < p.handlers[h].marks[COMMIT].time + 30_000
    ensures p.handlers[k].marks[REPLAY_CHECK].step <= p.handlers[h].marks[COMMIT].step
  {
    IdempotencyHolds(p);
    assert Marked(p.handlers[k], p.step, p.now);
    assert Spaced(p.handlers[h], p.handlers[k]);
  }

  // ----- what a committed spin has been through -----

  /** What let the handler go on at its i-th command, in the state that the command found. */
  ghost predicate Saw(q: Proto, i: nat, x: Handler) {
    if i == OWNER_CHECK then OwnerOf(q.db, q.now, x.room) == Some(x.rid)
    else if i == REPLAY_CHECK then Get(q.db.idem, x.Key(), q.now).None?
    else if i == LOCK then Get(q.db.lock, x.room, q.now).None?
    else if i == LIST then Lists(x.snapshot.members, Members(q.db, q.now, x.room))
    else if i == READY then x.snapshot.ready == ReadyOf(q.db, q.now, x.room)
    else if i == CONFIG then x.snapshot.config == Get(q.db.config, x.room, q.now)
    else if i == INFOS then x.snapshot.infos == InfosOf(q.db, q.now, x.snapshot.members)
    else GateOf(x.room, x.snapshot).Pass?
  }

  /** Each command the handler has marked found in the store what let it go on. */
  ghost predicate Witnessed(run: seq<Action>, x: Handler) {
    && Legal(run)
    && (x.phase.Gated? ==> GateOf(x.room, x.snapshot).Pass?)
    && forall i :: 0 <= i < |x.marks| ==> WitnessedAt(run, x, i)
  }

  ghost predicate WitnessedAt(run: seq<Action>, x: Handler, i: nat)
    requires Legal(run) && i < |x.marks|
  {
    && x.marks[i].step < |run| && Legal(run[..x.marks[i].step])
    && Saw(After(run[..x.marks[i].step]), i, x)
  }

  lemma {:induction false} StepsCount(run: seq<Action>)
    requires Legal(run)
    ensures After(run).step == |run|
  {
    if run != [] {
      StepsCount(run[..|run| - 1]);
    }
  }

  /** What has been read stays as it was read. */
  ghost predicate Reads(x: Handler, y: Handler) {
    && (|x.marks| > LIST ==> y.snapshot.members == x.snapshot.members)
    && (|x.marks| > READY ==> y.snapshot.ready == x.snapshot.ready)
    && (|x.marks| > CONFIG ==> y.snapshot.config == x.snapshot.config)
    && (|x.marks| > INFOS ==> y.snapshot == x.snapshot)
  }

  /** A handler's command either adds no mark or marks what it has just seen. */
  lemma OwnSees(p: Proto, a: Action)
    requires Enabled(p, a) && ByHandler(a) && a.h in p.handlers && Counted(p.handlers[a.h])
    requires p.handlers[a.h].phase.Gated? ==> GateOf(p.handlers[a.h].room, p.handlers[a.h].snapshot).Pass?
    ensures var x, y := p.handlers[a.h], HandlerAfter(p, a);
            && Reads(x, y) && (y.phase.Gated? ==> GateOf(y.room, y.snapshot).Pass?)
            && (y.marks != x.marks ==> Saw(p, |x.marks|, y))
  {}

  lemma SawStill(q: Proto, i: nat, x: Handler, y: Handler)
    requires i < |x.marks| <= 8 && Saw(q, i, x) && Reads(x, y)
    requires y.room == x.room && y.requestId == x.requestId && y.rid == x.rid
    ensures Saw(q, i, y)
  {}

  lemma WitnessedOwn(run: seq<Action>, a: Action)
    requires Legal(run) && Enabled(After(run), a) && ByHandler(a) && a.h in After(run).handlers
    requires Counted(After(run).handlers[a.h]) && Witnessed(run, After(run).handlers[a.h]) && Legal(run + [a])
    ensures Witnessed(run + [a], HandlerAfter(After(run), a))
  {
    var p := After(run);
    var x, y := p.handlers[a.h], HandlerAfter(p, a);
    OwnEvolves(p, a);
    OwnSees(p, a);
    StepsCount(run);
    forall i | 0 <= i < |y.marks| ensures WitnessedAt(run + [a], y, i) {
      if i < |x.marks| {
        assert WitnessedAt(run, x, i) && y.marks[i] == x.marks[i];
        WitnessedStill(run, a, x, y, i);
      } else {
        assert y.marks[i] == Mark(p.step, p.now);
        assert (run + [a])[..p.step] == run;
      }
    }
  }

  lemma WitnessedStill(run: seq<Action>, a: Action, x: Handler, y: Handler, i: nat)
    requires Legal(run) && Legal(run + [a]) && i < |x.marks| <= 8 && i < |y.marks| && WitnessedAt(run, x, i)
    requires y.marks[i] == x.marks[i] && Reads(x, y)
    requires y.room == x.room && y.requestId == x.requestId && y.rid == x.rid
    ensures WitnessedAt(run + [a], y, i)
  {
    assert (run + [a])[..x.marks[i].step] == run[..x.marks[i].step];
    SawStill(After(run[..x.marks[i].step]), i, x, y);
  }

  lemma WitnessedLater(run: seq<Action>, a: Action, x: Handler)
    requires Witnessed(run, x) && Legal(run + [a])
    ensures Witnessed(run + [a], x)
  {
    forall i | 0 <= i < |x.marks| ensures WitnessedAt(run + [a], x, i) {
      assert WitnessedAt(run, x, i);
      assert (run + [a])[..x.marks[i].step] == run[..x.marks[i].step];
    }
  }

  lemma {:induction false} EveryHandlerWitnessed(run: seq<Action>, h: string)
    requires Legal(run) && h in After(run).handlers
    ensures Witnessed(run, After(run).handlers[h])
  {
    if run != [] {
      var before, a := run[..|run| - 1], run[|run| - 1];
      assert run == before + [a];
      var p := After(before);
      IdempotencySafety(before);
      if h in p.handlers {
        EveryHandlerWitnessed(before, h);
        assert Marked(p.handlers[h], p.step, p.now);
        if IsOwn(a, h) {
          WitnessedOwn(before, a);
        } else {
          OthersStand(p, a, h);
          WitnessedLater(before, a, p.handlers[h]);
        }
      }
    }
  }

  /** An idempotency record exists only for a spin that found its requester to be the owner, then no record, then
      a free lock, then read members, ready set, config and infos in this order, and passed every gate on what
      it read. */
  lemma RecordsAreResolvedSpins(run: seq<Action>, key: (string, string))
    requires Legal(run) && key in After(run).db.idem
    ensures var h := After(run).db.idem[key].value;
            && h in After(run).handlers
            && var x := After(run).handlers[h];
               && x.Key() == key && |x.marks| == 8 && Witnessed(run, x)
               && forall i, j :: 0 <= i < j < 8 ==> x.marks[i].step < x.marks[j].step
  {
    IdempotencySafety(run);
    assert Sourced(After(run), key);
    var h := After(run).db.idem[key].value;
    assert Marked(After(run).handlers[h], After(run).step, After(run).now);
    EveryHandlerWitnessed(run, h);
  }

  // ----- one serial history -----

  /** Every critical section in progress in the room is shorter than the lock's lifetime. */
  ghost predicate Timely(p: Proto, room: string) {
    forall h :: h in p.handlers && p.handlers[h].room == room && p.handlers[h].Inside() ==> p.InTime(h)
  }

  /** Not a failure in the room and not a deletion of it. */
  predicate Calm(p: Proto, a: Action, room: string) {
    match a
    case Fail(h) => h in p.handlers ==> p.handlers[h].room != room
    case Delete(r) => r != room
    case _ => true
  }

  /** A run without failures in the room, deletions of it, or overlong critical sections in it. */
  ghost predicate Serial(run: seq<Action>, room: string)
    requires Legal(run)
  {
    run == [] ||
    (Serial(run[..|run| - 1], room) && Timely(After(run), room) && Calm(After(run[..|run| - 1]), run[|run| - 1], room))
  }

  /** The spin announced last has yet to write the room's state, or the state names it. */
  ghost predicate Settled(p: Proto, room: string) {
    var log := p.Log(room);
    if log == [] then room !in p.db.state
    else
      var last := log[|log| - 1];
      && last.spinId in p.handlers && p.handlers[last.spinId].room == room
      && p.handlers[last.spinId].decidedAt == last.decidedAt
      && p.handlers[last.spinId].phase in {Announced, Touched, Releasing, Done}
      && (p.handlers[last.spinId].phase in {Releasing, Done} && room in p.db.state ==>
            p.db.state[room].value == last)
  }

  /** A spin that is announced and has not written the state is the one announced last. */
  ghost predicate Latest(p: Proto, h: string, room: string)
    requires h in p.handlers
  {
    p.handlers[h].room == room && p.handlers[h].phase in {Announced, Touched} ==>
      p.Log(room) != [] && p.Log(room)[|p.Log(room)| - 1].spinId == h
  }

  ghost predicate HistoryInv(p: Proto, room: string) {
    && room !in p.deleted && Settled(p, room)
    && (forall h :: h in p.handlers ==> Latest(p, h, room))
  }

  /** The lock lets only one spin of the room be announced before it writes the state. */
  lemma OneAtATime(p: Proto, h: string, k: string, room: string)
    requires LockInv(p) && Timely(p, room) && room !in p.deleted
    requires h in p.handlers && p.handlers[h].room == room && p.handlers[h].Inside()
    requires k in p.handlers && p.handlers[k].room == room && p.handlers[k].Inside()
    ensures h == k
  {
    assert Holds(p, h) && Holds(p, k) && p.InTime(h) && p.InTime(k);
  }

  lemma PhaseStands(p: Proto, a: Action, h: string)
    requires Enabled(p, a) && h in p.handlers
    ensures var x, y := p.handlers[h], HandlersAfter(p, a)[h];
            && y.room == x.room
            && (x.phase in {Announced, Touched, Releasing, Done} ==> y.decidedAt == x.decidedAt)
            && (y.phase in {Announced, Touched} ==> x.phase in {Announced, Touched} || a == Announce(h))
            && (y.phase in {Releasing, Done} && !a.Fail? && x.phase in {Announced, Touched} ==> a == WriteState(h))
            && (x.phase in {Announced, Touched, Releasing, Done} ==> y.phase in {Announced, Touched, Releasing, Done})
  {}

  lemma LatestAnnounce(p: Proto, k: string, h: string, room: string)
    requires At(p, k, Committed) && p.handlers[k].room == room && h in p.handlers
    requires p.handlers[h].room == room && p.handlers[h].Inside() ==> h == k
    ensures Latest(Next(p, Announce(k)), h, room)
  {}

  lemma LatestStands(p: Proto, a: Action, h: string, room: string)
    requires Enabled(p, a) && h in p.handlers && Latest(p, h, room)
    requires !(a.Announce? && p.handlers[a.h].room == room)
    ensures Latest(Next(p, a), h, room)
  {
    PhaseStands(p, a, h);
    assert Next(p, a).Log(room) == p.Log(room);
  }

  lemma LatestStep(p: Proto, a: Action, h: string, room: string)
    requires Enabled(p, a) && h in p.handlers && Latest(p, h, room)
    requires LockInv(p) && Timely(p, room) && room !in p.deleted
    ensures Latest(Next(p, a), h, room)
  {
    if a.Announce? && p.handlers[a.h].room == room {
      if p.handlers[h].room == room && p.handlers[h].Inside() {
        OneAtATime(p, h, a.h, room);
      }
      LatestAnnounce(p, a.h, h, room);
    } else {
      LatestStands(p, a, h, room);
    }
  }

  lemma LatestArrival(p: Proto, a: Action, h: string, room: string)
    requires Enabled(p, a) && h in Next(p, a).handlers && h !in p.handlers
    ensures Latest(Next(p, a), h, room)
  {}

  lemma StateMoves(p: Proto, a: Action, room: string)
    requires Enabled(p, a) && !(a.WriteState? && p.handlers[a.h].room == room)
    ensures room in DbAfter(p, a).state ==>
              room in p.db.state && DbAfter(p, a).state[room].value == p.db.state[room].value
  {}

  lemma StateWritten(p: Proto, h: string, room: string)
    requires At(p, h, Touched) && p.handlers[h].room == room && Settled(p, room) && Latest(p, h, room)
    ensures Settled(Next(p, WriteState(h)), room)
  {}

  lemma AnnouncementMade(p: Proto, h: string, room: string)
    requires At(p, h, Committed) && p.handlers[h].room == room
    ensures Settled(Next(p, Announce(h)), room)
  {}

  lemma SettledStands(p: Proto, a: Action, room: string)
    requires Enabled(p, a) && Calm(p, a, room) && Settled(p, room)
    requires !(a.WriteState? && p.handlers[a.h].room == room) && !(a.Announce? && p.handlers[a.h].room == room)
    ensures Settled(Next(p, a), room)
  {
    StateMoves(p, a, room);
    var log := p.Log(room);
    assert Next(p, a).Log(room) == log;
    if log != [] {
      var last := log[|log| - 1].spinId;
      PhaseStands(p, a, last);
      if a.Fail? && a.h != last {
        OthersStand(p, a, last);
      }
    }
  }

  lemma SettledStep(p: Proto, a: Action, room: string)
    requires Enabled(p, a) && Calm(p, a, room) && HistoryInv(p, room)
    ensures Settled(Next(p, a), room)
  {
    if a.WriteState? && p.handlers[a.h].room == room {
      assert Latest(p, a.h, room);
      StateWritten(p, a.h, room);
    } else if a.Announce? && p.handlers[a.h].room == room {
      AnnouncementMade(p, a.h, room);
    } else {
      SettledStands(p, a, room);
    }
  }

  lemma {:induction false} HistorySafety(run: seq<Action>, room: string)
    requires Legal(run) && Serial(run, room)
    ensures LockInv(After(run)) && Timely(After(run), room) && HistoryInv(After(run), room)
  {
    LockSafety(run);
    if run != [] {
      var p, a := After(run[..|run| - 1]), run[|run| - 1];
      HistorySafety(run[..|run| - 1], room);
      SettledStep(p, a, room);
      forall h | h in Next(p, a).handlers ensures Latest(Next(p, a), h, room) {
        if h in p.handlers {
          assert Latest(p, h, room);
          LatestStep(p, a, h, room);
        } else {
          LatestArrival(p, a, h, room);
        }
      }
    }
  }

  ghost predicate SeriallyReachable(p: Proto, room: string) {
    exists run :: Legal(run) && Serial(run, room) && After(run) == p
  }

  /** Spins of a room form one serial history, whatever happens in other rooms: whenever the lock is free and the
      room's state is live, the state names the spin announced last, and when it was announced. */
  lemma LastSpinIsLastAnnounced(p: Proto, room: string)
    requires SeriallyReachable(p, room)
    requires Get(p.db.lock, room, p.now).None? && Get(p.db.state, room, p.now).Some?
    ensures var log := p.Log(room); log != [] && Get(p.db.state, room, p.now).value == log[|log| - 1]
  {
    var run :| Legal(run) && Serial(run, room) && After(run) == p;
    HistorySafety(run, room);
    SettledState(p, room);
  }

  lemma SettledState(p: Proto, room: string)
    requires LockInv(p) && Timely(p, room) && Settled(p, room) && room !in p.deleted
    requires Get(p.db.lock, room, p.now).None? && Get(p.db.state, room, p.now).Some?
    ensures p.Log(room) != [] && Get(p.db.state, room, p.now).value == p.Log(room)[|p.Log(room)| - 1]
  {
    var last := p.Log(room)[|p.Log(room)| - 1].spinId;
    assert Holds(p, last);
    assert !p.InTime(last);
  }
}
