/** What the commands of two spin handlers can do to each other, in rooms as the server makes them. */
module SpinWitnesses {
  import opened Options
  import opened RedisTables
  import opened Store
  import opened SpinRound
  import opened SpinProtocol
  import opened SpinSolo
  import RoomWitnesses
  import RoomRuns
  import Rooms

  type Cast = RoomWitnesses.Cast

  /** A handler past the replay check, with the lock still to get. */
  ghost predicate Checked(p: Proto, h: string, room: string, requestId: string) {
    At(p, h, ReplayChecked) && Counted(p.handlers[h]) && p.handlers[h].Key() == (room, requestId)
  }

  /** Since a state, only this handler has come in; it is in this phase and has marked so many commands. */
  ghost predicate Waits(p: Proto, q: Proto, h: string, room: string, requestId: string, rid: string, phase: Phase,
                        n: nat) {
    && h in q.handlers && q.handlers[h].phase == phase && |q.handlers[h].marks| == n && q.handlers[h].rid == rid
    && q.handlers[h].Key() == (room, requestId)
    && q == p.(handlers := p.handlers[h := q.handlers[h]], step := q.step)
  }

  lemma OwnerPasses(p: Proto, q: Proto, h: string, room: string, requestId: string, rid: string)
    requires Waits(p, q, h, room, requestId, rid, Arrived, 0) && OwnerOf(p.db, p.now, room) == Some(rid)
    ensures Waits(p, Next(q, CheckOwner(h)), h, room, requestId, rid, OwnerChecked, 1)
  {}

  lemma ReplayPasses(p: Proto, q: Proto, h: string, room: string, requestId: string, rid: string)
    requires Waits(p, q, h, room, requestId, rid, OwnerChecked, 1) && Get(p.db.idem, (room, requestId), p.now).None?
    ensures Waits(p, Next(q, CheckReplay(h)), h, room, requestId, rid, ReplayChecked, 2)
  {}

  /** The owner of a room sends a request; its handler gets as far as asking for the lock. */
  lemma Approach(run: seq<Action>, h: string, room: string, requestId: string,
                 rid: string) returns (longer: seq<Action>)
    requires Legal(run) && h !in After(run).handlers
    requires OwnerOf(After(run).db, After(run).now, room) == Some(rid)
    requires Get(After(run).db.idem, (room, requestId), After(run).now).None?
    ensures Legal(longer) && Waits(After(run), After(longer), h, room, requestId, rid, ReplayChecked, 2)
  {
    longer := run;
    longer := Extended(longer, Arrive(h, room, requestId, rid));
    OwnerPasses(After(run), After(longer), h, room, requestId, rid);
    longer := Extended(longer, CheckOwner(h));
    ReplayPasses(After(run), After(longer), h, room, requestId, rid);
    longer := Extended(longer, CheckReplay(h));
  }

  /** The store of a room that has been created and that its owner has joined, as the room service leaves it. */
  ghost predicate OwnerInside(k: Cast, db: Db) {
    && (exists s: RoomRuns.State {:trigger RoomRuns.Reachable(s)} ::
          RoomRuns.Reachable(s) && s.w.db == db && s.w.now == 0)
    && db.lock == map[] && db.idem == map[] && db.state == map[]
    && OwnerOf(db, 0, k.room) == Some(k.rid) && Members(db, 0, k.room) == {"o"} && Get(db.config, k.room, 0).Some?
    && Info(db, 0, "o").Some? && Info(db, 0, "o").value.roomId == k.room && Info(db, 0, "o").value.role == Owner
  }

  /** The rooms' handlers that lead to the scene touch neither locks nor records nor states. */
  lemma SceneIsInside(k: Cast, s: RoomRuns.State)
    requires k.Valid() && RoomRuns.Reachable(s) && RoomWitnesses.OwnerOnly(k, s)
    requires s.w.db.lock == map[] && s.w.db.idem == map[] && s.w.db.state == map[]
    ensures OwnerInside(k, s.w.db)
  {}

  lemma Opening(k: Cast) returns (run: seq<Action>)
    requires k.Valid()
    ensures Legal(run) && After(run).now == 0 && After(run).handlers == map[] && After(run).log == map[]
    ensures After(run).deleted == map[] && OwnerInside(k, After(run).db)
  {
    var s := OwnerPresent(k);
    SceneIsInside(k, s);
    run := [];
    run := Extended(run, Elsewhere(s.w.db));
  }

  lemma OwnerPresent(k: Cast) returns (s: RoomRuns.State)
    requires k.Valid()
    ensures RoomRuns.Reachable(s) && RoomWitnesses.OwnerOnly(k, s)
    ensures s.w.db.lock == map[] && s.w.db.idem == map[] && s.w.db.state == map[]
  {
    var run := RoomWitnesses.Opening(k);
    var lobby := RoomRuns.After(run);
    RoomWitnesses.OwnerArrives(k, lobby);
    JoinKeepsLocks(lobby.w, "o", k.room, k.OwnerCookies(), "n");
    run := RoomWitnesses.Extended(run, k.OwnerJoins("o", Options.None));
    s := RoomRuns.After(run);
  }

  /** The two stores have the same locks, idempotency records and room states. */
  predicate SameSpins(a: Db, b: Db) {
    a == a.(lock := b.lock, idem := b.idem, state := b.state)
  }

  lemma CompleteJoinKeeps(w: Rooms.World, socket: string, room: string, rid: string, role: Role, nickname: string)
    ensures SameSpins(Rooms.CompleteJoin(w, socket, room, rid, role, nickname).0.db, w.db)
  {}

  lemma OwnerJoinKeeps(w: Rooms.World, socket: string, room: string, rid: string, nickname: string)
    ensures SameSpins(Rooms.JoinAsOwner(w, socket, room, rid, nickname, None).0.db, w.db)
  {
    var (name, db) := Rooms.OwnerNickname(w.db, w.now, room, nickname);
    assert SameSpins(db, w.db);
    CompleteJoinKeeps(w.(db := SetRoomOwner(db, w.now, room, rid)), socket, room, rid, Owner, name);
  }

  lemma JoinKeepsLocks(w: Rooms.World, socket: string, room: string, cookies: Rooms.OwnerCookies, nickname: string)
    ensures SameSpins(Rooms.Join(w, socket, room, Owner, cookies, nickname, None).0.db, w.db)
  {
    var verdict := Rooms.VerifyOwnerToken(w.db, w.now, room, cookies);
    if room != "" && socket in w.conns && verdict.Verified? {
      OwnerJoinKeeps(w, socket, room, Rooms.OwnerRid(w, socket, verdict), nickname);
    }
  }

  /** Two handlers of one request have both been checked, and the lock is free. */
  ghost predicate BothChecked(k: Cast, p: Proto, requestId: string) {
    && Checked(p, "a", k.room, requestId) && Checked(p, "b", k.room, requestId)
    && OwnerInside(k, p.db) && p.now == 0 && p.log == map[]
  }

  lemma Race(k: Cast, requestId: string) returns (run: seq<Action>)
    requires k.Valid()
    ensures Legal(run) && BothChecked(k, After(run), requestId)
  {
    run := Opening(k);
    run := Approach(run, "a", k.room, requestId, k.rid);
    run := Approach(run, "b", k.room, requestId, k.rid);
  }

  /** A room with only its owner in it passes the gate. */
  lemma LoneOwnerPasses(k: Cast, db: Db)
    requires Members(db, 0, k.room) == {"o"} && Get(db.config, k.room, 0).Some?
    requires Info(db, 0, "o").Some? && Info(db, 0, "o").value.roomId == k.room && Info(db, 0, "o").value.role == Owner
    ensures Lists(["o"], Members(db, 0, k.room)) && GateOf(k.room, Reading(db, 0, k.room, ["o"])).Pass?
  {
    assert "o" in ["o"] && Registered(k.room, InfosOf(db, 0, ["o"]), "o");
  }

  /** What a resolved spin leaves as it was: everything the gate reads, and a free lock. */
  ghost predicate SameRoom(a: Db, b: Db) {
    a.members == b.members && a.ready == b.ready && a.config == b.config && a.sockets == b.sockets && a.owner == b.owner
  }

  lemma ResolvedSame(db: Db, now: int, room: string, requestId: string, h: string)
    ensures SameRoom(ReleaseSpinLock(Rooms.Resolve(db, now, room, requestId, h), now, room, h), db)
    ensures Rooms.Resolve(db, now, room, requestId, h).lock == db.lock
  {
    var resolved := Rooms.Resolve(db, now, room, requestId, h);
    assert SameRoom(resolved, db) && resolved.lock == db.lock;
    LockingSame(resolved, now, room, h);
  }

  lemma LockFreed(db: Db, now: int, room: string, h: string)
    requires Get(db.lock, room, now) == Some(h)
    ensures Get(ReleaseSpinLock(db, now, room, h).lock, room, now).None?
  {}

  lemma LockingSame(db: Db, now: int, room: string, h: string)
    ensures SameRoom(AcquireSpinLock(db, now, room, h, SPIN_LOCK_TTL), db)
    ensures SameRoom(ReleaseSpinLock(db, now, room, h), db)
  {}

  /** Nothing stands in the way of a spin of the room: the lock is free, and what is read of the room passes the
      gate. */
  ghost predicate Clear(p: Proto, room: string, list: seq<string>) {
    Get(p.db.lock, room, p.now).None? && GateOf(room, Reading(p.db, p.now, room, list)).Pass?
  }

  /** A checked handler that runs alone spins exactly when nothing stands in its way, and leaves the room and the
      lock to others as it found them. */
  lemma SpinsAlone(p: Proto, h: string, room: string, requestId: string, list: seq<string>) returns (q: Proto)
    requires Checked(p, h, room, requestId) && Lists(list, Members(p.db, p.now, room))
    ensures Fits(p, h, list) && q == Alone(p, h, list) && Ended(p, q, h) && SameRoom(q.db, p.db)
    ensures Committer(q, h) <==> Clear(p, room, list)
    ensures q.Log(room) == if Clear(p, room, list) then p.Log(room) + [LastSpin(h, p.now)] else p.Log(room)
    ensures Get(q.db.lock, room, q.now).None? <==> Get(p.db.lock, room, p.now).None?
  {
    q := Alone(p, h, list);
    FromReplayChecked(p, h, list);
    var locked := AcquireSpinLock(p.db, p.now, room, h, SPIN_LOCK_TTL);
    LockingSame(p.db, p.now, room, h);
    LockingSame(locked, p.now, room, h);
    if Get(p.db.lock, room, p.now).None? {
      ResolvedSame(locked, p.now, room, requestId, h);
      LockFreed(locked, p.now, room, h);
      LockFreed(Rooms.Resolve(locked, p.now, room, requestId, h), p.now, room, h);
    }
  }

  lemma StillChecked(p: Proto, q: Proto, h: string, k: string, room: string, requestId: string, list: seq<string>)
    requires h in p.handlers && Checked(p, k, room, requestId) && k != h && Lists(list, Members(p.db, p.now, room))
    requires Ended(p, q, h) && SameRoom(q.db, p.db)
    requires Get(q.db.lock, room, q.now).None? <==> Get(p.db.lock, room, p.now).None?
    ensures Checked(q, k, room, requestId) && Lists(list, Members(q.db, q.now, room))
    ensures Clear(q, room, list) <==> Clear(p, room, list)
  {
    assert Reading(q.db, q.now, room, list) == Reading(p.db, p.now, room, list);
  }

  /** Of two handlers of one request that have both been checked, run one after the other in the same instant, both
      commit and are announced exactly when nothing stands in the way of a spin: whatever room it is, whoever is in
      it, and in whichever order its members are listed. */
  lemma BothSpin(p: Proto, h: string, k: string, room: string, requestId: string, list: seq<string>)
    returns (q: Proto, r: Proto)
    requires Checked(p, h, room, requestId) && Checked(p, k, room, requestId) && h != k
    requires Lists(list, Members(p.db, p.now, room))
    ensures Fits(p, h, list) && q == Alone(p, h, list) && Fits(q, k, list) && r == Alone(q, k, list)
    ensures h in r.handlers && k in r.handlers && r.handlers[h].Key() == r.handlers[k].Key() == (room, requestId)
    ensures Committer(r, h) == Committer(r, k) == Clear(p, room, list)
    ensures r.Log(room) == if Clear(p, room, list) then p.Log(room) + [LastSpin(h, p.now)] + [LastSpin(k, p.now)]
                              else p.Log(room)
    ensures r.now == p.now && SameRoom(r.db, p.db)
  {
    q := SpinsAlone(p, h, room, requestId, list);
    StillChecked(p, q, h, k, room, requestId, list);
    r := SpinsAlone(q, k, room, requestId, list);
    Kept(p, q, r, h, k);
  }

  lemma Kept(p: Proto, q: Proto, r: Proto, h: string, k: string)
    requires h in p.handlers && k in p.handlers && Ended(p, q, h) && k in q.handlers && Ended(q, r, k) && h != k
    ensures h in r.handlers && r.handlers[h] == q.handlers[h] && r.handlers[h].Key() == p.handlers[h].Key()
    ensures k in r.handlers && r.handlers[k].Key() == p.handlers[k].Key() && r.now == p.now
  {}

  /** The rooms are as the room service's handlers have left them in one of their runs. */
  ghost predicate AsJoined(db: Db) {
    exists s: RoomRuns.State {:trigger RoomRuns.Reachable(s)} :: RoomRuns.Reachable(s) && SameRoom(db, s.w.db)
  }

  lemma StillJoined(k: Cast, before: Db, after: Db)
    requires OwnerInside(k, before) && SameRoom(after, before)
    ensures AsJoined(after)
  {}

  lemma ClearAtFirst(k: Cast, p: Proto, requestId: string)
    requires BothChecked(k, p, requestId)
    ensures Lists(["o"], Members(p.db, p.now, k.room)) && Clear(p, k.room, ["o"])
  {
    LoneOwnerPasses(k, p.db);
  }

  /** One request can spin twice, because the replay check comes before the lock: here in a room that the handlers
      of the room service have led to, with its owner in it. */
  lemma OneRequestSpinsTwice(k: Cast, requestId: string) returns (p: Proto)
    requires k.Valid()
    ensures Reachable(p) && Committer(p, "a") && Committer(p, "b")
    ensures p.handlers["a"].Key() == p.handlers["b"].Key() == (k.room, requestId)
    ensures p.Log(k.room) == [LastSpin("a", 0), LastSpin("b", 0)] && p.now == 0 && AsJoined(p.db)
  {
    var run := Race(k, requestId);
    var q;
    q, p := BothAtOnce(k, After(run), requestId);
    BothReachable(run, After(run), "a", q, "b", p, ["o"]);
  }

  lemma BothAtOnce(k: Cast, before: Proto, requestId: string) returns (q: Proto, r: Proto)
    requires BothChecked(k, before, requestId)
    ensures Fits(before, "a", ["o"]) && q == Alone(before, "a", ["o"])
    ensures Fits(q, "b", ["o"]) && r == Alone(q, "b", ["o"])
    ensures Committer(r, "a") && Committer(r, "b")
    ensures r.handlers["a"].Key() == r.handlers["b"].Key() == (k.room, requestId)
    ensures r.Log(k.room) == [LastSpin("a", 0), LastSpin("b", 0)] && r.now == 0 && AsJoined(r.db)
  {
    ClearAtFirst(k, before, requestId);
    q, r := BothSpin(before, "a", "b", k.room, requestId, ["o"]);
    StillJoined(k, before.db, r.db);
  }

  lemma BothReachable(run: seq<Action>, p: Proto, h: string, q: Proto, k: string, r: Proto, list: seq<string>)
    requires Legal(run) && p == After(run) && Fits(p, h, list) && q == Alone(p, h, list)
    requires Fits(q, k, list) && r == Alone(q, k, list)
    ensures Reachable(r)
  {
    var longer := AloneIsRun(run, h, list);
    longer := AloneIsRun(longer, k, list);
  }

  lemma Taken(p: Proto, h: string)
    requires At(p, h, ReplayChecked) && Counted(p.handlers[h]) && Get(p.db.lock, p.handlers[h].room, p.now).None?
    ensures var q := Next(p, Acquire(h));
            && q.InTime(h) && q.now == p.now && q.handlers[h].room == p.handlers[h].room
            && (forall k :: k in p.handlers && k != h ==> k in q.handlers && q.handlers[k] == p.handlers[k])
  {}

  /** Deleting a room frees its lock: a second handler then gets into the critical section at once. */
  lemma DeletionBreaksExclusion(k: Cast, requestId: string) returns (p: Proto)
    requires k.Valid()
    ensures Reachable(p) && p.InTime("a") && p.InTime("b") && p.handlers["a"].room == p.handlers["b"].room
  {
    var run := Race(k, requestId);
    Taken(After(run), "a");
    run := Extended(run, Acquire("a"));
    run := Freed(run, k.room);
    Taken(After(run), "b");
    run := Extended(run, Acquire("b"));
    p := After(run);
  }

  lemma Freed(run: seq<Action>, room: string) returns (longer: seq<Action>)
    requires Legal(run)
    ensures Legal(longer) && After(longer).handlers == After(run).handlers && After(longer).now == After(run).now
    ensures Get(After(longer).db.lock, room, After(longer).now).None?
  {
    longer := Extended(run, Delete(room));
  }
}
