/** The room's owner over whole runs, whatever expires: who may carry the owner's rid, and how many owners are
    registered. */
module OwnerRuns {
  import opened Options
  import opened RedisTables
  import opened Store
  import opened Rooms
  import opened RoomEffects
  import opened RoomRuns

  /** The socket is registered, in some room. */
  predicate In(c: Core, now: int, x: string) {
    x in c.sockets && Live(c.sockets[x], now)
  }

  predicate OwnerIn(c: Core, now: int, x: string, room: string) {
    In(c, now, x) && c.sockets[x].value.role.Owner? && c.sockets[x].value.roomId == room
  }

  /** A room has at most one registered owner. */
  ghost predicate Unique(c: Core, now: int) {
    forall x, y, r :: OwnerIn(c, now, x, r) && OwnerIn(c, now, y, r) ==> x == y
  }

  /** While the token of its room lives, a registered owner carries the stored owner rid and is a member. */
  ghost predicate Known(c: Core, now: int) {
    forall x, r :: OwnerIn(c, now, x, r) && Get(c.token, r, now).Some? ==>
                     Get(c.owner, r, now) == Some(c.sockets[x].value.rid) && x in Elements(c.members, r, now)
  }

  /** Nobody carries a stored owner rid except registered owners of the room. */
  ghost predicate Own(c: Core, now: int) {
    forall x, r :: In(c, now, x) && Get(c.owner, r, now) == Some(c.sockets[x].value.rid) ==> OwnerIn(c, now, x, r)
  }

  /** Different rooms have different owner rids. */
  ghost predicate DistinctRids(c: Core, now: int) {
    forall r, q :: Get(c.owner, r, now).Some? && Get(c.owner, r, now) == Get(c.owner, q, now) ==> r == q
  }

  /** While the token of the room lives, neither the owner rid nor the member set expires before it. */
  ghost predicate Ordered(c: Core, now: int, r: string) {
    Get(c.token, r, now).Some? ==>
      && c.token[r].expires.Some? && c.token[r].expires.value <= now + SOCKET_DATA_TTL
      && (r in c.owner ==> c.owner[r].expires.Some? && c.token[r].expires.value <= c.owner[r].expires.value)
      && (r in c.members && c.members[r].expires.Some? ==> c.token[r].expires.value <= c.members[r].expires.value)
  }

  /** What the server keeps on a socket agrees with the socket's stored info. */
  ghost predicate ConnsAgree(c: Core, now: int, conns: map<string, Conn>) {
    forall x :: In(c, now, x) ==>
                  x in conns && conns[x].role == Some(c.sockets[x].value.role) && conns[x].rid == c.sockets[x].value.rid
  }

  ghost predicate Ownership(c: Core, now: int) {
    Unique(c, now) && Known(c, now) && Own(c, now) && DistinctRids(c, now) && forall r :: Ordered(c, now, r)
  }

  /** A rid that is nobody's: no room's owner rid, and not that of any registered socket outside `except`. */
  ghost predicate Unclaimed(c: Core, now: int, rid: string, except: set<string>) {
    && (forall r :: Get(c.owner, r, now) != Some(rid))
    && (forall x :: In(c, now, x) && x !in except ==> c.sockets[x].value.rid != rid)
  }

  /** What is assumed of clients and of random draws: a new room's rid is nobody's, a participant does not join
      with a stored owner rid, and an owner that rejoins a room whose owner rid was cleared does not bring a rid
      that is somebody else's. */
  ghost predicate Orderly(c: Core, now: int, e: Effect) {
    match e
    case Create(room, _, rid, _, _, _) =>
      && Unclaimed(c, now, rid, {}) && Gone(c, room) && room !in c.members
      && (forall x :: In(c, now, x) ==> c.sockets[x].value.roomId != room)
    case Enter(room, socket, info, _, _) =>
      if info.role.Participant? then forall r :: Get(c.owner, r, now) != Some(info.rid)
      else Get(c.owner, room, now).None? ==> Unclaimed(c, now, info.rid, {socket})
    case _ => true
  }

  // ----- after an effect -----

  /** The search for the owner's connection finds the registered owner, so once that one is evicted the room has
      none. */
  lemma EvictionLeavesNoOwner(c: Core, now: int, conns: map<string, Conn>, e: Effect, x: string)
    requires Ownership(c, now) && Justified(c, now, conns, e) && e.Enter? && e.info.role.Owner?
    requires OwnerIn(c, now, x, e.room)
    ensures e.evicted == Some(x)
  {
    assert Carries(c, now, e.room, x);
    var found := e.evicted.value;
    assert Carries(c, now, e.room, found) && In(c, now, found);
    assert OwnerIn(c, now, found, e.room);
  }

  /** Who is registered as an owner after an effect was so before, or has just joined as one. */
  lemma OwnersApply(c: Core, now: int, e: Effect, x: string, r: string)
    requires OwnerIn(Apply(c, now, e), now, x, r) && !e.Rename?
    ensures if e.Enter? && e.socket == x then r == e.info.roomId && e.info.role.Owner? &&
        Apply(c, now, e).sockets[x].value == e.info
            else OwnerIn(c, now, x, r) && Apply(c, now, e).sockets[x].value == c.sockets[x].value
    ensures e.Enter? && e.socket != x ==> e.evicted != Some(x)
    ensures (e.Depart? || e.OwnerDepart?) ==> e.socket != x
  {}

  lemma RenameApply(c: Core, now: int, conns: map<string, Conn>, e: Effect)
    requires Ownership(c, now) && ConnsAgree(c, now, conns) && Justified(c, now, conns, e) && e.Rename?
    ensures Ownership(Apply(c, now, e), now) && ConnsAgree(Apply(c, now, e), now, conns)
  {
    var d := Apply(c, now, e);
    assert forall x :: In(d, now, x) <==> In(c, now, x);
    assert forall x, r :: OwnerIn(d, now, x, r) <==> OwnerIn(c, now, x, r);
    assert forall r :: Ordered(c, now, r) ==> Ordered(d, now, r);
  }

  lemma UniqueApply(c: Core, now: int, conns: map<string, Conn>, e: Effect)
    requires Ownership(c, now) && Justified(c, now, conns, e) && !e.Rename?
    ensures Unique(Apply(c, now, e), now)
  {
    var d := Apply(c, now, e);
    forall x, y, r | OwnerIn(d, now, x, r) && OwnerIn(d, now, y, r) ensures x == y {
      OwnersApply(c, now, e, x, r);
      OwnersApply(c, now, e, y, r);
      if e.Enter? && e.socket == x && y != x {
        EvictionLeavesNoOwner(c, now, conns, e, y);
      }
      if e.Enter? && e.socket == y && y != x {
        EvictionLeavesNoOwner(c, now, conns, e, x);
      }
    }
  }

  /** What each effect leaves of a room's stored owner rid. */
  lemma OwnerRidApply(c: Core, now: int, e: Effect, r: string)
    ensures Get(OwnerAfter(c, now, e), r, now) ==
            (match e
             case Create(room, _, rid, _, _, _) =>
               if r == room && Get(c.owner, r, now).None? then Some(rid) else Get(c.owner, r, now)
             case Enter(room, _, info, _, _) =>
               if r == room && info.role.Owner? && Get(c.owner, r, now).None? then Some(info.rid)
                   else Get(c.owner, r, now)
             case OwnerDepart(room, _, leaving) => if r == room && leaving then None else Get(c.owner, r, now)
             case Erase(room, _) => if r == room then None else Get(c.owner, r, now)
             case _ => Get(c.owner, r, now))
  {}

  lemma DistinctRidsApply(c: Core, now: int, e: Effect)
    requires DistinctRids(c, now) && Orderly(c, now, e)
    ensures DistinctRids(Apply(c, now, e), now)
  {
    forall r, q | Get(OwnerAfter(c, now, e), r, now).Some? &&
        Get(OwnerAfter(c, now, e), r, now) == Get(OwnerAfter(c, now, e), q, now)
      ensures r == q
    {
      OwnerRidApply(c, now, e, r);
      OwnerRidApply(c, now, e, q);
    }
  }

  /** Who is registered after an effect. */
  lemma InApply(c: Core, now: int, e: Effect, x: string)
    requires In(Apply(c, now, e), now, x) && !e.Rename?
    ensures if e.Enter? && e.socket == x then Apply(c, now, e).sockets[x].value == e.info
            else In(c, now, x) && Apply(c, now, e).sockets[x].value == c.sockets[x].value
  {}

  lemma OwnApply(c: Core, now: int, conns: map<string, Conn>, e: Effect)
    requires Own(c, now) && DistinctRids(c, now) && Orderly(c, now, e) && Justified(c, now, conns, e) && !e.Rename?
    ensures Own(Apply(c, now, e), now)
  {
    var d := Apply(c, now, e);
    forall x, r | In(d, now, x) && Get(d.owner, r, now) == Some(d.sockets[x].value.rid) ensures OwnerIn(d, now, x, r) {
      InApply(c, now, e, x);
      OwnerRidApply(c, now, e, r);
      assert In(c, now, x) && Get(c.owner, r, now) == Some(c.sockets[x].value.rid) ==> OwnerIn(c, now, x, r);
    }
  }

  lemma OrderedApply(c: Core, now: int, e: Effect, r: string)
    requires Ordered(c, now, r) && Orderly(c, now, e)
    ensures Ordered(Apply(c, now, e), now, r)
  {}

  lemma KnownApply(c: Core, now: int, conns: map<string, Conn>, e: Effect)
    requires Ownership(c, now) && Justified(c, now, conns, e) && Orderly(c, now, e) && !e.Rename?
    requires ConnsAgree(c, now, conns)
    ensures Known(Apply(c, now, e), now)
  {
    var d := Apply(c, now, e);
    forall x, r | OwnerIn(d, now, x, r) && Get(d.token, r, now).Some?
      ensures Get(d.owner, r, now) == Some(d.sockets[x].value.rid) && x in Elements(d.members, r, now)
    {
      OwnersApply(c, now, e, x, r);
      OwnerRidApply(c, now, e, r);
      ElementsApply(c, now, e, r);
      TokenBefore(c, now, e, r);
      if e.OwnerDepart? && e.room == r {
        OnlyOwnerDeparts(c, now, conns, e, x);
        assert false;
      }
    }
  }

  /** The one who departs as the owner of a room is its registered owner. */
  lemma OnlyOwnerDeparts(c: Core, now: int, conns: map<string, Conn>, e: Effect, x: string)
    requires Unique(c, now) && ConnsAgree(c, now, conns) && Justified(c, now, conns, e)
    requires e.OwnerDepart? && OwnerIn(c, now, x, e.room)
    ensures e.socket == x
  {
    assert OwnerIn(c, now, e.socket, e.room);
  }

  /** A live token was live before, unless the room has just been created. */
  lemma TokenBefore(c: Core, now: int, e: Effect, r: string)
    requires Get(TokenAfter(c, now, e), r, now).Some? && !(e.Create? && e.room == r)
    ensures Get(c.token, r, now).Some? && !(e.Erase? && e.room == r)
  {}

  lemma ConnsApply(c: Core, now: int, conns: map<string, Conn>, a: Action, e: Effect)
    requires ConnsAgree(c, now, conns) && Justified(c, now, conns, e) && !e.Rename?
    requires a.DoConnect? ==> a.socket !in conns && e == Nothing
    ensures ConnsAgree(Apply(c, now, e), now, ConnsAfter(conns, a, e))
  {
    var d := Apply(c, now, e);
    forall x | In(d, now, x)
      ensures var after := ConnsAfter(conns, a, e);
              x in after && after[x].role == Some(d.sockets[x].value.role) && after[x].rid == d.sockets[x].value.rid
    {
      InApply(c, now, e, x);
    }
  }

  lemma OwnershipTick(c: Core, now: int, until: int)
    requires Ownership(c, now) && now <= until
    ensures Ownership(c, until)
  {
    assert forall x :: In(c, until, x) ==> In(c, now, x);
    assert forall x, r :: OwnerIn(c, until, x, r) ==> OwnerIn(c, now, x, r);
    assert forall r :: Get(c.owner, r, until).Some? ==> Get(c.owner, r, until) == Get(c.owner, r, now);
    forall x, r | OwnerIn(c, until, x, r) && Get(c.token, r, until).Some?
      ensures Get(c.owner, r, until) == Some(c.sockets[x].value.rid) && x in Elements(c.members, r, until)
    {
      assert OwnerIn(c, now, x, r) && Ordered(c, now, r);
    }
    forall r ensures Ordered(c, until, r) {
      assert Ordered(c, now, r);
    }
  }

  lemma OwnershipApply(c: Core, now: int, conns: map<string, Conn>, e: Effect)
    requires Ownership(c, now) && ConnsAgree(c, now, conns) && Justified(c, now, conns, e) && Orderly(c, now, e)
    ensures Ownership(Apply(c, now, e), now)
  {
    if e.Rename? {
      RenameApply(c, now, conns, e);
    } else {
      UniqueApply(c, now, conns, e);
      KnownApply(c, now, conns, e);
      OwnApply(c, now, conns, e);
      DistinctRidsApply(c, now, e);
      forall r ensures Ordered(Apply(c, now, e), now, r) {
        OrderedApply(c, now, e, r);
      }
    }
  }

  // ----- whole runs -----

  /** Everything assumed of a step: that it is orderly, given that fresh room ids are not in use. */
  ghost predicate OrderlyStep(s: State, a: Action) {
    && Enabled(s, a)
    && match EffectOf(s, a)
       case Create(room, _, rid, _, _, _) => Unclaimed(CoreAt(s), s.w.now, rid, {})
       case e => Orderly(CoreAt(s), s.w.now, e)
  }

  ghost predicate OrderlyRun(run: seq<Action>) {
    run == [] || (OrderlyRun(run[..|run| - 1]) && OrderlyStep(After(run[..|run| - 1]), run[|run| - 1]))
  }

  lemma {:induction false} OrderlyIsLegal(run: seq<Action>)
    requires OrderlyRun(run)
    ensures Legal(run)
  {
    if run != [] {
      OrderlyIsLegal(run[..|run| - 1]);
    }
  }

  lemma OwnershipStep(s: State, a: Action)
    requires OrderlyStep(s, a) && Unused(s)
    requires Ownership(CoreAt(s), s.w.now) && ConnsAgree(CoreAt(s), s.w.now, s.w.conns)
    ensures var t := Next(s, a); Ownership(CoreAt(t), t.w.now) && ConnsAgree(CoreAt(t), t.w.now, t.w.conns)
  {
    StepHas(s, a);
    if a.DoTick? {
      OwnershipTick(CoreAt(s), s.w.now, a.until);
    } else {
      var e := EffectOf(s, a);
      OwnershipApply(CoreAt(s), s.w.now, s.w.conns, e);
      if e.Rename? {
        RenameApply(CoreAt(s), s.w.now, s.w.conns, e);
      } else {
        ConnsApply(CoreAt(s), s.w.now, s.w.conns, a, e);
      }
    }
  }

  lemma {:induction false} OwnerSafety(run: seq<Action>)
    requires OrderlyRun(run)
    ensures var s := After(run); Ownership(CoreAt(s), s.w.now) && ConnsAgree(CoreAt(s), s.w.now, s.w.conns)
  {
    if run != [] {
      OwnerSafety(run[..|run| - 1]);
      OrderlyIsLegal(run[..|run| - 1]);
      UnusedHolds(run[..|run| - 1]);
      OwnershipStep(After(run[..|run| - 1]), run[|run| - 1]);
    }
  }

  ghost predicate OrderlyReachable(s: State) {
    exists run :: OrderlyRun(run) && After(run) == s
  }

  /** In every orderly run, whatever expires, a room has at most one registered owner, through replacement, exit
      and rejoin; and as long as somebody could join as its owner at all, that owner carries the room's stored
      owner rid and is one of the room's members. */
  lemma OneOwner(s: State, x: string, y: string, room: string)
    requires OrderlyReachable(s) && OwnerIn(CoreAt(s), s.w.now, x, room) && OwnerIn(CoreAt(s), s.w.now, y, room)
    ensures x == y
    ensures Get(s.w.db.token, room, s.w.now).Some? ==>
              OwnerOf(s.w.db, s.w.now, room) == Some(s.w.db.sockets[x].value.rid) && x in Members(s.w.db, s.w.now, room)
  {
    var run :| OrderlyRun(run) && After(run) == s;
    OwnerSafety(run);
  }
}
