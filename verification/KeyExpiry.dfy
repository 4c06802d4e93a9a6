/** The expiry of one room's keys, command by command: any interleaving of every command the server can send
    about the room, with the clock moving in between. */
module KeyExpiry {
  import opened Options
  import opened RedisTables
  import opened Store

  /** `created` counts the commands of createRoom that have run (token, title, nickname, config, owner, last
      activity); `cleared` tells whether an owner exit has removed the owner rid since it was last set. */
  datatype Keys = Keys(db: Db, now: int, created: nat, cleared: bool)

  datatype Command =
    | CreateToken(token: string) | CreateTitle(title: string) | CreateNickname(nickname: string)
    | CreateConfig(config: RoomConfig) | CreateOwner(rid: string) | CreateActivity
    | WriteConfig(config: RoomConfig) | WriteOwner(rid: string) | ClearOwner | Extend | Delete
    | Tick(until: int)
    | Elsewhere(db: Db)

  /** createRoom issues its six commands once and in order; only a join that has read the room's token writes an
      owner outside it; the clock does not go back; any other command leaves the token, title, config and owner of
      this room alone. */
  ghost predicate Enabled(room: string, k: Keys, c: Command) {
    match c
    case CreateToken(_) => k.created == 0
    case CreateTitle(_) => k.created == 1
    case CreateNickname(_) => k.created == 2
    case CreateConfig(_) => k.created == 3
    case CreateOwner(_) => k.created == 4
    case CreateActivity => k.created == 5
    case WriteOwner(_) => k.created >= 1
    case Tick(until) => k.now <= until
    case Elsewhere(db) =>
      && SameCell(db.token, k.db.token, room) && SameCell(db.title, k.db.title, room)
      && SameCell(db.config, k.db.config, room) && SameCell(db.owner, k.db.owner, room)
    case _ => true
  }

  ghost predicate SameCell<V>(a: Table<string, V>, b: Table<string, V>, room: string) {
    (room in a <==> room in b) && (room in a ==> a[room] == b[room])
  }

  ghost function Next(room: string, k: Keys, c: Command): Keys {
    match c
    case CreateToken(token) => k.(db := SetRoomOwnerToken(k.db, k.now, room, token), created := 1)
    case CreateTitle(title) => k.(db := SetRoomTitle(k.db, k.now, room, title), created := 2)
    case CreateNickname(nickname) => k.(db := SetInitialOwnerNickname(k.db, k.now, room, nickname), created := 3)
    case CreateConfig(config) => k.(db := SetRoomConfig(k.db, k.now, room, config), created := 4)
    case CreateOwner(rid) => k.(db := SetRoomOwner(k.db, k.now, room, rid), created := 5, cleared := false)
    case CreateActivity => k.(db := SetRoomLastActivity(k.db, k.now, room), created := 6)
    case WriteConfig(config) => k.(db := SetRoomConfig(k.db, k.now, room, config))
    case WriteOwner(rid) => k.(db := SetRoomOwner(k.db, k.now, room, rid), cleared := false)
    case ClearOwner => k.(db := ClearRoomOwner(k.db, room), cleared := true)
    case Extend => k.(db := ExtendRoomTTL(k.db, k.now, room))
    case Delete => k.(db := DeleteRoom(k.db, room))
    case Tick(until) => k.(now := until)
    case Elsewhere(db) => k.(db := db)
  }

  const START := Keys(EMPTY, 0, 0, false)

  ghost predicate Legal(room: string, run: seq<Command>)
    decreases |run|, 0
  {
    run == [] ||
    (Legal(room, run[..|run| - 1]) && Enabled(room, After(room, run[..|run| - 1]), run[|run| - 1]))
  }

  ghost function After(room: string, run: seq<Command>): Keys
    requires Legal(room, run)
    decreases |run|, 1
  {
    if run == [] then START else Next(room, After(room, run[..|run| - 1]), run[|run| - 1])
  }

  /** The key is there and does not expire before the instant given. */
  predicate Outlives<V>(t: Table<string, V>, room: string, until: int) {
    room in t && t[room].expires.Some? && until <= t[room].expires.value
  }

  /** The token lasts at most 2 hours, and there is none before the creation. */
  ghost predicate TokenOrdered(room: string, k: Keys) {
    && (k.created == 0 ==> room !in k.db.token && room !in k.db.owner)
    && (room in k.db.token ==>
          k.db.token[room].expires.Some? && k.db.token[room].expires.value <= k.now + 7_200_000)
  }

  /** While the token lives, the title written before it was complete does not expire before it. */
  ghost predicate TitleOrdered(room: string, k: Keys) {
    Get(k.db.token, room, k.now).Some? && k.db.token[room].expires.Some? && k.created >= 2 ==>
      Outlives(k.db.title, room, k.db.token[room].expires.value)
  }

  ghost predicate ConfigOrdered(room: string, k: Keys) {
    Get(k.db.token, room, k.now).Some? && k.db.token[room].expires.Some? && k.created >= 4 ==>
      Outlives(k.db.config, room, k.db.token[room].expires.value)
  }

  /** Nor does the owner rid, which is there unless an owner exit has cleared it. */
  ghost predicate OwnerOrdered(room: string, k: Keys) {
    Get(k.db.token, room, k.now).Some? && k.db.token[room].expires.Some? ==>
      && (room in k.db.owner ==> Outlives(k.db.owner, room, k.db.token[room].expires.value))
      && (k.created >= 5 && !k.cleared ==> room in k.db.owner)
  }

  ghost predicate Ordered(room: string, k: Keys) {
    TokenOrdered(room, k) && TitleOrdered(room, k) && ConfigOrdered(room, k) && OwnerOrdered(room, k)
  }

  lemma TokenStep(room: string, k: Keys, c: Command)
    requires Enabled(room, k, c) && TokenOrdered(room, k)
    ensures TokenOrdered(room, Next(room, k, c))
  {}

  lemma TitleStep(room: string, k: Keys, c: Command)
    requires Enabled(room, k, c) && TokenOrdered(room, k) && TitleOrdered(room, k)
    ensures TitleOrdered(room, Next(room, k, c))
  {}

  lemma ConfigStep(room: string, k: Keys, c: Command)
    requires Enabled(room, k, c) && TokenOrdered(room, k) && ConfigOrdered(room, k)
    ensures ConfigOrdered(room, Next(room, k, c))
  {}

  lemma OwnerStep(room: string, k: Keys, c: Command)
    requires Enabled(room, k, c) && TokenOrdered(room, k) && OwnerOrdered(room, k)
    ensures OwnerOrdered(room, Next(room, k, c))
  {}

  lemma OrderedStep(room: string, k: Keys, c: Command)
    requires Enabled(room, k, c) && Ordered(room, k)
    ensures Ordered(room, Next(room, k, c))
  {
    TokenStep(room, k, c);
    TitleStep(room, k, c);
    ConfigStep(room, k, c);
    OwnerStep(room, k, c);
  }

  lemma {:induction false} OrderedHolds(room: string, run: seq<Command>)
    requires Legal(room, run)
    ensures Ordered(room, After(room, run))
  {
    if run != [] {
      OrderedHolds(room, run[..|run| - 1]);
      OrderedStep(room, After(room, run[..|run| - 1]), run[|run| - 1]);
    }
  }

  ghost predicate Reachable(room: string, k: Keys) {
    exists run :: Legal(room, run) && After(room, run) == k
  }

  /** For a room whose creation is complete, a live owner token implies a live config and title, and a live
      owner rid unless an owner exit cleared it. */
  lemma TokenOutlivedByIdentity(room: string, k: Keys)
    requires Reachable(room, k) && k.created == 6 && Get(k.db.token, room, k.now).Some?
    ensures Get(k.db.config, room, k.now).Some? && Get(k.db.title, room, k.now).Some?
    ensures !k.cleared ==> OwnerOf(k.db, k.now, room).Some?
  {
    var run :| Legal(room, run) && After(room, run) == k;
    OrderedHolds(room, run);
  }
}
