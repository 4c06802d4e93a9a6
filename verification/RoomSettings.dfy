/** What a room is created with, over whole runs: its title, its config and the nickname that greets its owner, who may
    change them, how long they last, and what the creator's list of rooms shows. */
module RoomSettings {
  import opened Options
  import opened RedisTables
  import opened Store
  import opened Rooms
  import opened RoomEffects
  import opened RoomRuns
  import opened OwnerEntry
  import L = RoomListing

  // ----- who changes a config -----

  /** A connection that carries the room's stored owner rid asks for a config with a winner. */
  ghost predicate OwnerSets(s: State, a: Action, room: string) {
    && a.DoSetConfig? && a.room == room && a.winnersCount >= 1
    && a.socket in s.w.conns && Get(s.w.db.owner, room, s.w.now) == Some(s.w.conns[a.socket].rid)
  }

  /** Such a connection deletes the room. */
  ghost predicate OwnerDeletes(s: State, a: Action, room: string) {
    && a.DoDelete? && a.room == room
    && a.socket in s.w.conns && Get(s.w.db.owner, room, s.w.now) == Some(s.w.conns[a.socket].rid)
  }

  /** What each effect leaves of a room's config. */
  lemma ConfigApply(c: Core, now: int, e: Effect, room: string)
    ensures Get(ConfigAfter(c, now, e), room, now) ==
            (match e
             case Create(r, _, _, config, _, _) => if r == room then Some(config) else Get(c.config, room, now)
             case Enter(r, _, _, _, _) =>
               if r == room && Get(c.config, room, now).None? then Some(RoomConfig(1, Positive, now))
               else Get(c.config, room, now)
             case Configure(r, _, config) => if r == room then Some(config) else Get(c.config, room, now)
             case Erase(r, _) => if r == room then None else Get(c.config, room, now)
             case _ => Get(c.config, room, now))
  {}

  ghost function ConfigAt(s: State, room: string): Option<RoomConfig> {
    Get(s.w.db.config, room, s.w.now)
  }

  /** A room's config is set by its creation and by its owner, removed by its owner or by time, and replaced by the
      default when somebody joins without finding one. No other step changes it. */
  lemma ConfigChanges(s: State, a: Action, room: string)
    requires Enabled(s, a)
    ensures var t, reply := Next(s, a), Step(s, a).1;
            if a.DoCreate? && a.room == room then
              ConfigAt(t, room) == Some(RoomConfig(a.winnersCount, a.sentiment, s.w.now))
            else if OwnerSets(s, a, room) then
              reply.Accepted? && ConfigAt(t, room) == Some(RoomConfig(a.winnersCount, a.sentiment, s.w.now))
            else if OwnerDeletes(s, a, room) then reply.Accepted? && ConfigAt(t, room) == None
            else if a.DoTick? then ConfigAt(t, room) in {None, ConfigAt(s, room)}
            else if a.DoJoin? && a.room == room && reply.Joined? && ConfigAt(s, room).None? then
              ConfigAt(t, room) == Some(RoomConfig(1, Positive, s.w.now))
            else ConfigAt(t, room) == ConfigAt(s, room)
  {
    StepHas(s, a);
    var c, e := CoreAt(s), EffectOf(s, a);
    assert ConfigAt(Next(s, a), room) == Get(ConfigAfter(c, s.w.now, e), room, Next(s, a).w.now);
    ConfigApply(c, s.w.now, e, room);
  }

  // ----- what a creation leaves -----

  /** Somebody has just created a room. */
  ghost predicate Creates(s: State, a: Action, created: State) {
    Reachable(s) && a.DoCreate? && Enabled(s, a) && created == Next(s, a)
  }

  /** The room's title is this one and lasts exactly as long as its token. */
  predicate Titled(c: Core, room: string, title: string) {
    if room in c.token then room in c.title && c.title[room] == Cell(title, c.token[room].expires) else room !in c.title
  }

  lemma TitledApply(c: Core, now: int, e: Effect, room: string, title: string)
    requires Titled(c, room, title) && !(e.Create? && e.room == room)
    ensures Titled(Apply(c, now, e), room, title)
  {}

  /** While the room's token lives, its config is this one and does not expire before it. */
  predicate Configured(c: Core, now: int, room: string, config: RoomConfig) {
    Get(c.token, room, now).Some? ==>
      && c.token[room].expires.Some? && c.token[room].expires.value <= now + SOCKET_DATA_TTL
      && room in c.config && c.config[room].value == config
      && c.config[room].expires.Some? && c.token[room].expires.value <= c.config[room].expires.value
  }

  lemma ConfiguredApply(c: Core, now: int, e: Effect, room: string, config: RoomConfig)
    requires Configured(c, now, room, config) && !(e.Create? && e.room == room)
    ensures Configured(Apply(c, now, e), now, room, if e.Configure? && e.room == room then e.config else config)
  {}

  lemma ConfiguredTick(c: Core, now: int, until: int, room: string, config: RoomConfig)
    requires Configured(c, now, room, config) && now <= until
    ensures Configured(c, until, room, config)
  {}

  /** The config after the owner's changes. */
  ghost function ConfigSet(s: State, a: Action, room: string, config: RoomConfig): RoomConfig {
    if OwnerSets(s, a, room) then RoomConfig(a.winnersCount, a.sentiment, s.w.now) else config
  }

  ghost function LastConfig(s: State, later: seq<Action>, room: string, config: RoomConfig): RoomConfig
    decreases |later|
  {
    if later == [] then config
    else LastConfig(Next(s, later[0]), later[1..], room, ConfigSet(s, later[0], room, config))
  }

  lemma ConfiguredStep(s: State, a: Action, room: string, config: RoomConfig)
    requires Enabled(s, a) && room in s.created && Configured(CoreAt(s), s.w.now, room, config)
    ensures Configured(CoreAt(Next(s, a)), Next(s, a).w.now, room, ConfigSet(s, a, room, config))
  {
    StepHas(s, a);
    if a.DoTick? {
      ConfiguredTick(CoreAt(s), s.w.now, a.until, room, config);
    } else {
      ConfiguredApply(CoreAt(s), s.w.now, EffectOf(s, a), room, config);
    }
  }

  lemma {:induction false} ConfiguredThen(s: State, later: seq<Action>, room: string, config: RoomConfig)
    requires Continues(s, later) && room in s.created && Configured(CoreAt(s), s.w.now, room, config)
    ensures var t := Then(s, later); Configured(CoreAt(t), t.w.now, room, LastConfig(s, later, room, config))
    decreases |later|
  {
    if later != [] {
      ConfiguredStep(s, later[0], room, config);
      StepHas(s, later[0]);
      ConfiguredThen(Next(s, later[0]), later[1..], room, ConfigSet(s, later[0], room, config));
    }
  }

  lemma {:induction false} TitledThen(s: State, later: seq<Action>, room: string, title: string)
    requires Continues(s, later) && room in s.created && Titled(CoreAt(s), room, title)
    ensures Titled(CoreAt(Then(s, later)), room, title)
    decreases |later|
  {
    if later != [] {
      StepHas(s, later[0]);
      TitledApply(CoreAt(s), s.w.now, EffectOf(s, later[0]), room, title);
      TitledThen(Next(s, later[0]), later[1..], room, title);
    }
  }

  function TitleGiven(a: Action): string
    requires a.DoCreate?
  {
    if a.title == "" then "룰렛 방" else a.title
  }

  function NicknameGiven(a: Action): string
    requires a.DoCreate?
  {
    if a.nickname == "" then "생성자" else a.nickname
  }

  lemma Creation(s: State, a: Action, created: State)
    requires Creates(s, a, created)
    ensures var c := CoreAt(created);
            && a.room in created.created && created.w.now == s.w.now
            && a.room in c.token && c.token[a.room] == Cell(a.token, Some(s.w.now + 7_200_000))
            && a.room in c.config
            && c.config[a.room] == Cell(RoomConfig(a.winnersCount, a.sentiment, s.w.now), Some(s.w.now + 7_200_000))
            && a.room in c.title && c.title[a.room] == Cell(TitleGiven(a), Some(s.w.now + 7_200_000))
            && a.room in c.initialNickname
            && c.initialNickname[a.room] == Cell(NicknameGiven(a), Some(s.w.now + 7_200_000))
  {
    StepHas(s, a);
  }

  /** Whatever happens after a room's creation, its token and the title given to it, or the default, last until the
      token ends and no longer; and until then its config is the one it was created with or the last one that its
      owner has set. */
  lemma CreationLasts(s: State, a: Action, created: State, later: seq<Action>)
    requires Creates(s, a, created) && Continues(created, later)
    ensures var t := Then(created, later);
            var alive := t.w.now < TokenEnd(created, later, a.room, s.w.now + 7_200_000);
            && Get(t.w.db.token, a.room, t.w.now) == (if alive then Some(a.token) else None)
            && Get(t.w.db.title, a.room, t.w.now) == (if alive then Some(TitleGiven(a)) else None)
            && (alive ==>
                  ConfigAt(t, a.room) ==
                  Some(LastConfig(created, later, a.room, RoomConfig(a.winnersCount, a.sentiment, s.w.now))))
  {
    Creation(s, a, created);
    EndsThen(created, later, a.room, a.token, s.w.now + 7_200_000);
    TitledThen(created, later, a.room, TitleGiven(a));
    ConfiguredThen(created, later, a.room, RoomConfig(a.winnersCount, a.sentiment, s.w.now));
  }

  // ----- the owner's first nickname -----

  /** An owner joins the room without a nickname. */
  ghost predicate OwnerUnnamed(s: State, a: Action, room: string) {
    && a.DoJoin? && a.role.Owner? && a.nickname == "" && a.room == room && Enabled(s, a)
    && Step(s, a).1.Joined?
  }

  ghost predicate NobodyUnnamed(s: State, later: seq<Action>, room: string)
    decreases |later|
  {
    later == [] || (!OwnerUnnamed(s, later[0], room) && NobodyUnnamed(Next(s, later[0]), later[1..], room))
  }

  /** The room's initial nickname is this one and lasts exactly as long as its token. */
  predicate Welcoming(c: Core, room: string, nickname: string) {
    if room in c.token then
      room in c.initialNickname && c.initialNickname[room] == Cell(nickname, c.token[room].expires)
    else room !in c.initialNickname
  }

  lemma WelcomingApply(c: Core, now: int, e: Effect, room: string, nickname: string)
    requires Welcoming(c, room, nickname) && !(e.Create? && e.room == room)
    requires !(e.Enter? && e.room == room && e.info.role.Owner? && e.unnamed)
    ensures Welcoming(Apply(c, now, e), room, nickname)
  {}

  lemma {:induction false} WelcomingThen(s: State, later: seq<Action>, room: string, nickname: string)
    requires Continues(s, later) && NobodyUnnamed(s, later, room) && room in s.created
    requires Welcoming(CoreAt(s), room, nickname)
    ensures Welcoming(CoreAt(Then(s, later)), room, nickname)
    ensures room in Then(s, later).created
    decreases |later|
  {
    if later != [] {
      StepHas(s, later[0]);
      WelcomingApply(CoreAt(s), s.w.now, EffectOf(s, later[0]), room, nickname);
      WelcomingThen(Next(s, later[0]), later[1..], room, nickname);
    }
  }

  lemma Greeted(t: State, join: Action, room: string, nickname: string)
    requires Welcoming(CoreAt(t), room, nickname) && nickname != "" && OwnerUnnamed(t, join, room)
    ensures Step(t, join).1.nickname == nickname && room !in Next(t, join).w.db.initialNickname
    ensures Next(t, join).created == t.created
  {
    var c, e := CoreAt(t), EffectOf(t, join);
    StepHas(t, join);
    assert CoreAt(Next(t, join)).initialNickname == InitialNicknameAfter(c, t.w.now, e);
    assert Get(c.token, room, t.w.now).Some? && Get(c.initialNickname, room, t.w.now) == Some(nickname);
  }

  /** The first owner to join without a nickname after the room's creation is called what its creator asked for, or
      the default, and that uses the nickname up. */
  lemma FirstOwnerIsGreeted(s: State, a: Action, created: State, later: seq<Action>, join: Action)
    requires Creates(s, a, created) && Continues(created, later) && NobodyUnnamed(created, later, a.room)
    requires OwnerUnnamed(Then(created, later), join, a.room)
    ensures Step(Then(created, later), join).1.nickname == (if a.nickname == "" then "생성자" else a.nickname)
    ensures a.room !in Next(Then(created, later), join).w.db.initialNickname
    ensures a.room in Next(Then(created, later), join).created
  {
    Creation(s, a, created);
    WelcomingThen(created, later, a.room, NicknameGiven(a));
    Greeted(Then(created, later), join, a.room, NicknameGiven(a));
  }

  lemma {:induction false} NicknameStaysUsed(s: State, later: seq<Action>, room: string)
    requires Continues(s, later) && room in s.created && room !in s.w.db.initialNickname
    ensures room !in Then(s, later).w.db.initialNickname
    decreases |later|
  {
    if later != [] {
      StepHas(s, later[0]);
      assert room !in CoreAt(Next(s, later[0])).initialNickname;
      NicknameStaysUsed(Next(s, later[0]), later[1..], room);
    }
  }

  /** Once it is used up, every owner that brings no nickname is called by the default. */
  lemma LaterOwnersAreNot(s: State, later: seq<Action>, room: string, join: Action)
    requires room in s.created && room !in s.w.db.initialNickname && Continues(s, later)
    requires OwnerUnnamed(Then(s, later), join, room)
    ensures Step(Then(s, later), join).1.nickname == "생성자"
  {
    NicknameStaysUsed(s, later, room);
    StepHas(Then(s, later), join);
  }

  // ----- the creator's list -----

  /** After a creation, until the token ends and no longer, the list fetched with the issued token has the room; and it
      is listed under the title given to it, with the config that its owner last set. */
  lemma CreatorSeesTheRoom(s: State, a: Action, created: State, later: seq<Action>, rooms: seq<string>,
                           tokens: map<string, string>, own: seq<string>, entry: L.Summary)
    requires Creates(s, a, created) && Continues(created, later)
    requires forall r :: r in rooms ==> r in tokens
    requires a.room in rooms && tokens[a.room] == a.token
    requires L.OwnInOrder(Then(created, later).w.db, Then(created, later).w.now, rooms, tokens, own)
    ensures a.room in own <==>
            Then(created, later).w.now < TokenEnd(created, later, a.room, s.w.now + 7_200_000)
    ensures a.room in own && L.Summarises(Then(created, later).w.db, Then(created, later).w.now, a.room, entry) ==>
              var config := LastConfig(created, later, a.room, RoomConfig(a.winnersCount, a.sentiment, s.w.now));
              && entry.title == (if a.title == "" then "룰렛 방" else a.title)
              && entry.winnersCount == config.winnersCount && entry.winSentiment == config.winSentiment
  {
    CreationLasts(s, a, created, later);
  }
}
