/** From the creation of a room to its owner's visits: what the controller stores and issues, the browser sends
    back, and the room service accepts, whatever happens in between. */
module OwnerEntry {
  import opened Options
  import opened RedisTables
  import opened Store
  import opened Rooms
  import opened RoomEffects
  import opened RoomRuns
  import opened Cookies

  // ----- how long the token of a room lives -----

  ghost predicate Erases(s: State, a: Action, room: string) {
    EffectOf(s, a).Erase? && EffectOf(s, a).room == room
  }

  /** When the token ends, given when it ended before the action: a deletion ends it at once, and a departure of
      the owner while it lives ends it 30 minutes later. */
  ghost function EndAfter(s: State, a: Action, room: string, end: int): int {
    if Erases(s, a, room) then s.w.now
    else if OwnerDeparts(s, a, room) && s.w.now < end then s.w.now + 1_800_000
    else end
  }

  ghost function TokenEnd(s: State, later: seq<Action>, room: string, end: int): int
    decreases |later|
  {
    if later == [] then end else TokenEnd(Next(s, later[0]), later[1..], room, EndAfter(s, later[0], room, end))
  }

  /** The room's token is this one and ends then, or it is gone already. */
  predicate Ends(c: Core, now: int, room: string, token: string, end: int) {
    if room in c.token then c.token[room] == Cell(token, Some(end)) else end <= now
  }

  lemma EndsApply(c: Core, now: int, e: Effect, room: string, token: string, end: int)
    requires Ends(c, now, room, token, end) && !(e.Create? && e.room == room)
    ensures Ends(Apply(c, now, e), now, room, token,
                 if e.Erase? && e.room == room then now
                 else if e.OwnerDepart? && e.room == room && now < end then now + 1_800_000 else end)
  {}

  lemma {:induction false} EndsThen(s: State, later: seq<Action>, room: string, token: string, end: int)
    requires room in s.created && Continues(s, later) && Ends(CoreAt(s), s.w.now, room, token, end)
    ensures var t := Then(s, later); Ends(CoreAt(t), t.w.now, room, token, TokenEnd(s, later, room, end))
    decreases |later|
  {
    if later != [] {
      var a := later[0];
      StepHas(s, a);
      EndsApply(CoreAt(s), s.w.now, EffectOf(s, a), room, token, end);
      EndsThen(Next(s, a), later[1..], room, token, EndAfter(s, a, room, end));
    }
  }

  /** Neither a deletion of the room nor a departure of its owner. */
  ghost predicate Undisturbed(s: State, later: seq<Action>, room: string)
    decreases |later|
  {
    later == [] ||
    (!Erases(s, later[0], room) && !OwnerDeparts(s, later[0], room) && Undisturbed(Next(s, later[0]), later[1..], room))
  }

  lemma {:induction false} UndisturbedEnd(s: State, later: seq<Action>, room: string, end: int)
    requires Undisturbed(s, later, room)
    ensures TokenEnd(s, later, room, end) == end
    decreases |later|
  {
    if later != [] {
      UndisturbedEnd(Next(s, later[0]), later[1..], room, end);
    }
  }

  lemma {:induction false} TokenEndSplit(s: State, first: seq<Action>, second: seq<Action>, room: string, end: int)
    ensures Then(s, first + second) == Then(Then(s, first), second)
    ensures TokenEnd(s, first + second, room, end) ==
        TokenEnd(Then(s, first), second, room, TokenEnd(s, first, room, end))
    decreases |first|
  {
    if first == [] {
      assert first + second == second;
    } else {
      assert (first + second)[1..] == first[1..] + second;
      TokenEndSplit(Next(s, first[0]), first[1..], second, room, EndAfter(s, first[0], room, end));
    }
  }

  lemma {:induction false} DepartureEnd(t: State, a: Action, rest: seq<Action>, room: string, end: int)
    requires OwnerDeparts(t, a, room) && Undisturbed(Next(t, a), rest, room) && t.w.now < end
    ensures TokenEnd(t, [a] + rest, room, end) == t.w.now + 1_800_000
  {
    TokenEndFirst(t, a, rest, room, end);
    EndAfterDeparture(t, a, room, end);
    UndisturbedEnd(Next(t, a), rest, room, t.w.now + 1_800_000);
  }

  lemma EndAfterDeparture(t: State, a: Action, room: string, end: int)
    requires OwnerDeparts(t, a, room) && t.w.now < end
    ensures EndAfter(t, a, room, end) == t.w.now + 1_800_000
  {}

  lemma {:induction false} TokenEndFirst(t: State, a: Action, rest: seq<Action>, room: string, end: int)
    ensures TokenEnd(t, [a] + rest, room, end) == TokenEnd(Next(t, a), rest, room, EndAfter(t, a, room, end))
  {
    var run := [a] + rest;
    assert run[0] == a && run[1..] == rest;
  }

  /** After the last departure of the owner the token has 30 minutes, if it was still alive then. */
  lemma {:induction false} LastDeparture(s: State, before: seq<Action>, a: Action, rest: seq<Action>, room: string,
                                         end: int)
    requires OwnerDeparts(Then(s, before), a, room) && Undisturbed(Next(Then(s, before), a), rest, room)
    requires Then(s, before).w.now < TokenEnd(s, before, room, end)
    ensures TokenEnd(s, before + ([a] + rest), room, end) == Then(s, before).w.now + 1_800_000
  {
    TokenEndSplit(s, before, [a] + rest, room, end);
    DepartureEnd(Then(s, before), a, rest, room, TokenEnd(s, before, room, end));
  }

  // ----- who may enter -----

  /** An owner gets in exactly with the stored token, and with the stored rid or none (any well-formed rid once
      the stored one is gone). Otherwise nothing changes. */
  lemma OwnerGetsIn(w: World, socket: string, room: string, cookies: OwnerCookies, provided: string,
                    choice: Option<string>)
    requires room != "" && socket in w.conns
    ensures var (v, reply) := Join(w, socket, room, Owner, cookies, provided, choice);
            && (reply.Joined? <==>
                  && cookies.token.Some? && Get(w.db.token, room, w.now) == cookies.token
                  && (cookies.rid.Some? ==>
                        IsHex(cookies.rid.value, 32) && OwnerOf(w.db, w.now, room) in {None, cookies.rid}))
            && (reply.Joined? && cookies.rid.Some? ==> reply.rid == cookies.rid.value && reply.isOwner)
            && (!reply.Joined? ==> v == w)
  {
    var verdict := VerifyOwnerToken(w.db, w.now, room, cookies);
    if verdict.Refused? {
      assert Join(w, socket, room, Owner, cookies, provided, choice) == (w, Rejected(verdict.reason));
    } else {
      var rid := OwnerRid(w, socket, verdict);
      assert Join(w, socket, room, Owner, cookies, provided, choice) ==
          JoinAsOwner(w, socket, room, rid, provided, choice);
      OwnersAreLetIn(w, socket, room, rid, provided, choice);
    }
  }

  lemma OwnersAreLetIn(w: World, socket: string, room: string, rid: string, provided: string, choice: Option<string>)
    ensures var reply := JoinAsOwner(w, socket, room, rid, provided, choice).1;
            && reply.Joined? && reply.rid == rid
            && (OwnerOf(w.db, w.now, room) in {None, Some(rid)} ==> reply.isOwner)
  {}

  /** The room has just been created, with these values. */
  ghost predicate JustCreated(s: State, room: string, token: string, rid: string, created: State) {
    && Reachable(s)
    && exists title, nickname, winnersCount, sentiment ::
         var a := DoCreate(room, token, rid, title, nickname, winnersCount, sentiment);
         Enabled(s, a) && created == Next(s, a)
  }

  lemma CreationHas(s: State, room: string, token: string, rid: string, created: State)
    requires JustCreated(s, room, token, rid, created)
    ensures room in created.created && created.w.now == s.w.now
    ensures Ends(CoreAt(created), s.w.now, room, token, s.w.now + 7_200_000)
    ensures room in CoreAt(created).owner && CoreAt(created).owner[room].value == rid
  {
    var title, nickname, winnersCount, sentiment :|
      var a := DoCreate(room, token, rid, title, nickname, winnersCount, sentiment);
      Enabled(s, a) && created == Next(s, a);
    var run :| Legal(run) && After(run) == s;
    UnusedHolds(run);
    StepHas(s, DoCreate(room, token, rid, title, nickname, winnersCount, sentiment));
  }

  /** The browser a room was created from gets in as its owner, with the issued rid, exactly until the room's token
      ends, as long as nobody has become the owner with another rid; whatever other well-formed, decodable cookies
      it sends along and whatever has happened since the creation. The token ends 2 hours after the creation, or 30
      minutes after the owner's last departure, or with the room. */
  lemma {:induction false} CreatorEnters(
      parse: string -> Json, cookies: seq<Cookie>, s: State, room: string, token: string, rid: string, created: State,
      later: seq<Action>, socket: string, provided: string, choice: Option<string>)
    requires Faithful(parse) && IsRoomId(room) && IsHex(token, 64) && IsHex(rid, 32)
    requires DistinctNames(cookies) && forall c :: c in cookies ==> WellFormed(c) && Decodable(c)
    requires TokenCookie(room, token) in cookies && RidCookie(room, rid) in cookies
    requires JustCreated(s, room, token, rid, created) && Continues(created, later)
    requires socket in Then(created, later).w.conns
    ensures var read, t := ReadOwnerCookies(parse, Header(cookies), room), Then(created, later);
            && read.Some?
            && var reply := Join(t.w, socket, room, Owner, read.value, provided, choice).1;
               && (reply.Joined? <==>
                     && t.w.now < TokenEnd(created, later, room, s.w.now + 7_200_000)
                     && OwnerOf(t.w.db, t.w.now, room) in {None, Some(rid)})
               && (reply.Joined? ==> reply.rid == rid && reply.isOwner)
  {
    CookieRoundTrip(parse, cookies, room, token, rid);
    CreationHas(s, room, token, rid, created);
    EndsThen(created, later, room, token, s.w.now + 7_200_000);
    OwnerGetsIn(Then(created, later).w, socket, room, OwnerCookies(Some(token), Some(rid)), provided, choice);
  }

  /** Whoever enters the room as its owner does so with this rid. */
  ghost predicate OwnersBring(s: State, later: seq<Action>, room: string, rid: string)
    decreases |later|
  {
    later == [] ||
    (var e := EffectOf(s, later[0]);
     && (e.Enter? && e.room == room && e.info.role.Owner? ==> e.info.rid == rid)
     && OwnersBring(Next(s, later[0]), later[1..], room, rid))
  }

  lemma OwnerRidStays(c: Core, now: int, e: Effect, room: string, rid: string)
    requires room in c.owner ==> c.owner[room].value == rid
    requires !(e.Create? && e.room == room) && (e.Enter? && e.room == room && e.info.role.Owner? ==> e.info.rid == rid)
    ensures room in OwnerAfter(c, now, e) ==> OwnerAfter(c, now, e)[room].value == rid
  {}

  /** As long as every owner who enters brings the issued rid, nobody becomes the owner with another one. */
  lemma {:induction false} OwnerRidKept(s: State, later: seq<Action>, room: string, rid: string)
    requires room in s.created && Continues(s, later) && OwnersBring(s, later, room, rid)
    requires room in CoreAt(s).owner ==> CoreAt(s).owner[room].value == rid
    ensures var t := Then(s, later); OwnerOf(t.w.db, t.w.now, room) in {None, Some(rid)}
    decreases |later|
  {
    if later != [] {
      StepHas(s, later[0]);
      OwnerRidStays(CoreAt(s), s.w.now, EffectOf(s, later[0]), room, rid);
      OwnerRidKept(Next(s, later[0]), later[1..], room, rid);
    }
  }
}
