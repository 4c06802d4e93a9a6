# Roulette rooms: a verified model

A NestJS server lets several browsers share a roulette room. One browser creates the room and owns it, others
join as participants and declare themselves ready, and the owner spins: the server draws winners and tells
everybody. All state is in Redis keys that expire; every handler is a sequence of Redis commands, and the commands
of different handlers interleave.

This project models that server in Dafny and proves what it is meant to guarantee: the draw is fair, spins of a
room exclude each other and form one history, a retried request does not spin again, a room has one owner, a
deleted room stays deleted, a browser that created a room can come back to it, and no client gets more events
through the throttle than it may. Where one of these guarantees has a gap, a lemma exhibits it and another says how far
the guarantee goes.

## How it is organised

| file | contents |
|---|---|
| `Redis.dfy`, `Store.dfy` | Redis commands on keys with expiry, and the command groups of the Redis service |
| `Selection.dfy`, `FairOdds.dfy`, `SpinOdds.dfy` | the shuffle as a function of its draws; permutations; counting of draw vectors, and the odds of a spin |
| `SpinRound.dfy` | one spin: the gate, the outcomes, and the participants list sent to the owner |
| `SpinProtocol.dfy` | the spin handler command by command, interleaved with anything, with a clock |
| `SpinSolo.dfy`, `SpinWitnesses.dfy` | an uninterrupted spin is the atomic one; what two interleaved spins can do |
| `Rooms.dfy` | what each handler does, as one function of the state before it |
| `RouletteService.dfy` | the services and the room creation in imperative form, proved against `Rooms.dfy` |
| `Requests.dfy` | when exactly each request is accepted, and what it leaves in the store, key by key |
| `RoomEffects.dfy` | the net effect that the store and the cookies call for, which every handler has, on the keys that the invariants are about |
| `RoomRuns.dfy`, `OwnerRuns.dfy` | invariants over whole runs of handlers, proved on these effects |
| `RoomSettings.dfy` | what a room is created with, over whole runs: title, config, the owner's first nickname, and the creator's list |
| `RoomWitnesses.dfy` | runs that reach states which look wrong |
| `KeyExpiry.dfy` | the expiry order of a room's keys under arbitrary command interleavings |
| `DeleteRace.dfy`, `JoinRace.dfy`, `DeleteWitnesses.dfy` | a deletion interleaved with disconnections, and with joins; what it leaves behind |
| `SoloRaces.dfy` | creations, deletions, disconnections and joins that nothing interrupts are the one-step ones |
| `OwnerEntry.dfy`, `Cookies.dfy` | cookies issued, sent back, parsed, and used to enter as owner |
| `RoomListing.dfy` | the batched reads behind the list of one's own rooms |
| `Throttler.dfy` | the sliding-window throttle |

There are two views of the handlers. In `SpinProtocol`, `KeyExpiry`, `DeleteRace` and `JoinRace` each Redis command is
one step and anything may come between two of them. In `RoomRuns` and `OwnerRuns` a handler is one step, and the clock
moves between steps. `SpinSolo.SoloIsAtomic` connects the two views for the spin handler, and `SoloRaces` for the others.

## What is assumed

- A Redis command, a Lua script or a pipeline takes effect at one instant, and reads ignore keys whose expiry has passed.
- Spin ids, room ids and socket ids are never drawn twice. `OwnerRuns.OrderlyStep` states in addition what is
  assumed of rids for the uniqueness of owners; it assumes nothing about expiry.
- `JSON.parse` is a parameter of the cookie lemmas; `Cookies.Faithful` says what is taken of it.
- Random draws are inputs: draw i is a natural number that is at most i.

## What was found

Each gap is shown by a run, and an equivalence says when there is none.

- One request can be resolved twice: its replay check precedes the lock (`SpinWitnesses.OneRequestSpinsTwice`, in a
  room that the room service's own handlers have set up). The check lets a request through exactly when every commit
  of it is 30 seconds old (`SpinProtocol.ReplayCheckIsExact`), so a second handler can only have been checked before
  the first one committed (`SpinProtocol.NoReplay`).
- Deleting a room frees its lock while a spin is in progress (`SpinWitnesses.DeletionBreaksExclusion`). A handler that
  is in time holds the lock exactly when its room has not been deleted since it got it (`SpinProtocol.LockIsOwn`).
- A participant can be registered in a room without members, because member sets expire on their own
  (`RoomWitnesses.ExpiryBreaksRegistration`). Registrations hold throughout a run exactly when no tick lets the member
  set expire before somebody registered in it (`RoomRuns.RegistrationExact`); they always hold in a room whose owner
  never departs (`RoomRuns.RegistrationWithoutDepartures`).
- A ready set can name sockets that are not members, in more than one way: the ready toggle takes the room from the
  request (`RoomWitnesses.ReadyWithoutMembership`), and a participant that is ready, becomes the owner on the same
  socket and leaves stays in the ready set, because neither an owner's exit nor an owner's eviction touches it
  (`RoomWitnesses.ReadyAfterLeaving`). `RoomRuns.ReadyExact` lists the guards that are together exact. The spin's gate
  does not depend on strangers in the ready set (`SpinRound.GateIgnoresTheRest`).
- The issued cookies can be refused while the room's token lives, when the owner has left and a connection with the
  token alone has become the owner with its own rid (`RoomWitnesses.CreatorShutOut`). The token itself need not last
  for 2 hours: it ends 30 minutes after the owner's last departure (`OwnerEntry.LastDeparture`). When exactly the
  creator gets in is `OwnerEntry.CreatorEnters`.
- When the member set expires before a deletion has listed it, the sockets that do not disconnect keep their info for as
  long as it lives (`DeleteRace.Confluence`). Since an owner's departure gives the member set and the members' infos the
  same 30 minutes, these are sockets that joined after the departure (`DeleteRace.SharedExpirySparesNobody`,
  `DeleteWitnesses.LapseSparesTheLate`).
- A deleted room can come back: a participant that found its config before the deletion goes on to become its member and
  to write it a default config, without an owner rid or a token (`DeleteWitnesses.DeletedRoomComesBack`). A config comes
  back exactly when some join that had found one was not yet done with it when the room was dropped
  (`JoinRace.WhatReturns`). With whole handlers one after another this cannot happen (`RoomRuns.DeletedStaysDead`).
- A plain token of the older cookie format is lost if it happens to be a JSON number (`Cookies.LegacyToken`), and one
  undecodable cookie makes the whole read of the header fail (`Cookies.UndecodableSpoilsAll`; exactly then:
  `Cookies.CookieRoundTrip`).
- The design document beside the module still refuses a second owner (OWNER_ALREADY_EXISTS); the code replaces the first one
  (`src/modules/roulette/roulette.service.ts:222-242`), and so does the model.
- `src/common/redis/redis.service.spec.ts:709` expects seven expiries when a room's life is extended; the code
  issues ten and one for each member (`src/common/redis/redis.service.ts:437-451`), and so does the model.

## Model

| member | source | states |
|---|---|---|
| `Selection.SelectRandom` | src/modules/roulette/roulette.utils.ts:68-75 | the in-place swap loop returns the first `count` items of the shuffle that its draws determine |
| `Selection.ShufflePermutes` | src/modules/roulette/roulette.utils.ts:68-74 | every draw vector yields a permutation of the items |
| `Selection.ShuffleInjective` | src/modules/roulette/roulette.utils.ts:68-74 | different draw vectors give different orders of distinct items |
| `Selection.ShuffleBijection` | src/modules/roulette/roulette.utils.ts:68-74 | the orders reached are exactly the permutations of the input, each by exactly one draw vector |
| `FairOdds.AllDrawsMembers` | src/modules/roulette/roulette.utils.ts:70-71 | the counted set is exactly the set of draw vectors of length n |
| `FairOdds.AllDrawsSize` | src/modules/roulette/roulette.utils.ts:70-71 | there are n! of them |
| `FairOdds.TraceFollows` | src/modules/roulette/roulette.utils.ts:70-73 | following one position through the swaps gives the place where the shuffle puts that item |
| `FairOdds.LandingSize` | src/modules/roulette/roulette.utils.ts:70-73 | each position reaches each place by exactly (n-1)! draw vectors |
| `FairOdds.FairOdds` | src/modules/roulette/roulette.utils.ts:68-75 | each of n distinct items is among the k selected in exactly k(n-1)! of the n! draw vectors |
| `SpinOdds.WinsExactly` | src/modules/roulette/roulette.service.ts:529-568 | every round that a snapshot and its draws admit has the same winners |
| `SpinOdds.SpinIsFair` | src/modules/roulette/roulette.service.ts:529-568 | in a spin of n active sockets whose config asks for k winners, each of them wins with exactly k(n-1)! of the n! draw vectors, or with all of them if k exceeds n |
| `SpinRound.CheckGate` | src/modules/roulette/roulette.service.ts:483-527 | the two loops and three checks give the first failing reason, in terms of who is registered, playing and ready |
| `SpinRound.ResolveRound` | src/modules/roulette/roulette.service.ts:529-589 | the outcomes, private messages and summary of a spin are those its snapshot and draws determine |
| `SpinRound.ParticipantsForOwner` | src/modules/roulette/roulette.service.ts:877-914 | the loop lists the participants without the owner's rid, and `allReady` holds exactly when there are some and all are ready |
| `SpinRound.RowsExactly` | src/modules/roulette/roulette.service.ts:877-914 | the list has one row for each participant without the owner's rid, with its own rid, nickname and readiness, no other rows, and the number of those that are ready |
| `SpinRound.GateIgnoresTheRest` | src/modules/roulette/roulette.service.ts:483-518 | stale members, foreign sockets and foreign ready ids never change the gate |
| `SpinRound.FlagIsGate` | src/modules/roulette/roulette.service.ts:884-907 | on one snapshot the owner's `allReady` flag and the spin's readiness check agree |
| `SpinRound.WinnersCounted` | src/modules/roulette/roulette.service.ts:529-568 | exactly as many outcomes win as were announced |
| `SpinRound.RoundAgrees` | src/modules/roulette/roulette.service.ts:529-589 | every active socket occurs once; the announced number is at most the configured one and at most all of them, and is one of the two, and at least one; that many win; sentiment, nicknames, private outcomes and summary agree |
| `SpinProtocol.LockSafety` | src/modules/roulette/roulette.service.ts:452-464 | in every interleaving a handler that is in time holds its room's lock with the expiry it asked for, or has lost it for good to a deletion since |
| `SpinProtocol.LockIsOwn` | src/common/redis/redis.service.ts:209-243 | for a handler that is in time, the lock is its own if and only if its room has not been deleted since it got the lock |
| `SpinProtocol.MutualExclusion` | src/modules/roulette/roulette.service.ts:452-604 | two handlers are never both inside a room's critical section with less than 10 s elapsed each, unless the room was deleted after one of them got the lock |
| `SpinProtocol.LockKept` | src/common/redis/redis.service.ts:209-243 | no step of anybody else, a late release included, takes the lock from a handler that is in time |
| `SpinProtocol.IdempotencySafety` | src/common/redis/redis.service.ts:255-275 | commits keep their records alive for 30 s, records come from commits and expire 30 s after them, and checks that came after a commit came 30 s after it |
| `SpinProtocol.ReplayCheckIsExact` | src/modules/roulette/roulette.service.ts:434-446 | the replay check lets a request through if and only if every commit of it is at least 30 s old |
| `SpinProtocol.NoReplay` | src/modules/roulette/roulette.service.ts:434-446 | of two commits of one request less than 30 s apart, the second was checked before the first committed |
| `SpinProtocol.RecordsAreResolvedSpins` | src/modules/roulette/roulette.service.ts:423-535 | an idempotency record exists only for a spin that found, in this order and each in the store of that moment, its requester to be the owner, no record, a free lock, then members, ready set, config and infos that together pass every gate |
| `SpinProtocol.HistorySafety` | src/modules/roulette/roulette.service.ts:541-604 | in runs that are serial in the room, its state names the spin announced last once that one has written it |
| `SpinProtocol.LastSpinIsLastAnnounced` | src/modules/roulette/roulette.service.ts:466-604 | whatever happens in other rooms, whenever the room's lock is free and its state is live, `lastSpin` is the spin announced last, with the time of its announcement |
| `SpinSolo.AloneIsRun` | src/modules/roulette/roulette.service.ts:423-604 | running one handler to its end without interruption is one of the interleavings |
| `SpinSolo.FromReplayChecked` | src/modules/roulette/roulette.service.ts:448-604 | once past the replay check, a handler alone commits exactly when the lock is free and what it reads passes the gate, whatever the records say |
| `SpinSolo.SoloIsAtomic` | src/modules/roulette/roulette.service.ts:411-605 | an uninterrupted handler leaves the same store as the one-step handler on what it reads, and is announced exactly when that one accepts |
| `SpinWitnesses.BothSpin` | src/modules/roulette/roulette.service.ts:434-464 | of two checked handlers of one request run one after the other, in any room with any members, both commit and are announced if and only if the lock is free and what is read passes the gate |
| `SpinWitnesses.OneRequestSpinsTwice` | src/modules/roulette/roulette.service.ts:434-464 | a run in which this happens in a room that has been created and joined by its owner |
| `SpinWitnesses.DeletionBreaksExclusion` | src/common/redis/redis.service.ts:408-425 | a run in which a deletion lets two handlers be in time in one critical section |
| `RouletteService.RedisService.GetSocketInfoBatch` | src/common/redis/redis.service.ts:490-520 | the pipelined reads give every socket its own info, and no others |
| `RouletteService.RedisService.GetActiveOwnerSocketId` | src/common/redis/redis.service.ts:463-485 | finds a member that carries the stored owner rid, or none exactly when there is none |
| `RouletteService.RedisService.ExtendRoomTTL` | src/common/redis/redis.service.ts:428-454 | ten key families of the room and every member's info get 30 minutes; missing keys, the lock and the records do not change |
| `RouletteService.RedisService.ReadSnapshot` | src/modules/roulette/roulette.service.ts:468-481 | the reads of a spin: members once each, ready set, config, and the info of each member that has any |
| `RouletteService.RouletteController.CreateRoom` | src/modules/roulette/roulette.controller.ts:56-82 | the six writes of a creation, with the defaults for what the request leaves out |
| `RouletteService.RoomService.HandleRoomJoin` | src/modules/roulette/roulette.service.ts:65-119 | every join, refusals included, changes store and socket data as specified, after evicting a connection the search may return |
| `RouletteService.RoomService.HandleOwnerJoin` | src/modules/roulette/roulette.service.ts:215-269 | eviction, nickname and owner rid of an owner's join |
| `RouletteService.RoomService.DoCompleteJoin` | src/modules/roulette/roulette.service.ts:292-356 | membership, registration, default config and activity of a completed join |
| `RouletteService.RoomService.BroadcastParticipantsToOwner` | src/modules/roulette/roulette.service.ts:853-918 | there is a list exactly when a member carries the stored owner rid, and its rows, counts and flag are those of a snapshot of the room |
| `RouletteService.RoomService.HandleDisconnect` | src/modules/roulette/roulette.service.ts:607-637 | the whole effect of a disconnection, for owners and participants |
| `RouletteService.RoomService.HandleRoomLeave` | src/modules/roulette/roulette.service.ts:749-851 | the whole effect of leaving, with its refusals |
| `RouletteService.RoomService.HandleRoomDelete` | src/modules/roulette/roulette.service.ts:926-979 | the loop removes the info of all members and of the deleter, then the room goes |
| `RouletteService.RoomService.HandleRoomConfigSet` | src/modules/roulette/roulette.service.ts:362-409 | the whole effect of a config change, with its refusals |
| `RouletteService.RoomService.HandleReadyToggle` | src/modules/roulette/roulette.service.ts:639-695 | the whole effect of a ready toggle on the room the request names |
| `RouletteService.RoomService.HandleSpinRequest` | src/modules/roulette/roulette.service.ts:411-605 | the store after a spin, the reason for a refusal, and the round that its snapshot and the random draws determine |
| `Requests.CreateExactly` | src/modules/roulette/roulette.controller.ts:56-82 | a creation writes token, title, initial nickname, config and last activity for 2 hours, the title and nickname it is given or their defaults, and an owner rid if none is stored |
| `Requests.JoinReplies` | src/modules/roulette/roulette.service.ts:65-290 | each reason to refuse a join, and the admission, as an equivalence over request, cookies and stored config, token and owner rid; a refusal changes nothing |
| `Requests.JoinTells` | src/modules/roulette/roulette.service.ts:199-356 | rid, nickname and owner flag that somebody who joins is told and registered with for 2 hours, from cookie, stored rid, connection, initial nickname and counter |
| `Requests.JoinLeaves` | src/modules/roulette/roulette.service.ts:215-330 | what a join leaves in the room's keys: the evicted connection gone, one member more, and only what was missing written |
| `Requests.JoinRenews` | src/modules/roulette/roulette.service.ts:355 | a join renews the time of last activity and touches no lock, record or spin |
| `Requests.ExtendExactly` | src/common/redis/redis.service.ts:428-454 | ten kinds of room keys and the members' infos, where live, keep their values and end 30 minutes from now; the lock, the records and everything else stay |
| `Requests.DisconnectExactly` | src/modules/roulette/roulette.service.ts:607-632 | without a live info nothing happens; otherwise the socket leaves members, ready set and infos of its room, and an owner's disconnection extends the room's life |
| `Requests.LeaveExactly` | src/modules/roulette/roulette.service.ts:749-851 | each reason to refuse an exit as an equivalence over the socket's data and the stored info, and what an owner's exit leaves |
| `Requests.DeleteExactly` | src/modules/roulette/roulette.service.ts:926-979 | a deletion is accepted if and only if the connection carries the stored owner rid, and then removes the room's keys and the members' and deleter's infos and nothing else |
| `Requests.ConfigSetExactly` | src/modules/roulette/roulette.service.ts:362-409 | a config change is accepted if and only if it asks for a winner and the connection carries the stored owner rid; it then writes what it asks for, for 2 hours, and otherwise nothing changes |
| `Requests.ToggleExactly` | src/modules/roulette/roulette.service.ts:639-695 | a ready toggle is accepted if and only if the stored info says participant, and adds the socket to the ready set of the room named, or takes it out |
| `Requests.NicknameExactly` | src/modules/roulette/roulette.service.ts:697-747 | a nickname is accepted if and only if it has 1 to 20 characters, and replaces the one in the stored info, if any |
| `Requests.SpinExactly` | src/modules/roulette/roulette.service.ts:411-605 | each reason to refuse a spin, and the acceptance, as an equivalence over the store: owner rid, record, lock, who is present, who is ready, config; what it records and for how long; the lock is free afterwards |
| `RoomEffects.CreateHas` | src/modules/roulette/roulette.controller.ts:56-82 | the net effect of the six writes of a creation: token, config, title, initial nickname, and an owner rid if none is stored; nothing on registrations, members or ready sets |
| `RoomEffects.JoinHas` | src/modules/roulette/roulette.service.ts:65-356 | a join has the effect that the store and the cookies call for and is refused exactly when that is none: after the eviction of a connection the search may return, one registration and one member more, an owner rid only if none is stored, a config only if there is none |
| `RoomEffects.DisconnectHas` | src/modules/roulette/roulette.service.ts:607-632 | a participant's disconnection takes it out of the room; an owner's also gives the room's keys and its members' infos 30 minutes |
| `RoomEffects.LeaveHas` | src/modules/roulette/roulette.service.ts:749-851 | leaving has the effect that the store and the socket's data call for, and is refused exactly when that is none: a disconnection, or an owner's exit, which clears the owner rid and leaves the ready set alone |
| `RoomEffects.DeleteHas` | src/modules/roulette/roulette.service.ts:926-977 | a connection that carries the stored owner rid removes the infos of the members and its own and every key of the room; any other is refused |
| `RoomEffects.SpinHas` | src/modules/roulette/roulette.service.ts:411-605 | a spin touches none of these keys |
| `RoomRuns.StepHas` | src/modules/roulette/roulette.service.ts:65-979 | every step of every run has the effect that the state before it calls for, on the keys, the clock, the socket data and the room ids drawn, and is answered accordingly |
| `RoomRuns.RegistrationApply` | src/modules/roulette/roulette.service.ts:300-315 | no handler breaks the registrations of a room, however many rooms its socket joins |
| `RoomRuns.RegistrationTick` | src/common/redis/redis.service.ts:428-454 | a tick keeps a room's registrations if and only if nobody registered in it outlives its member set |
| `RoomRuns.RegistrationExact` | src/modules/roulette/roulette.service.ts:300-315 | over whole runs: the registrations of a room hold throughout if and only if every tick is such |
| `RoomRuns.RegistrationWithoutDepartures` | src/modules/roulette/roulette.service.ts:620-627 | in every run in which no owner departs from the room, whatever expires, its member set has no expiry and its registrations hold throughout |
| `RoomRuns.ReadyApply` | src/modules/roulette/roulette.service.ts:669-674 | a handler keeps a room's ready set within its members if and only if who declares itself ready is a member, an owner that leaves is not ready, and an evicted connection is not ready or is the one joining |
| `RoomRuns.ReadyTick` | src/common/redis/redis.service.ts:428-454 | a tick does so if and only if the member set does not expire before a ready set that is not empty |
| `RoomRuns.ReadyExact` | src/modules/roulette/roulette.service.ts:639-695 | over whole runs: the ready set stays within the members throughout if and only if every step meets its guard |
| `RoomRuns.UnusedHolds` | src/modules/roulette/roulette.controller.ts:47-54 | room ids that were never drawn have no token, owner, config or members, and no info names them |
| `RoomRuns.GoneRefuses` | src/modules/roulette/roulette.service.ts:180-186 | a room without token, owner and config refuses every join, spin, config change and deletion and nothing changes |
| `RoomRuns.GoneLasts` | src/common/redis/redis.service.ts:408-425 | such a room stays so in every continuation, and unnamed if it is named by no info |
| `RoomRuns.DeletionExact` | src/modules/roulette/roulette.service.ts:952-977 | a deletion leaves no info that names the room if and only if everybody registered in it was a member or the deleter |
| `RoomRuns.DeletedStaysDead` | src/modules/roulette/roulette.service.ts:926-977 | after a deletion in any legal run of handlers, expiry included, the room never again has a token, config or owner, refuses every join, spin, config change and deletion, and stays unnamed if it was |
| `RoomRuns.AsksHolds` | src/modules/roulette/roulette.service.ts:375-399 | no reachable config asks for fewer than one winner |
| `RoomRuns.EverySpinHasWinners` | src/modules/roulette/roulette.service.ts:529-589 | every spin resolved in any run announces as many winners as the stored config asks for, or all members registered in the room if they are fewer, and at least one; as many win, and private messages and summary say the same |
| `RoomRuns.NumeralReads` | src/common/redis/redis.service.ts:312-319 | the numeral in an automatic nickname is decimal, without a leading zero, and reads back as the number |
| `RoomRuns.NumeralInjective` | src/common/redis/redis.service.ts:312-319 | different participant numbers read differently |
| `RoomRuns.NumberedNicknamesDiffer` | src/modules/roulette/roulette.service.ts:282-287 | while a room's counter lives, any two automatic nicknames it hands out differ, whatever happens between the two joins |
| `RoomSettings.ConfigChanges` | src/modules/roulette/roulette.service.ts:362-409 | in any run, a room's config is set by its creation and by a connection that carries the owner rid, removed by such a connection's deletion or by time, replaced by the default in a join that finds none, and changed by no other step |
| `RoomSettings.CreationLasts` | src/modules/roulette/roulette.controller.ts:56-82 | whatever happens after a creation, token and title are those it was given, or the default, until the token ends and no longer; until then the config is the creation's or the last one the owner has set |
| `RoomSettings.FirstOwnerIsGreeted` | src/modules/roulette/roulette.service.ts:244-258 | whatever happens after a creation, the first owner to join without a nickname is told the one given at the creation, or the default, and the key is then gone |
| `RoomSettings.LaterOwnersAreNot` | src/modules/roulette/roulette.service.ts:244-258 | after that every owner without a nickname is told the default |
| `RoomSettings.CreatorSeesTheRoom` | src/modules/roulette/roulette.controller.ts:169-231 | after any continuation of a creation, the list fetched with the issued token has the room if and only if the token has not ended, under the title given, with the config its owner last set |
| `OwnerRuns.EvictionLeavesNoOwner` | src/modules/roulette/roulette.service.ts:222-242 | when somebody joins as owner, the connection that is evicted is the registered owner if there is one |
| `OwnerRuns.OwnershipApply` | src/modules/roulette/roulette.service.ts:215-269 | no orderly handler breaks the ownership invariant |
| `OwnerRuns.OwnershipTick` | src/common/redis/redis.service.ts:428-454 | no passing of time breaks it either, whatever expires |
| `OwnerRuns.OwnerSafety` | src/modules/roulette/roulette.service.ts:785-816 | ownership and the agreement of socket data with stored info hold in every orderly run |
| `OwnerRuns.OneOwner` | src/modules/roulette/roulette.service.ts:199-269 | whatever expires, a room has at most one registered owner, through replacement, exit and rejoin; while its token lives that owner carries the stored owner rid and is a member |
| `RoomWitnesses.ExpiryBreaksRegistration` | src/common/redis/redis.service.ts:428-454 | a run after which a participant is registered in a room whose member set has expired |
| `RoomWitnesses.ReadyWithoutMembership` | src/modules/roulette/roulette.service.ts:669-674 | a run after which a ready set names a socket that was never a member |
| `RoomWitnesses.ReadyAfterLeaving` | src/modules/roulette/roulette.service.ts:797-816 | a run after which a ready set names a socket that was a member when it declared itself ready, became the owner and left |
| `RoomWitnesses.CreatorShutOut` | src/modules/roulette/roulette.service.ts:199-212 | a run after which the issued cookies are refused although the token lives |
| `KeyExpiry.OrderedStep` | src/common/redis/redis.service.ts:428-454 | no command lets the title, config or owner rid expire before the token does |
| `KeyExpiry.TokenOutlivedByIdentity` | src/modules/roulette/roulette.controller.ts:56-82 | in every timed interleaving a live token of a created room implies live config and title, and a live owner rid unless an exit cleared it |
| `DeleteRace.Confluence` | src/modules/roulette/roulette.service.ts:607-618 | any interleaving of disconnections with a deletion and with the clock ends with the room's members and ready set gone and all others as they were; a socket's info can still be read if and only if the member set expired before it was listed, the socket did not disconnect, and its info, as last extended, has not expired |
| `DeleteRace.EndStands` | src/common/redis/redis.service.ts:428-454 | infos keep their expiry unless an owner is among those who disconnect |
| `DeleteRace.SharedExpirySparesNobody` | src/common/redis/redis.service.ts:448-451 | a socket whose info does not outlive the member set never keeps it |
| `DeleteRace.NoExpiryNoLapse` | src/modules/roulette/roulette.service.ts:952-977 | in a room whose member set has no expiry it does not lapse, while only participants disconnect |
| `DeleteWitnesses.LapseSparesTheLate` | src/common/redis/redis.service.ts:428-454 | a run of handlers and then of commands in which the member set lapses: the participant that joined after the owner's departure keeps its info, the other one does not |
| `JoinRace.WhatReturns` | src/modules/roulette/roulette.service.ts:271-330 | any interleaving of participants' joins with a deletion and with the clock: a config returns if and only if some join that had found one was not done with it at the drop, and then it is the default one; the members are exactly the joiners added after the drop; an info stays if and only if its joiner was not listed or stored it after the removal, until it expires; owner rid, token, title and ready set stay gone |
| `JoinRace.NothingReturns` | src/modules/roulette/roulette.service.ts:271-330 | if no join is underway at the drop, neither a config nor a member returns |
| `JoinRace.RoomComesBack` | src/modules/roulette/roulette.service.ts:320-330 | in every room whose only member is the deleter, an interleaving after which the room has a config and a member but neither owner rid nor token |
| `DeleteWitnesses.DeletedRoomComesBack` | src/modules/roulette/roulette.service.ts:320-330 | such a race in a room that a run of handlers leads to |
| `SoloRaces.CreationAlone` | src/modules/roulette/roulette.controller.ts:56-82 | the six commands of a creation with nothing in between leave the store as the one-step creation does |
| `SoloRaces.DeletionAlone` | src/modules/roulette/roulette.service.ts:952-977 | so does any uninterrupted deletion, in whatever order it removes the infos |
| `SoloRaces.DisconnectionAlone` | src/modules/roulette/roulette.service.ts:607-627 | so do the four commands of a participant's disconnection and the six of an owner's |
| `SoloRaces.JoinAlone` | src/modules/roulette/roulette.service.ts:271-356 | so do the commands of a join that brings a nickname, which is refused exactly when the one-step join is |
| `Cookies.ParseCookies` | src/modules/roulette/roulette.utils.ts:23-32 | the read succeeds exactly when every value that counts can be decoded; then each name has the decoded value of the last piece that gives it one, and no other name has any |
| `Cookies.SplitExactly` | src/modules/roulette/roulette.utils.ts:25-26 | the pieces of a text hold no separator and, joined by it, give the text back |
| `Cookies.TrimExactly` | src/modules/roulette/roulette.utils.ts:26 | trimming takes away white space at both ends, all of it and nothing else |
| `Cookies.TokenRead` | src/modules/roulette/roulette.utils.ts:43-64 | a token is read if and only if it is 64 lower-case hex digits and is the token of the JSON object or, if the text is not JSON, the text |
| `Cookies.HeaderReceived` | src/modules/roulette/roulette.utils.ts:23-32 | a header of well-formed cookies is read cookie by cookie |
| `Cookies.ReceivedValues` | src/modules/roulette/roulette.utils.ts:25-30 | each distinctly named cookie is found under its name, decoded, and the read succeeds exactly when all can be decoded |
| `Cookies.EncodeRoundTrip` | src/modules/roulette/roulette.utils.ts:28 | decoding undoes percent-encoding (section 2.1 of RFC 3986) of every text, in UTF-8 (section 3 of RFC 3629) |
| `Cookies.CookieRoundTrip` | src/modules/roulette/roulette.controller.ts:88-105 | token and rid come back exactly, among any other well-formed, distinctly named cookies, if and only if all can be decoded |
| `Cookies.LegacyToken` | src/modules/roulette/roulette.utils.ts:59-62 | a plain token comes back exactly when it is not a JSON number |
| `Cookies.LegacyTokenLost` | src/modules/roulette/roulette.utils.ts:58-61 | there are tokens of both kinds |
| `Cookies.UndecodableSpoilsAll` | src/modules/roulette/roulette.utils.ts:25-30 | sent along with the issued cookies, a cookie whose value is a percent sign makes the read fail |
| `OwnerEntry.OwnerGetsIn` | src/modules/roulette/roulette.service.ts:168-206 | an owner is admitted exactly with the stored token and a rid that does not contradict the stored one; otherwise nothing changes |
| `OwnerEntry.EndsThen` | src/common/redis/redis.service.ts:428-454 | after any continuation the room's token is the issued one, with an end computed from departures and deletions alone, or is gone |
| `OwnerEntry.UndisturbedEnd` | src/common/redis/redis.service.ts:293-300 | without a departure of the owner or a deletion that end does not move |
| `OwnerEntry.LastDeparture` | src/modules/roulette/roulette.service.ts:620-627 | after the owner's last departure it is 30 minutes later, if the token was alive then |
| `OwnerEntry.CreatorEnters` | src/modules/roulette/roulette.service.ts:155-213 | after any continuation of the creation, the issued cookies admit the creator's browser, with the issued rid, if and only if the token has not ended and nobody is the owner with another rid |
| `OwnerEntry.OwnerRidKept` | src/modules/roulette/roulette.service.ts:260-266 | nobody is, as long as every owner who enters brings the issued rid |
| `RoomListing.BuildPipeline` | src/common/redis/redis.service.ts:625-631 | the flattened pipeline asks about room i at positions 4i to 4i+3 |
| `RoomListing.GetRoomMetadataBatch` | src/common/redis/redis.service.ts:610-662 | the batch gives each room its own title, activity, owner and members |
| `RoomListing.ExtractRoomStats` | src/modules/roulette/roulette.controller.ts:233-254 | owner nickname and participant count, read from the shared map, are those of separate reads of the room's sockets |
| `RoomListing.SelectOwn` | src/modules/roulette/roulette.controller.ts:181-191 | keeps, in order, the rooms with the stored token and a config, and clears the cookies of all others |
| `RoomListing.OwnRoomsMembers` | src/modules/roulette/roulette.controller.ts:181-191 | exactly these rooms are kept, in the order asked for and without repetition |
| `RoomListing.FetchRoomsWithInfo` | src/modules/roulette/roulette.controller.ts:169-231 | the list has exactly the rooms with the stored token and a config, in order, each with its live title and last activity, or their defaults where they are missing or empty, its config and its statistics; the cookies of the others are cleared |
| `RoomListing.StatisticsUnique` | src/modules/roulette/roulette.controller.ts:233-254 | with at most one owner connection the statistics do not depend on the order of the members |
| `Throttler.WsThrottlerGuard.CanActivate` | src/common/guards/ws-throttler.guard.ts:10-35 | the decision and the new map of one event; a rejected client is told the seconds until its oldest recent event is 10,000 ms old, rounded up |
| `Throttler.WsThrottlerGuard.Cleanup` | src/common/guards/ws-throttler.guard.ts:37-47 | the sweep keeps exactly the times less than 10,000 ms old, and exactly the clients that have any |
| `Throttler.PrunedAgrees` | src/common/guards/ws-throttler.guard.ts:15-47 | the pruned times and the full history agree on what is recent, under any schedule of sweeps |
| `Throttler.ThrottleRefinement` | src/common/guards/ws-throttler.guard.ts:15-47 | an event is accepted if and only if fewer than 30 events of the client were accepted in the last 10,000 ms, under any schedule of sweeps |
| `Throttler.DecisionsAgree` | src/common/guards/ws-throttler.guard.ts:10-47 | event by event, under any schedule of sweeps, the guard decides as a guard that never forgets and never sweeps |
| `Throttler.ThrottleBound` | src/common/guards/ws-throttler.guard.ts:10-35 | no window of 10,000 ms holds more than 30 accepted events of a client |
| `Throttler.RetryIsHonoured` | src/common/guards/ws-throttler.guard.ts:18-24 | `retryAfter` is 1 to 10, and a client that stays silent that long is then accepted |
| `Throttler.RetryIsTight` | src/common/guards/ws-throttler.guard.ts:18-24 | until a second before that, such a client is rejected again |

## Left out

- Atomic handlers: `RoomRuns` and `OwnerRuns` take each handler as one step; commands of different handlers are
  interleaved only in `SpinProtocol`, `SpinSolo`, `SpinWitnesses`, `KeyExpiry`, `DeleteRace` and `JoinRace`.
- OwnerRuns.OneOwner: assumes `OwnerRuns.OrderlyStep` (a rid that becomes an owner rid is nobody else's, and participants do not join with one).
- SpinProtocol.LastSpinIsLastAnnounced: covers runs in which the room has no failed command, no deletion and no critical section of 10 s or more, since an overlong one may be overtaken.
- DeleteRace.Confluence: covers sockets that are registered in the deleted room when the race starts; joins during a deletion are in `JoinRace`.
- JoinRace.WhatReturns: covers participants' joins on fresh connections; owners' joins, disconnections and the participant counter are not part of that race.
- Cookies.CookieRoundTrip: takes characters as Unicode scalar values; names that JavaScript objects inherit, such as `__proto__`, behave like any other name.
- Disconnecting a socket from the server's side: the evicted or expelled socket's own disconnection is a separate later action.
- Redis failures, crashes inside a handler and the INTERNAL_ERROR replies, except that a spin handler may stop or jump to its release at any point.
- A cookie header that cannot be decoded: the exception ends the join, which is then no step of the model.
- Socket.IO transport, rooms and events other than the spin's announcements and the owner's list; whether a listed socket is still connected is an input of a spin and is taken as given for the owner's list.
- The welcome messages after a join.
- Trimming of titles and nicknames, the 20-unit limit counted in UTF-16, and parsing of the activity time.
- `getRooms` sorting and the cookie names it scans (`parseOwnerTokens`), which add only easy members.
- DTO validation other than `winnersCount >= 1`, exception filters, metrics, health, logging, configuration.
- Random byte generation and the uniformity of `Math.random`: fairness is a count over draw vectors.
