/** What one spin reads, whether it may go ahead, and what it announces. Also the participants list that is
    sent to the owner, whose `allReady` flag must agree with the spin's own gate. */
module SpinRound {
  import opened Options
  import opened RedisTables
  import opened Store
  import opened Selection

  const UNKNOWN_NICKNAME := "알 수 없음"

  /** The batch of reads behind a spin: the member listing, the ready set, the config, and the socket info
      of each member that has any. */
  datatype Snapshot = Snapshot(
    members: seq<string>, ready: set<string>, config: Option<RoomConfig>, infos: map<string, SocketInfo>)

  /** The info of each of the listed sockets that has any. */
  function InfosOf(db: Db, now: int, members: seq<string>): map<string, SocketInfo> {
    map s | s in members && Info(db, now, s).Some? :: Info(db, now, s).value
  }

  datatype Gate = Pass | NoMembers | NotAllReady | RoomNotFound

  datatype Outcome = Outcome(socketId: string, nickname: string, win: bool)

  /** `announced` goes to the room when the spin is resolved, `outcomes` are built from it, `told` is what each
      connected socket is sent privately, and `summary` is what the room is sent. */
  datatype Round = Round(
    announced: int, sentiment: Sentiment, outcomes: seq<Outcome>,
    told: seq<(string, bool)>, summary: seq<(string, bool)>)

  // ----- specification -----

  predicate Registered(room: string, infos: map<string, SocketInfo>, socket: string) {
    socket in infos && infos[socket].roomId == room
  }

  predicate Playing(room: string, infos: map<string, SocketInfo>, socket: string) {
    Registered(room, infos, socket) && infos[socket].role.Participant?
  }

  function Active(room: string, snap: Snapshot, n: nat): seq<string>
    requires n <= |snap.members|
  {
    if n == 0 then []
    else
      Active(room, snap, n - 1) +
      if Registered(room, snap.infos, snap.members[n - 1]) then [snap.members[n - 1]] else []
  }

  /** The first of the checks that fails, in the order the server makes them. */
  ghost function GateOf(room: string, snap: Snapshot): Gate {
    if forall s :: s in snap.members ==> !Registered(room, snap.infos, s) then NoMembers
    else if exists s :: s in snap.members && Playing(room, snap.infos, s) && s !in snap.ready then NotAllReady
    else if snap.config.None? then RoomNotFound
    else Pass
  }

  ghost predicate Sockets(round: Round, active: seq<string>) {
    |round.outcomes| == |active| && forall i :: 0 <= i < |active| ==> round.outcomes[i].socketId == active[i]
  }

  function Wins(outcomes: seq<Outcome>): nat {
    if outcomes == [] then 0
    else Wins(outcomes[..|outcomes| - 1]) + if outcomes[|outcomes| - 1].win then 1 else 0
  }

  function Min(a: int, b: int): int {
    if a < b then a else b
  }

  /** The round that a snapshot and a draw vector produce. */
  ghost predicate RoundOf(room: string, snap: Snapshot, draws: seq<nat>, online: set<string>, round: Round) {
    var active := Active(room, snap, |snap.members|);
    && snap.config.Some?
    && |draws| == |active| && Draws(draws)
    && round.announced == Min(snap.config.value.winnersCount, |active|)
    && round.sentiment == snap.config.value.winSentiment
    && Sockets(round, active)
    && (forall o :: o in round.outcomes ==>
          && o.nickname == NicknameOf(snap.infos, o.socketId)
          && (o.win <==> o.socketId in Slice(Shuffle(active, draws), round.announced)))
    && round.summary == Summary(round.outcomes)
    && round.told == Told(round.outcomes, online)
  }

  function NicknameOf(infos: map<string, SocketInfo>, socket: string): string {
    if socket in infos && infos[socket].nickname != "" then infos[socket].nickname else UNKNOWN_NICKNAME
  }

  function Summary(outcomes: seq<Outcome>): seq<(string, bool)> {
    seq(|outcomes|, i requires 0 <= i < |outcomes| => (outcomes[i].nickname, outcomes[i].win))
  }

  function Told(outcomes: seq<Outcome>, online: set<string>): seq<(string, bool)> {
    if outcomes == [] then []
    else
      var o := outcomes[|outcomes| - 1];
      Told(outcomes[..|outcomes| - 1], online) + if o.socketId in online then [(o.socketId, o.win)] else []
  }

  lemma ToldAppend(outcomes: seq<Outcome>, o: Outcome, online: set<string>)
    ensures Told(outcomes + [o], online) ==
            Told(outcomes, online) + if o.socketId in online then [(o.socketId, o.win)] else []
  {
    assert (outcomes + [o])[..|outcomes|] == outcomes;
  }

  // ----- the code's loops -----

  method CheckGate(room: string, snap: Snapshot) returns (gate: Gate, active: seq<string>)
    ensures gate == GateOf(room, snap)
    ensures active == Active(room, snap, |snap.members|)
  {
    active := [];
    var participants: seq<string> := [];
    for n := 0 to |snap.members|
      invariant active == Active(room, snap, n)
      invariant forall s :: s in active <==> s in snap.members[..n] && Registered(room, snap.infos, s)
      invariant forall s :: s in participants <==> s in snap.members[..n] && Playing(room, snap.infos, s)
    {
      var socket := snap.members[n];
      if socket in snap.infos && snap.infos[socket].roomId == room {
        active := active + [socket];
        if snap.infos[socket].role.Participant? {
          participants := participants + [socket];
        }
      }
    }
    assert snap.members[..|snap.members|] == snap.members;
    if |active| == 0 {
      return NoMembers, active;
    }
    assert active[0] in active;
    var allReady := forall s :: s in participants ==> s in snap.ready;
    if |participants| > 0 && !allReady {
      return NotAllReady, active;
    }
    if snap.config.None? {
      return RoomNotFound, active;
    }
    gate := Pass;
  }

  method ResolveRound(room: string, snap: Snapshot, active: seq<string>, draws: seq<nat>, online: set<string>)
    returns (round: Round)
    requires active == Active(room, snap, |snap.members|) && snap.config.Some?
    requires |draws| == |active|
    requires forall i :: 0 <= i < |draws| ==> draws[i] <= i
    ensures RoundOf(room, snap, draws, online, round)
  {
    var k := Min(snap.config.value.winnersCount, |active|);
    var winners := SelectRandom(active, k, draws);
    var winnerSet := SetOf(winners);
    var outcomes: seq<Outcome> := [];
    var told: seq<(string, bool)> := [];
    for i := 0 to |active|
      invariant |outcomes| == i
      invariant forall j :: 0 <= j < i ==>
                  outcomes[j] == Outcome(active[j], NicknameOf(snap.infos, active[j]), active[j] in winners)
      invariant told == Told(outcomes, online)
    {
      var socket := active[i];
      var won := socket in winnerSet;
      var o := Outcome(socket, NicknameOf(snap.infos, socket), won);
      ToldAppend(outcomes, o, online);
      outcomes := outcomes + [o];
      if socket in online {
        told := told + [(socket, won)];
      }
    }
    round := Round(k, snap.config.value.winSentiment, outcomes, told, Summary(outcomes));
    assert RoundOf(room, snap, draws, online, round) by {
      OutcomesFit(snap, active, winners, outcomes);
    }
  }

  lemma OutcomesFit(snap: Snapshot, active: seq<string>, winners: seq<string>, outcomes: seq<Outcome>)
    requires |outcomes| == |active|
    requires forall j :: 0 <= j < |active| ==>
               outcomes[j] == Outcome(active[j], NicknameOf(snap.infos, active[j]), active[j] in winners)
    ensures forall o :: o in outcomes ==>
              o.nickname == NicknameOf(snap.infos, o.socketId) && (o.win <==> o.socketId in winners)
  {}

  /** The owner's participants list: who is ready and whether everybody is. The second result is the member
      that carries the owner's rid, if any. */
  method ParticipantsForOwner(ownerRid: string, snap: Snapshot)
    returns (rows: seq<Row>, ownerSocket: Option<string>, readyCount: nat, allReady: bool)
    ensures rows == Rows(ownerRid, snap, |snap.members|) && readyCount == ReadyRows(rows)
    ensures allReady <==> AllReadyFlag(ownerRid, snap)
    ensures ownerSocket.Some? <==> OwnerAmong(ownerRid, snap.infos, snap.members)
  {
    rows, ownerSocket, readyCount := [], None, 0;
    for n := 0 to |snap.members|
      invariant ownerSocket.Some? <==> OwnerAmong(ownerRid, snap.infos, snap.members[..n])
      invariant rows == Rows(ownerRid, snap, n) && readyCount == ReadyRows(rows)
    {
      var socket := snap.members[n];
      assert snap.members[..n + 1] == snap.members[..n] + [socket];
      OwnerAmongSnoc(ownerRid, snap.infos, snap.members[..n], socket);
      if socket in snap.infos {
        var info := snap.infos[socket];
        if info.rid == ownerRid {
          ownerSocket := Some(socket);
        } else if info.role.Participant? {
          ReadyRowsSnoc(rows, Row(info.rid, info.nickname, socket in snap.ready));
          rows := rows + [Row(info.rid, info.nickname, socket in snap.ready)];
          if socket in snap.ready {
            readyCount := readyCount + 1;
          }
        }
      }
    }
    assert snap.members[..|snap.members|] == snap.members;
    allReady := |rows| > 0 && readyCount == |rows|;
    RowsReady(ownerRid, snap, |snap.members|);
  }

  /** One of the sockets carries the owner's rid. */
  ghost predicate OwnerAmong(ownerRid: string, infos: map<string, SocketInfo>, xs: seq<string>) {
    exists s :: s in xs && s in infos && infos[s].rid == ownerRid
  }

  lemma OwnerAmongSnoc(ownerRid: string, infos: map<string, SocketInfo>, xs: seq<string>, x: string)
    ensures OwnerAmong(ownerRid, infos, xs + [x]) <==>
            OwnerAmong(ownerRid, infos, xs) || (x in infos && infos[x].rid == ownerRid)
  {
    assert x in xs + [x];
    if OwnerAmong(ownerRid, infos, xs) {
      var s :| s in xs && s in infos && infos[s].rid == ownerRid;
      assert s in xs + [x];
    }
  }

  datatype Row = Row(rid: string, nickname: string, ready: bool)

  datatype ParticipantList = ParticipantList(rows: seq<Row>, readyCount: nat, totalCount: nat, allReady: bool)

  /** The list is the one that the snapshot determines. */
  ghost predicate Shows(ownerRid: string, snap: Snapshot, list: ParticipantList) {
    && list.rows == Rows(ownerRid, snap, |snap.members|)
    && list.readyCount == ReadyRows(list.rows) && list.totalCount == |list.rows|
    && (list.allReady <==> AllReadyFlag(ownerRid, snap))
  }

  predicate Listed(ownerRid: string, infos: map<string, SocketInfo>, socket: string) {
    socket in infos && infos[socket].rid != ownerRid && infos[socket].role.Participant?
  }

  function Rows(ownerRid: string, snap: Snapshot, n: nat): seq<Row>
    requires n <= |snap.members|
  {
    if n == 0 then []
    else
      var s := snap.members[n - 1];
      Rows(ownerRid, snap, n - 1) +
      if Listed(ownerRid, snap.infos, s) then [Row(snap.infos[s].rid, snap.infos[s].nickname, s in snap.ready)] else []
  }

  function ReadyRows(rows: seq<Row>): nat {
    if rows == [] then 0
    else ReadyRows(rows[..|rows| - 1]) + if rows[|rows| - 1].ready then 1 else 0
  }

  ghost predicate Somebody(ownerRid: string, snap: Snapshot, xs: seq<string>) {
    exists s :: s in xs && Listed(ownerRid, snap.infos, s)
  }

  ghost predicate EverybodyReady(ownerRid: string, snap: Snapshot, xs: seq<string>) {
    forall s :: s in xs && Listed(ownerRid, snap.infos, s) ==> s in snap.ready
  }

  /** There is somebody to list, and everybody listed is ready. */
  ghost predicate AllReadyFlag(ownerRid: string, snap: Snapshot) {
    Somebody(ownerRid, snap, snap.members) && EverybodyReady(ownerRid, snap, snap.members)
  }

  lemma ListedSnoc(ownerRid: string, snap: Snapshot, xs: seq<string>, x: string)
    ensures Somebody(ownerRid, snap, xs + [x]) <==> Somebody(ownerRid, snap, xs) || Listed(ownerRid, snap.infos, x)
    ensures EverybodyReady(ownerRid, snap, xs + [x]) <==>
            EverybodyReady(ownerRid, snap, xs) && (Listed(ownerRid, snap.infos, x) ==> x in snap.ready)
  {
    assert x in xs + [x];
    assert forall s :: s in xs ==> s in xs + [x];
    if Somebody(ownerRid, snap, xs) {
      var s :| s in xs && Listed(ownerRid, snap.infos, s);
      assert s in xs + [x];
    }
  }

  /** What a listing of rows says about the sockets it was made from. */
  ghost predicate Reflects(ownerRid: string, snap: Snapshot, rows: seq<Row>, xs: seq<string>) {
    && ReadyRows(rows) <= |rows|
    && (rows != [] <==> Somebody(ownerRid, snap, xs))
    && (ReadyRows(rows) == |rows| <==> EverybodyReady(ownerRid, snap, xs))
  }

  lemma ReflectsSnoc(ownerRid: string, snap: Snapshot, rows: seq<Row>, xs: seq<string>, x: string)
    requires Reflects(ownerRid, snap, rows, xs)
    ensures if Listed(ownerRid, snap.infos, x)
            then Reflects(ownerRid, snap, rows + [Row(snap.infos[x].rid, snap.infos[x].nickname, x in snap.ready)],
                xs + [x])
            else Reflects(ownerRid, snap, rows, xs + [x])
  {
    ListedSnoc(ownerRid, snap, xs, x);
    if Listed(ownerRid, snap.infos, x) {
      ReadyRowsSnoc(rows, Row(snap.infos[x].rid, snap.infos[x].nickname, x in snap.ready));
    }
  }

  lemma {:induction false} RowsReady(ownerRid: string, snap: Snapshot, n: nat)
    requires n <= |snap.members|
    ensures Reflects(ownerRid, snap, Rows(ownerRid, snap, n), snap.members[..n])
  {
    if n > 0 {
      RowsReady(ownerRid, snap, n - 1);
      ReflectsSnoc(ownerRid, snap, Rows(ownerRid, snap, n - 1), snap.members[..n - 1], snap.members[n - 1]);
      assert snap.members[..n] == snap.members[..n - 1] + [snap.members[n - 1]];
      RowsNext(ownerRid, snap, n);
    }
  }

  lemma RowsNext(ownerRid: string, snap: Snapshot, n: nat)
    requires 0 < n <= |snap.members|
    ensures var s := snap.members[n - 1];
            Rows(ownerRid, snap, n) ==
            if Listed(ownerRid, snap.infos, s)
            then Rows(ownerRid, snap, n - 1) + [Row(snap.infos[s].rid, snap.infos[s].nickname, s in snap.ready)]
            else Rows(ownerRid, snap, n - 1)
  {}

  lemma ReadyRowsSnoc(rows: seq<Row>, row: Row)
    ensures ReadyRows(rows + [row]) == ReadyRows(rows) + if row.ready then 1 else 0
  {
    assert (rows + [row])[..|rows|] == rows;
  }

  /** The sockets behind the rows of a list: each once, in the order of the rows. */
  ghost predicate Behind(ownerRid: string, snap: Snapshot, members: seq<string>, who: seq<string>, rows: seq<Row>) {
    && Distinct(who)
    && (forall s :: s in who <==> s in members && s in snap.infos && snap.infos[s].rid != ownerRid
                                  && snap.infos[s].role == Role.Participant)
    && |rows| == |who|
    && (forall i :: 0 <= i < |who| ==>
          rows[i] == Row(snap.infos[who[i]].rid, snap.infos[who[i]].nickname, who[i] in snap.ready))
    && ReadyRows(rows) == |ReadyAmong(who, snap.ready)|
  }

  function ReadyAmong(who: seq<string>, ready: set<string>): set<string> {
    set s | s in who && s in ready
  }

  lemma BehindSnoc(ownerRid: string, snap: Snapshot, members: seq<string>, x: string, who: seq<string>, rows: seq<Row>)
    requires Behind(ownerRid, snap, members, who, rows) && x !in members
    ensures if Listed(ownerRid, snap.infos, x) then
              var row := Row(snap.infos[x].rid, snap.infos[x].nickname, x in snap.ready);
              Behind(ownerRid, snap, members + [x], who + [x], rows + [row])
            else Behind(ownerRid, snap, members + [x], who, rows)
  {
    if Listed(ownerRid, snap.infos, x) {
      ReadyRowsSnoc(rows, Row(snap.infos[x].rid, snap.infos[x].nickname, x in snap.ready));
      assert ReadyAmong(who + [x], snap.ready) ==
             ReadyAmong(who, snap.ready) + if x in snap.ready then {x} else {};
    }
  }

  lemma {:induction false} BehindRows(ownerRid: string, snap: Snapshot, n: nat) returns (who: seq<string>)
    requires n <= |snap.members| && Distinct(snap.members)
    ensures Behind(ownerRid, snap, snap.members[..n], who, Rows(ownerRid, snap, n))
  {
    who := [];
    if n > 0 {
      var x := snap.members[n - 1];
      who := BehindRows(ownerRid, snap, n - 1);
      BehindSnoc(ownerRid, snap, snap.members[..n - 1], x, who, Rows(ownerRid, snap, n - 1));
      assert snap.members[..n] == snap.members[..n - 1] + [x];
      RowsNext(ownerRid, snap, n);
      if Listed(ownerRid, snap.infos, x) {
        who := who + [x];
      }
    }
  }

  /** The owner's list has exactly one row for each member that is a participant and does not carry the owner's rid,
      with that member's own rid, nickname and readiness; and it counts those that are ready. */
  lemma RowsExactly(ownerRid: string, snap: Snapshot) returns (who: seq<string>)
    requires Distinct(snap.members)
    ensures Behind(ownerRid, snap, snap.members, who, Rows(ownerRid, snap, |snap.members|))
  {
    who := BehindRows(ownerRid, snap, |snap.members|);
    assert snap.members[..|snap.members|] == snap.members;
  }

  // ----- the gate -----

  /** The gate sees only the room's registered members: two snapshots that agree on who is registered in the
      room, on their roles, on which participants among them are ready and on the config being there pass
      the same gate, whatever stale members, foreign sockets or foreign ready ids either of them holds. */
  lemma GateIgnoresTheRest(room: string, a: Snapshot, b: Snapshot)
    requires a.config.Some? == b.config.Some?
    requires forall s :: s in a.members && Registered(room, a.infos, s) <==>
                         s in b.members && Registered(room, b.infos, s)
    requires forall s :: s in a.members && Registered(room, a.infos, s) ==>
                         s in b.infos && a.infos[s].role == b.infos[s].role
    requires forall s :: s in a.members && Playing(room, a.infos, s) ==> (s in a.ready <==> s in b.ready)
    ensures GateOf(room, a) == GateOf(room, b)
  {
    if s :| s in b.members && Playing(room, b.infos, s) && s !in b.ready {
      assert s in a.members && Playing(room, a.infos, s) && s !in a.ready;
    }
    if s :| s in a.members && Playing(room, a.infos, s) && s !in a.ready {
      assert s in b.members && Playing(room, b.infos, s) && s !in b.ready;
    }
  }

  /** With at least one participant, every member that has info registered in the room, and no participant
      carrying the owner's rid, the owner's flag is the spin's readiness check. */
  lemma FlagIsGate(room: string, ownerRid: string, snap: Snapshot)
    requires forall s :: s in snap.members && s in snap.infos ==> snap.infos[s].roomId == room
    requires forall s :: s in snap.members && Playing(room, snap.infos, s) ==> snap.infos[s].rid != ownerRid
    requires exists s :: s in snap.members && Playing(room, snap.infos, s)
    ensures AllReadyFlag(ownerRid, snap) <==> GateOf(room, snap) !in {NoMembers, NotAllReady}
  {
    assert forall s :: s in snap.members ==> (Listed(ownerRid, snap.infos, s) <==> Playing(room, snap.infos, s));
    var p :| p in snap.members && Playing(room, snap.infos, p);
    assert Listed(ownerRid, snap.infos, p) && Registered(room, snap.infos, p);
  }

  // ----- the round -----

  lemma {:induction false} ActiveMembers(room: string, snap: Snapshot, n: nat)
    requires n <= |snap.members|
    ensures forall s :: s in Active(room, snap, n) <==> s in snap.members[..n] && Registered(room, snap.infos, s)
    ensures Distinct(snap.members) ==> Distinct(Active(room, snap, n))
  {
    if n > 0 {
      ActiveMembers(room, snap, n - 1);
      assert snap.members[..n] == snap.members[..n - 1] + [snap.members[n - 1]];
    }
  }

  /** A resolved round lists every active socket once. It announces the configured number of winners, or all
      active sockets if they are fewer (at least one, since no stored config asks for fewer), and the configured
      sentiment; the announced count, the private outcomes and the public summary all agree. */
  lemma RoundAgrees(room: string, snap: Snapshot, draws: seq<nat>, online: set<string>, round: Round)
    requires Distinct(snap.members) && GateOf(room, snap).Pass?
    requires snap.config.Some? && snap.config.value.winnersCount >= 1
    requires RoundOf(room, snap, draws, online, round)
    ensures forall s :: s in snap.members && Registered(room, snap.infos, s) <==>
                        exists i :: 0 <= i < |round.outcomes| && round.outcomes[i].socketId == s
    ensures forall i, j :: 0 <= i < j < |round.outcomes| ==>
                           round.outcomes[i].socketId != round.outcomes[j].socketId
    ensures 1 <= round.announced == Wins(round.outcomes)
    ensures round.announced <= snap.config.value.winnersCount && round.announced <= |round.outcomes|
    ensures round.announced == snap.config.value.winnersCount || round.announced == |round.outcomes|
    ensures round.sentiment == snap.config.value.winSentiment
    ensures |round.summary| == |round.outcomes|
    ensures forall i :: 0 <= i < |round.summary| ==>
                        round.summary[i] == (round.outcomes[i].nickname, round.outcomes[i].win)
    ensures forall o :: o in round.outcomes ==> NamedAs(snap.infos, o.socketId, o.nickname)
    ensures forall s, w :: (s, w) in round.told <==>
                           s in online && exists i :: 0 <= i < |round.outcomes|
                                                      && round.outcomes[i].socketId == s && round.outcomes[i].win == w
  {
    var active := Active(room, snap, |snap.members|);
    ActiveMembers(room, snap, |snap.members|);
    assert snap.members[..|snap.members|] == snap.members;
    assert exists s :: s in active;
    WinnersCounted(active, draws, round);
    OutcomesOf(round, active);
    ToldMembers(round.outcomes, online);
    forall o | o in round.outcomes ensures NamedAs(snap.infos, o.socketId, o.nickname) {
      assert o.socketId in active;
    }
  }

  /** A socket that has an info is called by its own nickname, or "unknown" in Korean if that is empty. */
  predicate NamedAs(infos: map<string, SocketInfo>, socket: string, nickname: string) {
    && socket in infos
    && (infos[socket].nickname != "" ==> nickname == infos[socket].nickname)
    && (infos[socket].nickname == "" ==> nickname == "알 수 없음")
  }

  lemma OutcomesOf(round: Round, active: seq<string>)
    requires Sockets(round, active)
    ensures forall s :: s in active <==> exists i :: 0 <= i < |round.outcomes| && round.outcomes[i].socketId == s
  {
    forall s | s in active ensures exists i :: 0 <= i < |round.outcomes| && round.outcomes[i].socketId == s {
      var i :| 0 <= i < |active| && active[i] == s;
      assert round.outcomes[i].socketId == s;
    }
  }

  lemma {:induction false} WinnersCounted(active: seq<string>, draws: seq<nat>, round: Round)
    requires Distinct(active) && |draws| == |active| && Draws(draws) && Sockets(round, active)
    requires 0 <= round.announced <= |active|
    requires forall o :: o in round.outcomes ==>
               (o.win <==> o.socketId in Slice(Shuffle(active, draws), round.announced))
    ensures Wins(round.outcomes) == round.announced
  {
    var winners := Shuffle(active, draws)[..round.announced];
    ShufflePermutes(active, draws);
    PermutationDistinct(active, Shuffle(active, draws));
    assert Slice(Shuffle(active, draws), round.announced) == winners;
    WinsCount(round.outcomes, active, SetOf(winners));
    SizeOfDistinct(winners);
  }

  lemma {:induction false} SizeOfDistinct(xs: seq<string>)
    requires Distinct(xs)
    ensures |SetOf(xs)| == |xs|
  {
    if xs != [] {
      var rest, last := xs[..|xs| - 1], xs[|xs| - 1];
      SizeOfDistinct(rest);
      assert SetOf(xs) == SetOf(rest) + {last};
      assert last !in rest;
    }
  }

  lemma WithoutLast(active: seq<string>, winners: set<string>)
    requires active != [] && Distinct(active) && forall w :: w in winners ==> w in active
    ensures var last := active[|active| - 1];
            && (forall w :: w in winners - {last} ==> w in active[..|active| - 1])
            && last !in active[..|active| - 1]
            && |winners| == |winners - {last}| + if last in winners then 1 else 0
  {
    var n := |active| - 1;
    forall w | w in winners - {active[n]} ensures w in active[..n] {
      var i :| 0 <= i < |active| && active[i] == w;
      assert active[..n][i] == w;
    }
    if active[n] in winners {
      assert winners == winners - {active[n]} + {active[n]};
    } else {
      assert winners == winners - {active[n]};
    }
  }

  /** The outcomes are the active sockets', and exactly the winners' win. */
  ghost predicate Marks(outcomes: seq<Outcome>, active: seq<string>, winners: set<string>) {
    && Distinct(active) && |outcomes| == |active| && (forall w :: w in winners ==> w in active)
    && (forall i :: 0 <= i < |active| ==>
          outcomes[i].socketId == active[i] && (outcomes[i].win <==> active[i] in winners))
  }

  lemma MarksPrefix(outcomes: seq<Outcome>, active: seq<string>, winners: set<string>)
    requires active != [] && Marks(outcomes, active, winners)
    ensures var n := |active| - 1; Marks(outcomes[..n], active[..n], winners - {active[n]})
  {
    WithoutLast(active, winners);
  }

  /** Marking the members of a set of distinct active sockets marks as many sockets as the set has. */
  lemma {:induction false} WinsCount(outcomes: seq<Outcome>, active: seq<string>, winners: set<string>)
    requires Marks(outcomes, active, winners)
    ensures Wins(outcomes) == |winners|
  {
    if active == [] {
      assert winners == {};
    } else {
      var n := |active| - 1;
      WithoutLast(active, winners);
      MarksPrefix(outcomes, active, winners);
      WinsCount(outcomes[..n], active[..n], winners - {active[n]});
      assert outcomes[n].win <==> active[n] in winners;
    }
  }

  lemma {:induction false} ToldMembers(outcomes: seq<Outcome>, online: set<string>)
    ensures forall s, w :: (s, w) in Told(outcomes, online) <==>
                           s in online && exists i :: 0 <= i < |outcomes|
                                                      && outcomes[i].socketId == s && outcomes[i].win == w
  {
    if outcomes != [] {
      ToldMembers(outcomes[..|outcomes| - 1], online);
      assert outcomes == outcomes[..|outcomes| - 1] + [outcomes[|outcomes| - 1]];
    }
  }
}
