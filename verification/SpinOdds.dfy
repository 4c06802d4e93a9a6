/** The odds of a spin: how many of the equally likely draws make a socket win. */
module SpinOdds {
  import opened Options
  import opened RedisTables
  import opened Store
  import opened Selection
  import opened SpinRound
  import F = FairOdds

  /** Some round that the snapshot and the draws admit has the socket win. */
  ghost predicate WinsWith(room: string, snap: Snapshot, draws: seq<nat>, online: set<string>, socket: string) {
    exists round :: RoundOf(room, snap, draws, online, round) && HasWin(round, socket)
  }

  ghost predicate HasWin(round: Round, socket: string) {
    exists o :: o in round.outcomes && o.socketId == socket && o.win
  }

  /** The draws, one for each active socket, with which the socket wins. */
  ghost function WinningDraws(room: string, snap: Snapshot, online: set<string>, socket: string): set<seq<nat>> {
    set d | d in F.AllDraws(|Active(room, snap, |snap.members|)|) && WinsWith(room, snap, d, online, socket)
  }

  function OutcomeOf(snap: Snapshot, winners: seq<string>, socket: string): Outcome {
    Outcome(socket, NicknameOf(snap.infos, socket), socket in winners)
  }

  /** A round that the snapshot and the draws admit. */
  lemma RoundExists(room: string, snap: Snapshot, draws: seq<nat>, online: set<string>) returns (round: Round)
    requires snap.config.Some? && |draws| == |Active(room, snap, |snap.members|)| && Draws(draws)
    ensures RoundOf(room, snap, draws, online, round)
  {
    var active := Active(room, snap, |snap.members|);
    var k := Min(snap.config.value.winnersCount, |active|);
    var winners := Slice(Shuffle(active, draws), k);
    var outcomes := seq(|active|, i requires 0 <= i < |active| => OutcomeOf(snap, winners, active[i]));
    round := Round(k, snap.config.value.winSentiment, outcomes, Told(outcomes, online), Summary(outcomes));
  }

  /** Every round that the snapshot and the draws admit has the same winners: the first of the shuffle. */
  lemma WinsExactly(room: string, snap: Snapshot, draws: seq<nat>, online: set<string>, round: Round, q: nat)
    requires RoundOf(room, snap, draws, online, round) && q < |Active(room, snap, |snap.members|)|
    ensures var active := Active(room, snap, |snap.members|);
            HasWin(round, active[q]) <==> active[q] in Slice(Shuffle(active, draws), round.announced)
  {
    var active := Active(room, snap, |snap.members|);
    assert round.outcomes[q] in round.outcomes && round.outcomes[q].socketId == active[q];
  }

  lemma WinsIffChosen(room: string, snap: Snapshot, draws: seq<nat>, online: set<string>, q: nat)
    requires snap.config.Some? && q < |Active(room, snap, |snap.members|)|
    requires draws in F.AllDraws(|Active(room, snap, |snap.members|)|) && snap.config.value.winnersCount >= 0
    ensures var active := Active(room, snap, |snap.members|);
            WinsWith(room, snap, draws, online, active[q]) <==>
            F.Chosen(active, draws, Min(snap.config.value.winnersCount, |active|), q)
  {
    var active := Active(room, snap, |snap.members|);
    F.AllDrawsMembers(|active|, draws);
    var round := RoundExists(room, snap, draws, online);
    WinsExactly(room, snap, draws, online, round, q);
    if WinsWith(room, snap, draws, online, active[q]) {
      var other :| RoundOf(room, snap, draws, online, other) && HasWin(other, active[q]);
      WinsExactly(room, snap, draws, online, other, q);
    }
  }

  /** In a spin of n active sockets whose config asks for k winners, each active socket wins with exactly
      k * (n - 1)! of the n! draw vectors, whoever is connected: k chances in n for everybody. If k exceeds n,
      everybody wins with every draw vector. */
  lemma SpinIsFair(room: string, snap: Snapshot, online: set<string>, socket: string)
    requires Distinct(snap.members) && snap.config.Some? && snap.config.value.winnersCount >= 0
    requires socket in snap.members && Registered(room, snap.infos, socket)
    ensures var n := |Active(room, snap, |snap.members|)|;
            && n >= 1 && |F.AllDraws(n)| == F.Factorial(n)
            && (snap.config.value.winnersCount <= n ==>
                  |WinningDraws(room, snap, online, socket)| == snap.config.value.winnersCount * F.Factorial(n - 1))
            && (snap.config.value.winnersCount > n ==>
                  |WinningDraws(room, snap, online, socket)| == F.Factorial(n))
  {
    var active := Active(room, snap, |snap.members|);
    ActiveMembers(room, snap, |snap.members|);
    assert snap.members[..|snap.members|] == snap.members;
    assert socket in active;
    var q: nat :| q < |active| && active[q] == socket;
    var k := Min(snap.config.value.winnersCount, |active|);
    F.AllDrawsSize(|active|);
    F.FairOdds(active, k, q);
    SameDraws(room, snap, online, q);
  }

  lemma SameDraws(room: string, snap: Snapshot, online: set<string>, q: nat)
    requires snap.config.Some? && q < |Active(room, snap, |snap.members|)| && snap.config.value.winnersCount >= 0
    ensures var active := Active(room, snap, |snap.members|);
            WinningDraws(room, snap, online, active[q]) ==
            F.ChoosingDraws(active, Min(snap.config.value.winnersCount, |active|), q)
  {
    var active := Active(room, snap, |snap.members|);
    forall d | d in F.AllDraws(|active|)
      ensures WinsWith(room, snap, d, online, active[q]) <==>
              F.Chosen(active, d, Min(snap.config.value.winnersCount, |active|), q)
    {
      WinsIffChosen(room, snap, d, online, q);
    }
  }
}
