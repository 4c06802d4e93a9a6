/** The per-socket sliding-window rate limiter: 30 events in 10 seconds. */
module Throttler {
  const LIMIT := 30
  const TTL := 10_000

  // ----- one decision -----

  function Recent(times: seq<int>, now: int): seq<int> {
    if times == [] then []
    else
      var rest := Recent(times[..|times| - 1], now);
      var last := times[|times| - 1];
      if now - last < TTL then rest + [last] else rest
  }

  function Lookup(counts: map<string, seq<int>>, client: string): seq<int> {
    if client in counts then counts[client] else []
  }

  /** What a sweep leaves: the recent times of every client that has any. */
  function Swept(counts: map<string, seq<int>>, now: int): map<string, seq<int>> {
    map c | c in counts && Recent(counts[c], now) != [] :: Recent(counts[c], now)
  }

  /** Seconds, rounded up, until the oldest recent event leaves the window. */
  function RetryAfter(oldest: int, now: int): int {
    (oldest + TTL - now + 999) / 1000
  }

  class WsThrottlerGuard {
    var requestCounts: map<string, seq<int>>

    constructor ()
      ensures requestCounts == map[]
    {
      requestCounts := map[];
    }

    /** `sweep` is the outcome of the random draw, `sweepAt` the clock when the sweep reads it. */
    method CanActivate(client: string, now: int, sweep: bool, sweepAt: int)
      returns (accepted: bool, retryAfter: int)
      modifies this
      ensures accepted <==> Accepts(old(requestCounts), Event(client, now, sweep, sweepAt))
      ensures requestCounts == Next(old(requestCounts), Event(client, now, sweep, sweepAt))
      ensures !accepted ==> retryAfter == RetryAfter(Recent(Lookup(old(requestCounts), client), now)[0], now)
      ensures !accepted ==>
                var left := Recent(Lookup(old(requestCounts), client), now)[0] + 10_000 - now;
                1000 * (retryAfter - 1) < left <= 1000 * retryAfter
    {
      retryAfter := 0;
      var requests := Lookup(requestCounts, client);
      var recentRequests := Recent(requests, now);
      if |recentRequests| >= LIMIT {
        retryAfter := RetryAfter(recentRequests[0], now);
        return false, retryAfter;
      }
      recentRequests := recentRequests + [now];
      requestCounts := requestCounts[client := recentRequests];
      if sweep {
        Cleanup(sweepAt);
      }
      accepted := true;
    }

    /** Afterwards every client in the map has times, all less than 10 seconds old; the other clients had none. */
    method Cleanup(now: int)
      modifies this
      ensures requestCounts == Swept(old(requestCounts), now)
      ensures forall c :: c in requestCounts ==>
                && c in old(requestCounts) && requestCounts[c] != []
                && forall x :: x in requestCounts[c] <==> x in old(requestCounts)[c] && now - x < 10_000
      ensures forall c, x :: c in old(requestCounts) && c !in requestCounts && x in old(requestCounts)[c] ==>
                             now - x >= 10_000
    {
      ghost var before := requestCounts;
      var clients := requestCounts.Keys;
      while clients != {}
        invariant clients <= before.Keys && requestCounts.Keys <= before.Keys
        invariant forall c :: c in clients ==> c in requestCounts && requestCounts[c] == before[c]
        invariant forall c :: c in before && c !in clients ==>
                    (c in requestCounts <==> c in Swept(before, now))
        invariant forall c :: c in requestCounts && c !in clients ==> requestCounts[c] == Recent(before[c], now)
        decreases clients
      {
        var c :| c in clients;
        var recent := Recent(requestCounts[c], now);
        if |recent| == 0 {
          requestCounts := requestCounts - {c};
        } else {
          requestCounts := requestCounts[c := recent];
        }
        clients := clients - {c};
      }
      assert requestCounts == Swept(before, now);
      forall c | c in before
        ensures forall x :: x in Recent(before[c], now) <==> x in before[c] && now - x < TTL
      {
        RecentKeeps(before[c], now);
      }
    }
  }

  // ----- whole runs -----

  datatype Event = Event(client: string, now: int, sweep: bool, sweepAt: int) {
    function End(): int { if sweep then sweepAt else now }
  }

  /** The clock never goes back, within an event or from one event to the next. */
  ghost predicate Clocked(run: seq<Event>) {
    && (forall i :: 0 <= i < |run| ==> run[i].now <= run[i].End())
    && (forall i, j :: 0 <= i < j < |run| ==> run[i].End() <= run[j].now)
  }

  function Accepts(counts: map<string, seq<int>>, e: Event): bool {
    |Recent(Lookup(counts, e.client), e.now)| < LIMIT
  }

  function Next(counts: map<string, seq<int>>, e: Event): map<string, seq<int>> {
    if !Accepts(counts, e) then counts
    else
      var added := counts[e.client := Recent(Lookup(counts, e.client), e.now) + [e.now]];
      if e.sweep then Swept(added, e.sweepAt) else added
  }

  /** The guard's map after a run. */
  function Counts(run: seq<Event>): map<string, seq<int>> {
    if run == [] then map[] else Next(Counts(run[..|run| - 1]), run[|run| - 1])
  }

  /** The times at which the guard accepted events of a client: the full, never pruned history. */
  function Accepted(run: seq<Event>, client: string): seq<int> {
    if run == [] then []
    else
      var before, e := run[..|run| - 1], run[|run| - 1];
      Accepted(before, client) + if e.client == client && Accepts(Counts(before), e) then [e.now] else []
  }

  function InWindow(times: seq<int>, start: int): nat {
    if times == [] then 0
    else
      var last := times[|times| - 1];
      InWindow(times[..|times| - 1], start) + if start <= last < start + 10_000 then 1 else 0
  }

  ghost predicate UpTo(times: seq<int>, now: int) {
    forall i :: 0 <= i < |times| ==> times[i] <= now
  }

  lemma {:induction false} RecentTwice(times: seq<int>, now: int, later: int)
    requires now <= later
    ensures Recent(Recent(times, now), later) == Recent(times, later)
  {
    if times != [] {
      RecentTwice(times[..|times| - 1], now, later);
      RecentAppend(Recent(times[..|times| - 1], now), times[|times| - 1], later);
    }
  }

  lemma RecentAppend(times: seq<int>, x: int, now: int)
    ensures Recent(times + [x], now) == Recent(times, now) + if now - x < TTL then [x] else []
  {
    assert (times + [x])[..|times|] == times;
  }

  lemma {:induction false} RecentKeeps(times: seq<int>, now: int)
    ensures forall x :: x in Recent(times, now) <==> x in times && now - x < TTL
  {
    if times != [] {
      RecentKeeps(times[..|times| - 1], now);
      assert times == times[..|times| - 1] + [times[|times| - 1]];
    }
  }

  lemma {:induction false} RecentWithin(times: seq<int>, now: int, start: int)
    requires UpTo(times, now) && start <= now
    ensures now < start + TTL ==> InWindow(times, start) <= |Recent(times, now)|
    ensures start == now - TTL + 1 ==> InWindow(times, start) == |Recent(times, now)|
  {
    if times != [] {
      RecentWithin(times[..|times| - 1], now, start);
    }
  }

  lemma Unroll(before: seq<Event>, e: Event, client: string)
    ensures Counts(before + [e]) == Next(Counts(before), e)
    ensures Accepted(before + [e], client) ==
            Accepted(before, client) + if e.client == client && Accepts(Counts(before), e) then [e.now] else []
  {
    assert (before + [e])[..|before|] == before;
  }

  lemma ClockedPrefix(before: seq<Event>, e: Event)
    requires Clocked(before + [e])
    ensures Clocked(before) && e.now <= e.End()
    ensures before != [] ==> before[|before| - 1].now <= before[|before| - 1].End() <= e.now
  {
    var all := before + [e];
    assert forall i :: 0 <= i < |before| ==> before[i] == all[i];
    assert all[|before|] == e;
  }

  /** One accepted event, with or without a sweep, keeps the pruned times of a client in agreement with its
      full history at every later instant. */
  lemma AcceptKeepsAgreement(counts: map<string, seq<int>>, past: seq<int>, e: Event, client: string, later: int)
    requires e.now <= e.End() <= later && Accepts(counts, e)
    requires Recent(Lookup(counts, client), later) == Recent(past, later)
    ensures Recent(Lookup(Next(counts, e), client), later) ==
            Recent(past + if e.client == client then [e.now] else [], later)
  {
    var kept := Recent(Lookup(counts, e.client), e.now);
    var added := counts[e.client := kept + [e.now]];
    if e.client == client {
      RecentAppend(kept, e.now, later);
      RecentTwice(Lookup(counts, client), e.now, later);
      RecentAppend(past, e.now, later);
    } else {
      assert past + [] == past;
    }
    if e.sweep {
      SweptLookup(added, client, e.sweepAt);
      RecentTwice(Lookup(added, client), e.sweepAt, later);
    }
  }

  lemma SweptLookup(counts: map<string, seq<int>>, client: string, now: int)
    ensures Lookup(Swept(counts, now), client) == Recent(Lookup(counts, client), now)
  {}

  /** The pruned map carries, at any later instant, the same recent times as the full history. */
  lemma {:induction false} PrunedAgrees(run: seq<Event>, client: string, later: int)
    requires Clocked(run)
    requires run != [] ==> run[|run| - 1].End() <= later
    ensures Recent(Lookup(Counts(run), client), later) == Recent(Accepted(run, client), later)
  {
    if run != [] {
      var before, e := run[..|run| - 1], run[|run| - 1];
      assert run == before + [e];
      ClockedPrefix(before, e);
      Unroll(before, e, client);
      PrunedAgrees(before, client, later);
      if Accepts(Counts(before), e) {
        AcceptKeepsAgreement(Counts(before), Accepted(before, client), e, client, later);
      } else {
        assert Accepted(before, client) + [] == Accepted(before, client);
      }
    }
  }

  /** Under any schedule of sweeps the guard decides as a guard that keeps the full history would. */
  lemma ThrottleRefinement(run: seq<Event>, e: Event)
    requires Clocked(run + [e])
    ensures Accepts(Counts(run), e) <==> |Recent(Accepted(run, e.client), e.now)| < 30
  {
    ClockedPrefix(run, e);
    PrunedAgrees(run, e.client, e.now);
  }

  lemma UpToAppend(times: seq<int>, xs: seq<int>, now: int, later: int)
    requires (times != [] ==> UpTo(times, now)) && now <= later && (xs == [] || xs == [later])
    ensures UpTo(times + xs, later)
  {}

  lemma {:induction false} AcceptedUpTo(run: seq<Event>, client: string)
    requires Clocked(run)
    ensures Accepted(run, client) != [] ==> run != [] && UpTo(Accepted(run, client), run[|run| - 1].now)
  {
    if run != [] {
      var before, e := run[..|run| - 1], run[|run| - 1];
      assert run == before + [e];
      ClockedPrefix(before, e);
      Unroll(before, e, client);
      AcceptedUpTo(before, client);
      UpToAppend(Accepted(before, client), if e.client == client && Accepts(Counts(before), e) then [e.now] else [],
                 if before == [] then e.now else before[|before| - 1].now, e.now);
    }
  }

  lemma HistoryUpTo(run: seq<Event>, e: Event)
    requires Clocked(run + [e])
    ensures UpTo(Accepted(run, e.client), e.now)
  {
    ClockedPrefix(run, e);
    AcceptedUpTo(run, e.client);
  }

  // ----- the guard it refines -----

  /** A guard that never forgets an accepted event and counts those of the last 10 seconds each time. */
  function SimpleAccepts(history: map<string, seq<int>>, e: Event): bool {
    InWindow(Lookup(history, e.client), e.now - 9_999) < 30
  }

  function History(run: seq<Event>): map<string, seq<int>> {
    if run == [] then map[]
    else
      var past, e := History(run[..|run| - 1]), run[|run| - 1];
      if SimpleAccepts(past, e) then past[e.client := Lookup(past, e.client) + [e.now]] else past
  }

  function SimpleDecisions(run: seq<Event>): seq<bool> {
    if run == [] then []
    else SimpleDecisions(run[..|run| - 1]) + [SimpleAccepts(History(run[..|run| - 1]), run[|run| - 1])]
  }

  function Decisions(run: seq<Event>): seq<bool> {
    if run == [] then []
    else Decisions(run[..|run| - 1]) + [Accepts(Counts(run[..|run| - 1]), run[|run| - 1])]
  }

  /** With the same history of a client, the two guards decide alike about its next event. */
  lemma SameDecision(before: seq<Event>, e: Event)
    requires Clocked(before + [e]) && Lookup(History(before), e.client) == Accepted(before, e.client)
    ensures SimpleAccepts(History(before), e) == Accepts(Counts(before), e)
  {
    ThrottleRefinement(before, e);
    HistoryUpTo(before, e);
    RecentWithin(Accepted(before, e.client), e.now, e.now - TTL + 1);
  }

  lemma HistoryStep(before: seq<Event>, e: Event, client: string)
    ensures Lookup(History(before + [e]), client) ==
            Lookup(History(before), client) + if e.client == client && SimpleAccepts(History(before), e) then [e.now]
                else []
  {
    assert (before + [e])[..|before|] == before;
  }

  lemma {:induction false} SameHistory(run: seq<Event>, client: string)
    requires Clocked(run)
    ensures Lookup(History(run), client) == Accepted(run, client)
  {
    if run != [] {
      var before, e := run[..|run| - 1], run[|run| - 1];
      assert run == before + [e];
      ClockedPrefix(before, e);
      SameHistory(before, client);
      HistoryStep(before, e, client);
      Unroll(before, e, client);
      if e.client == client {
        SameDecision(before, e);
      }
    }
  }

  /** Under any schedule of sweeps the guard makes the same decisions, event by event, as the guard that never
      forgets. */
  lemma {:induction false} DecisionsAgree(run: seq<Event>)
    requires Clocked(run)
    ensures Decisions(run) == SimpleDecisions(run)
  {
    if run != [] {
      var before, e := run[..|run| - 1], run[|run| - 1];
      assert run == before + [e];
      ClockedPrefix(before, e);
      DecisionsAgree(before);
      SameHistory(before, e.client);
      SameDecision(before, e);
    }
  }

  /** In every run, every window of 10 seconds holds at most 30 accepted events of a client. */
  lemma {:induction false} ThrottleBound(run: seq<Event>, client: string, start: int)
    requires Clocked(run)
    ensures InWindow(Accepted(run, client), start) <= 30
  {
    if run != [] {
      var before, e := run[..|run| - 1], run[|run| - 1];
      assert run == before + [e];
      ClockedPrefix(before, e);
      Unroll(before, e, client);
      ThrottleBound(before, client, start);
      var past := Accepted(before, client);
      if e.client == client && Accepts(Counts(before), e) {
        ThrottleRefinement(before, e);
        HistoryUpTo(before, e);
        BoundStep(past, e.now, start);
      } else {
        assert past + [] == past;
      }
    }
  }

  lemma BoundStep(past: seq<int>, now: int, start: int)
    requires UpTo(past, now) && |Recent(past, now)| < LIMIT && InWindow(past, start) <= LIMIT
    ensures InWindow(past + [now], start) <= LIMIT
  {
    assert (past + [now])[..|past|] == past;
    if start <= now < start + TTL {
      RecentWithin(past, now, start);
    }
  }

  lemma {:induction false} SilenceKeepsHistory(run: seq<Event>, silent: seq<Event>, client: string)
    requires forall i :: 0 <= i < |silent| ==> silent[i].client != client
    ensures Accepted(run + silent, client) == Accepted(run, client)
  {
    if silent == [] {
      assert run + silent == run;
    } else {
      var less, e := silent[..|silent| - 1], silent[|silent| - 1];
      assert run + silent == (run + less) + [e];
      Unroll(run + less, e, client);
      SilenceKeepsHistory(run, less, client);
    }
  }

  /** A rejected client has exactly 30 recent events, the oldest of them still inside the window. */
  lemma FullWindow(run: seq<Event>, rejected: Event)
    requires Clocked(run + [rejected]) && !Accepts(Counts(run), rejected)
    ensures var recent := Recent(Accepted(run, rejected.client), rejected.now);
            && recent == Recent(Lookup(Counts(run), rejected.client), rejected.now)
            && |recent| == LIMIT && rejected.now - TTL < recent[0] <= rejected.now
  {
    var past := Accepted(run, rejected.client);
    var recent := Recent(past, rejected.now);
    ClockedPrefix(run, rejected);
    PrunedAgrees(run, rejected.client, rejected.now);
    HistoryUpTo(run, rejected);
    ThrottleBound(run, rejected.client, rejected.now - TTL + 1);
    RecentWithin(past, rejected.now, rejected.now - TTL + 1);
    RecentKeeps(past, rejected.now);
    assert recent[0] in past;
  }

  /** A rejected client is told 1 to 10 seconds, and if it stays silent that long, whatever other clients
      do meanwhile, its next event is accepted. */
  lemma {:induction false} RetryIsHonoured(run: seq<Event>, rejected: Event, others: seq<Event>, retry: Event)
    requires Clocked(run + [rejected]) && Clocked(run + [rejected] + others + [retry])
    requires !Accepts(Counts(run), rejected)
    requires forall i :: 0 <= i < |others| ==> others[i].client != rejected.client
    requires retry.client == rejected.client && rejected.now <= retry.now
    ensures Recent(Lookup(Counts(run), rejected.client), rejected.now) != []
    ensures var wait := RetryAfter(Recent(Lookup(Counts(run), rejected.client), rejected.now)[0], rejected.now);
            && 1 <= wait <= 10
            && (rejected.now + 1000 * wait <= retry.now ==> Accepts(Counts(run + [rejected] + others), retry))
  {
    var c := rejected.client;
    var past := Accepted(run, c);
    FullWindow(run, rejected);
    var recent := Recent(past, rejected.now);
    ThrottleRefinement(run + [rejected] + others, retry);
    SilenceKeepsHistory(run + [rejected], others, c);
    Unroll(run, rejected, c);
    assert past + [] == past;
    RecentTwice(past, rejected.now, retry.now);
    if retry.now - recent[0] >= TTL {
      OldestLeaves(recent, retry.now);
    }
  }

  /** Nor is it told to wait longer than it has to: if nothing of it is accepted meanwhile, every event of it up to
      a second before the told time is over is rejected again. */
  lemma {:induction false} RetryIsTight(run: seq<Event>, rejected: Event, others: seq<Event>, retry: Event)
    requires Clocked(run + [rejected]) && Clocked(run + [rejected] + others + [retry])
    requires !Accepts(Counts(run), rejected)
    requires forall i :: 0 <= i < |others| ==> others[i].client != rejected.client
    requires retry.client == rejected.client && rejected.now <= retry.now
    ensures Recent(Lookup(Counts(run), rejected.client), rejected.now) != []
    ensures var wait := RetryAfter(Recent(Lookup(Counts(run), rejected.client), rejected.now)[0], rejected.now);
            retry.now <= rejected.now + 1000 * (wait - 1) ==> !Accepts(Counts(run + [rejected] + others), retry)
  {
    var c := rejected.client;
    var past := Accepted(run, c);
    FullWindow(run, rejected);
    var recent := Recent(past, rejected.now);
    ThrottleRefinement(run + [rejected] + others, retry);
    SilenceKeepsHistory(run + [rejected], others, c);
    Unroll(run, rejected, c);
    assert past + [] == past;
    RecentTwice(past, rejected.now, retry.now);
    ClockedPrefix(run, rejected);
    AcceptedInOrder(run, c);
    RecentInOrder(past, rejected.now);
    if retry.now - recent[0] < TTL {
      NobodyLeaves(recent, retry.now);
    }
  }

  ghost predicate InOrder(times: seq<int>) {
    forall i, j :: 0 <= i < j < |times| ==> times[i] <= times[j]
  }

  lemma {:induction false} AcceptedInOrder(run: seq<Event>, client: string)
    requires Clocked(run)
    ensures InOrder(Accepted(run, client))
  {
    if run != [] {
      var before, e := run[..|run| - 1], run[|run| - 1];
      assert run == before + [e];
      ClockedPrefix(before, e);
      Unroll(before, e, client);
      AcceptedInOrder(before, client);
      AcceptedUpTo(before, client);
    }
  }

  lemma {:induction false} RecentInOrder(times: seq<int>, now: int)
    requires InOrder(times)
    ensures InOrder(Recent(times, now))
  {
    if times != [] {
      var rest, last := times[..|times| - 1], times[|times| - 1];
      RecentInOrder(rest, now);
      RecentKeeps(rest, now);
      forall x | x in Recent(rest, now) ensures x <= last {
        var i :| 0 <= i < |rest| && rest[i] == x;
        assert times[i] == x;
      }
      var kept := Recent(rest, now);
      assert forall i :: 0 <= i < |kept| ==> kept[i] in kept;
    }
  }

  /** While the first of a list of times in order is in the window, all of them are. */
  lemma {:induction false} NobodyLeaves(times: seq<int>, now: int)
    requires InOrder(times) && (times != [] ==> now - times[0] < TTL)
    ensures Recent(times, now) == times
  {
    if times != [] {
      NobodyLeaves(times[..|times| - 1], now);
      assert times == times[..|times| - 1] + [times[|times| - 1]];
    }
  }

  /** Once the first of a list of times is out of the window, fewer than all of them remain. */
  lemma {:induction false} OldestLeaves(times: seq<int>, now: int)
    requires times != [] && now - times[0] >= TTL
    ensures |Recent(times, now)| < |times|
  {
    if |times| > 1 {
      OldestLeaves(times[..|times| - 1], now);
    }
  }
}
