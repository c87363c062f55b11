/**
  The matchmaking queue: an insertion-ordered map of waiting players, each with a timer that falls
  back to a solo match.  A request runs without interruption up to the creation of its match, so
  joining the queue is one step; the firing of a timer is another.  Match creation is taken to
  succeed.
 */
module Matchmaking {
  import opened Options

  const SKILL_TOLERANCE: real := 25.0
  const MATCH_TIMEOUT_MS: nat := 30_000
  const MAX_ATTEMPTS: nat := 6

  /** One admission to matchmaking; the ticket tells apart repeated admissions of one player. */
  datatype Seat = Seat(ticket: nat, player: int, skill: real)

  datatype Entry = Entry(seat: Seat, joinedAt: int, timer: nat)

  datatype Timer = Timer(player: int, skill: real, fireAt: int, armed: bool)

  datatype Match = Pair(first: Seat, second: Seat) | Solo(only: Seat)

  datatype Lobby = Lobby(
    queue: seq<Entry>,
    timers: seq<Timer>,
    matches: seq<Match>,
    admitted: seq<Seat>,
    now: int)

  datatype Outcome =
    | AlreadyQueued(position: nat, waitingMs: int)
    | Matched(match_: Match)
    | Queued(position: nat)

  function ComputeSkillScore(winRate: real, avgAttempts: real): real {
    winRate * 100.0 + (MAX_ATTEMPTS as real - avgAttempts) * 5.0
  }

  /** A score of 0 for no wins in six attempts; a point for each percent of wins, and five for each attempt spared. */
  lemma ScoreLaws(winRate: real, avgAttempts: real, more: real)
    ensures ComputeSkillScore(0.0, 6.0) == 0.0
    ensures ComputeSkillScore(winRate + more, avgAttempts) == ComputeSkillScore(winRate, avgAttempts) + 100.0 * more
    ensures ComputeSkillScore(winRate, avgAttempts - more) == ComputeSkillScore(winRate, avgAttempts) + 5.0 * more
  {
  }

  function Distance(a: real, b: real): real {
    if a < b then b - a else a - b
  }

  // ---------------------------------------------------------------- the queue as a value

  function IndexOf(queue: seq<Entry>, player: int): (k: int)
    ensures -1 <= k < |queue|
    ensures k >= 0 ==> queue[k].seat.player == player
    ensures k == -1 <==> forall e | e in queue :: e.seat.player != player
  {
    if queue == [] then -1
    else if queue[|queue| - 1].seat.player == player then |queue| - 1
    else
      var k := IndexOf(queue[..|queue| - 1], player);
      assert queue == queue[..|queue| - 1] + [queue[|queue| - 1]];
      k
  }

  function Without(queue: seq<Entry>, k: int): seq<Entry>
    requires 0 <= k < |queue|
  {
    queue[..k] + queue[k + 1..]
  }

  function Clear(timers: seq<Timer>, t: nat): seq<Timer> {
    if t < |timers| then timers[t := timers[t].(armed := false)] else timers
  }

  /** The scan over the first `n` entries: the index of the opponent found so far, or -1. */
  function Scan(queue: seq<Entry>, player: int, skill: real, n: nat): (best: int)
    requires n <= |queue|
    ensures -1 <= best < n
  {
    if n == 0 then -1 else
      var best := Scan(queue, player, skill, n - 1);
      var bound := if best == -1 then SKILL_TOLERANCE else Distance(queue[best].seat.skill, skill);
      if queue[n - 1].seat.player != player && Distance(queue[n - 1].seat.skill, skill) <= bound then n - 1 else best
  }

  /** Where a stable sort by joining time puts entry `i`, counting among the first `n` entries. */
  function Rank(queue: seq<Entry>, i: nat, n: nat): nat
    requires i < |queue| && n <= |queue|
  {
    if n == 0 then 0 else
      var earlier := queue[n - 1].joinedAt < queue[i].joinedAt
                     || (queue[n - 1].joinedAt == queue[i].joinedAt && n - 1 < i);
      Rank(queue, i, n - 1) + if earlier then 1 else 0
  }

  function PositionInQueue(queue: seq<Entry>, player: int): nat {
    var k := IndexOf(queue, player);
    if k == -1 then 0 else Rank(queue, k, |queue|) + 1
  }

  /** `seat` plays the waiting entry `best`, whose timer is cleared. */
  function Paired(l: Lobby, best: int, seat: Seat): Lobby
    requires 0 <= best < |l.queue|
  {
    l.(queue := Without(l.queue, best),
       timers := Clear(l.timers, l.queue[best].timer),
       matches := l.matches + [Pair(l.queue[best].seat, seat)],
       admitted := l.admitted + [seat])
  }

  /** `seat` waits, with a timer of its own. */
  function Waiting(l: Lobby, seat: Seat): Lobby {
    l.(queue := l.queue + [Entry(seat, l.now, |l.timers|)],
       timers := l.timers + [Timer(seat.player, seat.skill, l.now + MATCH_TIMEOUT_MS, true)],
       admitted := l.admitted + [seat])
  }

  function Enqueued(l: Lobby, player: int, winRate: real, avgAttempts: real): (Lobby, Outcome) {
    var own := IndexOf(l.queue, player);
    if own != -1 then
      (l, AlreadyQueued(PositionInQueue(l.queue, player), l.now - l.queue[own].joinedAt))
    else
      var skill := ComputeSkillScore(winRate, avgAttempts);
      var seat := Seat(|l.admitted|, player, skill);
      var best := Scan(l.queue, player, skill, |l.queue|);
      if best != -1 then (Paired(l, best, seat), Matched(Pair(l.queue[best].seat, seat)))
      else (Waiting(l, seat), Queued(PositionInQueue(Waiting(l, seat).queue, player)))
  }

  lemma EnqueuedCases(l: Lobby, player: int, winRate: real, avgAttempts: real)
    ensures var own, skill := IndexOf(l.queue, player), ComputeSkillScore(winRate, avgAttempts);
            var seat, best := Seat(|l.admitted|, player, skill), Scan(l.queue, player, skill, |l.queue|);
            Enqueued(l, player, winRate, avgAttempts)
            == if own != -1 then (l, AlreadyQueued(PositionInQueue(l.queue, player), l.now - l.queue[own].joinedAt))
               else if best != -1 then (Paired(l, best, seat), Matched(Pair(l.queue[best].seat, seat)))
               else (Waiting(l, seat), Queued(PositionInQueue(Waiting(l, seat).queue, player)))
  {
  }

  /** The timeout callback, with the player and score it captured. */
  function TimedOut(l: Lobby, player: int, skill: real): Lobby {
    var k := IndexOf(l.queue, player);
    if k == -1 then l
    else l.(queue := Without(l.queue, k),
            matches := l.matches + [Solo(Seat(l.queue[k].seat.ticket, player, skill))])
  }

  predicate Due(l: Lobby, t: nat) {
    t < |l.timers| && l.timers[t].armed && l.timers[t].fireAt <= l.now
  }

  function Fire(l: Lobby, t: nat): Lobby {
    if !Due(l, t) then l
    else TimedOut(l.(timers := Clear(l.timers, t)), l.timers[t].player, l.timers[t].skill)
  }

  // ---------------------------------------------------------------- the service

  class MatchmakingService {
    var queue: seq<Entry>
    var timers: seq<Timer>
    var matches: seq<Match>
    var admitted: seq<Seat>
    var now: int

    constructor (now: int)
      ensures State() == Open(now)
    {
      queue, timers, matches, admitted, this.now := [], [], [], [], now;
    }

    function State(): Lobby
      reads this
    {
      Lobby(queue, timers, matches, admitted, now)
    }

    method FindOpponent(player: int, skill: real) returns (opponent: Option<Entry>)
      modifies `queue, `timers
      ensures var best := Scan(old(queue), player, skill, |old(queue)|);
              if best == -1
              then opponent == None && State() == old(State())
              else && opponent == Some(old(queue)[best])
                   && queue == Without(old(queue), best)
                   && timers == Clear(old(timers), old(queue)[best].timer)
    {
      var best := -1;
      var bestDistance := SKILL_TOLERANCE;
      for i := 0 to |queue|
        invariant best == Scan(queue, player, skill, i)
        invariant bestDistance == if best == -1 then SKILL_TOLERANCE else Distance(queue[best].seat.skill, skill)
      {
        var entry := queue[i];
        if entry.seat.player != player {
          var distance := Distance(entry.seat.skill, skill);
          if distance <= bestDistance {
            best := i;
            bestDistance := distance;
          }
        }
      }
      if best == -1 {
        return None;
      }
      opponent := Some(queue[best]);
      timers := Clear(timers, queue[best].timer);
      queue := Without(queue, best);
    }

    method Enqueue(player: int, winRate: real, avgAttempts: real) returns (outcome: Outcome)
      modifies this
      ensures (State(), outcome) == Enqueued(old(State()), player, winRate, avgAttempts)
    {
      ghost var l := State();
      EnqueuedCases(l, player, winRate, avgAttempts);
      var own := IndexOf(queue, player);
      if own != -1 {
        return AlreadyQueued(PositionInQueue(queue, player), now - queue[own].joinedAt);
      }
      var skill := ComputeSkillScore(winRate, avgAttempts);
      var seat := Seat(|admitted|, player, skill);
      admitted := admitted + [seat];
      var opponent := FindOpponent(player, skill);
      if opponent.Some? {
        var game := Pair(opponent.value.seat, seat);
        matches := matches + [game];
        assert State() == Paired(l, Scan(l.queue, player, skill, |l.queue|), seat);
        return Matched(game);
      }
      var timer := |timers|;
      timers := timers + [Timer(player, skill, now + MATCH_TIMEOUT_MS, true)];
      queue := queue + [Entry(seat, now, timer)];
      assert State() == Waiting(l, seat);
      outcome := Queued(PositionInQueue(queue, player));
    }

    method OnQueueTimeout(player: int, skill: real)
      modifies `queue, `matches
      ensures State() == TimedOut(old(State()), player, skill)
    {
      var k := IndexOf(queue, player);
      if k == -1 {
        return;
      }
      var ticket := queue[k].seat.ticket;
      queue := Without(queue, k);
      matches := matches + [Solo(Seat(ticket, player, skill))];
    }
  }

  // ---------------------------------------------------------------- the opponent

  ghost predicate Eligible(queue: seq<Entry>, player: int, skill: real, i: int)
    requires 0 <= i < |queue|
  {
    queue[i].seat.player != player && Distance(queue[i].seat.skill, skill) <= SKILL_TOLERANCE
  }

  /**
    The scan finds an opponent exactly when somebody else waits within the tolerance; it is then at
    the least distance of all, and the last to have joined among those.
   */
  lemma {:induction false} ScanFindsNearest(queue: seq<Entry>, player: int, skill: real, n: nat)
    requires n <= |queue|
    ensures var best := Scan(queue, player, skill, n);
            && (best == -1 <==> forall i | 0 <= i < n :: !Eligible(queue, player, skill, i))
            && (best != -1 ==>
                  && Eligible(queue, player, skill, best)
                  && forall i | 0 <= i < n && Eligible(queue, player, skill, i) ::
                       var d, least := Distance(queue[i].seat.skill, skill), Distance(queue[best].seat.skill, skill);
                       d > least || (d == least && i <= best))
  {
    if n == 0 {
    } else {
      ScanFindsNearest(queue, player, skill, n - 1);
      var best := Scan(queue, player, skill, n);
      assert best != -1 ==> Eligible(queue, player, skill, best);
    }
  }

  // ---------------------------------------------------------------- runs

  datatype Step =
    | Joins(player: int, winRate: real, avgAttempts: real)
    | Fires(timer: nat)
    | Tick(ms: nat)

  function Next(l: Lobby, step: Step): Lobby {
    match step
    case Joins(player, winRate, avgAttempts) => Enqueued(l, player, winRate, avgAttempts).0
    case Fires(t) => Fire(l, t)
    case Tick(ms) => l.(now := l.now + ms)
  }

  function Open(now: int): Lobby {
    Lobby([], [], [], [], now)
  }

  function Run(l: Lobby, steps: seq<Step>): Lobby
    decreases |steps|
  {
    if steps == [] then l else Next(Run(l, steps[..|steps| - 1]), steps[|steps| - 1])
  }

  // ---------------------------------------------------------------- what every step keeps

  ghost predicate Apart(queue: seq<Entry>) {
    forall i, j | 0 <= i < j < |queue| :: Distance(queue[i].seat.skill, queue[j].seat.skill) > SKILL_TOLERANCE
  }

  ghost predicate DistinctPlayers(queue: seq<Entry>) {
    forall i, j | 0 <= i < j < |queue| :: queue[i].seat.player != queue[j].seat.player
  }

  ghost predicate InJoiningOrder(queue: seq<Entry>, now: int) {
    && (forall i, j | 0 <= i < j < |queue| :: queue[i].joinedAt <= queue[j].joinedAt)
    && forall i | 0 <= i < |queue| :: queue[i].joinedAt <= now
  }

  /** The timer of waiting entry `i` is armed and carries that entry's player, score and deadline. */
  ghost predicate HasTimer(queue: seq<Entry>, timers: seq<Timer>, i: int)
    requires 0 <= i < |queue|
  {
    var e := queue[i];
    e.timer < |timers| && timers[e.timer] == Timer(e.seat.player, e.seat.skill, e.joinedAt + MATCH_TIMEOUT_MS, true)
  }

  /** An armed timer belongs to a waiting entry. */
  ghost predicate Owned(queue: seq<Entry>, timers: seq<Timer>, t: int)
    requires 0 <= t < |timers|
  {
    timers[t].armed ==> exists i :: 0 <= i < |queue| && queue[i].timer == t
  }

  function SeatsOf(queue: seq<Entry>): (s: seq<Seat>)
    ensures |s| == |queue|
  {
    seq(|queue|, i requires 0 <= i < |queue| => queue[i].seat)
  }

  function Placed(m: Match): seq<Seat> {
    match m
    case Pair(first, second) => [first, second]
    case Solo(only) => [only]
  }

  function PlacedIn(matches: seq<Match>): seq<Seat> {
    if matches == [] then [] else PlacedIn(matches[..|matches| - 1]) + Placed(matches[|matches| - 1])
  }

  /** Every admission is waiting or in a match, in exactly one place, with the score it came with. */
  ghost predicate Balanced(queue: seq<Entry>, matches: seq<Match>, admitted: seq<Seat>) {
    multiset(SeatsOf(queue)) + multiset(PlacedIn(matches)) == multiset(admitted)
  }

  ghost predicate Ticketed(admitted: seq<Seat>) {
    forall i | 0 <= i < |admitted| :: admitted[i].ticket == i
  }

  ghost predicate Conserved(l: Lobby) {
    Balanced(l.queue, l.matches, l.admitted) && Ticketed(l.admitted)
  }

  ghost predicate TimersFit(queue: seq<Entry>, timers: seq<Timer>) {
    && (forall i | 0 <= i < |queue| :: HasTimer(queue, timers, i))
    && (forall t | 0 <= t < |timers| :: Owned(queue, timers, t))
  }

  ghost predicate Invariant(l: Lobby) {
    && Apart(l.queue)
    && DistinctPlayers(l.queue)
    && InJoiningOrder(l.queue, l.now)
    && TimersFit(l.queue, l.timers)
    && Conserved(l)
  }

  lemma SeatsWithout(queue: seq<Entry>, k: int)
    requires 0 <= k < |queue|
    ensures multiset(SeatsOf(Without(queue, k))) + multiset{queue[k].seat} == multiset(SeatsOf(queue))
  {
    var seats := SeatsOf(queue);
    assert SeatsOf(Without(queue, k)) == seats[..k] + seats[k + 1..];
    assert seats == seats[..k] + [seats[k]] + seats[k + 1..];
  }

  lemma PlacedGrows(matches: seq<Match>, m: Match)
    ensures PlacedIn(matches + [m]) == PlacedIn(matches) + Placed(m)
  {
    assert (matches + [m])[..|matches|] == matches;
  }

  /** The entry that stands at place `i` once entry `k` is gone. */
  function Shifted(k: int, i: int): int {
    if i < k then i else i + 1
  }

  lemma WithoutShifts(queue: seq<Entry>, k: int)
    requires 0 <= k < |queue|
    ensures forall i | 0 <= i < |queue| - 1 :: Without(queue, k)[i] == queue[Shifted(k, i)]
  {
  }

  lemma RemovalKeepsApart(queue: seq<Entry>, k: int)
    requires Apart(queue) && 0 <= k < |queue|
    ensures Apart(Without(queue, k))
  {
    WithoutShifts(queue, k);
  }

  /** The other entries stay apart and in order. */
  lemma RemovalKeepsOrder(queue: seq<Entry>, now: int, k: int)
    requires Apart(queue) && DistinctPlayers(queue) && InJoiningOrder(queue, now) && 0 <= k < |queue|
    ensures Apart(Without(queue, k)) && DistinctPlayers(Without(queue, k)) && InJoiningOrder(Without(queue, k), now)
  {
    RemovalKeepsApart(queue, k);
    WithoutShifts(queue, k);
  }

  /** The other entries keep their timers, and no other timer stays armed without an entry. */
  lemma RemovalKeepsTimers(queue: seq<Entry>, timers: seq<Timer>, k: int)
    requires DistinctPlayers(queue) && TimersFit(queue, timers) && 0 <= k < |queue|
    ensures TimersFit(Without(queue, k), Clear(timers, queue[k].timer))
  {
    var rest, left := Without(queue, k), Clear(timers, queue[k].timer);
    assert HasTimer(queue, timers, k);
    forall i | 0 <= i < |rest| ensures HasTimer(rest, left, i) {
      var was := if i < k then i else i + 1;
      assert rest[i] == queue[was] && HasTimer(queue, timers, was);
    }
    forall t | 0 <= t < |left| ensures Owned(rest, left, t) {
      if left[t].armed {
        assert Owned(queue, timers, t);
        var i :| 0 <= i < |queue| && queue[i].timer == t;
        assert rest[if i < k then i else i - 1].timer == t;
      }
    }
  }

  lemma PairingKeepsInvariant(l: Lobby, best: int, seat: Seat)
    requires Invariant(l) && 0 <= best < |l.queue| && seat.ticket == |l.admitted|
    ensures Invariant(Paired(l, best, seat))
  {
    RemovalKeepsOrder(l.queue, l.now, best);
    RemovalKeepsTimers(l.queue, l.timers, best);
    PairingBalances(l.queue, l.matches, l.admitted, best, seat);
  }

  lemma MovingOneSeat(rest: multiset<Seat>, placed: multiset<Seat>, all: multiset<Seat>, taken: Seat, seat: Seat)
    requires (rest + multiset{taken}) + placed == all
    ensures rest + ((placed + multiset{taken}) + multiset{seat}) == all + multiset{seat}
  {
  }

  lemma PairingBalances(queue: seq<Entry>, matches: seq<Match>, admitted: seq<Seat>, best: int, seat: Seat)
    requires Balanced(queue, matches, admitted) && 0 <= best < |queue|
    ensures Balanced(Without(queue, best), matches + [Pair(queue[best].seat, seat)], admitted + [seat])
  {
    var taken, placed := queue[best].seat, PlacedIn(matches);
    SeatsWithout(queue, best);
    PlacedGrows(matches, Pair(taken, seat));
    assert placed + [taken, seat] == (placed + [taken]) + [seat];
    MovingOneSeat(multiset(SeatsOf(Without(queue, best))), multiset(placed), multiset(admitted), taken, seat);
  }

  lemma WaitingKeepsTimers(queue: seq<Entry>, timers: seq<Timer>, seat: Seat, now: int)
    requires TimersFit(queue, timers)
    ensures TimersFit(queue + [Entry(seat, now, |timers|)],
                      timers + [Timer(seat.player, seat.skill, now + MATCH_TIMEOUT_MS, true)])
  {
    var longer := queue + [Entry(seat, now, |timers|)];
    var more := timers + [Timer(seat.player, seat.skill, now + MATCH_TIMEOUT_MS, true)];
    forall i | 0 <= i < |longer| ensures HasTimer(longer, more, i) {
      if i < |queue| {
        assert HasTimer(queue, timers, i);
      }
    }
    forall t | 0 <= t < |more| ensures Owned(longer, more, t) {
      if t == |timers| {
        assert longer[|queue|].timer == t;
      } else if more[t].armed {
        assert Owned(queue, timers, t);
        var i :| 0 <= i < |queue| && queue[i].timer == t;
        assert longer[i].timer == t;
      }
    }
  }

  lemma WaitingKeepsOrder(queue: seq<Entry>, e: Entry, now: int)
    requires Apart(queue) && DistinctPlayers(queue) && InJoiningOrder(queue, now) && e.joinedAt == now
    requires forall i | 0 <= i < |queue| ::
               queue[i].seat.player != e.seat.player && !Eligible(queue, e.seat.player, e.seat.skill, i)
    ensures Apart(queue + [e]) && DistinctPlayers(queue + [e]) && InJoiningOrder(queue + [e], now)
  {
    assert forall i | 0 <= i < |queue| :: !Eligible(queue, e.seat.player, e.seat.skill, i);
  }

  lemma WaitingBalances(queue: seq<Entry>, matches: seq<Match>, admitted: seq<Seat>, e: Entry)
    requires Balanced(queue, matches, admitted)
    ensures Balanced(queue + [e], matches, admitted + [e.seat])
  {
    assert SeatsOf(queue + [e]) == SeatsOf(queue) + [e.seat];
  }

  lemma WaitingKeepsInvariant(l: Lobby, seat: Seat)
    requires Invariant(l) && seat.ticket == |l.admitted| && IndexOf(l.queue, seat.player) == -1
    requires Scan(l.queue, seat.player, seat.skill, |l.queue|) == -1
    ensures Invariant(Waiting(l, seat))
  {
    ScanFindsNearest(l.queue, seat.player, seat.skill, |l.queue|);
    assert forall i | 0 <= i < |l.queue| :: l.queue[i] in l.queue;
    WaitingKeepsOrder(l.queue, Entry(seat, l.now, |l.timers|), l.now);
    WaitingKeepsTimers(l.queue, l.timers, seat, l.now);
    WaitingBalances(l.queue, l.matches, l.admitted, Entry(seat, l.now, |l.timers|));
  }

  lemma JoinKeepsInvariant(l: Lobby, player: int, winRate: real, avgAttempts: real)
    requires Invariant(l)
    ensures Invariant(Enqueued(l, player, winRate, avgAttempts).0)
  {
    var seat := Seat(|l.admitted|, player, ComputeSkillScore(winRate, avgAttempts));
    EnqueuedCases(l, player, winRate, avgAttempts);
    var own, best := IndexOf(l.queue, player), Scan(l.queue, player, seat.skill, |l.queue|);
    if own != -1 {
    } else if best == -1 {
      WaitingKeepsInvariant(l, seat);
    } else {
      PairingKeepsInvariant(l, best, seat);
    }
  }

  /** The entry at `best` is the choice of a scan for the seat: nearest, and last to join among the nearest. */
  ghost predicate Nearest(queue: seq<Entry>, seat: Seat, best: int) {
    && 0 <= best < |queue| && Eligible(queue, seat.player, seat.skill, best)
    && forall i | 0 <= i < |queue| && Eligible(queue, seat.player, seat.skill, i) ::
         var d, least := Distance(queue[i].seat.skill, seat.skill), Distance(queue[best].seat.skill, seat.skill);
         d > least || (d == least && i <= best)
  }

  ghost predicate Waits(queue: seq<Entry>, player: int) {
    exists e :: e in queue && e.seat.player == player
  }

  ghost predicate NoneEligible(queue: seq<Entry>, seat: Seat) {
    forall i | 0 <= i < |queue| :: !Eligible(queue, seat.player, seat.skill, i)
  }

  /**
    What a player is told, from the lobby before and after: the place and the time if already
    waiting; else the match with the nearest opponent, if anybody is eligible; else the last place.
   */
  ghost predicate JoinAnswers(l: Lobby, seat: Seat, after: Lobby, outcome: Outcome) {
    match outcome
    case AlreadyQueued(position, waitingMs) =>
      && after == l && 0 < position <= |l.queue|
      && l.queue[position - 1].seat.player == seat.player && waitingMs == l.now - l.queue[position - 1].joinedAt
    case Matched(pair) =>
      && !Waits(l.queue, seat.player) && after.now == l.now
      && after.admitted == l.admitted + [seat] && after.matches == l.matches + [pair]
      && exists best :: Nearest(l.queue, seat, best) && pair == Pair(l.queue[best].seat, seat)
                        && after.queue == l.queue[..best] + l.queue[best + 1..]
    case Queued(position) =>
      && !Waits(l.queue, seat.player) && NoneEligible(l.queue, seat) && after.now == l.now
      && after.admitted == l.admitted + [seat] && after.matches == l.matches
      && after.queue == l.queue + [Entry(seat, l.now, |l.timers|)] && position == |after.queue|
      && after.timers == l.timers + [Timer(seat.player, seat.skill, l.now + MATCH_TIMEOUT_MS, true)]
  }

  lemma JoinIsAnswered(l: Lobby, player: int, winRate: real, avgAttempts: real)
    requires Invariant(l)
    ensures var seat := Seat(|l.admitted|, player, ComputeSkillScore(winRate, avgAttempts));
            var (after, outcome) := Enqueued(l, player, winRate, avgAttempts);
            JoinAnswers(l, seat, after, outcome)
  {
    var seat := Seat(|l.admitted|, player, ComputeSkillScore(winRate, avgAttempts));
    EnqueuedCases(l, player, winRate, avgAttempts);
    var own, best := IndexOf(l.queue, player), Scan(l.queue, player, seat.skill, |l.queue|);
    if own != -1 {
      WaitingIsAtItsPlace(l, seat, own);
    } else if best == -1 {
      NewcomerIsLast(l, seat);
    } else {
      PairIsNearest(l, seat, best);
    }
  }

  lemma WaitingIsAtItsPlace(l: Lobby, seat: Seat, own: int)
    requires Invariant(l) && own == IndexOf(l.queue, seat.player) && own != -1
    ensures PositionInQueue(l.queue, seat.player) == own + 1
  {
    RankIsIndex(l.queue, l.now, own, |l.queue|);
  }

  lemma PairIsNearest(l: Lobby, seat: Seat, best: int)
    requires IndexOf(l.queue, seat.player) == -1
    requires best == Scan(l.queue, seat.player, seat.skill, |l.queue|) && best != -1
    ensures Nearest(l.queue, seat, best)
  {
    ScanFindsNearest(l.queue, seat.player, seat.skill, |l.queue|);
  }

  lemma NewcomerIsLast(l: Lobby, seat: Seat)
    requires Invariant(l) && IndexOf(l.queue, seat.player) == -1
    requires Scan(l.queue, seat.player, seat.skill, |l.queue|) == -1
    ensures NoneEligible(l.queue, seat)
    ensures PositionInQueue(Waiting(l, seat).queue, seat.player) == |l.queue| + 1
  {
    ScanFindsNearest(l.queue, seat.player, seat.skill, |l.queue|);
    var queue := Waiting(l, seat).queue;
    assert InJoiningOrder(queue, l.now);
    RankIsIndex(queue, l.now, |l.queue|, |queue|);
  }

  /** A firing timer removes exactly the entry that armed it, and seats that admission alone. */
  lemma FiringRemovesItsOwnEntry(l: Lobby, t: nat)
    requires Invariant(l) && Due(l, t)
    ensures exists k :: 0 <= k < |l.queue| && RemovesEntry(l, t, k)
  {
    assert Owned(l.queue, l.timers, t);
    var k: nat :| k < |l.queue| && l.queue[k].timer == t;
    assert HasTimer(l.queue, l.timers, k);
    assert l.queue[k] in l.queue;
    assert IndexOf(l.queue, l.timers[t].player) == k;
    assert RemovesEntry(l, t, k);
  }

  /** Entry `k` armed timer `t`, whose firing removes just it and seats its admission alone. */
  ghost predicate RemovesEntry(l: Lobby, t: nat, k: int)
    requires 0 <= k < |l.queue|
  {
    && l.queue[k].timer == t
    && Fire(l, t) == l.(queue := Without(l.queue, k),
                        matches := l.matches + [Solo(l.queue[k].seat)],
                        timers := Clear(l.timers, t))
  }

  /** A firing does something exactly when it is for an entry that has waited its 30 seconds. */
  lemma TimeoutExactly(l: Lobby, t: nat)
    requires Invariant(l)
    ensures Fire(l, t) != l <==> exists i :: 0 <= i < |l.queue| && WaitedOut(l, i, t)
  {
    if Due(l, t) {
      FiringRemovesItsOwnEntry(l, t);
      var k :| 0 <= k < |l.queue| && RemovesEntry(l, t, k);
      assert HasTimer(l.queue, l.timers, k);
      assert WaitedOut(l, k, t);
    }
    if i: nat :| i < |l.queue| && WaitedOut(l, i, t) {
      assert HasTimer(l.queue, l.timers, i);
    }
  }

  /** Entry `i` armed timer `t` and has waited for half a minute. */
  predicate WaitedOut(l: Lobby, i: int, t: nat)
    requires 0 <= i < |l.queue|
  {
    l.queue[i].timer == t && l.now - l.queue[i].joinedAt >= 30_000
  }

  lemma FireKeepsInvariant(l: Lobby, t: nat)
    requires Invariant(l)
    ensures Invariant(Fire(l, t))
  {
    if Due(l, t) {
      FiringRemovesItsOwnEntry(l, t);
      var k :| 0 <= k < |l.queue| && RemovesEntry(l, t, k);
      RemovalKeepsOrder(l.queue, l.now, k);
      RemovalKeepsTimers(l.queue, l.timers, k);
      SeatsWithout(l.queue, k);
      PlacedGrows(l.matches, Solo(l.queue[k].seat));
    }
  }

  lemma {:induction false} EveryRunKeepsInvariant(now: int, steps: seq<Step>)
    ensures Invariant(Run(Open(now), steps))
  {
    if steps == [] {
    } else {
      var before, step := steps[..|steps| - 1], steps[|steps| - 1];
      EveryRunKeepsInvariant(now, before);
      var l := Run(Open(now), before);
      match step
      case Joins(player, winRate, avgAttempts) => JoinKeepsInvariant(l, player, winRate, avgAttempts);
      case Fires(t) => FireKeepsInvariant(l, t);
      case Tick(_) =>
    }
  }

  /** No two waiting entries share a timer. */
  lemma TimersAreDistinct(l: Lobby, i: nat, j: nat)
    requires Invariant(l) && i < j < |l.queue|
    ensures l.queue[i].timer != l.queue[j].timer
  {
    assert HasTimer(l.queue, l.timers, i) && HasTimer(l.queue, l.timers, j);
  }

  lemma NextKeepsSpent(l: Lobby, step: Step, t: nat)
    requires t < |l.timers| && !l.timers[t].armed
    ensures t < |Next(l, step).timers| && !Next(l, step).timers[t].armed
  {
    match step
    case Joins(player, winRate, avgAttempts) =>
      if IndexOf(l.queue, player) == -1 {
        var skill := ComputeSkillScore(winRate, avgAttempts);
        var seat, best := Seat(|l.admitted|, player, skill), Scan(l.queue, player, skill, |l.queue|);
        EnqueuedCases(l, player, winRate, avgAttempts);
        assert best != -1 ==> Next(l, step).timers == Clear(l.timers, l.queue[best].timer);
      }
    case Fires(u) => assert Next(l, step).timers == l.timers || Next(l, step).timers == Clear(l.timers, u);
    case Tick(_) =>
  }

  /**
    A timer that was cleared or has fired is never armed again and does nothing, whoever is waiting by
    then, so a player who rejoins waits a full timeout.
   */
  lemma {:induction false} SpentTimersStaySpent(l: Lobby, steps: seq<Step>, t: nat)
    requires t < |l.timers| && !l.timers[t].armed
    ensures t < |Run(l, steps).timers| && !Run(l, steps).timers[t].armed
    ensures Fire(Run(l, steps), t) == Run(l, steps)
    decreases |steps|
  {
    if steps == [] {
    } else {
      var before := steps[..|steps| - 1];
      SpentTimersStaySpent(l, before, t);
      NextKeepsSpent(Run(l, before), steps[|steps| - 1], t);
    }
  }

  /** An admission is in exactly one place: its seat occurs once, in the queue or in the matches. */
  lemma EveryAdmissionIsInOnePlace(now: int, steps: seq<Step>, ticket: nat)
    requires ticket < |Run(Open(now), steps).admitted|
    ensures var l := Run(Open(now), steps);
            multiset(SeatsOf(l.queue))[l.admitted[ticket]] + multiset(PlacedIn(l.matches))[l.admitted[ticket]] == 1
  {
    EveryRunKeepsInvariant(now, steps);
    var l := Run(Open(now), steps);
    SeatsAreUnique(l.admitted, ticket);
  }

  lemma SeatsAreUnique(seats: seq<Seat>, ticket: nat)
    requires ticket < |seats| && forall i | 0 <= i < |seats| :: seats[i].ticket == i
    ensures multiset(seats)[seats[ticket]] == 1
  {
    var seat := seats[ticket];
    assert seats == seats[..ticket] + [seat] + seats[ticket + 1..];
    assert seat !in seats[..ticket] && seat !in seats[ticket + 1..];
  }

  lemma {:induction false} RankIsIndex(queue: seq<Entry>, now: int, i: nat, n: nat)
    requires i < |queue| && n <= |queue| && InJoiningOrder(queue, now)
    ensures Rank(queue, i, n) == if n <= i then n else i
  {
    if n == 0 {
    } else {
      RankIsIndex(queue, now, i, n - 1);
    }
  }

  /** Nobody else has a place. */
  lemma OnlyTheWaitingHaveAPlace(queue: seq<Entry>, player: int)
    ensures PositionInQueue(queue, player) == 0 <==> !Waits(queue, player)
  {
    var k := IndexOf(queue, player);
    assert k != -1 ==> queue[k] in queue;
  }

  /** The reported position is the place in the queue; a newcomer is always last. */
  lemma PositionIsPlaceInQueue(now: int, steps: seq<Step>, k: nat)
    requires k < |Run(Open(now), steps).queue|
    ensures var queue := Run(Open(now), steps).queue; PositionInQueue(queue, queue[k].seat.player) == k + 1
  {
    EveryRunKeepsInvariant(now, steps);
    var l := Run(Open(now), steps);
    assert l.queue[k] in l.queue;
    assert IndexOf(l.queue, l.queue[k].seat.player) == k;
    RankIsIndex(l.queue, l.now, k, |l.queue|);
  }

  // ---------------------------------------------------------------- how many can wait

  predicate ValidRequest(step: Step) {
    step.Joins? ==> 0.0 <= step.winRate <= 1.0 && 1.0 <= step.avgAttempts <= MAX_ATTEMPTS as real
  }

  ghost predicate SkillsInRange(queue: seq<Entry>) {
    forall i | 0 <= i < |queue| :: 0.0 <= queue[i].seat.skill <= 125.0
  }

  lemma WithoutKeepsRange(queue: seq<Entry>, k: int)
    requires SkillsInRange(queue) && 0 <= k < |queue|
    ensures SkillsInRange(Without(queue, k))
  {
    WithoutShifts(queue, k);
  }

  lemma EnqueuedKeepsRange(l: Lobby, player: int, winRate: real, avgAttempts: real)
    requires SkillsInRange(l.queue) && 0.0 <= ComputeSkillScore(winRate, avgAttempts) <= 125.0
    ensures SkillsInRange(Enqueued(l, player, winRate, avgAttempts).0.queue)
  {
    EnqueuedCases(l, player, winRate, avgAttempts);
    var best := Scan(l.queue, player, ComputeSkillScore(winRate, avgAttempts), |l.queue|);
    if best != -1 {
      WithoutKeepsRange(l.queue, best);
    }
  }

  lemma FireKeepsRange(l: Lobby, t: nat)
    requires SkillsInRange(l.queue)
    ensures SkillsInRange(Fire(l, t).queue)
  {
    if Due(l, t) && IndexOf(l.queue, l.timers[t].player) != -1 {
      WithoutKeepsRange(l.queue, IndexOf(l.queue, l.timers[t].player));
    }
  }

  lemma {:induction false} SkillsStayInRange(now: int, steps: seq<Step>)
    requires forall step | step in steps :: ValidRequest(step)
    ensures SkillsInRange(Run(Open(now), steps).queue)
  {
    if steps == [] {
    } else {
      var step := steps[|steps| - 1];
      var l := Run(Open(now), steps[..|steps| - 1]);
      assert ValidRequest(step);
      SkillsStayInRange(now, steps[..|steps| - 1]);
      match step
      case Joins(player, winRate, avgAttempts) =>
        EnqueuedKeepsRange(l, player, winRate, avgAttempts);
      case Fires(t) => FireKeepsRange(l, t);
      case Tick(_) =>
    }
  }

  lemma HighestOf(queue: seq<Entry>) returns (high: nat)
    requires |queue| > 0
    ensures high < |queue|
    ensures forall i | 0 <= i < |queue| :: queue[i].seat.skill <= queue[high].seat.skill
  {
    high := 0;
    for i := 0 to |queue|
      invariant high < |queue|
      invariant forall j | 0 <= j < i :: queue[j].seat.skill <= queue[high].seat.skill
    {
      if queue[high].seat.skill < queue[i].seat.skill {
        high := i;
      }
    }
  }

  function Gaps(n: nat): real {
    if n <= 1 then 0.0 else Gaps(n - 1) + SKILL_TOLERANCE
  }

  /** Skills pairwise more than the tolerance apart spread over more than the tolerance times their gaps. */
  lemma {:induction false} SpreadOf(queue: seq<Entry>) returns (low: nat, high: nat)
    requires Apart(queue) && |queue| > 0
    ensures low < |queue| && high < |queue|
    ensures forall i | 0 <= i < |queue| :: queue[i].seat.skill <= queue[high].seat.skill
    ensures queue[high].seat.skill - queue[low].seat.skill >= Gaps(|queue|)
    ensures |queue| > 1 ==> queue[high].seat.skill - queue[low].seat.skill > Gaps(|queue|)
  {
    high := HighestOf(queue);
    if |queue| == 1 {
      low := 0;
    } else {
      RemovalKeepsApart(queue, high);
      var restLow, restHigh := SpreadOf(Without(queue, high));
      WithoutShifts(queue, high);
      low := Shifted(high, restLow);
      var next := Shifted(high, restHigh);
      assert Distance(queue[if next < high then next else high].seat.skill,
                      queue[if next < high then high else next].seat.skill) > SKILL_TOLERANCE;
    }
  }

  /** With the request bounds, at most five players ever wait. */
  lemma AtMostFiveWait(now: int, steps: seq<Step>)
    requires forall step | step in steps :: ValidRequest(step)
    ensures |Run(Open(now), steps).queue| <= 5
  {
    EveryRunKeepsInvariant(now, steps);
    SkillsStayInRange(now, steps);
    var queue := Run(Open(now), steps).queue;
    assert Gaps(6) == 125.0;
    if |queue| > 5 {
      var low, high := SpreadOf(queue[..6]);
    }
  }

  /** Whatever the bounds, no newcomer ever has three eligible opponents. */
  lemma AtMostTwoAreEligible(now: int, steps: seq<Step>, player: int, skill: real, i: nat, j: nat, k: nat)
    requires i < j < k < |Run(Open(now), steps).queue|
    ensures var queue := Run(Open(now), steps).queue;
            !(Eligible(queue, player, skill, i) && Eligible(queue, player, skill, j)
              && Eligible(queue, player, skill, k))
  {
    EveryRunKeepsInvariant(now, steps);
    var queue := Run(Open(now), steps).queue;
    assert Distance(queue[i].seat.skill, queue[j].seat.skill) > SKILL_TOLERANCE;
    assert Distance(queue[j].seat.skill, queue[k].seat.skill) > SKILL_TOLERANCE;
    assert Distance(queue[i].seat.skill, queue[k].seat.skill) > SKILL_TOLERANCE;
  }

  /** Request `k` of a full queue: a score of 26 more than the one before. */
  function Spaced(k: nat): Step {
    if k < 4 then Joins(k, 0.26 * k as real, 6.0) else Joins(k, 1.0, 5.2)
  }

  ghost predicate SpacedRequests(steps: seq<Step>) {
    forall k | 0 <= k < |steps| :: steps[k] == Spaced(k)
  }

  ghost predicate SpacedQueue(queue: seq<Entry>) {
    forall i | 0 <= i < |queue| :: queue[i].seat.player == i && queue[i].seat.skill == 26.0 * i as real
  }

  /** The bound is sharp: five such requests are valid and all wait. */
  lemma {:induction false} FiveCanWait(now: int, steps: seq<Step>)
    requires SpacedRequests(steps) && |steps| <= 5
    ensures forall step | step in steps :: ValidRequest(step)
    ensures var queue := Run(Open(now), steps).queue; |queue| == |steps| && SpacedQueue(queue)
  {
    if steps == [] {
    } else {
      var n := |steps| - 1;
      FiveCanWait(now, steps[..n]);
      SpacedRequestWaits(Run(Open(now), steps[..n]), n);
    }
  }

  lemma SpacedRequestWaits(l: Lobby, k: nat)
    requires k < 5 && |l.queue| == k && SpacedQueue(l.queue)
    ensures var after := Next(l, Spaced(k)).queue; |after| == k + 1 && SpacedQueue(after)
  {
    var step := Spaced(k);
    var skill := ComputeSkillScore(step.winRate, step.avgAttempts);
    assert skill == 26.0 * k as real;
    assert forall i | 0 <= i < k :: Distance(l.queue[i].seat.skill, skill) > SKILL_TOLERANCE;
    assert IndexOf(l.queue, k) == -1;
    ScanFindsNearest(l.queue, k, skill, k);
    EnqueuedCases(l, k, step.winRate, step.avgAttempts);
  }

  /** And two of the waiting can be eligible at once. */
  lemma TwoCanBeEligible(now: int, steps: seq<Step>, player: int)
    requires SpacedRequests(steps) && |steps| == 2 && player > 1
    ensures var queue := Run(Open(now), steps).queue;
            |queue| == 2 && forall i | 0 <= i < 2 :: Eligible(queue, player, 13.0, i)
  {
    FiveCanWait(now, steps);
    var queue := Run(Open(now), steps).queue;
    assert queue[0].seat.skill == 0.0 && queue[1].seat.skill == 26.0;
  }
}
