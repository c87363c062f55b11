/** The two request limiters: a sliding window over a sorted set, and a fixed window per client. */
module RateLimits {

  const WINDOW_MS: nat := 60_000

  // ---------------------------------------------------------------- sliding window

  const SLIDING_MAX_REQUESTS: nat := 60

  /** How many times in `log` lie in the window `(now - WINDOW_MS, now]`. */
  function InWindow(log: seq<int>, now: int): nat {
    if log == [] then 0 else
      InWindow(log[..|log| - 1], now) + if now - WINDOW_MS < log[|log| - 1] <= now then 1 else 0
  }

  /** The limiter as documented: admit while fewer than 60 admissions lie in the last minute. */
  function Admit(log: seq<int>, now: int): seq<int> {
    if InWindow(log, now) < SLIDING_MAX_REQUESTS then log + [now] else log
  }

  /** `ZREMRANGEBYSCORE key 0 max` */
  function RemoveUpTo(scores: seq<int>, max: int): seq<int> {
    if scores == [] then [] else
      var last := scores[|scores| - 1];
      RemoveUpTo(scores[..|scores| - 1], max) + if 0 <= last <= max then [] else [last]
  }

  /** Admission times, oldest first. */
  ghost predicate History(log: seq<int>, latest: int) {
    && (forall i | 0 <= i < |log| :: 0 <= log[i] <= latest)
    && forall i, j | 0 <= i < j < |log| :: log[i] <= log[j]
  }

  /** One sorted set, and the moment Redis drops it. */
  datatype SortedSet = SortedSet(scores: seq<int>, expiresAt: int)

  /** `scores` is the end of the log, and what is missing is older than `cutoff`. */
  ghost predicate EndOf(scores: seq<int>, log: seq<int>, cutoff: int) {
    && |scores| <= |log| && scores == log[|log| - |scores|..]
    && forall i | 0 <= i < |log| - |scores| :: log[i] <= cutoff
  }

  ghost predicate Agrees(held: SortedSet, log: seq<int>, clock: int) {
    && History(log, clock)
    && EndOf(held.scores, log, clock - WINDOW_MS)
    && forall i | 0 <= i < |log| :: log[i] <= held.expiresAt - WINDOW_MS
  }

  /** A set past its expiry reads as empty. */
  function Scores(held: SortedSet, now: int): seq<int> {
    if held.expiresAt > now then held.scores else []
  }

  lemma {:induction false} OldLogCountsNothing(log: seq<int>, now: int)
    requires forall i | 0 <= i < |log| :: log[i] <= now - WINDOW_MS
    ensures InWindow(log, now) == 0
  {
    if log == [] {
    } else {
      OldLogCountsNothing(log[..|log| - 1], now);
    }
  }

  lemma EndGrows(scores: seq<int>, log: seq<int>, last: int, cutoff: int)
    requires EndOf(scores, log, cutoff)
    ensures EndOf(scores + [last], log + [last], cutoff)
  {
  }

  lemma EndShrinks(scores: seq<int>, log: seq<int>, cutoff: int)
    requires EndOf(scores, log, cutoff) && scores != []
    ensures EndOf(scores[..|scores| - 1], log[..|log| - 1], cutoff) && scores[|scores| - 1] == log[|log| - 1]
  {
    assert scores[..|scores| - 1] == log[..|log| - 1][|log| - |scores|..];
  }

  /** Pruning leaves exactly the part of the log inside the window. */
  lemma {:induction false} PruningLeavesWindow(scores: seq<int>, log: seq<int>, now: int)
    requires History(log, now) && EndOf(scores, log, now - WINDOW_MS)
    ensures EndOf(RemoveUpTo(scores, now - WINDOW_MS), log, now - WINDOW_MS)
    ensures |RemoveUpTo(scores, now - WINDOW_MS)| == InWindow(log, now)
    decreases |log|
  {
    var cutoff := now - WINDOW_MS;
    if scores == [] {
      OldLogCountsNothing(log, now);
    } else {
      var before, last := log[..|log| - 1], log[|log| - 1];
      EndShrinks(scores, log, cutoff);
      PruningLeavesWindow(scores[..|scores| - 1], before, now);
      if last <= cutoff {
        OldLogCountsNothing(log, now);
        OldLogCountsNothing(before, now);
      } else {
        EndGrows(RemoveUpTo(scores[..|scores| - 1], cutoff), before, last, cutoff);
        assert log == before + [last];
      }
    }
  }

  lemma CardinalityIsWindow(held: SortedSet, log: seq<int>, clock: int, now: int)
    requires Agrees(held, log, clock) && clock <= now
    ensures var pruned := RemoveUpTo(Scores(held, now), now - WINDOW_MS);
            EndOf(pruned, log, now - WINDOW_MS) && |pruned| == InWindow(log, now)
  {
    PruningLeavesWindow(Scores(held, now), log, now);
  }

  lemma AdmissionAgrees(pruned: seq<int>, log: seq<int>, now: int)
    requires History(log, now) && EndOf(pruned, log, now - WINDOW_MS) && 0 <= now
    ensures Agrees(SortedSet(pruned + [now], now + WINDOW_MS), log + [now], now)
  {
  }

  lemma RefusalAgrees(held: SortedSet, pruned: seq<int>, log: seq<int>, clock: int, now: int)
    requires Agrees(held, log, clock) && clock <= now && EndOf(pruned, log, now - WINDOW_MS)
    ensures Agrees(held.(scores := pruned), log, now) && History(log, now)
  {
  }

  /** The limiter as one client meets it: the sorted set under that client's key. */
  class SlidingWindowRateLimiter {
    var held: SortedSet
    ghost var log: seq<int>
    ghost var clock: int

    ghost predicate Valid()
      reads this
    {
      0 <= clock && Agrees(held, log, clock)
    }

    constructor ()
      ensures Valid() && log == [] && clock == 0
    {
      held, log, clock := SortedSet([], 0), [], 0;
    }

    method CanActivate(now: int) returns (ok: bool)
      requires Valid() && clock <= now
      modifies this
      ensures Valid() && clock == now
      ensures ok <==> InWindow(old(log), now) < SLIDING_MAX_REQUESTS
      ensures log == Admit(old(log), now)
      ensures log == if ok then old(log) + [now] else old(log)
    {
      CardinalityIsWindow(held, log, clock, now);
      var pruned := RemoveUpTo(Scores(held, now), now - WINDOW_MS);
      RefusalAgrees(held, pruned, log, clock, now);
      clock := now;
      var count := |pruned|;
      if count >= SLIDING_MAX_REQUESTS {
        held := held.(scores := pruned);
        return false;
      }
      AdmissionAgrees(pruned, log, now);
      held := SortedSet(pruned + [now], now + WINDOW_MS);
      log := log + [now];
      return true;
    }
  }

  function AdmitAll(requests: seq<int>): seq<int> {
    if requests == [] then [] else Admit(AdmitAll(requests[..|requests| - 1]), requests[|requests| - 1])
  }

  ghost predicate Monotone(times: seq<int>) {
    forall i, j | 0 <= i < j < |times| :: times[i] <= times[j]
  }

  lemma {:induction false} LaterWindowHoldsFewer(log: seq<int>, now: int, t: int)
    requires (forall i | 0 <= i < |log| :: log[i] <= now) && now <= t
    ensures InWindow(log, t) <= InWindow(log, now)
  {
    if log == [] {
    } else {
      LaterWindowHoldsFewer(log[..|log| - 1], now, t);
    }
  }

  lemma {:induction false} AdmittedAreRequests(requests: seq<int>)
    ensures forall t | t in AdmitAll(requests) :: t in requests
  {
    if requests == [] {
    } else {
      AdmittedAreRequests(requests[..|requests| - 1]);
    }
  }

  /** No window of 60 seconds, wherever it ends, ever holds more than 60 admissions. */
  lemma {:induction false} NoWindowOverflows(requests: seq<int>, t: int)
    requires Monotone(requests)
    ensures InWindow(AdmitAll(requests), t) <= SLIDING_MAX_REQUESTS
  {
    if requests == [] {
    } else {
      var before, now := requests[..|requests| - 1], requests[|requests| - 1];
      NoWindowOverflows(before, t);
      var log := AdmitAll(before);
      AdmittedAreRequests(before);
      forall i | 0 <= i < |log| ensures log[i] <= now {
        assert log[i] in AdmitAll(before);
      }
      assert (log + [now])[..|log|] == log;
      if now <= t {
        LaterWindowHoldsFewer(log, now, t);
      }
    }
  }

  // ---------------------------------------------------------------- fixed window

  const FIXED_MAX_REQUESTS: nat := 30

  datatype Budget = Budget(count: nat, resetAt: int)

  type Budgets = map<string, Budget>

  datatype Request = Request(ip: string, at: int)

  predicate Opens(m: Budgets, r: Request) {
    r.ip !in m || r.at > m[r.ip].resetAt
  }

  predicate Allows(m: Budgets, r: Request) {
    Opens(m, r) || m[r.ip].count < FIXED_MAX_REQUESTS
  }

  function Charge(m: Budgets, r: Request): Budgets {
    if Opens(m, r) then m[r.ip := Budget(1, r.at + WINDOW_MS)]
    else if Allows(m, r) then m[r.ip := m[r.ip].(count := m[r.ip].count + 1)]
    else m
  }

  class LeaderboardRateLimit {
    var requestCounts: Budgets

    constructor ()
      ensures requestCounts == map[]
    {
      requestCounts := map[];
    }

    method CanActivate(ip: string, now: int) returns (ok: bool)
      modifies this
      ensures ok == Allows(old(requestCounts), Request(ip, now))
      ensures requestCounts == Charge(old(requestCounts), Request(ip, now))
    {
      if ip !in requestCounts || now > requestCounts[ip].resetAt {
        requestCounts := requestCounts[ip := Budget(1, now + WINDOW_MS)];
        return true;
      }
      var entry := requestCounts[ip];
      if entry.count >= FIXED_MAX_REQUESTS {
        return false;
      }
      requestCounts := requestCounts[ip := entry.(count := entry.count + 1)];
      return true;
    }
  }

  function ChargeAll(m: Budgets, requests: seq<Request>): Budgets
    decreases |requests|
  {
    if requests == [] then m else Charge(ChargeAll(m, requests[..|requests| - 1]), requests[|requests| - 1])
  }

  /** Requests of `ip` let through at times in `[from, to]`. */
  function AllowedIn(m: Budgets, requests: seq<Request>, ip: string, from: int, to: int): nat
    decreases |requests|
  {
    if requests == [] then 0 else
      var before, r := requests[..|requests| - 1], requests[|requests| - 1];
      AllowedIn(m, before, ip, from, to) +
      if r.ip == ip && from <= r.at <= to && Allows(ChargeAll(m, before), r) then 1 else 0
  }

  /** When the last window of a client opened, and how many requests it let in. */
  datatype OpenWindow = OpenWindow(since: int, allowed: nat)

  /** No window is open any more 60 seconds after the last one opened. */
  predicate Closed(w: OpenWindow, at: int) {
    w.allowed == 0 || at > w.since + WINDOW_MS
  }

  /** The last window of `ip`, told from the requests alone. */
  function WindowOf(requests: seq<Request>, ip: string): OpenWindow {
    if requests == [] then OpenWindow(0, 0) else
      var w, r := WindowOf(requests[..|requests| - 1], ip), requests[|requests| - 1];
      if r.ip != ip then w
      else if Closed(w, r.at) then OpenWindow(r.at, 1)
      else if w.allowed < 30 then w.(allowed := w.allowed + 1)
      else w
  }

  /** The window of `ip` as the table holds it. */
  function WindowIn(m: Budgets, ip: string): OpenWindow {
    if ip in m then OpenWindow(m[ip].resetAt - WINDOW_MS, m[ip].count) else OpenWindow(0, 0)
  }

  lemma {:induction false} RunShowsWindow(requests: seq<Request>, ip: string)
    ensures WindowIn(ChargeAll(map[], requests), ip) == WindowOf(requests, ip)
    ensures ip in ChargeAll(map[], requests) ==> WindowOf(requests, ip).allowed > 0
  {
    if requests == [] {
    } else {
      RunShowsWindow(requests[..|requests| - 1], ip);
    }
  }

  /** In every run a request is let through if and only if its window is over or has let in fewer than 30. */
  lemma AllowedExactly(requests: seq<Request>, r: Request)
    ensures var w := WindowOf(requests, r.ip);
            Allows(ChargeAll(map[], requests), r) <==> Closed(w, r.at) || w.allowed < 30
  {
    RunShowsWindow(requests, r.ip);
  }

  ghost predicate MonotoneRequests(requests: seq<Request>) {
    forall i, j | 0 <= i < j < |requests| :: requests[i].at <= requests[j].at
  }

  ghost predicate WithinBudget(m: Budgets) {
    forall ip | ip in m :: 1 <= m[ip].count <= FIXED_MAX_REQUESTS
  }

  /**
    Admissions since `from` belong to the open window, less its first if that came before `from`, or
    to the open window and an earlier one that opened before `from`.
   */
  ghost predicate Accounted(m: Budgets, ip: string, from: int, allowed: nat) {
    || allowed == 0
    || (ip in m && m[ip].resetAt >= from
        && allowed <= m[ip].count - (if m[ip].resetAt < from + WINDOW_MS then 1 else 0))
    || (ip in m && m[ip].resetAt > from + WINDOW_MS && allowed <= FIXED_MAX_REQUESTS - 1 + m[ip].count)
  }

  lemma ChargeKeepsBudget(m: Budgets, r: Request)
    requires WithinBudget(m)
    ensures WithinBudget(Charge(m, r))
  {
  }

  lemma AccountedStep(m: Budgets, r: Request, ip: string, from: int, allowed: nat)
    requires WithinBudget(m) && Accounted(m, ip, from, allowed)
    requires r.at <= from + WINDOW_MS && (r.at < from ==> allowed == 0)
    ensures Accounted(Charge(m, r), ip, from, allowed + if r.ip == ip && from <= r.at && Allows(m, r) then 1 else 0)
  {
  }

  lemma {:induction false} RunIsAccounted(requests: seq<Request>, ip: string, from: int)
    requires MonotoneRequests(requests)
    ensures WithinBudget(ChargeAll(map[], requests))
    ensures AllowedIn(map[], requests, ip, from, from + WINDOW_MS) <= 2 * FIXED_MAX_REQUESTS - 1
    ensures (forall r | r in requests :: r.at < from) ==> AllowedIn(map[], requests, ip, from, from + WINDOW_MS) == 0
    ensures (forall r | r in requests :: r.at <= from + WINDOW_MS) ==>
              Accounted(ChargeAll(map[], requests), ip, from, AllowedIn(map[], requests, ip, from, from + WINDOW_MS))
  {
    if requests == [] {
    } else {
      var before, r := requests[..|requests| - 1], requests[|requests| - 1];
      RunIsAccounted(before, ip, from);
      ChargeKeepsBudget(ChargeAll(map[], before), r);
      assert forall x | x in before :: x.at <= r.at;
      if r.at <= from + WINDOW_MS {
        AccountedStep(ChargeAll(map[], before), r, ip, from, AllowedIn(map[], before, ip, from, from + WINDOW_MS));
      } else {
        assert r in requests;
      }
    }
  }

  /** A span of 60 seconds, ends included, that reaches a second window misses the opening of the first. */
  lemma AtMostFiftyNinePerSpan(requests: seq<Request>, ip: string, from: int)
    requires MonotoneRequests(requests)
    ensures AllowedIn(map[], requests, ip, from, from + WINDOW_MS) <= 59
  {
    RunIsAccounted(requests, ip, from);
  }

  function Burst(ip: string, at: int, n: nat): seq<Request> {
    seq(n, _ => Request(ip, at))
  }

  lemma {:induction false} ChargeConcat(m: Budgets, first: seq<Request>, second: seq<Request>,
                                        ip: string, from: int, to: int)
    ensures ChargeAll(m, first + second) == ChargeAll(ChargeAll(m, first), second)
    ensures AllowedIn(m, first + second, ip, from, to)
            == AllowedIn(m, first, ip, from, to) + AllowedIn(ChargeAll(m, first), second, ip, from, to)
    decreases |second|
  {
    if second == [] {
      assert first + second == first;
    } else {
      var before := second[..|second| - 1];
      assert (first + second)[..|first + second| - 1] == first + before;
      ChargeConcat(m, first, before, ip, from, to);
    }
  }

  /** A burst inside the open window is let through as far as the budget goes. */
  lemma {:induction false} BurstIsAllowed(m: Budgets, ip: string, at: int, n: nat, from: int, to: int)
    requires ip in m && at <= m[ip].resetAt && m[ip].count + n <= FIXED_MAX_REQUESTS && from <= at <= to
    ensures ChargeAll(m, Burst(ip, at, n)) == m[ip := m[ip].(count := m[ip].count + n)]
    ensures AllowedIn(m, Burst(ip, at, n), ip, from, to) == n
  {
    if n == 0 {
      assert m[ip := m[ip]] == m;
    } else {
      assert Burst(ip, at, n)[..n - 1] == Burst(ip, at, n - 1);
      BurstIsAllowed(m, ip, at, n - 1, from, to);
    }
  }

  /** A request that opens a window. */
  lemma OpeningIsAllowed(m: Budgets, r: Request, from: int, to: int)
    requires Opens(m, r)
    ensures ChargeAll(m, [r]) == m[r.ip := Budget(1, r.at + WINDOW_MS)]
    ensures AllowedIn(m, [r], r.ip, from, to) == if from <= r.at <= to then 1 else 0
  {
    assert [r][..0] == [];
  }

  /** One request just before the span, the rest of its budget as the span begins, and a full budget as it ends. */
  function WorstCase(ip: string, from: int): seq<Request> {
    var to := from + WINDOW_MS;
    [Request(ip, from - 1)] + Burst(ip, from, FIXED_MAX_REQUESTS - 1)
    + ([Request(ip, to)] + Burst(ip, to, FIXED_MAX_REQUESTS - 1))
  }

  /** The first window of the worst case lets 29 through inside the span and is then full. */
  lemma FirstWindow(ip: string, from: int)
    ensures var to, first := from + WINDOW_MS, [Request(ip, from - 1)] + Burst(ip, from, FIXED_MAX_REQUESTS - 1);
            && ChargeAll(map[], first) == map[ip := Budget(FIXED_MAX_REQUESTS, to - 1)]
            && AllowedIn(map[], first, ip, from, to) == FIXED_MAX_REQUESTS - 1
  {
    var to, n := from + WINDOW_MS, FIXED_MAX_REQUESTS - 1;
    var open := map[ip := Budget(1, to - 1)];
    OpeningIsAllowed(map[], Request(ip, from - 1), from, to);
    BurstIsAllowed(open, ip, from, n, from, to);
    ChargeConcat(map[], [Request(ip, from - 1)], Burst(ip, from, n), ip, from, to);
    assert open[ip := Budget(FIXED_MAX_REQUESTS, to - 1)] == map[ip := Budget(FIXED_MAX_REQUESTS, to - 1)];
  }

  lemma SecondWindow(m: Budgets, ip: string, from: int)
    requires Opens(m, Request(ip, from + WINDOW_MS))
    ensures var to := from + WINDOW_MS;
            AllowedIn(m, [Request(ip, to)] + Burst(ip, to, FIXED_MAX_REQUESTS - 1), ip, from, to) == FIXED_MAX_REQUESTS
  {
    var to, n := from + WINDOW_MS, FIXED_MAX_REQUESTS - 1;
    OpeningIsAllowed(m, Request(ip, to), from, to);
    BurstIsAllowed(m[ip := Budget(1, to + WINDOW_MS)], ip, to, n, from, to);
    ChargeConcat(m, [Request(ip, to)], Burst(ip, to, n), ip, from, to);
  }

  lemma WorstCaseIsMonotone(ip: string, from: int)
    ensures MonotoneRequests(WorstCase(ip, from))
  {
    forall i | 0 <= i < |WorstCase(ip, from)|
      ensures WorstCase(ip, from)[i].at
              == if i == 0 then from - 1 else if i < FIXED_MAX_REQUESTS then from else from + WINDOW_MS
    {
    }
  }

  /** The bound is sharp. */
  lemma FiftyNineIsAttained(ip: string, from: int)
    ensures MonotoneRequests(WorstCase(ip, from))
    ensures AllowedIn(map[], WorstCase(ip, from), ip, from, from + WINDOW_MS) == 2 * FIXED_MAX_REQUESTS - 1
  {
    var to, n := from + WINDOW_MS, FIXED_MAX_REQUESTS - 1;
    var first, second := [Request(ip, from - 1)] + Burst(ip, from, n), [Request(ip, to)] + Burst(ip, to, n);
    WorstCaseIsMonotone(ip, from);
    FirstWindow(ip, from);
    SecondWindow(ChargeAll(map[], first), ip, from);
    ChargeConcat(map[], first, second, ip, from, to);
  }

  /** What a window that opens at `start` has let through is in its counter. */
  ghost predicate InOneWindow(m: Budgets, ip: string, start: int, allowed: nat) {
    || (allowed == 0 && Opens(m, Request(ip, start)))
    || (ip in m && allowed <= m[ip].count && m[ip].resetAt >= start + WINDOW_MS)
  }

  lemma InOneWindowStep(m: Budgets, r: Request, ip: string, start: int, allowed: nat)
    requires WithinBudget(m) && InOneWindow(m, ip, start, allowed) && start <= r.at <= start + WINDOW_MS
    ensures InOneWindow(Charge(m, r), ip, start, allowed + if r.ip == ip && Allows(m, r) then 1 else 0)
  {
  }

  /** A window that opens at `start` lets at most 30 requests through before it resets. */
  lemma {:induction false} EachWindowAllowsThirty(m: Budgets, requests: seq<Request>, ip: string, start: int)
    requires Opens(m, Request(ip, start)) && WithinBudget(m)
    requires forall r | r in requests :: start <= r.at <= start + WINDOW_MS
    ensures WithinBudget(ChargeAll(m, requests))
    ensures InOneWindow(ChargeAll(m, requests), ip, start, AllowedIn(m, requests, ip, start, start + WINDOW_MS))
    ensures AllowedIn(m, requests, ip, start, start + WINDOW_MS) <= FIXED_MAX_REQUESTS
    decreases |requests|
  {
    if requests == [] {
    } else {
      var before, r := requests[..|requests| - 1], requests[|requests| - 1];
      EachWindowAllowsThirty(m, before, ip, start);
      assert r in requests;
      ChargeKeepsBudget(ChargeAll(m, before), r);
      InOneWindowStep(ChargeAll(m, before), r, ip, start, AllowedIn(m, before, ip, start, start + WINDOW_MS));
    }
  }
}
