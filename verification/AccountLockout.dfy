/** Login rate limit and escalating account lock, on top of the counter store. */
module AccountLockout {
  import opened LoginAttemptStore
  import opened Options

  const LOGIN_RATE_LIMIT: nat := 5
  const LOGIN_RATE_WINDOW_SECONDS: nat := 60
  const LOCKOUT_FAILURE_THRESHOLD: nat := 10
  const LOCKOUT_BASE_MINUTES: nat := 30
  const LOCKOUT_MAX_MINUTES: nat := 24 * 60
  const FAILURE_TTL_SECONDS: nat := 24 * 60 * 60
  const LOCKOUT_HISTORY_TTL_SECONDS: nat := 7 * 24 * 60 * 60
  const WINDOW_MS: nat := LOGIN_RATE_WINDOW_SECONDS * 1000

  datatype Verdict =
    | Admitted
    | AccountLocked(retryAfterSeconds: int)
    | TooManyRequests(retryAfterSeconds: int)

  function Pow2(n: nat): nat {
    if n == 0 then 1 else 2 * Pow2(n - 1)
  }

  /** Length of the `lockouts`-th lock in a row. */
  function LockMinutes(lockouts: int): nat {
    if lockouts < 1 then LOCKOUT_BASE_MINUTES
    else if LOCKOUT_BASE_MINUTES * Pow2(lockouts - 1) < LOCKOUT_MAX_MINUTES
    then LOCKOUT_BASE_MINUTES * Pow2(lockouts - 1)
    else LOCKOUT_MAX_MINUTES
  }

  function Attempt(m: Table, email: string, now: int): (Table, Verdict) {
    if Visible(m, Key(Lock, email), now).Some? then
      (m, AccountLocked(Ttl(m, Key(Lock, email), now).value))
    else
      var counted := Incr(m, Key(Rate, email), LOGIN_RATE_WINDOW_SECONDS, now);
      var attempts := Count(m, Key(Rate, email), now) + 1;
      (counted,
       if attempts > LOGIN_RATE_LIMIT then TooManyRequests(Ttl(counted, Key(Rate, email), now).value) else Admitted)
  }

  function AfterFailure(m: Table, email: string, now: int): Table {
    var failures := Count(m, Key(Fail, email), now) + 1;
    var counted := Incr(m, Key(Fail, email), FAILURE_TTL_SECONDS, now);
    if failures < LOCKOUT_FAILURE_THRESHOLD then counted else
      var lockouts := Count(counted, Key(Lockouts, email), now) + 1;
      var escalated := Incr(counted, Key(Lockouts, email), LOCKOUT_HISTORY_TTL_SECONDS, now);
      var minutes := LockMinutes(lockouts);
      Set(escalated, Key(Lock, email), now + minutes * 60_000, minutes * 60, now) - {Key(Fail, email)}
  }

  function AfterSuccess(m: Table, email: string): Table {
    m - {Key(Fail, email), Key(Rate, email)}
  }

  function AfterUnlock(m: Table, email: string): Table {
    m - {Key(Lock, email), Key(Fail, email), Key(Lockouts, email), Key(Rate, email)}
  }

  class AccountLockoutService {
    const store: MemoryLoginAttemptStore

    constructor (store: MemoryLoginAttemptStore)
      ensures this.store == store
    {
      this.store := store;
    }

    method AssertCanAttempt(email: string, now: int) returns (verdict: Verdict)
      requires store.Valid() && store.clock <= now
      modifies store
      ensures store.Valid() && store.clock == now
      ensures (store.log, verdict) == Attempt(old(store.log), email, now)
    {
      var lockedUntil := store.Get(Key(Lock, email), now);
      if lockedUntil != None {
        var seconds := store.TimeToLive(Key(Lock, email), now);
        return AccountLocked(if seconds == None then 0 else seconds.value);
      }
      var attempts := store.Increment(Key(Rate, email), LOGIN_RATE_WINDOW_SECONDS, now);
      if attempts > LOGIN_RATE_LIMIT {
        var seconds := store.TimeToLive(Key(Rate, email), now);
        return TooManyRequests(if seconds == None then LOGIN_RATE_WINDOW_SECONDS else seconds.value);
      }
      return Admitted;
    }

    method RecordFailure(email: string, now: int)
      requires store.Valid() && store.clock <= now
      modifies store
      ensures store.Valid() && store.clock == now
      ensures store.log == AfterFailure(old(store.log), email, now)
    {
      ghost var m := store.log;
      var failures := store.Increment(Key(Fail, email), FAILURE_TTL_SECONDS, now);
      ghost var counted := store.log;
      assert failures == Count(m, Key(Fail, email), now) + 1;
      if failures < LOCKOUT_FAILURE_THRESHOLD {
        return;
      }
      var lockouts := store.Increment(Key(Lockouts, email), LOCKOUT_HISTORY_TTL_SECONDS, now);
      assert lockouts == Count(counted, Key(Lockouts, email), now) + 1;
      var minutes := LockMinutes(lockouts);
      store.Put(Key(Lock, email), now + minutes * 60_000, minutes * 60, now);
      store.Delete({Key(Fail, email)});
    }

    method RecordSuccess(email: string)
      requires store.Valid()
      modifies store
      ensures store.Valid() && store.clock == old(store.clock)
      ensures store.log == AfterSuccess(old(store.log), email)
    {
      store.Delete({Key(Fail, email), Key(Rate, email)});
    }

    method Unlock(email: string, now: int) returns (wasLocked: bool)
      requires store.Valid() && store.clock <= now
      modifies store
      ensures store.Valid() && store.clock == now
      ensures store.log == AfterUnlock(old(store.log), email)
      ensures wasLocked == Visible(old(store.log), Key(Lock, email), now).Some?
    {
      var lockedUntil := store.Get(Key(Lock, email), now);
      wasLocked := lockedUntil != None;
      store.Delete({Key(Lock, email), Key(Fail, email), Key(Lockouts, email), Key(Rate, email)});
    }
  }

  // ---------------------------------------------------------------- runs

  /** A login checks the limits and, when admitted, records how the password check went. */
  datatype Event =
    | Login(email: string, at: int, ok: bool)
    | AdminUnlocks(email: string, at: int)

  function Admits(m: Table, e: Event): bool {
    e.Login? && Attempt(m, e.email, e.at).1 == Admitted
  }

  function Next(m: Table, e: Event): Table {
    match e
    case Login(email, at, ok) =>
      var (checked, verdict) := Attempt(m, email, at);
      if verdict != Admitted then checked
      else if ok then AfterSuccess(checked, email)
      else AfterFailure(checked, email, at)
    case AdminUnlocks(email, _) => AfterUnlock(m, email)
  }

  function Run(m: Table, events: seq<Event>): Table
    decreases |events|
  {
    if events == [] then m else Next(Run(m, events[..|events| - 1]), events[|events| - 1])
  }

  ghost predicate Monotone(events: seq<Event>) {
    forall i, j | 0 <= i < j < |events| :: events[i].at <= events[j].at
  }

  /** The event clears the rate counter of `email`. */
  predicate Resets(m: Table, e: Event, email: string) {
    e.email == email && (e.AdminUnlocks? || (e.ok && Admits(m, e)))
  }

  /** Logins of `email` admitted at times in `[from, to]`, the run starting from `m`. */
  function AdmittedIn(m: Table, events: seq<Event>, email: string, from: int, to: int): nat
    decreases |events|
  {
    if events == [] then 0 else
      var before, e := events[..|events| - 1], events[|events| - 1];
      AdmittedIn(m, before, email, from, to) +
      if e.email == email && from <= e.at <= to && Admits(Run(m, before), e) then 1 else 0
  }

  /** No success and no unlock of `email` happens at times in `[from, to]`. */
  ghost predicate Undisturbed(m: Table, events: seq<Event>, email: string, from: int, to: int)
    decreases |events|
  {
    events != [] ==>
      var before, e := events[..|events| - 1], events[|events| - 1];
      Undisturbed(m, before, email, from, to) &&
      (from <= e.at <= to ==> !Resets(Run(m, before), e, email))
  }

  // ---------------------------------------------------------------- the rate bound

  /**
    How `admitted` admissions since `from` are accounted for: by the window now in the table, or by
    that window and one earlier window, in which case the current one outlives the span.
   */
  ghost predicate Accounted(m: Table, email: string, from: int, admitted: nat) {
    var key := Key(Rate, email);
    if key !in m then admitted == 0 else
      || admitted == 0
      || (admitted <= m[key].value && admitted <= LOGIN_RATE_LIMIT && m[key].expiresAt > from)
      || (admitted <= LOGIN_RATE_LIMIT + m[key].value && admitted <= 2 * LOGIN_RATE_LIMIT
          && m[key].expiresAt > from + WINDOW_MS)
  }

  /** A rate counter that exists has counted something. */
  ghost predicate RatesSound(m: Table) {
    forall key | key in m && key.kind == Rate :: m[key].value >= 1
  }

  lemma OtherKeysKept(m: Table, e: Event, key: Key)
    requires key.email != e.email
    ensures key in Next(m, e) <==> key in m
    ensures key in m ==> Next(m, e)[key] == m[key]
  {
  }

  /** What one event does to the rate counter of its own email. */
  lemma RateAfter(m: Table, e: Event)
    ensures var key, after := Key(Rate, e.email), Next(m, e);
            if Resets(m, e, e.email) then key !in after
            else if Attempt(m, e.email, e.at).1.AccountLocked?
            then (key in after <==> key in m) && (key in m ==> after[key] == m[key])
            else key in after && after[key] == Incr(m, key, LOGIN_RATE_WINDOW_SECONDS, e.at)[key]
  {
  }

  lemma RatesStaySound(m: Table, e: Event)
    requires RatesSound(m)
    ensures RatesSound(Next(m, e))
  {
    RateAfter(m, e);
    forall key | key in Next(m, e) && key.kind == Rate ensures Next(m, e)[key].value >= 1 {
      if key.email != e.email {
        OtherKeysKept(m, e, key);
      } else {
        assert key == Key(Rate, e.email);
      }
    }
  }

  lemma AccountedStep(m: Table, e: Event, email: string, from: int, admitted: nat)
    requires Accounted(m, email, from, admitted) && RatesSound(m)
    requires e.at < from ==> admitted == 0
    requires e.at <= from + WINDOW_MS
    requires e.at >= from ==> !Resets(m, e, email)
    ensures Accounted(Next(m, e), email, from,
                      admitted + if e.email == email && from <= e.at && Admits(m, e) then 1 else 0)
  {
    if e.email == email {
      RateAfter(m, e);
    } else {
      OtherKeysKept(m, e, Key(Rate, email));
    }
  }

  lemma {:induction false} RunIsAccounted(m: Table, events: seq<Event>, email: string, from: int)
    requires RatesSound(m) && Monotone(events)
    requires Undisturbed(m, events, email, from, from + WINDOW_MS)
    ensures RatesSound(Run(m, events))
    ensures AdmittedIn(m, events, email, from, from + WINDOW_MS) <= 2 * LOGIN_RATE_LIMIT
    ensures (forall e | e in events :: e.at < from) ==> AdmittedIn(m, events, email, from, from + WINDOW_MS) == 0
    ensures (forall e | e in events :: e.at <= from + WINDOW_MS) ==>
              Accounted(Run(m, events), email, from, AdmittedIn(m, events, email, from, from + WINDOW_MS))
    decreases |events|
  {
    if events == [] {
    } else {
      var before, e := events[..|events| - 1], events[|events| - 1];
      RunIsAccounted(m, before, email, from);
      RatesStaySound(Run(m, before), e);
      assert forall x | x in before :: x.at <= e.at;
      if e.at <= from + WINDOW_MS {
        AccountedStep(Run(m, before), e, email, from, AdmittedIn(m, before, email, from, from + WINDOW_MS));
      } else {
        assert e in events;
      }
    }
  }

  /** In any 60-second span, both ends included, without a success or an unlock, at most ten logins are admitted. */
  lemma AtMostTenPerMinute(events: seq<Event>, email: string, from: int)
    requires Monotone(events) && Undisturbed(map[], events, email, from, from + WINDOW_MS)
    ensures AdmittedIn(map[], events, email, from, from + WINDOW_MS) <= 10
  {
    RunIsAccounted(map[], events, email, from);
  }

  /** A window that opens at or after `from` has counted every admission since `from`. */
  ghost predicate InOneWindow(m: Table, email: string, from: int, admitted: nat) {
    var key := Key(Rate, email);
    || (admitted == 0 && !(key in m && m[key].expiresAt > from))
    || (key in m && m[key].expiresAt >= from + WINDOW_MS && admitted <= m[key].value && admitted <= LOGIN_RATE_LIMIT)
  }

  /** Each rate window admits at most five logins: its 60 seconds begin when no window is open. */
  lemma {:induction false} EachWindowAdmitsFive(m: Table, events: seq<Event>, email: string, from: int)
    requires Visible(m, Key(Rate, email), from) == None && RatesSound(m)
    requires forall e | e in events :: from <= e.at < from + WINDOW_MS
    requires Undisturbed(m, events, email, from, from + WINDOW_MS)
    ensures AdmittedIn(m, events, email, from, from + WINDOW_MS) <= LOGIN_RATE_LIMIT
    ensures InOneWindow(Run(m, events), email, from, AdmittedIn(m, events, email, from, from + WINDOW_MS))
    ensures RatesSound(Run(m, events))
    decreases |events|
  {
    if events == [] {
    } else {
      var before, e := events[..|events| - 1], events[|events| - 1];
      EachWindowAdmitsFive(m, before, email, from);
      assert e in events;
      RatesStaySound(Run(m, before), e);
      if e.email == email {
        RateAfter(Run(m, before), e);
      } else {
        OtherKeysKept(Run(m, before), e, Key(Rate, email));
      }
    }
  }

  // ---------------------------------------------------------------- the lock

  /** Locks double from 30 minutes and stop at a day. */
  lemma LockMinutesDouble(lockouts: int)
    requires lockouts >= 1
    ensures LockMinutes(1) == 30
    ensures LockMinutes(lockouts + 1) == if 2 * LockMinutes(lockouts) < 1440 then 2 * LockMinutes(lockouts) else 1440
    ensures 30 <= LockMinutes(lockouts) <= LockMinutes(lockouts + 1) <= 1440
  {
    PowPositive(lockouts - 1);
    assert Pow2(lockouts) == 2 * Pow2(lockouts - 1);
  }

  lemma {:induction false} PowPositive(n: nat)
    ensures Pow2(n) >= 1
  {
    if n == 0 {
    } else {
      PowPositive(n - 1);
    }
  }

  lemma LockSurvives(m: Table, e: Event, email: string)
    requires Visible(m, Key(Lock, email), e.at).Some? && e != AdminUnlocks(email, e.at)
    ensures Key(Lock, email) in Next(m, e) && Next(m, e)[Key(Lock, email)] == m[Key(Lock, email)]
    ensures e.email == email ==> !Admits(m, e)
  {
    if e.email != email {
      OtherKeysKept(m, e, Key(Lock, email));
    }
  }

  /** A lock holds for its whole term: until it expires or an admin lifts it, nothing is admitted. */
  lemma {:induction false} LockHolds(m: Table, events: seq<Event>, email: string, from: int, to: int)
    requires Key(Lock, email) in m
    requires forall e | e in events :: e.at < m[Key(Lock, email)].expiresAt && e != AdminUnlocks(email, e.at)
    ensures Key(Lock, email) in Run(m, events) && Run(m, events)[Key(Lock, email)] == m[Key(Lock, email)]
    ensures AdmittedIn(m, events, email, from, to) == 0
    decreases |events|
  {
    if events == [] {
    } else {
      var before, e := events[..|events| - 1], events[|events| - 1];
      LockHolds(m, before, email, from, to);
      assert e in events;
      LockSurvives(Run(m, before), e, email);
    }
  }

  // ---------------------------------------------------------------- an account, told from the events alone

  /** `n` occurrences in a row, the first of them at `since`. */
  datatype Tally = Tally(n: nat, since: int)

  /** One more occurrence; a tally that has outlived `life` milliseconds starts again. */
  function Tick(t: Tally, at: int, life: nat): Tally {
    if t.n == 0 || at >= t.since + life then Tally(1, at) else Tally(t.n + 1, t.since)
  }

  const NO_TALLY: Tally := Tally(0, 0)
  const FAILURE_LIFE_MS: nat := FAILURE_TTL_SECONDS * 1000
  const HISTORY_LIFE_MS: nat := LOCKOUT_HISTORY_TTL_SECONDS * 1000

  /** The last lock's end, the attempts of the rate window, the failures in a row and the locks in a row. */
  datatype Account = Account(lockedUntil: Option<int>, window: Tally, streak: Tally, row: Tally)

  const NEW_ACCOUNT: Account := Account(None, NO_TALLY, NO_TALLY, NO_TALLY)

  predicate InTerm(a: Account, at: int) {
    a.lockedUntil.Some? && at < a.lockedUntil.value
  }

  /** Fewer than five attempts were counted since the window opened, or a minute has passed since then. */
  predicate WithinRate(a: Account, at: int) {
    a.window.n < LOGIN_RATE_LIMIT || at >= a.window.since + WINDOW_MS
  }

  /** What a failed password check does to an account that let the attempt in. */
  function AfterFailed(a: Account, at: int): Account {
    var streak := Tick(a.streak, at, FAILURE_LIFE_MS);
    if streak.n < LOCKOUT_FAILURE_THRESHOLD then a.(streak := streak) else
      var row := Tick(a.row, at, HISTORY_LIFE_MS);
      a.(lockedUntil := Some(at + LockMinutes(row.n) * 60_000), streak := NO_TALLY, row := row)
  }

  /** An event of the account: an unlock forgets all; a login in a lock's term does nothing; any other is counted. */
  function AccountAfter(a: Account, e: Event): Account {
    if e.AdminUnlocks? then NEW_ACCOUNT
    else if InTerm(a, e.at) then a
    else
      var counted := a.(window := Tick(a.window, e.at, WINDOW_MS));
      if !WithinRate(a, e.at) then counted
      else if e.ok then counted.(window := NO_TALLY, streak := NO_TALLY)
      else AfterFailed(counted, e.at)
  }

  function History(events: seq<Event>, email: string): Account {
    if events == [] then NEW_ACCOUNT else
      var before, e := History(events[..|events| - 1], email), events[|events| - 1];
      if e.email == email then AccountAfter(before, e) else before
  }

  // ---------------------------------------------------------------- the store agrees with it

  /** The event is an admitted failure. */
  predicate Fails(m: Table, e: Event) {
    e.Login? && !e.ok && Admits(m, e)
  }

  /** The event is an admitted failure that leaves the account locked. */
  predicate Locks(m: Table, e: Event) {
    Fails(m, e) && Visible(Next(m, e), Key(Lock, e.email), e.at).Some?
  }

  /** The counter under `key` is the tally. */
  ghost predicate Holds(m: Table, key: Key, t: Tally, life: nat) {
    if t.n == 0 then key !in m else key in m && m[key] == Entry(t.n, t.since + life)
  }

  /** The tally that a counter holds. */
  ghost function TallyIn(m: Table, key: Key, life: nat): Tally {
    if key in m && m[key].value > 0 then Tally(m[key].value, m[key].expiresAt - life) else NO_TALLY
  }

  /** The account that the four entries of `email` hold. */
  ghost function Stored(m: Table, email: string): Account {
    var lock := Key(Lock, email);
    Account(if lock in m then Some(m[lock].expiresAt) else None,
            TallyIn(m, Key(Rate, email), WINDOW_MS),
            TallyIn(m, Key(Fail, email), FAILURE_LIFE_MS),
            TallyIn(m, Key(Lockouts, email), HISTORY_LIFE_MS))
  }

  /** The entries are those of the account, every counter has counted something, and nine failures are the most. */
  ghost predicate Shows(m: Table, email: string, a: Account) {
    && Stored(m, email) == a
    && (forall kind | kind != Lock && Key(kind, email) in m :: m[Key(kind, email)].value > 0)
    && a.streak.n < LOCKOUT_FAILURE_THRESHOLD
  }

  lemma CounterTicks(m: Table, key: Key, t: Tally, ttlSeconds: nat, at: int)
    requires Holds(m, key, t, ttlSeconds * 1000)
    ensures Count(m, key, at) + 1 == Tick(t, at, ttlSeconds * 1000).n
    ensures Holds(Incr(m, key, ttlSeconds, at), key, Tick(t, at, ttlSeconds * 1000), ttlSeconds * 1000)
  {
  }

  lemma LockMinutesPositive(lockouts: int)
    ensures LockMinutes(lockouts) >= 30
  {
    if lockouts >= 1 {
      PowPositive(lockouts - 1);
    }
  }

  /** Seconds that round `ms` up. */
  predicate RoundsUp(seconds: int, ms: int) {
    (seconds - 1) * 1000 < ms <= seconds * 1000
  }

  /** An attempt is answered as the account says, and counted in its window. */
  lemma AttemptShows(m: Table, email: string, a: Account, at: int)
    requires Shows(m, email, a)
    ensures var (checked, verdict) := Attempt(m, email, at);
            && (verdict.AccountLocked? <==> InTerm(a, at))
            && (verdict.AccountLocked? ==> checked == m)
            && (verdict.AccountLocked? ==> RoundsUp(verdict.retryAfterSeconds, a.lockedUntil.value - at))
            && (!verdict.AccountLocked? ==> Shows(checked, email, a.(window := Tick(a.window, at, WINDOW_MS))))
            && (verdict == Admitted <==> !InTerm(a, at) && WithinRate(a, at))
            && (verdict.TooManyRequests? ==> RoundsUp(verdict.retryAfterSeconds, a.window.since + WINDOW_MS - at))
  {
    CounterTicks(m, Key(Rate, email), a.window, LOGIN_RATE_WINDOW_SECONDS, at);
  }

  /** A failure counts; the tenth in a row locks for the term of the row's new length. */
  lemma FailureShows(m: Table, email: string, a: Account, at: int)
    requires Shows(m, email, a)
    ensures Shows(AfterFailure(m, email, at), email, AfterFailed(a, at))
  {
    CounterTicks(m, Key(Fail, email), a.streak, FAILURE_TTL_SECONDS, at);
    var counted := Incr(m, Key(Fail, email), FAILURE_TTL_SECONDS, at);
    CounterTicks(counted, Key(Lockouts, email), a.row, LOCKOUT_HISTORY_TTL_SECONDS, at);
  }

  lemma StepShows(m: Table, e: Event, email: string, a: Account)
    requires Shows(m, email, a)
    ensures Shows(Next(m, e), email, if e.email == email then AccountAfter(a, e) else a)
  {
    if e.email != email {
      forall kind ensures Key(kind, email) in Next(m, e) <==> Key(kind, email) in m {
        OtherKeysKept(m, e, Key(kind, email));
      }
      forall kind | Key(kind, email) in m ensures Next(m, e)[Key(kind, email)] == m[Key(kind, email)] {
        OtherKeysKept(m, e, Key(kind, email));
      }
    } else if e.Login? {
      AttemptShows(m, email, a, e.at);
      if Admits(m, e) && !e.ok {
        FailureShows(Attempt(m, email, e.at).0, email, a.(window := Tick(a.window, e.at, WINDOW_MS)), e.at);
      }
    }
  }

  /** In every run the store holds, for every account, what the events say of it. */
  lemma {:induction false} RunShowsHistory(events: seq<Event>, email: string)
    ensures Shows(Run(map[], events), email, History(events, email))
    decreases |events|
  {
    if events == [] {
    } else {
      var before, e := events[..|events| - 1], events[|events| - 1];
      RunShowsHistory(before, email);
      StepShows(Run(map[], before), e, email, History(before, email));
    }
  }

  /**
    In every run an attempt is refused as locked exactly in the term of the last lock, admitted
    exactly if it is not and fewer than five attempts were counted in the open window, and otherwise
    refused for the rate; both refusals tell the seconds left, rounded up.
   */
  lemma VerdictToldFromEvents(events: seq<Event>, email: string, at: int)
    ensures var a, verdict := History(events, email), Attempt(Run(map[], events), email, at).1;
            && (verdict.AccountLocked? <==> InTerm(a, at))
            && (verdict == Admitted <==> !InTerm(a, at) && WithinRate(a, at))
            && (verdict.AccountLocked? ==> RoundsUp(verdict.retryAfterSeconds, a.lockedUntil.value - at))
            && (verdict.TooManyRequests? ==> RoundsUp(verdict.retryAfterSeconds, a.window.since + WINDOW_MS - at))
  {
    RunShowsHistory(events, email);
    AttemptShows(Run(map[], events), email, History(events, email), at);
  }

  /** An admitted failure after `events`. */
  lemma FailureLeaves(events: seq<Event>, email: string, at: int)
    requires Admits(Run(map[], events), Login(email, at, false))
    ensures var e, all := Login(email, at, false), events + [Login(email, at, false)];
            && Run(map[], all) == Next(Run(map[], events), e)
            && History(all, email) == AfterFailed(History(events, email).(window := History(all, email).window), at)
            && Shows(Run(map[], all), email, History(all, email))
  {
    var all := events + [Login(email, at, false)];
    assert all[..|events|] == events;
    VerdictToldFromEvents(events, email, at);
    RunShowsHistory(all, email);
  }

  /**
    In every run, an admitted failure locks the account if and only if nine failures in a row stand
    before it and the first of them is less than a day old.
   */
  lemma TenthFailureInARowLocks(events: seq<Event>, email: string, at: int)
    requires Admits(Run(map[], events), Login(email, at, false))
    ensures var streak := History(events, email).streak;
            Locks(Run(map[], events), Login(email, at, false)) <==> streak.n == 9 && at < streak.since + FAILURE_LIFE_MS
  {
    VerdictToldFromEvents(events, email, at);
    RunShowsHistory(events, email);
    FailureLeaves(events, email, at);
    LockMinutesPositive(History(events + [Login(email, at, false)], email).row.n);
  }

  /** In every run, the n-th lock in a row lasts `LockMinutes(n)`, is counted, and clears the streak. */
  lemma LocksEscalate(events: seq<Event>, email: string, at: int)
    requires Locks(Run(map[], events), Login(email, at, false))
    ensures var all := events + [Login(email, at, false)];
            var row := History(all, email).row;
            && row == Tick(History(events, email).row, at, HISTORY_LIFE_MS)
            && Run(map[], all)[Key(Lock, email)].expiresAt == at + LockMinutes(row.n) * 60_000
            && Count(Run(map[], all), Key(Lockouts, email), at) == row.n
            && Key(Fail, email) !in Run(map[], all)
  {
    TenthFailureInARowLocks(events, email, at);
    FailureLeaves(events, email, at);
  }

  /** Failed logins, one each minute. */
  ghost predicate OnePerMinute(events: seq<Event>, email: string, from: int) {
    forall i | 0 <= i < |events| :: events[i] == Login(email, from + 60_000 * i, false)
  }

  function FailingStreak(from: int, n: nat): Tally {
    if n == 0 then NO_TALLY else Tally(n, from)
  }

  lemma {:induction false} OnePerMinuteHistory(events: seq<Event>, email: string, from: int)
    requires OnePerMinute(events, email, from) && |events| <= 9
    ensures var window := if events == [] then NO_TALLY else Tally(1, from + 60_000 * (|events| - 1));
            History(events, email) == Account(None, window, FailingStreak(from, |events|), NO_TALLY)
  {
    if events == [] {
    } else {
      OnePerMinuteHistory(events[..|events| - 1], email, from);
    }
  }

  /**
    "The tenth consecutive failure locks" needs the day: after nine failures in as many minutes, a
    tenth locks one minute later, but not a day after the first.
   */
  lemma SlowTenthFailureDoesNotLock(nine: seq<Event>, email: string, from: int)
    requires |nine| == 9 && OnePerMinute(nine, email, from)
    ensures var m := Run(map[], nine);
            var soon, late := Login(email, from + 9 * 60_000, false), Login(email, from + FAILURE_LIFE_MS, false);
            Locks(m, soon) && Admits(m, late) && !Locks(m, late)
  {
    OnePerMinuteHistory(nine, email, from);
    VerdictToldFromEvents(nine, email, from + 9 * 60_000);
    VerdictToldFromEvents(nine, email, from + FAILURE_LIFE_MS);
    TenthFailureInARowLocks(nine, email, from + 9 * 60_000);
    TenthFailureInARowLocks(nine, email, from + FAILURE_LIFE_MS);
  }

  /** Failed logins: five at `from`, the others a minute later. */
  ghost predicate FiveAndFive(events: seq<Event>, email: string, from: int) {
    forall i | 0 <= i < |events| :: events[i] == Login(email, if i < 5 then from else from + WINDOW_MS, false)
  }

  lemma {:induction false} FiveAndFiveHistory(events: seq<Event>, email: string, from: int)
    requires FiveAndFive(events, email, from) && |events| <= 9
    ensures var n := |events|;
            var window := if n <= 5 then FailingStreak(from, n) else Tally(n - 5, from + WINDOW_MS);
            History(events, email) == Account(None, window, FailingStreak(from, n), NO_TALLY)
  {
    if events == [] {
    } else {
      FiveAndFiveHistory(events[..|events| - 1], email, from);
    }
  }

  /** Ten in a minute are possible: five as the span begins and five as it ends are all admitted. */
  lemma {:induction false} TenIsAttained(ten: seq<Event>, email: string, from: int)
    requires FiveAndFive(ten, email, from) && |ten| <= 10
    ensures Monotone(ten) && Undisturbed(map[], ten, email, from, from + WINDOW_MS)
    ensures AdmittedIn(map[], ten, email, from, from + WINDOW_MS) == |ten|
  {
    if ten == [] {
    } else {
      var before, e := ten[..|ten| - 1], ten[|ten| - 1];
      TenIsAttained(before, email, from);
      FiveAndFiveHistory(before, email, from);
      VerdictToldFromEvents(before, email, e.at);
    }
  }

  /** In every run, an admitted success leaves the row of locks and its counter, and clears the streak and the rate. */
  lemma SuccessKeepsEscalation(events: seq<Event>, email: string, at: int)
    requires Admits(Run(map[], events), Login(email, at, true))
    ensures var all, row := events + [Login(email, at, true)], History(events, email).row;
            && History(all, email) == History(events, email).(window := NO_TALLY, streak := NO_TALLY)
            && Holds(Run(map[], all), Key(Lockouts, email), row, HISTORY_LIFE_MS)
            && Key(Fail, email) !in Run(map[], all) && Key(Rate, email) !in Run(map[], all)
  {
    var all := events + [Login(email, at, true)];
    assert all[..|events|] == events;
    VerdictToldFromEvents(events, email, at);
    RunShowsHistory(all, email);
  }

  /** After an unlock the account is as if nobody had ever tried it; every other account is untouched. */
  lemma UnlockForgets(m: Table, email: string, at: int)
    ensures forall kind :: Key(kind, email) !in Next(m, AdminUnlocks(email, at))
    ensures forall key: Key | key.email != email ::
              Visible(Next(m, AdminUnlocks(email, at)), key, at) == Visible(m, key, at)
    ensures Attempt(Next(m, AdminUnlocks(email, at)), email, at).1 == Admitted
  {
    forall kind ensures Key(kind, email) !in Next(m, AdminUnlocks(email, at)) {
      match kind
      case Lock =>
      case Rate =>
      case Fail =>
      case Lockouts =>
    }
  }
}
