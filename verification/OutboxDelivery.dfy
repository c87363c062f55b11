/**
  How often the outbox queues a session and how often the server can come to accept it.
 */
module OutboxDelivery {
  import opened Numbers
  import opened Options
  import opened Counting
  import opened OfflineOutbox

  // ---------------------------------------------------------------- counting by id

  function CountId(items: seq<Item>, id: nat): nat {
    if items == [] then 0 else CountId(items[..|items| - 1], id) + if items[|items| - 1].id == id then 1 else 0
  }

  lemma CountIdAppend(items: seq<Item>, item: Item, id: nat)
    ensures CountId(items + [item], id) == CountId(items, id) + if item.id == id then 1 else 0
  {
    assert (items + [item])[..|items|] == items;
  }

  lemma {:induction false} CountIdFirst(items: seq<Item>, id: nat)
    requires items != []
    ensures CountId(items, id) == CountId(items[1..], id) + if items[0].id == id then 1 else 0
  {
    if |items| == 1 {
    } else {
      var front := items[..|items| - 1];
      CountIdFirst(front, id);
      assert front[1..] == items[1..][..|items| - 2];
    }
  }

  lemma {:induction false} CountIdHolds(items: seq<Item>, id: nat)
    ensures CountId(items, id) > 0 <==> Holds(items, id)
  {
    if items == [] {
    } else {
      var front, last := items[..|items| - 1], items[|items| - 1];
      CountIdHolds(front, id);
      assert items == front + [last];
      if Holds(items, id) && last.id != id {
        var held :| held in items && held.id == id;
        assert held in front;
      }
      if Holds(front, id) {
        var held :| held in front && held.id == id;
        assert held in items;
      }
    }
  }

  lemma {:induction false} SubsequenceCounts(a: seq<Item>, b: seq<Item>, id: nat)
    requires Subsequence(a, b)
    ensures CountId(a, id) <= CountId(b, id)
    decreases |b|
  {
    if a == [] {
    } else {
      if Subsequence(a, b[..|b| - 1]) {
        SubsequenceCounts(a, b[..|b| - 1], id);
      } else {
        SubsequenceCounts(a[..|a| - 1], b[..|b| - 1], id);
      }
    }
  }

  // ---------------------------------------------------------------- how often a session is queued

  predicate Completed(session: Option<Record>, id: nat) {
    session.Some? && session.value.completed && session.value.id == id
  }

  /**
    The stored session is the shown one, ids are fresh, a session is noted as completed exactly when
    it is, and the marker names the shown session exactly when that is completed.
   */
  ghost predicate QueueFits(o: Outbox) {
    && (o.storedSession, o.enqueuedId) == (o.session, MarkOf(o.session))
    && (forall id: nat | id in o.completed || ShownIs(o, id) :: id < o.nextId)
    && (o.session.Some? ==> (o.session.value.id in o.completed <==> o.session.value.completed))
  }

  /** The marker of a session that has been queued. */
  function MarkOf(session: Option<Record>): Option<nat> {
    if session.Some? && session.value.completed then Some(session.value.id) else None
  }

  /** How often a step queues session `id`: when it completes it, and when it reloads a page that shows it completed. */
  function Queues(o: Outbox, step: Step, id: nat): nat {
    (if id in Next(o, step).completed && id !in o.completed then 1 else 0)
    + (if step.Reloads? && Completed(o.storedSession, id) then 1 else 0)
  }

  /** The effects store the session and mark it if it is completed. */
  lemma EffectsStore(o: Outbox)
    ensures var after, done := SessionEffects(o), o.session.Some? && o.session.value.completed;
            && after.session == o.session && after.nextId == o.nextId
            && after.storedSession == (if o.session.Some? then o.session else o.storedSession)
            && after.completed == (if done then o.completed + {o.session.value.id} else o.completed)
            && after.enqueuedId == (if done then Some(o.session.value.id) else o.enqueuedId)
  {
  }

  /** The effects queue a completed session that is not marked. */
  lemma EffectsEnqueue(o: Outbox)
    ensures SessionEffects(o).enqueued
            == if o.session.Some? && o.session.value.completed && o.enqueuedId != Some(o.session.value.id)
               then o.enqueued + [Item(o.session.value.id, o.session.value)]
               else o.enqueued
  {
  }

  lemma EffectsQueue(o: Outbox, id: nat)
    ensures CountId(SessionEffects(o).enqueued, id)
            == CountId(o.enqueued, id) + if Completed(o.session, id) && o.enqueuedId != Some(id) then 1 else 0
  {
    EffectsEnqueue(o);
    if o.session.Some? {
      CountIdAppend(o.enqueued, Item(o.session.value.id, o.session.value), id);
    }
  }

  lemma ReloadQueues(o: Outbox, online: bool, id: nat)
    requires QueueFits(o)
    ensures QueueFits(Reload(o, online)) && Reload(o, online).completed == o.completed
    ensures CountId(Reload(o, online).enqueued, id)
            == CountId(o.enqueued, id) + if Completed(o.storedSession, id) then 1 else 0
  {
    EffectsStore(Mounted(o, online));
    EffectsQueue(Mounted(o, online), id);
    assert o.session.Some? && o.session.value.completed ==> o.completed + {o.session.value.id} == o.completed;
  }

  /** A step queued session `id` `added` times. */
  ghost predicate QueuesBy(o: Outbox, after: Outbox, id: nat, added: nat) {
    QueueFits(after) && o.completed <= after.completed && CountId(after.enqueued, id) == CountId(o.enqueued, id) + added
  }

  lemma PlayQueues(o: Outbox, guess: string, id: nat)
    requires QueueFits(o)
    ensures QueuesBy(o, SubmitGuess(o, guess), id, 0) && SubmitGuess(o, guess).completed == o.completed
  {
    var played := match o.session
      case None => o.(session := Some(Record(o.nextId, [guess], false, false)), nextId := o.nextId + 1)
      case Some(r) => o.(session := Some(r.(guesses := r.guesses + [guess])));
    EffectsStore(played);
    EffectsQueue(played, id);
    assert o.session.Some? && o.session.value.completed ==> o.completed + {o.session.value.id} == o.completed;
  }

  lemma CompletionQueues(o: Outbox, won: bool, id: nat)
    requires QueueFits(o)
    ensures var after := CompleteSession(o, won);
            QueuesBy(o, after, id, if id in after.completed && id !in o.completed then 1 else 0)
  {
    if o.session.Some? {
      var finished := o.(session := Some(o.session.value.(completed := true, won := won)));
      EffectsStore(finished);
      EffectsQueue(finished, id);
    }
  }

  lemma StepQueues(o: Outbox, step: Step, id: nat)
    requires QueueFits(o)
    ensures QueuesBy(o, Next(o, step), id, Queues(o, step, id))
  {
    match step
    case Guess(guess) => PlayQueues(o, guess, id);
    case Complete(won) => CompletionQueues(o, won, id);
    case Reloads(online) => ReloadQueues(o, online, id);
    case _ => OtherStepsQueueNothing(o, step, id);
  }

  lemma OtherStepsQueueNothing(o: Outbox, step: Step, id: nat)
    requires QueueFits(o) && !step.Guess? && !step.Complete? && !step.Reloads?
    ensures QueuesBy(o, Next(o, step), id, 0) && Next(o, step).completed == o.completed
  {
  }

  lemma {:induction false} FitsAlways(o: Outbox, steps: seq<Step>)
    requires QueueFits(o)
    ensures QueueFits(Run(o, steps))
    decreases |steps|
  {
    if steps == [] {
    } else {
      FitsAlways(o, steps[..|steps| - 1]);
      StepQueues(Run(o, steps[..|steps| - 1]), steps[|steps| - 1], 0);
    }
  }

  /** Session `id` was ever queued exactly if it was completed. */
  ghost predicate QueuedIsCompleted(o: Outbox, id: nat) {
    CountId(o.enqueued, id) > 0 <==> id in o.completed
  }

  /** The reloads in a run that found session `id` completed. */
  function ReloadsOn(o: Outbox, steps: seq<Step>, id: nat): nat
    decreases |steps|
  {
    if steps == [] then 0 else
      var before, step := steps[..|steps| - 1], steps[|steps| - 1];
      ReloadsOn(o, before, id) + if step.Reloads? && Completed(Run(o, before).storedSession, id) then 1 else 0
  }

  /** In every run a session is queued once when it is completed and once by each reload that finds it so. */
  lemma {:induction false} QueuedOnceAndOncePerReload(online: bool, steps: seq<Step>, id: nat)
    ensures var o := Run(Start(online), steps);
            && CountId(o.enqueued, id) == (if id in o.completed then 1 else 0) + ReloadsOn(Start(online), steps, id)
            && (CountId(o.enqueued, id) > 0 ==> id in o.completed)
    decreases |steps|
  {
    if steps == [] {
    } else {
      var before, step := steps[..|steps| - 1], steps[|steps| - 1];
      QueuedOnceAndOncePerReload(online, before, id);
      FitsAlways(Start(online), before);
      StepQueues(Run(Start(online), before), step, id);
    }
  }

  lemma StepQueuesAgain(o: Outbox, step: Step, id: nat)
    requires QueueFits(o) && QueuedIsCompleted(o, id)
    ensures QueuedIsCompleted(Next(o, step), id)
    ensures CountId(o.enqueued, id) > 0 ==>
              CountId(Next(o, step).enqueued, id)
              == CountId(o.enqueued, id) + if step.Reloads? && Completed(o.storedSession, id) then 1 else 0
    ensures CountId(o.enqueued, id) == 0 ==>
              CountId(Next(o, step).enqueued, id) == if id in Next(o, step).completed then 1 else 0
  {
    StepQueues(o, step, id);
  }

  /**
    In every reachable state a step queues a session that was queued before if and only if it is a
    reload that finds the session completed.
   */
  lemma QueuedAgainExactlyOnReload(online: bool, steps: seq<Step>, step: Step, id: nat)
    ensures var o := Run(Start(online), steps);
            CountId(o.enqueued, id) > 0 && CountId(Next(o, step).enqueued, id) > CountId(o.enqueued, id)
            <==> step.Reloads? && Completed(o.storedSession, id)
  {
    QueuedOnceAndOncePerReload(online, steps, id);
    FitsAlways(Start(online), steps);
    StepQueuesAgain(Run(Start(online), steps), step, id);
  }

  /** Without a reload in between, a session is queued at most once more, and not at all if it was queued. */
  lemma {:induction false} NoReloadQueuesOnce(o: Outbox, steps: seq<Step>, id: nat)
    requires QueueFits(o) && QueuedIsCompleted(o, id) && forall step | step in steps :: !step.Reloads?
    ensures QueuedIsCompleted(Run(o, steps), id)
    ensures CountId(Run(o, steps).enqueued, id) <= Max(CountId(o.enqueued, id), 1)
    decreases |steps|
  {
    if steps == [] {
    } else {
      var before, step := steps[..|steps| - 1], steps[|steps| - 1];
      NoReloadQueuesOnce(o, before, id);
      FitsAlways(o, before);
      assert step in steps;
      StepQueuesAgain(Run(o, before), step, id);
    }
  }

  /** A page life, from its load up to the next, queues each session at most once. */
  lemma PageLifeQueuesOnce(online: bool, steps: seq<Step>, again: bool, life: seq<Step>, id: nat)
    requires forall step | step in life :: !step.Reloads?
    ensures var o := Run(Start(online), steps);
            CountId(Run(Next(o, Reloads(again)), life).enqueued, id) <= CountId(o.enqueued, id) + 1
  {
    var o := Run(Start(online), steps);
    QueuedOnceAndOncePerReload(online, steps, id);
    FitsAlways(Start(online), steps);
    StepQueuesAgain(o, Reloads(again), id);
    StepQueues(o, Reloads(again), id);
    NoReloadQueuesOnce(Next(o, Reloads(again)), life, id);
  }

  // ---------------------------------------------------------------- what is queued

  /** A game as the player sees it: the guesses in order, and how it ended. */
  datatype Game = Game(guesses: seq<string>, outcome: Option<bool>)

  /** The game on the page, told from the player's steps alone. */
  function GameOf(steps: seq<Step>): Option<Game> {
    if steps == [] then None else GameAfter(GameOf(steps[..|steps| - 1]), steps[|steps| - 1])
  }

  function GameAfter(game: Option<Game>, step: Step): Option<Game> {
    match step
    case Guess(guess) =>
      Some(if game.None? then Game([guess], None) else game.value.(guesses := game.value.guesses + [guess]))
    case Complete(won) => if game.None? then None else Some(game.value.(outcome := Some(won)))
    case Reset => None
    case _ => game
  }

  /** The game that a record holds. */
  function GameIn(session: Option<Record>): Option<Game> {
    match session
    case None => None
    case Some(r) => Some(Game(r.guesses, if r.completed then Some(r.won) else None))
  }

  /** A step queues nothing, or the session it leaves on the page. */
  ghost predicate QueuesShown(o: Outbox, after: Outbox) {
    || after.enqueued == o.enqueued
    || (after.session.Some? && after.enqueued == o.enqueued + [Item(after.session.value.id, after.session.value)])
  }

  lemma StepRecords(o: Outbox, step: Step, game: Option<Game>)
    requires QueueFits(o) && GameIn(o.session) == game
    ensures GameIn(Next(o, step).session) == GameAfter(game, step) && QueuesShown(o, Next(o, step))
  {
    match step
    case Guess(guess) =>
      var played := match o.session
        case None => o.(session := Some(Record(o.nextId, [guess], false, false)), nextId := o.nextId + 1)
        case Some(r) => o.(session := Some(r.(guesses := r.guesses + [guess])));
      EffectsStore(played);
      EffectsEnqueue(played);
    case Complete(won) =>
      if o.session.Some? {
        var finished := o.(session := Some(o.session.value.(completed := true, won := won)));
        EffectsStore(finished);
        EffectsEnqueue(finished);
      }
    case Reloads(online) =>
      EffectsStore(Mounted(o, online));
      EffectsEnqueue(Mounted(o, online));
    case _ =>
  }

  /** In every run the page shows, and stores, exactly the game that the player's steps tell, across reloads. */
  lemma {:induction false} RunRecordsGame(online: bool, steps: seq<Step>)
    ensures var o := Run(Start(online), steps);
            o.storedSession == o.session && GameIn(o.session) == GameOf(steps)
    decreases |steps|
  {
    if steps == [] {
    } else {
      var before, step := steps[..|steps| - 1], steps[|steps| - 1];
      RunRecordsGame(online, before);
      FitsAlways(Start(online), before);
      StepRecords(Run(Start(online), before), step, GameOf(before));
      StepQueues(Run(Start(online), before), step, 0);
    }
  }

  /** And what a step queues is the session that it leaves on the page. */
  lemma QueuedIsShown(online: bool, steps: seq<Step>, step: Step)
    ensures var o := Run(Start(online), steps);
            QueuesShown(o, Next(o, step)) && GameIn(Next(o, step).session) == GameAfter(GameOf(steps), step)
  {
    RunRecordsGame(online, steps);
    FitsAlways(Start(online), steps);
    StepRecords(Run(Start(online), steps), step, GameOf(steps));
  }

  /** Whether the page is online after a step. */
  function OnlineAfter(online: bool, step: Step): bool {
    match step
    case GoOnline => true
    case GoOffline => false
    case Reloads(now) => now
    case _ => online
  }

  lemma EffectsKeepOnline(o: Outbox)
    ensures SessionEffects(o).online == o.online
  {
  }

  lemma StepGoesOnline(o: Outbox, step: Step)
    ensures Next(o, step).online == OnlineAfter(o.online, step)
  {
    match step
    case Guess(guess) =>
      EffectsKeepOnline(match o.session
        case None => o.(session := Some(Record(o.nextId, [guess], false, false)), nextId := o.nextId + 1)
        case Some(r) => o.(session := Some(r.(guesses := r.guesses + [guess]))));
    case Complete(won) =>
      if o.session.Some? {
        EffectsKeepOnline(o.(session := Some(o.session.value.(completed := true, won := won))));
      }
    case Reloads(online) => EffectsKeepOnline(Mounted(o, online));
    case _ =>
  }

  // ---------------------------------------------------------------- how often it can be accepted

  /**
    The requests that can still reach the server: what a live flush has not sent, or the one request
    of an abandoned flush that was already on its way.
   */
  function Sendable(f: Flush): seq<Item> {
    if f.items == [] then []
    else if f.alive then (if f.served then f.items[1..] else f.items)
    else if f.served then []
    else [f.items[0]]
  }

  function Carries(id: nat): Flush -> nat {
    f => CountId(Sendable(f), id)
  }

  function Load(f: Flush): nat {
    |Sendable(f)|
  }

  function Sum(flushes: seq<Flush>, weight: Flush -> nat): nat {
    if flushes == [] then 0 else Sum(flushes[..|flushes| - 1], weight) + weight(flushes[|flushes| - 1])
  }

  /** Acceptances of session `id`, those that happened and those under way. */
  function Copies(o: Outbox, id: nat): nat {
    Count(o.accepted, id) + Sum(o.flushes, Carries(id))
  }

  lemma {:induction false} SumUpdate(flushes: seq<Flush>, h: nat, f: Flush, weight: Flush -> nat)
    requires h < |flushes|
    ensures Sum(flushes[h := f], weight) == Sum(flushes, weight) - weight(flushes[h]) + weight(f)
  {
    var last := |flushes| - 1;
    if h == last {
      assert flushes[h := f][..last] == flushes[..last];
    } else {
      assert flushes[h := f][..last] == flushes[..last][h := f];
      SumUpdate(flushes[..last], h, f, weight);
    }
  }

  lemma {:induction false} SumPositive(flushes: seq<Flush>, weight: Flush -> nat) returns (h: nat)
    requires Sum(flushes, weight) > 0
    ensures h < |flushes| && weight(flushes[h]) > 0
  {
    h := |flushes| - 1;
    if weight(flushes[h]) == 0 {
      h := SumPositive(flushes[..h], weight);
    }
  }

  /** Nothing new can be sent by what a server, a network or a page does with the requests under way. */
  predicate Settles(step: Step) {
    step.Serve? || step.Ok? || step.Fail?
  }

  /** Serving a request turns a copy under way into one accepted. */
  lemma ServeKeepsCopies(o: Outbox, h: nat, id: nat)
    ensures Copies(Next(o, Serve(h)), id) == Copies(o, id)
  {
    if InFlight(o, h) && !o.flushes[h].served {
      var f := o.flushes[h];
      CountAppend(o.accepted, f.items[0].id, id);
      SumUpdate(o.flushes, h, f.(served := true), Carries(id));
      CountIdFirst(f.items, id);
      CountIdFirst([f.items[0]], id);
    }
  }

  lemma OkKeepsCopies(o: Outbox, h: nat, id: nat)
    ensures Copies(Next(o, Ok(h)), id) == Copies(o, id)
  {
    if InFlight(o, h) && o.flushes[h].served && o.flushes[h].alive {
      SumUpdate(o.flushes, h, Flush(o.flushes[h].items[1..], false, true), Carries(id));
    }
  }

  /** A failed request takes with it all that its flush could still send. */
  lemma FailDropsCopies(o: Outbox, h: nat, id: nat)
    ensures Copies(Next(o, Fail(h)), id)
            == Copies(o, id) - if InFlight(o, h) && o.flushes[h].alive then CountId(Sendable(o.flushes[h]), id) else 0
  {
    if InFlight(o, h) && o.flushes[h].alive {
      SumUpdate(o.flushes, h, Flush([], false, true), Carries(id));
    }
  }

  lemma EffectsKeepFlush(o: Outbox, h: nat)
    requires h < |o.flushes|
    ensures h < |SessionEffects(o).flushes| && SessionEffects(o).flushes[h] == o.flushes[h]
  {
  }

  lemma EndedStaysEnded(o: Outbox, h: nat, step: Step)
    requires h < |o.flushes| && o.flushes[h].items == []
    ensures h < |Next(o, step).flushes| && Next(o, step).flushes[h].items == []
  {
    match step
    case Guess(guess) =>
      EffectsKeepFlush(match o.session
        case None => o.(session := Some(Record(o.nextId, [guess], false, false)), nextId := o.nextId + 1)
        case Some(r) => o.(session := Some(r.(guesses := r.guesses + [guess]))), h);
    case Complete(won) =>
      if o.session.Some? {
        EffectsKeepFlush(o.(session := Some(o.session.value.(completed := true, won := won))), h);
      }
    case Reloads(online) => EffectsKeepFlush(Mounted(o, online), h);
    case _ =>
  }

  /** A flush that has ended, by a failure or for want of items, never makes the server accept anything again. */
  lemma {:induction false} EndedFlushIsSilent(o: Outbox, h: nat, steps: seq<Step>)
    requires h < |o.flushes| && o.flushes[h].items == []
    ensures h < |Run(o, steps).flushes| && Run(o, steps).flushes[h].items == []
    ensures Next(Run(o, steps), Serve(h)) == Run(o, steps)
    decreases |steps|
  {
    if steps == [] {
    } else {
      EndedFlushIsSilent(o, h, steps[..|steps| - 1]);
      EndedStaysEnded(Run(o, steps[..|steps| - 1]), h, steps[|steps| - 1]);
    }
  }

  lemma {:induction false} SettlingAddsNoCopies(o: Outbox, steps: seq<Step>, id: nat)
    requires forall step | step in steps :: Settles(step)
    ensures Copies(Run(o, steps), id) <= Copies(o, id)
    decreases |steps|
  {
    if steps == [] {
    } else {
      var before, step := Run(o, steps[..|steps| - 1]), steps[|steps| - 1];
      SettlingAddsNoCopies(o, steps[..|steps| - 1], id);
      assert step in steps;
      match step
      case Serve(h) => ServeKeepsCopies(before, h, id);
      case Ok(h) => OkKeepsCopies(before, h, id);
      case Fail(h) => FailDropsCopies(before, h, id);
      case _ =>
    }
  }

  /** The next request of flush `h` reaches the server, after the answer to the one before it. */
  function SendNext(o: Outbox, h: nat): seq<Step> {
    if h < |o.flushes| && o.flushes[h].served then [Ok(h), Serve(h)] else [Serve(h)]
  }

  lemma ServeLightens(o: Outbox, h: nat, id: nat)
    requires InFlight(o, h) && !o.flushes[h].served
    ensures Copies(Next(o, Serve(h)), id) == Copies(o, id)
    ensures Sum(Next(o, Serve(h)).flushes, Load) < Sum(o.flushes, Load)
  {
    ServeKeepsCopies(o, h, id);
    SumUpdate(o.flushes, h, o.flushes[h].(served := true), Load);
  }

  lemma OkReadies(o: Outbox, h: nat, id: nat)
    requires h < |o.flushes| && o.flushes[h].served && Load(o.flushes[h]) > 0
    ensures var ready := Next(o, Ok(h));
            && InFlight(ready, h) && !ready.flushes[h].served
            && Copies(ready, id) == Copies(o, id) && Sum(ready.flushes, Load) == Sum(o.flushes, Load)
  {
    OkKeepsCopies(o, h, id);
    SumUpdate(o.flushes, h, Flush(o.flushes[h].items[1..], false, true), Load);
  }

  lemma SendNextSends(o: Outbox, h: nat, id: nat)
    requires h < |o.flushes| && Load(o.flushes[h]) > 0
    ensures Copies(Run(o, SendNext(o, h)), id) == Copies(o, id)
    ensures Sum(Run(o, SendNext(o, h)).flushes, Load) < Sum(o.flushes, Load)
  {
    if o.flushes[h].served {
      RunOneMore(o, [], Ok(h));
      RunOneMore(o, [Ok(h)], Serve(h));
      assert [Ok(h)] + [Serve(h)] == SendNext(o, h);
      OkReadies(o, h, id);
      ServeLightens(Next(o, Ok(h)), h, id);
    } else {
      RunOneMore(o, [], Serve(h));
      ServeLightens(o, h, id);
    }
  }

  /** A server that answers everything under way accepts every copy. */
  lemma {:induction false} EverythingIsDelivered(o: Outbox, id: nat) returns (steps: seq<Step>)
    ensures forall step | step in steps :: Settles(step)
    ensures Count(Run(o, steps).accepted, id) == Copies(o, id)
    decreases Sum(o.flushes, Load)
  {
    if Sum(o.flushes, Carries(id)) == 0 {
      steps := [];
    } else {
      var h := SumPositive(o.flushes, Carries(id));
      var first := SendNext(o, h);
      SendNextSends(o, h, id);
      var rest := EverythingIsDelivered(Run(o, first), id);
      RunConcat(o, first, rest);
      steps := first + rest;
    }
  }

  /** With nothing new taken from the queue, the server can come to have accepted session `id` `n` times. */
  ghost predicate CanBeAccepted(o: Outbox, id: nat, n: nat) {
    exists steps :: (forall step | step in steps :: Settles(step)) && Count(Run(o, steps).accepted, id) >= n
  }

  /** How often a session can be accepted is what the flushes under way still carry, and no more. */
  lemma CanBeAcceptedExactly(o: Outbox, id: nat, n: nat)
    ensures CanBeAccepted(o, id, n) <==> n <= Copies(o, id)
  {
    if CanBeAccepted(o, id, n) {
      var steps :| (forall step | step in steps :: Settles(step)) && Count(Run(o, steps).accepted, id) >= n;
      SettlingAddsNoCopies(o, steps, id);
    }
    var steps := EverythingIsDelivered(o, id);
  }

  // ---------------------------------------------------------------- where further copies come from

  /** An abandoned flush sends at most the request already under way. */
  lemma AbandonedCarriesLess(f: Flush, id: nat)
    ensures CountId(Sendable(f.(alive := false)), id) <= CountId(Sendable(f), id)
  {
    if f.items != [] && !f.served {
      CountIdFirst(f.items, id);
      CountIdFirst([f.items[0]], id);
    }
  }

  lemma {:induction false} AbandoningDropsCopies(flushes: seq<Flush>, id: nat)
    ensures Sum(Abandoned(flushes), Carries(id)) <= Sum(flushes, Carries(id))
  {
    if flushes == [] {
    } else {
      var front, last := flushes[..|flushes| - 1], flushes[|flushes| - 1];
      AbandoningDropsCopies(front, id);
      AbandonedCarriesLess(last, id);
      assert Abandoned(flushes)[..|flushes| - 1] == Abandoned(front);
    }
  }

  lemma SumAppend(flushes: seq<Flush>, f: Flush, weight: Flush -> nat)
    ensures Sum(flushes + [f], weight) == Sum(flushes, weight) + weight(f)
  {
    assert (flushes + [f])[..|flushes|] == flushes;
  }

  /** The copies that queueing the session takes: the queue and the session itself, when the page is online. */
  function QueueTakes(o: Outbox, session: Option<Record>, enqueuedId: Option<nat>, online: bool, id: nat): nat {
    if session.Some? && session.value.completed && enqueuedId != Some(session.value.id) && online
    then CountId(o.pending, id) + if session.value.id == id then 1 else 0
    else 0
  }

  /** The copies of session `id` that flushes started by a step take from the queue. */
  function Taken(o: Outbox, step: Step, id: nat): nat {
    match step
    case Guess(_) => QueueTakes(o, o.session, o.enqueuedId, o.online, id)
    case Complete(won) =>
      if o.session.None? then 0
      else QueueTakes(o, Some(o.session.value.(completed := true)), o.enqueuedId, o.online, id)
    case GoOnline => if o.online then 0 else CountId(o.pending, id)
    case FlushNow => if o.online then CountId(o.pending, id) else 0
    case Reloads(online) =>
      (if online then CountId(o.pending, id) else 0) + QueueTakes(o, o.storedSession, None, online, id)
    case _ => 0
  }

  lemma FlushTakes(o: Outbox, id: nat)
    ensures Copies(StartFlush(o), id) == Copies(o, id) + if o.online then CountId(o.pending, id) else 0
  {
    SumAppend(o.flushes, Flush(o.pending, false, true), Carries(id));
  }

  lemma EffectsTake(o: Outbox, id: nat)
    ensures Copies(SessionEffects(o), id) == Copies(o, id) + QueueTakes(o, o.session, o.enqueuedId, o.online, id)
  {
    if o.session.Some? && o.session.value.completed && o.enqueuedId != Some(o.session.value.id) {
      var r := o.session.value;
      var noted := o.(storedSession := Some(r), completed := o.completed + {r.id});
      var item := Item(r.id, r);
      var queued := noted.(enqueuedId := Some(r.id), pending := o.pending + [item],
                           pendingSyncCount := o.pendingSyncCount + 1, enqueued := o.enqueued + [item]);
      assert SessionEffects(o) == StartFlush(queued);
      FlushTakes(queued, id);
      CountIdAppend(o.pending, item, id);
    }
  }

  /** A good answer, handled by a live page, takes the session out of the store, every copy of it, and no other. */
  lemma OkRemovesExactly(o: Outbox, h: nat, id: nat)
    ensures CountId(Next(o, Ok(h)).pending, id)
            == if InFlight(o, h) && o.flushes[h].served && o.flushes[h].alive && o.flushes[h].items[0].id == id then 0
               else CountId(o.pending, id)
  {
    if InFlight(o, h) {
      WithoutCounts(o.pending, o.flushes[h].items[0].id, id);
    }
  }

  /** What the effects do to the stored copies. */
  lemma EffectsStoreCopies(o: Outbox, id: nat)
    ensures CountId(SessionEffects(o).pending, id)
            == CountId(o.pending, id) + if Completed(o.session, id) && o.enqueuedId != Some(id) then 1 else 0
  {
    if o.session.Some? {
      CountIdAppend(o.pending, Item(o.session.value.id, o.session.value), id);
    }
  }

  /** What is left of the running flushes when a step begins: a reload abandons them. */
  function Survivors(o: Outbox, step: Step): Outbox {
    if step.Reloads? then o.(flushes := Abandoned(o.flushes)) else o
  }

  /** The page has loaded what `o` stores. */
  ghost predicate Loaded(o: Outbox, mounted: Outbox, online: bool) {
    && mounted.pending == o.pending && mounted.session == o.storedSession && mounted.nextId == o.nextId
    && mounted.enqueuedId == None && mounted.online == online
  }

  lemma MountingTakes(o: Outbox, online: bool, id: nat)
    ensures Loaded(o, Mounted(o, online), online)
    ensures Copies(Mounted(o, online), id)
            == Copies(Survivors(o, Reloads(online)), id) + if online then CountId(o.pending, id) else 0
  {
    FlushTakes(o.(flushes := Abandoned(o.flushes), session := o.storedSession, enqueuedId := None,
                  online := online, pendingSyncCount := |o.pending|), id);
  }

  lemma LoadedTakes(o: Outbox, mounted: Outbox, online: bool, id: nat)
    requires Loaded(o, mounted, online)
    requires Copies(mounted, id)
             == Copies(Survivors(o, Reloads(online)), id) + if online then CountId(o.pending, id) else 0
    ensures Copies(SessionEffects(mounted), id)
            == Copies(Survivors(o, Reloads(online)), id) + Taken(o, Reloads(online), id)
  {
    EffectsTake(mounted, id);
  }

  lemma ReloadTakes(o: Outbox, online: bool, id: nat)
    ensures Copies(Reload(o, online), id)
            == Copies(Survivors(o, Reloads(online)), id) + Taken(o, Reloads(online), id)
  {
    var mounted := Mounted(o, online);
    MountingTakes(o, online, id);
    LoadedTakes(o, mounted, online, id);
  }

  lemma ReloadStores(o: Outbox, online: bool, id: nat)
    ensures CountId(Reload(o, online).pending, id)
            == CountId(o.pending, id) + if Completed(o.storedSession, id) then 1 else 0
  {
    var mounted := Mounted(o, online);
    MountingTakes(o, online, id);
    EffectsStoreCopies(mounted, id);
  }

  lemma PlayTakes(o: Outbox, step: Step, id: nat)
    requires step.Guess? || step.Complete?
    ensures Copies(Next(o, step), id) == Copies(o, id) + Taken(o, step, id)
  {
    match step
    case Guess(guess) =>
      var played := match o.session
        case None => o.(session := Some(Record(o.nextId, [guess], false, false)), nextId := o.nextId + 1)
        case Some(r) => o.(session := Some(r.(guesses := r.guesses + [guess])));
      EffectsTake(played, id);
    case Complete(won) =>
      if o.session.Some? {
        EffectsTake(o.(session := Some(o.session.value.(completed := true, won := won))), id);
      }
  }

  /** A step of the page adds the copies it takes, and nothing else, to those that survive it. */
  lemma PageStepAddsTaken(o: Outbox, step: Step, id: nat)
    requires !Settles(step)
    ensures Copies(Next(o, step), id) == Copies(Survivors(o, step), id) + Taken(o, step, id)
  {
    match step
    case Guess(_) => PlayTakes(o, step, id);
    case Complete(_) => PlayTakes(o, step, id);
    case GoOnline => FlushTakes(o.(online := true), id);
    case FlushNow => FlushTakes(o, id);
    case Reloads(online) => ReloadTakes(o, online, id);
    case _ =>
  }

  /** Copies never come from anywhere but a flush that takes them. */
  lemma StepAddsAtMostTaken(o: Outbox, step: Step, id: nat)
    ensures Copies(Next(o, step), id) <= Copies(o, id) + Taken(o, step, id)
  {
    match step
    case Serve(h) => ServeKeepsCopies(o, h, id);
    case Ok(h) => OkKeepsCopies(o, h, id);
    case Fail(h) => FailDropsCopies(o, h, id);
    case _ =>
      PageStepAddsTaken(o, step, id);
      AbandoningDropsCopies(o.flushes, id);
  }

  /** The copies of session `id` that a run takes from the queue. */
  function TakenBy(o: Outbox, steps: seq<Step>, id: nat): nat
    decreases |steps|
  {
    if steps == [] then 0 else
      var before, step := steps[..|steps| - 1], steps[|steps| - 1];
      TakenBy(o, before, id) + Taken(Run(o, before), step, id)
  }

  /** In every run a session is accepted at most as often as flushes took it from the queue. */
  lemma {:induction false} AcceptedAtMostTaken(online: bool, steps: seq<Step>, id: nat)
    ensures Copies(Run(Start(online), steps), id) <= TakenBy(Start(online), steps, id)
    ensures Count(Run(Start(online), steps).accepted, id) <= TakenBy(Start(online), steps, id)
    decreases |steps|
  {
    if steps == [] {
    } else {
      var before, step := steps[..|steps| - 1], steps[|steps| - 1];
      AcceptedAtMostTaken(online, before, id);
      StepAddsAtMostTaken(Run(Start(online), before), step, id);
    }
  }

  /** A flush took session `id` while another copy of it was accepted or under way, or took two at once. */
  ghost predicate Retakes(o: Outbox, step: Step, id: nat) {
    Taken(o, step, id) > 0 && Copies(o, id) + Taken(o, step, id) >= 2
  }

  /** In every run, a session accepted twice was retaken at some step. */
  lemma {:induction false} TwiceNeedsRetaking(online: bool, steps: seq<Step>, id: nat) returns (n: nat)
    requires Copies(Run(Start(online), steps), id) >= 2
    ensures n < |steps| && Retakes(Run(Start(online), steps[..n]), steps[n], id)
    decreases |steps|
  {
    n := |steps| - 1;
    var before := Run(Start(online), steps[..n]);
    if Copies(before, id) >= 2 {
      var earlier := steps[..n];
      n := TwiceNeedsRetaking(online, earlier, id);
      assert earlier[..n] == steps[..n];
    } else {
      StepAddsAtMostTaken(before, steps[n], id);
    }
  }

  /**
    After any step of the page, a session can come to be accepted as often as it was accepted or is
    still under way, plus what the step takes of it.
   */
  lemma PageStepDecides(o: Outbox, step: Step, id: nat, n: nat)
    requires !Settles(step)
    ensures CanBeAccepted(Next(o, step), id, n) <==> n <= Copies(Survivors(o, step), id) + Taken(o, step, id)
  {
    PageStepAddsTaken(o, step, id);
    CanBeAcceptedExactly(Next(o, step), id, n);
  }

  /** A flush asked for while online takes what is stored. */
  lemma FlushDecides(o: Outbox, id: nat, n: nat)
    requires o.online
    ensures CanBeAccepted(Next(o, FlushNow), id, n) <==> n <= Copies(o, id) + CountId(o.pending, id)
  {
    PageStepDecides(o, FlushNow, id, n);
  }

  /** A session is stored at most as often as it was queued: once, and once for each reload that found it completed. */
  lemma StoredAtMostOncePerReload(online: bool, steps: seq<Step>, id: nat)
    ensures CountId(Run(Start(online), steps).pending, id) <= 1 + ReloadsOn(Start(online), steps, id)
  {
    var o := Run(Start(online), steps);
    EveryRunKeepsInvariant(online, steps);
    SubsequenceCounts(o.pending, o.enqueued, id);
    QueuedOnceAndOncePerReload(online, steps, id);
    FitsAlways(Start(online), steps);
  }

  // ---------------------------------------------------------------- over every continuation

  predicate ShownIs(o: Outbox, id: nat) {
    o.session.Some? && o.session.value.id == id
  }

  /** The page can still come to send session `id`: it is stored, shown, or yet to be played. */
  predicate Alive(o: Outbox, id: nat) {
    CountId(o.pending, id) > 0 || ShownIs(o, id) || o.nextId <= id
  }

  lemma {:induction false} WithoutCounts(items: seq<Item>, gone: nat, id: nat)
    ensures CountId(Without(items, gone), id) == if gone == id then 0 else CountId(items, id)
  {
    if items == [] {
    } else {
      var front, last := items[..|items| - 1], items[|items| - 1];
      WithoutCounts(front, gone, id);
      CountIdAppend(Without(front, gone), last, id);
      assert Without(items, gone) == if last.id == gone then Without(front, gone) else Without(front, gone) + [last];
    }
  }

  /** A session that is neither stored, shown nor yet to come stays so, and a step takes none of it. */
  lemma SessionChangeStaysDead(o: Outbox, changed: Outbox, id: nat)
    requires !Alive(o, id) && !ShownIs(changed, id) && o.nextId <= changed.nextId && changed.pending == o.pending
    ensures !Alive(SessionEffects(changed), id)
  {
    EffectsStore(changed);
    EffectsStoreCopies(changed, id);
  }

  lemma ReloadStaysDead(o: Outbox, online: bool, id: nat)
    requires QueueFits(o) && !Alive(o, id)
    ensures !Alive(Reload(o, online), id)
  {
    MountingTakes(o, online, id);
    SessionChangeStaysDead(o, Mounted(o, online), id);
  }

  lemma StaysDead(o: Outbox, step: Step, id: nat)
    requires QueueFits(o) && !Alive(o, id)
    ensures !Alive(Next(o, step), id) && Taken(o, step, id) == 0
  {
    match step
    case Guess(guess) =>
      var played := match o.session
        case None => o.(session := Some(Record(o.nextId, [guess], false, false)), nextId := o.nextId + 1)
        case Some(r) => o.(session := Some(r.(guesses := r.guesses + [guess])));
      SessionChangeStaysDead(o, played, id);
    case Complete(won) =>
      if o.session.Some? {
        SessionChangeStaysDead(o, o.(session := Some(o.session.value.(completed := true, won := won))), id);
      }
    case Ok(h) => OkRemovesExactly(o, h, id);
    case Reloads(online) => ReloadStaysDead(o, online, id);
    case _ =>
  }

  lemma {:induction false} DeadGainsNothing(o: Outbox, steps: seq<Step>, id: nat)
    requires QueueFits(o) && !Alive(o, id)
    ensures !Alive(Run(o, steps), id) && Copies(Run(o, steps), id) <= Copies(o, id)
    decreases |steps|
  {
    if steps == [] {
    } else {
      var before, step := Run(o, steps[..|steps| - 1]), steps[|steps| - 1];
      DeadGainsNothing(o, steps[..|steps| - 1], id);
      FitsAlways(o, steps[..|steps| - 1]);
      StaysDead(before, step, id);
      StepAddsAtMostTaken(before, step, id);
    }
  }

  /** `n` flushes of a stored session while online take it `n` times. */
  lemma {:induction false} FlushesAddUp(o: Outbox, id: nat, n: nat) returns (steps: seq<Step>)
    requires o.online && CountId(o.pending, id) > 0
    ensures Copies(Run(o, steps), id) >= n
    ensures Run(o, steps).online && Run(o, steps).pending == o.pending
  {
    if n == 0 {
      steps := [];
    } else {
      var before := FlushesAddUp(o, id, n - 1);
      steps := before + [FlushNow];
      RunOneMore(o, before, FlushNow);
      PageStepAddsTaken(Run(o, before), FlushNow, id);
    }
  }

  /** So a stored session can be accepted any number of times. */
  lemma StoredIsUnbounded(o: Outbox, id: nat, n: nat) returns (steps: seq<Step>)
    requires CountId(o.pending, id) > 0
    ensures Count(Run(o, steps).accepted, id) >= n
  {
    var up := Next(o, GoOnline);
    var flushes := FlushesAddUp(up, id, n);
    var answers := EverythingIsDelivered(Run(up, flushes), id);
    RunOneMore(o, [], GoOnline);
    assert [] + [GoOnline] == [GoOnline];
    RunConcat(o, [GoOnline], flushes);
    RunConcat(o, [GoOnline] + flushes, answers);
    steps := [GoOnline] + flushes + answers;
  }

  /** A session yet to come can be played next, or a session before it. */
  lemma {:induction false} FutureCanBeShown(o: Outbox, id: nat) returns (steps: seq<Step>)
    requires QueueFits(o) && o.nextId <= id
    ensures ShownIs(Run(o, steps), id)
    decreases id - o.nextId
  {
    var reset := Next(o, Reset);
    var playing := Next(reset, Guess(""));
    RunOneMore(o, [], Reset);
    RunOneMore(o, [Reset], Guess(""));
    assert [] + [Reset] == [Reset];
    StepQueues(o, Reset, id);
    StepQueues(reset, Guess(""), id);
    steps := [Reset] + [Guess("")];
    if o.nextId < id {
      var more := FutureCanBeShown(playing, id);
      RunConcat(o, steps, more);
      steps := steps + more;
    }
  }

  /** A shown session is stored once it is completed and the page reloaded. */
  lemma ShownIsUnbounded(o: Outbox, id: nat, n: nat) returns (steps: seq<Step>)
    requires QueueFits(o) && ShownIs(o, id)
    ensures Count(Run(o, steps).accepted, id) >= n
  {
    var first := [Complete(true)] + [Reloads(false)];
    EffectsStore(o.(session := Some(o.session.value.(completed := true, won := true))));
    RunOneMore(o, [], Complete(true));
    assert [] + [Complete(true)] == [Complete(true)];
    RunOneMore(o, [Complete(true)], Reloads(false));
    ReloadStores(Next(o, Complete(true)), false, id);
    var more := StoredIsUnbounded(Run(o, first), id, n);
    RunConcat(o, first, more);
    steps := first + more;
  }

  lemma AliveIsUnbounded(o: Outbox, id: nat, n: nat) returns (steps: seq<Step>)
    requires QueueFits(o) && Alive(o, id)
    ensures Count(Run(o, steps).accepted, id) >= n
  {
    if CountId(o.pending, id) > 0 {
      steps := StoredIsUnbounded(o, id, n);
    } else if ShownIs(o, id) {
      steps := ShownIsUnbounded(o, id, n);
    } else {
      var first := FutureCanBeShown(o, id);
      FitsAlways(o, first);
      var more := ShownIsUnbounded(Run(o, first), id, n);
      RunConcat(o, first, more);
      steps := first + more;
    }
  }

  /** Some continuation, of the player, the page, the network and the server, accepts session `id` `n` times. */
  ghost predicate EverAccepted(o: Outbox, id: nat, n: nat) {
    exists more :: Count(Run(o, more).accepted, id) >= n
  }

  /**
    In every reachable state, and for every number of times: a session can still come to be accepted
    that often if and only if the acceptances so far and the requests under way already make up the
    number, or the session is stored, shown or yet to be played.
   */
  lemma DeliveryOverEveryContinuation(online: bool, steps: seq<Step>, id: nat, n: nat)
    ensures var o := Run(Start(online), steps);
            EverAccepted(o, id, n) <==> n <= Copies(o, id) || Alive(o, id)
  {
    var o := Run(Start(online), steps);
    QueuedOnceAndOncePerReload(online, steps, id);
    FitsAlways(Start(online), steps);
    if EverAccepted(o, id, n) && !Alive(o, id) {
      var more :| Count(Run(o, more).accepted, id) >= n;
      DeadGainsNothing(o, more, id);
    }
    if Alive(o, id) {
      var more := AliveIsUnbounded(o, id, n);
    } else {
      var more := EverythingIsDelivered(o, id);
    }
  }

  // ---------------------------------------------------------------- three ways to be accepted twice

  /** What is stored and what is accepted of a session. */
  function StoredOrAccepted(o: Outbox, id: nat): nat {
    CountId(o.pending, id) + Count(o.accepted, id)
  }

  /** A reload that finds its session completed queues it again, even when the server already has it. */
  lemma ReloadStoresAgain(o: Outbox, online: bool, id: nat)
    requires Invariant(o) && Completed(o.storedSession, id)
    ensures Reload(o, online).pending == o.pending + [Item(id, o.storedSession.value)]
    ensures Reload(o, online).online == online && Reload(o, online).accepted == o.accepted
    ensures StoredOrAccepted(o, id) >= 1 && StoredOrAccepted(Reload(o, online), id) >= 2
  {
    CountIdAppend(o.pending, Item(id, o.storedSession.value), id);
    CountIdHolds(o.pending, id);
    CountZero(o.accepted, id);
    var mounted := Mounted(o, online);
    assert mounted.pending == o.pending && mounted.accepted == o.accepted && mounted.online == online;
  }

  /**
    A reload that finds its session completed makes a second acceptance possible, in every reachable
    state: at once when the page is online, and otherwise as soon as it is.
   */
  lemma ReloadAllowsTwice(online: bool, steps: seq<Step>, id: nat)
    requires Completed(Run(Start(online), steps).storedSession, id)
    ensures var o := Run(Start(online), steps);
            && CanBeAccepted(Next(o, Reloads(true)), id, 2)
            && CanBeAccepted(Next(Next(o, Reloads(false)), GoOnline), id, 2)
  {
    var o := Run(Start(online), steps);
    EveryRunKeepsInvariant(online, steps);
    ReloadStoresAgain(o, true, id);
    ReloadStoresAgain(o, false, id);
    PageStepDecides(o, Reloads(true), id, 2);
    PageStepDecides(Next(o, Reloads(false)), GoOnline, id, 2);
  }

  function Finished(id: nat, guess: string, won: bool): Record {
    Record(id, [guess], true, won)
  }

  /** One game finished online, its upload under way. */
  function OneGame(guess: string, won: bool): Outbox {
    var r := Finished(0, guess, won);
    var a := Item(0, r);
    Outbox([a], Some(r), Some(r), Some(0), 1, true, [Flush([a], false, true)], 1, [], {0}, [a])
  }

  lemma OneGameIsReached(guess: string, won: bool)
    ensures Run(Start(true), [Guess(guess)] + [Complete(won)]) == OneGame(guess, won)
  {
    var active := Record(0, [guess], false, false);
    var playing := Outbox([], Some(active), Some(active), None, 0, true, [], 1, [], {}, []);
    RunOneMore(Start(true), [], Guess(guess));
    assert [] + [Guess(guess)] == [Guess(guess)];
    assert Next(Start(true), Guess(guess)) == playing;
    RunOneMore(Start(true), [Guess(guess)], Complete(won));
    var r := Finished(0, guess, won);
    var finished := playing.(session := Some(r), storedSession := Some(r), completed := {0});
    assert {} + {0} == {0};
    assert Next(playing, Complete(won)) == Enqueue(finished, r);
    assert [] + [Item(0, r)] == [Item(0, r)];
  }

  lemma SecondGame(first: string, second: string, won: bool)
    ensures var a, b := Item(0, Finished(0, first, won)), Item(1, Finished(1, second, won));
            var o := Run(OneGame(first, won), [Reset] + [Guess(second)] + [Complete(won)]);
            o.flushes == [Flush([a], false, true), Flush([a, b], false, true)] && o.accepted == []
  {
    var o := OneGame(first, won);
    var active, r := Record(1, [second], false, false), Finished(1, second, won);
    var reset := o.(enqueuedId := None, session := None, storedSession := None);
    var playing := reset.(session := Some(active), storedSession := Some(active), nextId := 2);
    RunOneMore(o, [], Reset);
    assert [] + [Reset] == [Reset];
    RunOneMore(o, [Reset], Guess(second));
    assert Next(reset, Guess(second)) == playing;
    RunOneMore(o, [Reset] + [Guess(second)], Complete(won));
    var finished := playing.(session := Some(r), storedSession := Some(r), completed := playing.completed + {1});
    assert Next(playing, Complete(won)) == Enqueue(finished, r);
    var a, b := Item(0, Finished(0, first, won)), Item(1, r);
    assert [a] + [b] == [a, b];
    var flushA, flushB := Flush([a], false, true), Flush([a, b], false, true);
    assert [flushA] + [flushB] == [flushA, flushB];
  }

  lemma ServeBoth(o: Outbox, a: Item, b: Item)
    requires o.flushes == [Flush([a], false, true), Flush([a, b], false, true)] && o.accepted == []
    ensures Next(Next(o, Serve(0)), Serve(1)).accepted == [a.id, a.id]
  {
    assert Next(o, Serve(0)).flushes[1] == o.flushes[1];
  }

  /** Finishing a second game while the first upload is under way sends the first game twice. */
  lemma OverlappingFlushesDeliverTwice(first: string, second: string, won: bool)
    ensures Run(Start(true), [Guess(first), Complete(won), Reset, Guess(second), Complete(won),
                              Serve(0), Serve(1)]).accepted == [0, 0]
  {
    var one, two := [Guess(first)] + [Complete(won)], [Reset] + [Guess(second)] + [Complete(won)];
    OneGameIsReached(first, won);
    SecondGame(first, second, won);
    RunConcat(Start(true), one, two);
    RunOneMore(Start(true), one + two, Serve(0));
    RunOneMore(Start(true), one + two + [Serve(0)], Serve(1));
    ServeBoth(Run(Start(true), one + two), Item(0, Finished(0, first, won)), Item(1, Finished(1, second, won)));
    assert one + two + [Serve(0)] + [Serve(1)]
           == [Guess(first), Complete(won), Reset, Guess(second), Complete(won), Serve(0), Serve(1)];
  }

  lemma LoseThenRetry(o: Outbox, a: Item)
    requires o.flushes == [Flush([a], false, true)] && o.pending == [a] && o.accepted == [] && o.online
    ensures Next(Next(Next(Next(o, Serve(0)), Fail(0)), FlushNow), Serve(1)).accepted == [a.id, a.id]
  {
    var lost := Next(Next(o, Serve(0)), Fail(0));
    assert lost.flushes == [Flush([], false, true)] && lost.accepted == [a.id];
    assert Next(lost, FlushNow).flushes[1] == Flush([a], false, true);
  }

  /** A response lost after the server took the session leaves it stored, and the next flush sends it again. */
  lemma LostResponseDeliversTwice(guess: string, won: bool)
    ensures Run(Start(true), [Guess(guess), Complete(won), Serve(0), Fail(0), FlushNow, Serve(1)]).accepted == [0, 0]
  {
    var one := [Guess(guess)] + [Complete(won)];
    OneGameIsReached(guess, won);
    RunOneMore(Start(true), one, Serve(0));
    RunOneMore(Start(true), one + [Serve(0)], Fail(0));
    RunOneMore(Start(true), one + [Serve(0)] + [Fail(0)], FlushNow);
    RunOneMore(Start(true), one + [Serve(0)] + [Fail(0)] + [FlushNow], Serve(1));
    LoseThenRetry(OneGame(guess, won), Item(0, Finished(0, guess, won)));
    assert one + [Serve(0)] + [Fail(0)] + [FlushNow] + [Serve(1)]
           == [Guess(guess), Complete(won), Serve(0), Fail(0), FlushNow, Serve(1)];
  }
}
