/**
  The outbox that keeps completed offline sessions until the server has them.

  Between two steps of the browser's event loop everything below is one value.  A flush works on a
  snapshot of the stored queue, one request at a time; other flushes, new completions, lost
  responses and page reloads may come between any two of its steps.
 */
module OfflineOutbox {
  import opened Options

  /** A session as it is played and stored; ids are never reused. */
  datatype Record = Record(id: nat, guesses: seq<string>, completed: bool, won: bool)

  datatype Item = Item(id: nat, record: Record)

  /** A running flush: the items still to send, the first of them in flight. */
  datatype Flush = Flush(items: seq<Item>, served: bool, alive: bool)

  datatype Outbox = Outbox(
    pending: seq<Item>,
    storedSession: Option<Record>,
    session: Option<Record>,
    enqueuedId: Option<nat>,
    pendingSyncCount: int,
    online: bool,
    flushes: seq<Flush>,
    nextId: nat,
    accepted: seq<nat>,
    completed: set<nat>,
    enqueued: seq<Item>)

  // ---------------------------------------------------------------- the stored queue

  /** `filter(queued => queued.sessionId !== id)` */
  function Without(items: seq<Item>, id: nat): seq<Item> {
    if items == [] then [] else
      Without(items[..|items| - 1], id) + if items[|items| - 1].id == id then [] else [items[|items| - 1]]
  }

  ghost predicate Holds(items: seq<Item>, id: nat) {
    exists item :: item in items && item.id == id
  }

  /** `a` is what is left of `b` after dropping some of its elements. */
  predicate Subsequence(a: seq<Item>, b: seq<Item>)
    decreases |b|
  {
    || a == []
    || (b != [] && Subsequence(a, b[..|b| - 1]))
    || (b != [] && a[|a| - 1] == b[|b| - 1] && Subsequence(a[..|a| - 1], b[..|b| - 1]))
  }

  lemma {:induction false} WithoutKeepsOthers(items: seq<Item>, id: nat)
    ensures forall item :: item in Without(items, id) <==> item in items && item.id != id
    ensures |Without(items, id)| <= |items|
  {
    if items == [] {
    } else {
      WithoutKeepsOthers(items[..|items| - 1], id);
      assert items == items[..|items| - 1] + [items[|items| - 1]];
    }
  }

  lemma SubsequenceAppend(a: seq<Item>, b: seq<Item>, item: Item)
    requires Subsequence(a, b)
    ensures Subsequence(a + [item], b + [item])
  {
    assert (a + [item])[..|a|] == a && (b + [item])[..|b|] == b;
  }

  lemma {:induction false} DroppingKeepsSubsequence(a: seq<Item>, b: seq<Item>, id: nat)
    requires Subsequence(a, b)
    ensures Subsequence(Without(a, id), b)
    decreases |b|
  {
    if a == [] {
    } else {
      var before, last := b[..|b| - 1], b[|b| - 1];
      if Subsequence(a, before) {
        DroppingKeepsSubsequence(a, before, id);
      } else {
        var rest := a[..|a| - 1];
        DroppingKeepsSubsequence(rest, before, id);
        if last.id == id {
          assert Without(a, id) == Without(rest, id);
        } else {
          SubsequenceAppend(Without(rest, id), before, last);
          assert before + [last] == b;
        }
      }
    }
  }

  // ---------------------------------------------------------------- the hook's actions

  function StartFlush(o: Outbox): Outbox {
    if !o.online || o.pending == [] then o
    else o.(flushes := o.flushes + [Flush(o.pending, false, true)])
  }

  function Enqueue(o: Outbox, r: Record): Outbox {
    var item := Item(r.id, r);
    StartFlush(o.(enqueuedId := Some(r.id), pending := o.pending + [item],
                  pendingSyncCount := o.pendingSyncCount + 1, enqueued := o.enqueued + [item]))
  }

  /** The effects that follow a change of the session. */
  function SessionEffects(o: Outbox): Outbox {
    match o.session
    case None => o
    case Some(r) =>
      var saved := o.(storedSession := Some(r));
      if !r.completed then saved else
      var noted := saved.(completed := saved.completed + {r.id});
      if noted.enqueuedId == Some(r.id) then noted else Enqueue(noted, r)
  }

  function SubmitGuess(o: Outbox, guess: string): Outbox {
    match o.session
    case None => SessionEffects(o.(session := Some(Record(o.nextId, [guess], false, false)), nextId := o.nextId + 1))
    case Some(r) => SessionEffects(o.(session := Some(r.(guesses := r.guesses + [guess]))))
  }

  function CompleteSession(o: Outbox, won: bool): Outbox {
    match o.session
    case None => o
    case Some(r) => SessionEffects(o.(session := Some(r.(completed := true, won := won))))
  }

  function ResetSession(o: Outbox): Outbox {
    o.(enqueuedId := None, session := None, storedSession := None)
  }

  /** The client handles a successful response to flush `h`. */
  function Settle(o: Outbox, h: nat): Outbox
    requires h < |o.flushes| && o.flushes[h].items != []
  {
    var f := o.flushes[h];
    var remaining := Without(o.pending, f.items[0].id);
    o.(pending := remaining, pendingSyncCount := |remaining|,
       flushes := o.flushes[h := Flush(f.items[1..], false, f.alive)])
  }

  /** The flushes of a page that is gone. */
  function Abandoned(flushes: seq<Flush>): seq<Flush> {
    seq(|flushes|, i requires 0 <= i < |flushes| => flushes[i].(alive := false))
  }

  /** The state a reloaded page mounts with: running flushes are gone, the stored data is read back. */
  function Mounted(o: Outbox, online: bool): Outbox {
    StartFlush(o.(flushes := Abandoned(o.flushes), session := o.storedSession, enqueuedId := None,
                  online := online, pendingSyncCount := |o.pending|))
  }

  /** A page reload: the page mounts, flushing what is stored, and then the session's effects run once. */
  function Reload(o: Outbox, online: bool): Outbox {
    SessionEffects(Mounted(o, online))
  }

  // ---------------------------------------------------------------- interleavings

  datatype Step =
    | Guess(guess: string)
    | Complete(won: bool)
    | Reset
    | GoOnline
    | GoOffline
    | FlushNow
    | Serve(h: nat)
    | Ok(h: nat)
    | Fail(h: nat)
    | Reloads(online: bool)

  predicate InFlight(o: Outbox, h: nat) {
    h < |o.flushes| && o.flushes[h].items != []
  }

  function Next(o: Outbox, step: Step): Outbox {
    match step
    case Guess(guess) => SubmitGuess(o, guess)
    case Complete(won) => CompleteSession(o, won)
    case Reset => ResetSession(o)
    case GoOnline => if o.online then o else StartFlush(o.(online := true))
    case GoOffline => o.(online := false)
    case FlushNow => StartFlush(o)
    // the server takes the item in flight, even for a page that is gone
    case Serve(h) =>
      if !InFlight(o, h) || o.flushes[h].served then o
      else o.(accepted := o.accepted + [o.flushes[h].items[0].id],
              flushes := o.flushes[h := o.flushes[h].(served := true)])
    case Ok(h) =>
      if !InFlight(o, h) || !o.flushes[h].served || !o.flushes[h].alive then o else Settle(o, h)
    // a refusal, or a response that never arrives, ends the flush
    case Fail(h) =>
      if !InFlight(o, h) || !o.flushes[h].alive then o
      else o.(flushes := o.flushes[h := Flush([], false, true)])
    case Reloads(online) => Reload(o, online)
  }

  function Start(online: bool): Outbox {
    Outbox([], None, None, None, 0, online, [], 0, [], {}, [])
  }

  function Run(o: Outbox, steps: seq<Step>): Outbox
    decreases |steps|
  {
    if steps == [] then o else Next(Run(o, steps[..|steps| - 1]), steps[|steps| - 1])
  }

  // ---------------------------------------------------------------- what every step keeps

  /** No completed session is lost: it is in the stored queue or the server has accepted it. */
  ghost predicate NothingLost(o: Outbox) {
    forall id | id in o.completed :: id in o.accepted || Holds(o.pending, id)
  }

  ghost predicate FlushFits(o: Outbox, f: Flush) {
    && (forall item | item in f.items :: item.id in o.completed)
    && (f.served ==> f.items != [] && f.items[0].id in o.accepted)
  }

  ghost predicate SessionsFit(o: Outbox) {
    && (o.session.Some? && o.session.value.completed ==>
          o.session.value.id in o.completed && o.enqueuedId == Some(o.session.value.id))
    && (o.storedSession.Some? && o.storedSession.value.completed ==> o.storedSession.value.id in o.completed)
    && (o.enqueuedId.Some? ==> o.enqueuedId.value in o.completed)
  }

  /** Only completed sessions are queued or accepted. */
  ghost predicate OnlyCompleted(o: Outbox) {
    && (forall item | item in o.pending :: item.id in o.completed)
    && (forall id | id in o.accepted :: id in o.completed)
  }

  ghost predicate Invariant(o: Outbox) {
    && NothingLost(o)
    && SessionsFit(o)
    && OnlyCompleted(o)
    && (forall i | 0 <= i < |o.flushes| :: FlushFits(o, o.flushes[i]))
    && o.pendingSyncCount == |o.pending|
    && Subsequence(o.pending, o.enqueued)
  }

  lemma StartFlushKeeps(o: Outbox)
    requires Invariant(o)
    ensures Invariant(StartFlush(o))
  {
  }

  /** Everything but the session itself already fits; the effects then make the session fit too. */
  ghost predicate InvariantBeforeEffects(o: Outbox) {
    && NothingLost(o)
    && OnlyCompleted(o)
    && (o.storedSession.Some? && o.storedSession.value.completed ==> o.storedSession.value.id in o.completed)
    && (o.enqueuedId.Some? ==> o.enqueuedId.value in o.completed)
    && (forall i | 0 <= i < |o.flushes| :: FlushFits(o, o.flushes[i]))
    && o.pendingSyncCount == |o.pending|
    && Subsequence(o.pending, o.enqueued)
  }

  lemma EnqueueKeeps(o: Outbox, r: Record)
    requires InvariantBeforeEffects(o) && o.session == Some(r) && r.completed
    ensures Invariant(Enqueue(o.(storedSession := Some(r), completed := o.completed + {r.id}), r))
  {
    var item := Item(r.id, r);
    var queued := o.(storedSession := Some(r), completed := o.completed + {r.id}, enqueuedId := Some(r.id),
                     pending := o.pending + [item], pendingSyncCount := o.pendingSyncCount + 1,
                     enqueued := o.enqueued + [item]);
    SubsequenceAppend(o.pending, o.enqueued, item);
    assert NothingLost(queued) by {
      forall id | id in queued.completed ensures id in queued.accepted || Holds(queued.pending, id) {
        if id == r.id {
          assert item in queued.pending;
        } else if id !in o.accepted {
          var held :| held in o.pending && held.id == id;
          assert held in queued.pending;
        }
      }
    }
    assert forall i | 0 <= i < |queued.flushes| :: FlushFits(o, o.flushes[i]);
    StartFlushKeeps(queued);
  }

  lemma EffectsKeep(o: Outbox)
    requires InvariantBeforeEffects(o)
    requires o.session.Some? && o.session.value.completed && o.enqueuedId == Some(o.session.value.id) ==>
               o.session.value.id in o.completed
    ensures Invariant(SessionEffects(o))
  {
    if o.session.Some? && o.session.value.completed {
      var r := o.session.value;
      var saved := o.(storedSession := Some(r));
      if o.enqueuedId == Some(r.id) {
        assert o.completed + {r.id} == o.completed;
        assert forall i | 0 <= i < |o.flushes| :: FlushFits(o, o.flushes[i]);
      } else {
        var noted := saved.(completed := saved.completed + {r.id});
        assert SessionEffects(o) == Enqueue(noted, r);
        EnqueueKeeps(o, r);
      }
    }
  }

  lemma SettleKeeps(o: Outbox, h: nat)
    requires Invariant(o) && InFlight(o, h) && o.flushes[h].served
    ensures Invariant(Settle(o, h))
  {
    var after := Settle(o, h);
    var id := o.flushes[h].items[0].id;
    assert FlushFits(o, o.flushes[h]);
    WithoutKeepsOthers(o.pending, id);
    DroppingKeepsSubsequence(o.pending, o.enqueued, id);
    forall other | other in o.completed ensures other in o.accepted || Holds(after.pending, other) {
      if other !in o.accepted {
        var held :| held in o.pending && held.id == other;
        assert held in after.pending;
      }
    }
    forall i | 0 <= i < |after.flushes| ensures FlushFits(after, after.flushes[i]) {
      assert FlushFits(o, o.flushes[i]);
    }
  }

  lemma ServeKeeps(o: Outbox, h: nat)
    requires Invariant(o) && InFlight(o, h) && !o.flushes[h].served
    ensures Invariant(Next(o, Serve(h)))
  {
    var after := Next(o, Serve(h));
    assert FlushFits(o, o.flushes[h]);
    forall i | 0 <= i < |after.flushes| ensures FlushFits(after, after.flushes[i]) {
      assert FlushFits(o, o.flushes[i]);
    }
  }

  lemma ReloadKeeps(o: Outbox, online: bool)
    requires Invariant(o)
    ensures Invariant(Reload(o, online))
  {
    var abandoned := Abandoned(o.flushes);
    var loaded := o.(flushes := abandoned, session := o.storedSession, enqueuedId := None,
                    online := online, pendingSyncCount := |o.pending|);
    forall i | 0 <= i < |abandoned| ensures FlushFits(loaded, abandoned[i]) {
      assert FlushFits(o, o.flushes[i]);
    }
    var mounted := StartFlush(loaded);
    assert InvariantBeforeEffects(mounted);
    EffectsKeep(mounted);
  }

  lemma FailKeeps(o: Outbox, h: nat)
    requires Invariant(o) && InFlight(o, h)
    ensures Invariant(o.(flushes := o.flushes[h := Flush([], false, true)]))
  {
    var after := o.(flushes := o.flushes[h := Flush([], false, true)]);
    forall i | 0 <= i < |after.flushes| ensures FlushFits(after, after.flushes[i]) {
      assert FlushFits(o, o.flushes[i]);
    }
  }

  lemma SessionChangeKeeps(o: Outbox, session: Option<Record>, nextId: nat)
    requires Invariant(o) && session.Some?
    requires session.value.completed && o.enqueuedId == Some(session.value.id) ==> session.value.id in o.completed
    ensures Invariant(SessionEffects(o.(session := session, nextId := nextId)))
  {
    var changed := o.(session := session, nextId := nextId);
    assert forall i | 0 <= i < |o.flushes| :: FlushFits(o, o.flushes[i]);
    assert InvariantBeforeEffects(changed);
    EffectsKeep(changed);
  }

  lemma StepKeepsInvariant(o: Outbox, step: Step)
    requires Invariant(o)
    ensures Invariant(Next(o, step))
  {
    match step
    case Guess(guess) =>
      if o.session == None {
        SessionChangeKeeps(o, Some(Record(o.nextId, [guess], false, false)), o.nextId + 1);
      } else {
        SessionChangeKeeps(o, Some(o.session.value.(guesses := o.session.value.guesses + [guess])), o.nextId);
      }
    case Complete(won) =>
      if o.session.Some? {
        SessionChangeKeeps(o, Some(o.session.value.(completed := true, won := won)), o.nextId);
      }
    case Reset => assert forall i | 0 <= i < |o.flushes| :: FlushFits(o, o.flushes[i]);
    case GoOnline =>
      assert forall i | 0 <= i < |o.flushes| :: FlushFits(o, o.flushes[i]);
      StartFlushKeeps(o.(online := true));
    case GoOffline => assert forall i | 0 <= i < |o.flushes| :: FlushFits(o, o.flushes[i]);
    case FlushNow => StartFlushKeeps(o);
    case Serve(h) =>
      if InFlight(o, h) && !o.flushes[h].served {
        ServeKeeps(o, h);
      }
    case Ok(h) =>
      if InFlight(o, h) && o.flushes[h].served {
        SettleKeeps(o, h);
      }
    case Fail(h) =>
      if InFlight(o, h) && o.flushes[h].alive {
        FailKeeps(o, h);
      }
    case Reloads(online) => ReloadKeeps(o, online);
  }

  /** A completion is never forgotten. */
  lemma CompletedGrows(o: Outbox, step: Step)
    ensures o.completed <= Next(o, step).completed
  {
  }

  lemma {:induction false} RunKeepsInvariant(o: Outbox, steps: seq<Step>)
    requires Invariant(o)
    ensures Invariant(Run(o, steps)) && o.completed <= Run(o, steps).completed
    decreases |steps|
  {
    if steps == [] {
    } else {
      var before := Run(o, steps[..|steps| - 1]);
      RunKeepsInvariant(o, steps[..|steps| - 1]);
      StepKeepsInvariant(before, steps[|steps| - 1]);
      CompletedGrows(before, steps[|steps| - 1]);
    }
  }

  /**
    In every interleaving: every completed session is stored or accepted, nothing else is, the queue
    keeps the order in which sessions were enqueued, and the displayed count is its length.
   */
  lemma EveryRunKeepsInvariant(online: bool, steps: seq<Step>)
    ensures Invariant(Run(Start(online), steps))
  {
    RunKeepsInvariant(Start(online), steps);
  }

  /** From the moment a session is completed, whatever follows, it is stored or the server has it. */
  lemma CompletedSessionIsNeverLost(o: Outbox, won: bool, steps: seq<Step>)
    requires Invariant(o) && o.session.Some?
    ensures var id, after := o.session.value.id, Run(Next(o, Complete(won)), steps);
            id in after.accepted || Holds(after.pending, id)
  {
    StepKeepsInvariant(o, Complete(won));
    RunKeepsInvariant(Next(o, Complete(won)), steps);
    assert o.session.value.id in Next(o, Complete(won)).completed;
  }

  // ---------------------------------------------------------------- one flush, undisturbed

  /** Items are removed in order as long as the server answers well. */
  function Drain(pending: seq<Item>, items: seq<Item>, answers: seq<bool>): seq<Item>
    decreases |items|
  {
    if items == [] || answers == [] || !answers[0] then pending
    else Drain(Without(pending, items[0].id), items[1..], answers[1..])
  }

  class OutboxStorage {
    var pending: seq<Item>
    var pendingSyncCount: int
    var enqueuedId: Option<nat>
    var isOnline: bool
    /** The calls of `flushPendingSyncs` that were started. */
    var flushes: seq<Flush>

    constructor (stored: seq<Item>, online: bool)
      ensures pending == stored && pendingSyncCount == |stored|
      ensures enqueuedId == None && isOnline == online && flushes == []
    {
      pending, pendingSyncCount, enqueuedId, isOnline, flushes := stored, |stored|, None, online, [];
    }

    /** The fields of this object are those of `o`. */
    ghost predicate Shows(o: Outbox)
      reads this
    {
      && o.pending == pending && o.pendingSyncCount == pendingSyncCount
      && o.enqueuedId == enqueuedId && o.online == isOnline && o.flushes == flushes
    }

    /** The effect that queues a completed session once, and flushes the queue when the page is online. */
    method EnqueueEffect(session: Option<Record>, ghost o: Outbox)
      requires Shows(o) && o.session == session
      modifies this
      ensures Shows(SessionEffects(o))
      ensures isOnline == old(isOnline)
      ensures if session.None? || !session.value.completed || old(enqueuedId) == Some(session.value.id)
              then && pending == old(pending) && pendingSyncCount == old(pendingSyncCount)
                   && enqueuedId == old(enqueuedId) && flushes == old(flushes)
              else && pending == old(pending) + [Item(session.value.id, session.value)]
                   && pendingSyncCount == old(pendingSyncCount) + 1
                   && enqueuedId == Some(session.value.id)
                   && flushes == old(flushes) + if isOnline then [Flush(pending, false, true)] else []
    {
      if session.None? || !session.value.completed {
        return;
      }
      if enqueuedId == Some(session.value.id) {
        return;
      }
      enqueuedId := Some(session.value.id);
      pending := pending + [Item(session.value.id, session.value)];
      pendingSyncCount := pendingSyncCount + 1;
      if isOnline {
        flushes := flushes + [Flush(pending, false, true)];
      }
    }

    /** `answers[k]` says whether the request for the k-th item succeeds; a missing answer is a failure. */
    method FlushPendingSyncs(answers: seq<bool>)
      modifies `pending, `pendingSyncCount
      ensures pending == if old(isOnline) then Drain(old(pending), old(pending), answers) else old(pending)
      ensures old(pendingSyncCount) == |old(pending)| ==> pendingSyncCount == |pending|
    {
      if !isOnline || pending == [] {
        return;
      }
      var snapshot := pending;
      for k := 0 to |snapshot|
        invariant Drain(pending, snapshot[k..], if k <= |answers| then answers[k..] else [])
                  == Drain(snapshot, snapshot, answers)
        invariant k <= |answers|
        invariant old(pendingSyncCount) == |old(pending)| ==> pendingSyncCount == |pending|
      {
        var item := snapshot[k];
        if k >= |answers| || !answers[k] {
          return;
        }
        assert snapshot[k..][1..] == snapshot[k + 1..] && answers[k..][1..] == answers[k + 1..];
        pending := Without(pending, item.id);
        pendingSyncCount := |pending|;
      }
    }
  }

  /** None of the first `n` items is for session `id`. */
  ghost predicate NoneFor(items: seq<Item>, n: nat, id: nat)
    requires n <= |items|
  {
    forall k | 0 <= k < n :: items[k].id != id
  }

  lemma NoneForRest(items: seq<Item>, n: nat, id: nat)
    requires 0 < n <= |items|
    ensures NoneFor(items, n, id) <==> items[0].id != id && NoneFor(items[1..], n - 1, id)
  {
    assert forall k | 0 < k < n :: items[k] == items[1..][k - 1];
  }

  lemma {:induction false} DrainRemoves(pending: seq<Item>, items: seq<Item>, answers: seq<bool>, n: nat, item: Item)
    requires n <= |items| && n <= |answers| && forall k | 0 <= k < n :: answers[k]
    requires n == |items| || n == |answers| || !answers[n]
    ensures item in Drain(pending, items, answers) <==> item in pending && NoneFor(items, n, item.id)
    decreases n
  {
    if n == 0 {
    } else {
      WithoutKeepsOthers(pending, items[0].id);
      DrainRemoves(Without(pending, items[0].id), items[1..], answers[1..], n - 1, item);
      NoneForRest(items, n, item.id);
    }
  }

  /** A flush that the server answers well throughout leaves nothing behind. */
  lemma GoodFlushEmptiesQueue(pending: seq<Item>, answers: seq<bool>)
    requires |pending| <= |answers| && forall k | 0 <= k < |pending| :: answers[k]
    ensures Drain(pending, pending, answers) == []
  {
    var left := Drain(pending, pending, answers);
    assert forall i | 0 <= i < |left| :: left[i] in left;
    forall item ensures item !in left {
      DrainRemoves(pending, pending, answers, |pending|, item);
      assert item in pending ==> exists k :: 0 <= k < |pending| && pending[k] == item;
    }
  }

  lemma RunOneMore(o: Outbox, steps: seq<Step>, step: Step)
    ensures Run(o, steps + [step]) == Next(Run(o, steps), step)
  {
    assert (steps + [step])[..|steps|] == steps;
  }

  lemma {:induction false} RunConcat(o: Outbox, first: seq<Step>, second: seq<Step>)
    ensures Run(o, first + second) == Run(Run(o, first), second)
    decreases |second|
  {
    if second == [] {
      assert first + second == first;
    } else {
      assert (first + second)[..|first + second| - 1] == first + second[..|second| - 1];
      RunConcat(o, first, second[..|second| - 1]);
    }
  }

  /** How a request ends: answered well, refused, or taken by the server with the answer lost. */
  datatype Reply = Good | Refused | Lost

  /** The steps of one request of flush `h`. */
  function ReplySteps(h: nat, reply: Reply): seq<Step> {
    match reply
    case Good => [Serve(h)] + [Ok(h)]
    case Refused => [Fail(h)]
    case Lost => [Serve(h)] + [Fail(h)]
  }

  /** The steps of flush `h` when its requests end this way and nothing else happens. */
  function FlushSteps(h: nat, replies: seq<Reply>): seq<Step> {
    if replies == [] then [] else ReplySteps(h, replies[0]) + FlushSteps(h, replies[1..])
  }

  function Answers(replies: seq<Reply>): (answers: seq<bool>)
    ensures |answers| == |replies|
  {
    seq(|replies|, i requires 0 <= i < |replies| => replies[i] == Good)
  }

  /** The sessions that reach the server: up to the first bad reply, and that one too if only its answer was lost. */
  function Reached(items: seq<Item>, replies: seq<Reply>): seq<nat>
    decreases |replies|
  {
    if items == [] || replies == [] || replies[0] == Refused then []
    else if replies[0] == Lost then [items[0].id]
    else [items[0].id] + Reached(items[1..], replies[1..])
  }

  /** What the flush still has to send: nothing, once a request has failed. */
  function LeftOver(items: seq<Item>, replies: seq<Reply>): seq<Item>
    decreases |replies|
  {
    if items == [] || replies == [] then items
    else if replies[0] == Good then LeftOver(items[1..], replies[1..])
    else []
  }

  /** A flush of a live page with no request out. */
  predicate Ready(o: Outbox, h: nat) {
    h < |o.flushes| && o.flushes[h].alive && !o.flushes[h].served
  }

  function AfterReply(o: Outbox, h: nat, reply: Reply): Outbox {
    match reply
    case Good => Next(Next(o, Serve(h)), Ok(h))
    case Refused => Next(o, Fail(h))
    case Lost => Next(Next(o, Serve(h)), Fail(h))
  }

  lemma RunReply(o: Outbox, h: nat, reply: Reply)
    ensures Run(o, ReplySteps(h, reply)) == AfterReply(o, h, reply)
  {
    RunOneMore(o, [], Serve(h));
    RunOneMore(o, [], Fail(h));
    RunOneMore(o, [Serve(h)], Ok(h));
    RunOneMore(o, [Serve(h)], Fail(h));
    assert [] + [Serve(h)] == [Serve(h)] && [] + [Fail(h)] == [Fail(h)];
  }

  /** One reply, field by field. */
  function Replied(o: Outbox, h: nat, reply: Reply): Outbox
    requires h < |o.flushes| && o.flushes[h].items != []
  {
    var items := o.flushes[h].items;
    var taken, rest := o.accepted + [items[0].id], Without(o.pending, items[0].id);
    var left := if reply == Good then items[1..] else [];
    var failed := o.(flushes := o.flushes[h := Flush(left, false, true)]);
    match reply
    case Good => failed.(accepted := taken, pending := rest, pendingSyncCount := |rest|)
    case Refused => failed
    case Lost => failed.(accepted := taken)
  }

  lemma OneReply(o: Outbox, h: nat, reply: Reply)
    requires Ready(o, h) && o.flushes[h].items != []
    ensures AfterReply(o, h, reply) == Replied(o, h, reply)
  {
    var served := o.flushes[h].(served := true);
    if reply != Refused {
      assert Next(o, Serve(h)).flushes[h] == served;
      assert o.flushes[h := served][h := Flush([], false, true)] == o.flushes[h := Flush([], false, true)];
      assert o.flushes[h := served][h := Flush(served.items[1..], false, true)]
             == o.flushes[h := Flush(served.items[1..], false, true)];
    }
  }

  lemma EndedReply(o: Outbox, h: nat, reply: Reply)
    requires Ready(o, h) && o.flushes[h].items == []
    ensures AfterReply(o, h, reply) == o
  {
    assert o.flushes[h] == Flush([], false, true);
    assert o.flushes[h := Flush([], false, true)] == o.flushes;
  }

  /** Once its items are gone, whatever a flush is answered changes nothing. */
  lemma {:induction false} EndedFlushIdles(o: Outbox, h: nat, replies: seq<Reply>)
    requires Ready(o, h) && o.flushes[h].items == []
    ensures Run(o, FlushSteps(h, replies)) == o
    decreases |replies|
  {
    if replies == [] {
    } else {
      RunReply(o, h, replies[0]);
      EndedReply(o, h, replies[0]);
      EndedFlushIdles(o, h, replies[1..]);
      RunConcat(o, ReplySteps(h, replies[0]), FlushSteps(h, replies[1..]));
    }
  }

  /** The state that flush `h` leaves when its requests end this way. */
  function Flushed(o: Outbox, h: nat, replies: seq<Reply>): Outbox
    requires h < |o.flushes|
  {
    var items := o.flushes[h].items;
    var left := Drain(o.pending, items, Answers(replies));
    o.(pending := left,
       accepted := o.accepted + Reached(items, replies),
       pendingSyncCount := if items != [] && replies != [] && replies[0] == Good then |left| else o.pendingSyncCount,
       flushes := o.flushes[h := Flush(LeftOver(items, replies), false, true)])
  }

  /**
    Taken alone, the interleaved flush is the undisturbed one, however its requests end: it removes
    what `Drain` removes, and after a request that failed it sends nothing more.
   */
  lemma {:induction false} FlushStepsDrain(o: Outbox, h: nat, replies: seq<Reply>)
    requires Ready(o, h)
    ensures Run(o, FlushSteps(h, replies)) == Flushed(o, h, replies)
    decreases |replies|
  {
    var items := o.flushes[h].items;
    if items == [] {
      EndedFlushIdles(o, h, replies);
      assert o.accepted + [] == o.accepted && o.flushes[h := o.flushes[h]] == o.flushes;
    } else if replies == [] {
      assert o.accepted + [] == o.accepted && o.flushes[h := o.flushes[h]] == o.flushes;
    } else {
      var next := Replied(o, h, replies[0]);
      RunReply(o, h, replies[0]);
      OneReply(o, h, replies[0]);
      FlushStepsDrain(next, h, replies[1..]);
      RunConcat(o, ReplySteps(h, replies[0]), FlushSteps(h, replies[1..]));
      FlushedStep(o, h, replies);
    }
  }

  lemma FlushedStep(o: Outbox, h: nat, replies: seq<Reply>)
    requires Ready(o, h) && o.flushes[h].items != [] && replies != []
    ensures Flushed(Replied(o, h, replies[0]), h, replies[1..]) == Flushed(o, h, replies)
  {
    assert Answers(replies)[1..] == Answers(replies[1..]);
    var items := o.flushes[h].items;
    if replies[0] == Good {
      assert (o.accepted + [items[0].id]) + Reached(items[1..], replies[1..])
             == o.accepted + ([items[0].id] + Reached(items[1..], replies[1..]));
    }
  }
}
