/** The six-attempt session machine driven by the engine's evaluation. */
module GameSessions {
  import opened Marks
  import opened Texts
  import opened WordleEngine

  const MAX_ATTEMPTS: nat := 6

  datatype Status = InProgress | Won | Lost

  datatype GuessEntry = GuessEntry(guess: string, result: seq<LetterEvaluation>, attemptNumber: nat)

  datatype CompletedEvent = CompletedEvent(finalStatus: Status, guessCount: nat, solutionWord: string)

  /** One session row together with the completion events emitted for it. */
  datatype Session = Session(
    solution: string,
    history: seq<GuessEntry>,
    status: Status,
    events: seq<CompletedEvent>)

  datatype Outcome =
    | Played(evaluation: seq<LetterEvaluation>, attemptNumber: nat, status: Status)
    | NotInProgress
    | WordAlreadyGuessed
    | NotInWordList
    | InvalidGuess(reason: Evaluation)

  /** A request: the guessed word, and the dictionary's verdict on it. */
  datatype Move = Move(guess: string, inWordList: bool)

  function Guesses(history: seq<GuessEntry>): (words: seq<string>)
    ensures |words| == |history|
  {
    seq(|history|, i requires 0 <= i < |history| => history[i].guess)
  }

  function SessionStatus(evaluation: seq<LetterEvaluation>, attemptNumber: nat, maxAttempts: nat): Status {
    if attemptNumber > maxAttempts then Lost
    else if forall e | e in evaluation :: e.status == Correct then Won
    else if attemptNumber == maxAttempts then Lost
    else InProgress
  }

  function Play(s: Session, m: Move): (Session, Outcome) {
    if s.status != InProgress then (s, NotInProgress)
    else if m.guess in Guesses(s.history) then (s, WordAlreadyGuessed)
    else if !m.inWordList then (s, NotInWordList)
    else
      var evaluation := EvaluationOf(m.guess, s.solution);
      if !evaluation.Evaluated? then (s, InvalidGuess(evaluation)) else
      var attemptNumber := |s.history| + 1;
      var status := SessionStatus(evaluation.result, attemptNumber, MAX_ATTEMPTS);
      var history := s.history + [GuessEntry(m.guess, evaluation.result, attemptNumber)];
      var event := CompletedEvent(status, |history|, s.solution);
      (Session(s.solution, history, status, s.events + if status == InProgress then [] else [event]),
       Played(evaluation.result, attemptNumber, status))
  }

  /** What the player is told, from the session before and after the guess. */
  ghost predicate Answers(before: Session, m: Move, after: Session, outcome: Outcome) {
    var open, repeated := before.status == InProgress, m.guess in Guesses(before.history);
    var evaluation := EvaluationOf(m.guess, before.solution);
    && (outcome.NotInProgress? <==> !open)
    && (outcome.WordAlreadyGuessed? <==> open && repeated)
    && (outcome.NotInWordList? <==> open && !repeated && !m.inWordList)
    && (outcome.InvalidGuess? <==> open && !repeated && m.inWordList && !evaluation.Evaluated?)
    && (outcome.InvalidGuess? ==> outcome.reason == evaluation)
    && (!outcome.Played? ==> after == before)
    && (outcome.Played? ==>
          && evaluation == Evaluated(outcome.evaluation)
          && outcome.status == after.status && outcome.attemptNumber == |after.history|
          && after.history == before.history + [GuessEntry(m.guess, outcome.evaluation, outcome.attemptNumber)])
  }

  /** Every guess is answered truthfully: the one evaluation, or the one refusal, that the session calls for. */
  lemma PlayAnswers(s: Session, m: Move)
    ensures Answers(s, m, Play(s, m).0, Play(s, m).1)
  {
  }

  class GameSession {
    const solution: string
    var history: seq<GuessEntry>
    var status: Status
    var events: seq<CompletedEvent>

    constructor (solution: string)
      ensures this.solution == solution && Row() == Fresh(solution)
    {
      this.solution := solution;
      history, status, events := [], InProgress, [];
    }

    function Row(): Session
      reads this
    {
      Session(solution, history, status, events)
    }

    method Guess(guess: string, inWordList: bool) returns (outcome: Outcome)
      modifies this
      ensures (Row(), outcome) == Play(old(Row()), Move(guess, inWordList))
      ensures Answers(old(Row()), Move(guess, inWordList), Row(), outcome)
    {
      PlayAnswers(Row(), Move(guess, inWordList));
      if status != InProgress {
        return NotInProgress;
      }
      if guess in Guesses(history) {
        return WordAlreadyGuessed;
      }
      if !inWordList {
        return NotInWordList;
      }
      var evaluation := EvaluateGuess(guess, solution);
      if !evaluation.Evaluated? {
        return InvalidGuess(evaluation);
      }
      var attemptNumber := |history| + 1;
      var newGuess := GuessEntry(guess, evaluation.result, attemptNumber);
      var newStatus := SessionStatus(evaluation.result, attemptNumber, MAX_ATTEMPTS);
      history := history + [newGuess];
      status := newStatus;
      if newStatus == Won || newStatus == Lost {
        events := events + [CompletedEvent(newStatus, |history|, solution)];
      } else {
        assert events == events + [];
      }
      outcome := Played(evaluation.result, attemptNumber, newStatus);
    }
  }

  // ---------------------------------------------------------------- runs

  function Fresh(solution: string): Session {
    Session(solution, [], InProgress, [])
  }

  function Run(solution: string, moves: seq<Move>): Session {
    if moves == [] then Fresh(solution)
    else Play(Run(solution, moves[..|moves| - 1]), moves[|moves| - 1]).0
  }

  /** Entry by entry, the attempts are numbered from 1 and carry their true evaluations. */
  ghost predicate Recorded(history: seq<GuessEntry>, solution: string) {
    forall i | 0 <= i < |history| ::
      history[i].attemptNumber == i + 1 && EvaluationOf(history[i].guess, solution) == Evaluated(history[i].result)
  }

  /** What the status says about the guessed words. */
  ghost predicate StatusFits(words: seq<string>, solution: string, status: Status) {
    && (words != [] ==> solution !in words[..|words| - 1])
    && status == if solution in words then Won else if |words| == MAX_ATTEMPTS then Lost else InProgress
  }

  /** Everything a finished or running session promises, said without reference to the machine. */
  ghost predicate Consistent(s: Session) {
    var words := Guesses(s.history);
    && |words| <= MAX_ATTEMPTS
    && Distinct(words)
    && Recorded(s.history, s.solution)
    && StatusFits(words, s.solution, s.status)
    && s.events == if s.status == InProgress then [] else [CompletedEvent(s.status, |words|, s.solution)]
  }

  lemma StatusStep(words: seq<string>, w: string, solution: string)
    requires StatusFits(words, solution, InProgress)
    ensures StatusFits(words + [w], solution,
                       if w == solution then Won else if |words| + 1 == MAX_ATTEMPTS then Lost else InProgress)
  {
    assert (words + [w])[..|words|] == words;
  }

  lemma PlayKeepsConsistent(s: Session, m: Move)
    requires Consistent(s)
    ensures Consistent(Play(s, m).0)
  {
    var next := Play(s, m).0;
    if next != s {
      WinIffSolution(m.guess, s.solution);
      StatusStep(Guesses(s.history), m.guess, s.solution);
      assert Guesses(next.history) == Guesses(s.history) + [m.guess];
      assert Recorded(next.history, s.solution);
    }
  }

  /** Every reachable session keeps all of those promises. */
  lemma {:induction false} EveryRunIsConsistent(solution: string, moves: seq<Move>)
    ensures Consistent(Run(solution, moves)) && Run(solution, moves).solution == solution
  {
    if moves == [] {
    } else {
      EveryRunIsConsistent(solution, moves[..|moves| - 1]);
      PlayKeepsConsistent(Run(solution, moves[..|moves| - 1]), moves[|moves| - 1]);
    }
  }

  /** The guard for too many attempts is never taken: an open session always has an attempt left. */
  lemma AttemptGuardIsNeverTaken(solution: string, moves: seq<Move>, m: Move)
    ensures var (_, outcome) := Play(Run(solution, moves), m);
            outcome.Played? ==>
              && outcome.attemptNumber <= MAX_ATTEMPTS
              && (outcome.status == Lost ==> outcome.attemptNumber == MAX_ATTEMPTS && m.guess != solution)
              && (outcome.status == Won <==> m.guess == solution)
  {
    EveryRunIsConsistent(solution, moves);
    if Play(Run(solution, moves), m).1.Played? {
      WinIffSolution(m.guess, solution);
    }
  }

  /** Once finished, a session never changes again, whatever is submitted. */
  lemma {:induction false} FinishedIsFinal(solution: string, moves: seq<Move>, more: seq<Move>)
    requires Run(solution, moves).status != InProgress
    ensures Run(solution, moves + more) == Run(solution, moves)
  {
    if more == [] {
      assert moves + more == moves;
    } else {
      var last := |more| - 1;
      FinishedIsFinal(solution, moves, more[..last]);
      assert (moves + more)[..|moves + more| - 1] == moves + more[..last];
    }
  }

  // ---------------------------------------------------------------- which guesses count

  predicate Legal(solution: string, m: Move) {
    m.inWordList && |m.guess| == |solution| > 0
  }

  /** The words of the legal requests, each at its first occurrence. */
  function LegalWords(solution: string, moves: seq<Move>): seq<string> {
    if moves == [] then [] else
      var words := LegalWords(solution, moves[..|moves| - 1]);
      var m := moves[|moves| - 1];
      if Legal(solution, m) && m.guess !in words then words + [m.guess] else words
  }

  /** How many of `words`, from position `n` on, are played before a hit or the sixth attempt ends the game. */
  function PlayedCount(solution: string, words: seq<string>, n: nat): (k: nat)
    requires n <= |words|
    ensures n <= k <= |words|
    decreases |words| - n
  {
    if n == |words| || n >= MAX_ATTEMPTS || (n > 0 && words[n - 1] == solution) then n
    else PlayedCount(solution, words, n + 1)
  }

  /** The played part grows with one more word exactly while the game is open. */
  lemma {:induction false} PlayedGrows(solution: string, words: seq<string>, w: string, n: nat)
    requires n <= |words| && n <= MAX_ATTEMPTS
    requires n > 0 ==> solution !in words[..n - 1]
    ensures var k := PlayedCount(solution, words, n);
            && k <= MAX_ATTEMPTS
            && (k < |words| ==> k == MAX_ATTEMPTS || solution in words[..k])
            && PlayedCount(solution, words + [w], n)
               == if k == |words| && k < MAX_ATTEMPTS && solution !in words[..k] then k + 1 else k
    decreases |words| - n
  {
    if n > 0 {
      assert words[..n] == words[..n - 1] + [words[n - 1]];
    }
    if n < |words| && n < MAX_ATTEMPTS && (n == 0 || words[n - 1] != solution) {
      PlayedGrows(solution, words, w, n + 1);
    }
  }

  lemma HistoryStep(s: Session, words: seq<string>, m: Move)
    requires Consistent(s) && Guesses(s.history) == words[..PlayedCount(s.solution, words, 0)]
    ensures var grown := if Legal(s.solution, m) && m.guess !in words then words + [m.guess] else words;
            Guesses(Play(s, m).0.history) == grown[..PlayedCount(s.solution, grown, 0)]
  {
    PlayedGrows(s.solution, words, m.guess, 0);
    var k, longer := PlayedCount(s.solution, words, 0), words + [m.guess];
    assert longer[..k] == words[..k];
    if Play(s, m).0 != s {
      assert Guesses(Play(s, m).0.history) == Guesses(s.history) + [m.guess];
      assert k == |words|;
      assert longer[..k + 1] == words[..k] + [m.guess];
    }
  }

  /**
    The recorded guesses are exactly the distinct legal words in the order they came, up to and
    including the solution, and never more than six.
   */
  lemma {:induction false} HistoryIsTheLegalWords(solution: string, moves: seq<Move>)
    ensures var words := LegalWords(solution, moves);
            Guesses(Run(solution, moves).history) == words[..PlayedCount(solution, words, 0)]
  {
    if moves == [] {
    } else {
      var before := moves[..|moves| - 1];
      HistoryIsTheLegalWords(solution, before);
      EveryRunIsConsistent(solution, before);
      HistoryStep(Run(solution, before), LegalWords(solution, before), moves[|moves| - 1]);
    }
  }
}
