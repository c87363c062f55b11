/** The three evaluators of the repository, side by side. */
module EvaluatorAgreement {
  import opened Marks
  import opened WordleEngine
  import WordValidation
  import SessionResultBench

  /** On words of one length all three give the same marks, the third if the guess has none of its sentinels. */
  method EvaluateThreeWays(guess: string, solution: string)
    returns (engine: Evaluation, frontend: seq<Status>, bench: seq<Status>)
    requires |guess| == |solution| > 0
    ensures '#' !in guess && '*' !in guess ==> bench == frontend
    ensures |frontend| == |guess|
    ensures engine.Evaluated? && |engine.result| == |guess|
    ensures forall i | 0 <= i < |guess| :: engine.result[i] == LetterEvaluation(guess[i], frontend[i])
    ensures (forall i | 0 <= i < |guess| :: frontend[i] == Correct) <==> guess == solution
  {
    engine := EvaluateGuess(guess, solution);
    frontend := WordValidation.CalculateLetterStatuses(guess, solution);
    bench := SessionResultBench.CalculateSessionResult(guess, solution);
    AllCorrectIffEqual(guess, solution);
  }
}
