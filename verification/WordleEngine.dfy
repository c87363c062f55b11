/** The backend evaluator: a letter-count map consumed in two passes. */
module WordleEngine {
  import opened Counting
  import opened Marks

  datatype LetterEvaluation = LetterEvaluation(letter: char, status: Status)

  datatype Evaluation =
    | Evaluated(result: seq<LetterEvaluation>)
    | LengthMismatch
    | EmptySolution

  /** What an evaluation has to be, in terms of the reference marks. */
  function EvaluationOf(guess: string, solution: string): Evaluation {
    if |guess| != |solution| then LengthMismatch
    else if |solution| < 1 then EmptySolution
    else Evaluated(seq(|guess|, i requires 0 <= i < |guess| => LetterEvaluation(guess[i], MarksOf(guess, solution)[i])))
  }

  /** Reading a missing key of the count map gives zero. */
  function Lookup(counts: map<char, int>, c: char): int {
    if c in counts then counts[c] else 0
  }

  method CountLetters(solution: string) returns (counts: map<char, int>)
    ensures forall c: char :: Lookup(counts, c) == Count(solution, c)
    ensures forall j | 0 <= j < |solution| :: solution[j] in counts
  {
    counts := map[];
    for i := 0 to |solution|
      invariant forall c: char :: Lookup(counts, c) == Count(solution[..i], c)
      invariant forall j | 0 <= j < i :: solution[j] in counts
    {
      assert solution[..i + 1][..i] == solution[..i];
      counts := counts[solution[i] := Lookup(counts, solution[i]) + 1];
    }
    assert solution[..|solution|] == solution;
  }

  function StatusesOf(row: seq<LetterEvaluation>): (s: seq<Status>)
    ensures |s| == |row|
  {
    seq(|row|, k requires 0 <= k < |row| => row[k].status)
  }

  ghost predicate Spells(row: seq<LetterEvaluation>, guess: string) {
    |row| == |guess| && forall k | 0 <= k < |row| :: row[k].letter == guess[k]
  }

  /** First pass: exact matches are marked and taken out of the counts. */
  method MarkCorrect(result: array<LetterEvaluation>, guess: string, solution: string, letterCounts: map<char, int>)
    returns (counts: map<char, int>)
    requires |guess| == |solution|
    requires Spells(result[..], guess)
    requires forall k | 0 <= k < result.Length :: result[k].status == Absent
    requires forall c: char :: Lookup(letterCounts, c) == Count(solution, c)
    requires forall j | 0 <= j < |solution| :: solution[j] in letterCounts
    modifies result
    ensures Spells(result[..], guess)
    ensures FirstPassRow(guess, solution, StatusesOf(result[..]), 0)
    ensures forall c: char :: Lookup(counts, c) == Available(guess, solution, c)
  {
    counts := letterCounts;
    for i := 0 to |guess|
      invariant Spells(result[..], guess)
      invariant forall c: char :: Lookup(counts, c) == Count(solution, c) - Matched(guess, solution, i, c)
      invariant forall j | 0 <= j < |solution| :: solution[j] in counts
      invariant forall k | 0 <= k < |guess| ::
                  result[k].status == if k < i && Match(guess, solution, k) then Correct else Absent
    {
      if guess[i] == solution[i] {
        result[i] := result[i].(status := Correct);
        counts := counts[guess[i] := counts[guess[i]] - 1];
      }
    }
    forall c: char ensures Lookup(counts, c) == Available(guess, solution, c) {
      var _ := CountsShareMatches(guess, solution, c);
    }
  }

  /** The counts are the copies still claimable at position `i`. */
  ghost predicate CountsLeft(counts: map<char, int>, guess: string, solution: string, i: nat)
    requires i <= |guess|
  {
    forall c: char :: Lookup(counts, c) == Remaining(guess, solution, i, c)
  }

  lemma CountsLeftStep(counts: map<char, int>, next: map<char, int>, guess: string, solution: string, i: nat)
    requires i < |guess| && CountsLeft(counts, guess, solution, i)
    requires guess[i] in counts || !Claims(guess, solution, i)
    requires next == if Claims(guess, solution, i) then counts[guess[i] := counts[guess[i]] - 1] else counts
    ensures CountsLeft(next, guess, solution, i + 1)
  {
    forall c: char ensures Lookup(next, c) == Remaining(guess, solution, i + 1, c) {
      RemainingStep(guess, solution, i, c);
      assert Lookup(counts, c) == Remaining(guess, solution, i, c);
    }
  }

  /** Second pass: each remaining letter claims a copy while one is left. */
  method MarkPresent(result: array<LetterEvaluation>, guess: string, solution: string, available: map<char, int>)
    requires |guess| == |solution|
    requires Spells(result[..], guess)
    requires FirstPassRow(guess, solution, StatusesOf(result[..]), 0)
    requires CountsLeft(available, guess, solution, 0)
    modifies result
    ensures Spells(result[..], guess)
    ensures StatusesOf(result[..]) == MarksOf(guess, solution)
  {
    var counts := available;
    for i := 0 to |guess|
      invariant Spells(result[..], guess)
      invariant CountsLeft(counts, guess, solution, i)
      invariant forall k | 0 <= k < i :: StatusesOf(result[..])[k] == Mark(guess, solution, k)
      invariant FirstPassRow(guess, solution, StatusesOf(result[..]), i)
    {
      MarkByClaim(guess, solution, i);
      ghost var before, countsBefore := StatusesOf(result[..]), counts;
      assert before[i] == result[i].status;
      if result[i].status != Correct {
        if Lookup(counts, guess[i]) > 0 {
          result[i] := result[i].(status := Present);
          counts := counts[guess[i] := counts[guess[i]] - 1];
        }
      }
      CountsLeftStep(countsBefore, counts, guess, solution, i);
      assert StatusesOf(result[..]) == before[i := Mark(guess, solution, i)];
    }
  }

  method EvaluateGuess(guess: string, solution: string) returns (r: Evaluation)
    ensures r == EvaluationOf(guess, solution)
    ensures r == LengthMismatch <==> |guess| != |solution|
    ensures r == EmptySolution <==> |guess| == |solution| == 0
    ensures r.Evaluated? ==>
              && |r.result| == |guess|
              && forall i | 0 <= i < |guess| :: r.result[i] == LetterEvaluation(guess[i], Mark(guess, solution, i))
  {
    var wordLength := |solution|;
    if |guess| != wordLength {
      return LengthMismatch;
    }
    if wordLength < 1 {
      return EmptySolution;
    }
    var result := new LetterEvaluation[wordLength](i requires 0 <= i < |guess| => LetterEvaluation(guess[i], Absent));
    var counts := CountLetters(solution);
    counts := MarkCorrect(result, guess, solution, counts);
    MarkPresent(result, guess, solution, counts);
    assert forall i | 0 <= i < |guess| :: result[i].status == StatusesOf(result[..])[i];
    r := Evaluated(result[..]);
  }

  /** An evaluation reports a win exactly when guess and solution are the same word. */
  lemma WinIffSolution(guess: string, solution: string)
    requires EvaluationOf(guess, solution).Evaluated?
    ensures (forall e | e in EvaluationOf(guess, solution).result :: e.status == Correct) <==> guess == solution
  {
    var result := EvaluationOf(guess, solution).result;
    AllCorrectIffEqual(guess, solution);
    assert forall i | 0 <= i < |guess| :: result[i].status == MarksOf(guess, solution)[i];
    if forall e | e in result :: e.status == Correct {
      forall i | 0 <= i < |guess| ensures MarksOf(guess, solution)[i] == Correct {
        assert result[i] in result;
      }
    }
  }
}
