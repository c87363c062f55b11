/** The benchmark evaluator: consumed letters are overwritten with the sentinels `#` and `*`. */
module SessionResultBench {
  import opened Counting
  import opened Marks

  /** The target after the first pass: every exact match has become `#`. */
  lemma {:induction false} CountMasked(masked: seq<char>, guess: string, target: string, n: nat, c: char)
    requires n <= |masked| == |target| && c != '#'
    requires forall j | 0 <= j < |target| :: masked[j] == if Match(guess, target, j) then '#' else target[j]
    ensures Count(masked[..n], c) == Unmatched(target, guess, target, n, c)
  {
    if n == 0 {
    } else {
      CountMasked(masked, guess, target, n - 1, c);
      assert masked[..n][..n - 1] == masked[..n - 1];
    }
  }

  method IndexOf(s: array<char>, c: char) returns (idx: int)
    ensures -1 <= idx < s.Length
    ensures idx == -1 ==> c !in s[..]
    ensures idx != -1 ==> s[idx] == c && c !in s[..idx]
  {
    idx := 0;
    while idx < s.Length
      invariant 0 <= idx <= s.Length
      invariant c !in s[..idx]
    {
      if s[idx] == c {
        return;
      }
      idx := idx + 1;
    }
    idx := -1;
  }

  predicate Sentinel(c: char) {
    c == '#' || c == '*'
  }

  /** Whether a letter of the guess that is no sentinel was claimed before position `i`. */
  predicate ClaimedBefore(guess: string, target: string, i: nat)
    requires i <= |guess|
  {
    exists k | 0 <= k < i :: !Sentinel(guess[k]) && Mark(guess, target, k) == Present
  }

  predicate AnyMatch(guess: string, target: string) {
    exists j | 0 <= j < |target| :: Match(guess, target, j)
  }

  /** Whether the second pass finds a `#` among the target letters when it reaches position `i`. */
  predicate HashFound(guess: string, target: string, i: nat)
    requires i <= |guess|
  {
    '#' in target || AnyMatch(guess, target) || ClaimedBefore(guess, target, i)
  }

  /** The mark this evaluator gives: an unmatched `*` is skipped, and an unmatched `#` takes any overwritten letter. */
  function SentinelMark(guess: string, target: string, i: nat): Status
    requires i < |guess|
  {
    if Match(guess, target, i) then Correct
    else if guess[i] == '*' then Absent
    else if guess[i] == '#' then (if HashFound(guess, target, i) then Present else Absent)
    else Mark(guess, target, i)
  }

  lemma ClaimedStep(guess: string, target: string, i: nat)
    requires i < |guess|
    ensures ClaimedBefore(guess, target, i + 1)
            <==> ClaimedBefore(guess, target, i) || (!Sentinel(guess[i]) && Mark(guess, target, i) == Present)
  {
    if ClaimedBefore(guess, target, i + 1) {
      var k :| 0 <= k < i + 1 && !Sentinel(guess[k]) && Mark(guess, target, k) == Present;
      assert k < i ==> ClaimedBefore(guess, target, i);
    }
  }

  /** The letters left to claim: the sentinels aside, the copies that `Remaining` counts. */
  ghost predicate TargetLeft(targetArr: seq<char>, guess: string, target: string, i: nat)
    requires i <= |guess|
  {
    && (forall c: char | !Sentinel(c) :: Count(targetArr, c) == Remaining(guess, target, i, c))
    && ('#' in targetArr <==> HashFound(guess, target, i))
  }

  ghost predicate GuessMasked(guessArr: seq<char>, guess: string, target: string) {
    && |guessArr| == |guess|
    && forall k | 0 <= k < |guess| :: guessArr[k] == if Match(guess, target, k) then '*' else guess[k]
  }

  /** First pass: both copies of an exact match are overwritten, in guess and in target. */
  method MarkCorrect(result: array<Status>, guessArr: array<char>, targetArr: array<char>,
                     ghost guess: string, ghost target: string)
    requires guessArr[..] == guess && targetArr[..] == target && guessArr != targetArr
    requires result.Length == |guess| && forall k | 0 <= k < |guess| :: result[k] == Absent
    modifies result, guessArr, targetArr
    ensures FirstPassRow(guess, target, result[..], 0)
    ensures GuessMasked(guessArr[..], guess, target)
    ensures TargetLeft(targetArr[..], guess, target, 0)
  {
    for i := 0 to guessArr.Length
      invariant forall k | 0 <= k < |guess| ::
                  result[k] == if k < i && Match(guess, target, k) then Correct else Absent
      invariant forall k | 0 <= k < |guess| ::
                  guessArr[k] == if k < i && Match(guess, target, k) then '*' else guess[k]
      invariant forall j | 0 <= j < |target| ::
                  targetArr[j] == if j < i && Match(guess, target, j) then '#' else target[j]
    {
      if i < targetArr.Length && guessArr[i] == targetArr[i] {
        result[i] := Correct;
        targetArr[i] := '#';
        guessArr[i] := '*';
      }
    }
    forall c: char | c != '#' ensures Count(targetArr[..], c) == Available(guess, target, c) {
      assert targetArr[..][..|target|] == targetArr[..];
      CountMasked(targetArr[..], guess, target, |target|, c);
    }
    MaskedHash(targetArr[..], guess, target);
  }

  lemma MaskedHash(masked: seq<char>, guess: string, target: string)
    requires |masked| == |target|
    requires forall j | 0 <= j < |target| :: masked[j] == if Match(guess, target, j) then '#' else target[j]
    ensures '#' in masked <==> HashFound(guess, target, 0)
  {
    if '#' in target {
      var j :| 0 <= j < |target| && target[j] == '#';
      assert masked[j] == '#';
    }
    if AnyMatch(guess, target) {
      var j :| 0 <= j < |target| && Match(guess, target, j);
      assert masked[j] == '#';
    }
  }

  /** Overwriting the copy that an unmatched letter found claims it. */
  lemma ClaimLeaves(before: seq<char>, idx: int, guess: string, target: string, i: nat)
    requires i < |guess| && !Match(guess, target, i) && guess[i] != '*' && TargetLeft(before, guess, target, i)
    requires -1 <= idx < |before|
    requires if idx == -1 then guess[i] !in before else before[idx] == guess[i]
    ensures SentinelMark(guess, target, i) == if idx == -1 then Absent else Present
    ensures TargetLeft(if idx == -1 then before else before[idx := '#'], guess, target, i + 1)
  {
    var after := if idx == -1 then before else before[idx := '#'];
    CountZero(before, guess[i]);
    MarkByClaim(guess, target, i);
    ClaimedStep(guess, target, i);
    forall c: char | !Sentinel(c) ensures Count(after, c) == Remaining(guess, target, i + 1, c) {
      RemainingStep(guess, target, i, c);
      if idx != -1 {
        CountUpdate(before, idx, '#', c);
      }
    }
    if idx != -1 {
      assert after[idx] == '#';
    }
  }

  /** A position that claims nothing leaves the letters as they are. */
  lemma SkipLeaves(left: seq<char>, guess: string, target: string, i: nat)
    requires i < |guess| && (Match(guess, target, i) || guess[i] == '*') && TargetLeft(left, guess, target, i)
    ensures TargetLeft(left, guess, target, i + 1)
  {
    MarkByClaim(guess, target, i);
    ClaimedStep(guess, target, i);
    forall c: char | !Sentinel(c) ensures Count(left, c) == Remaining(guess, target, i + 1, c) {
      RemainingStep(guess, target, i, c);
    }
  }

  /** The loop state of the second pass at position `i`. */
  ghost predicate MarkedTo(result: seq<Status>, targetArr: seq<char>, guess: string, target: string, i: nat)
    requires i <= |guess|
  {
    && FirstPassRow(guess, target, result, i)
    && (forall k | 0 <= k < i :: result[k] == SentinelMark(guess, target, k))
    && TargetLeft(targetArr, guess, target, i)
  }

  lemma MarkedStep(result: seq<Status>, targetArr: seq<char>, idx: int, guess: string, target: string, i: nat)
    requires i < |guess| && MarkedTo(result, targetArr, guess, target, i) && -1 <= idx < |targetArr|
    requires !Match(guess, target, i) && guess[i] != '*'
    requires if idx == -1 then guess[i] !in targetArr else targetArr[idx] == guess[i]
    ensures MarkedTo(if idx == -1 then result else result[i := Present],
                     if idx == -1 then targetArr else targetArr[idx := '#'], guess, target, i + 1)
  {
    ClaimLeaves(targetArr, idx, guess, target, i);
  }

  lemma SkippedStep(result: seq<Status>, targetArr: seq<char>, guess: string, target: string, i: nat)
    requires i < |guess| && MarkedTo(result, targetArr, guess, target, i)
    requires Match(guess, target, i) || guess[i] == '*'
    ensures MarkedTo(result, targetArr, guess, target, i + 1)
  {
    SkipLeaves(targetArr, guess, target, i);
  }

  /** One turn of the second pass, for the letter left at position `i` of the guess. */
  method MarkLetter(result: array<Status>, targetArr: array<char>, letter: char, i: nat,
                    ghost guess: string, ghost target: string)
    requires i < |guess| && MarkedTo(result[..], targetArr[..], guess, target, i)
    requires letter == if Match(guess, target, i) then '*' else guess[i]
    modifies result, targetArr
    ensures MarkedTo(result[..], targetArr[..], guess, target, i + 1)
  {
    ghost var marks, letters := result[..], targetArr[..];
    if letter == '*' {
      SkippedStep(marks, letters, guess, target, i);
      return;
    }
    var idx := IndexOf(targetArr, letter);
    MarkedStep(marks, letters, idx, guess, target, i);
    if idx != -1 {
      result[i] := Present;
      targetArr[idx] := '#';
      assert result[..] == marks[i := Present] && targetArr[..] == letters[idx := '#'];
    }
  }

  /** Second pass: each remaining letter overwrites the first copy it finds. */
  method MarkPresent(result: array<Status>, guessArr: array<char>, targetArr: array<char>,
                     ghost guess: string, ghost target: string)
    requires guessArr != targetArr
    requires FirstPassRow(guess, target, result[..], 0)
    requires GuessMasked(guessArr[..], guess, target)
    requires TargetLeft(targetArr[..], guess, target, 0)
    modifies result, targetArr
    ensures MarkedTo(result[..], targetArr[..], guess, target, |guess|)
  {
    for i := 0 to guessArr.Length
      invariant guessArr[..] == old(guessArr[..])
      invariant MarkedTo(result[..], targetArr[..], guess, target, i)
    {
      assert guessArr[i] == old(guessArr[..])[i];
      MarkLetter(result, targetArr, guessArr[i], i, guess, target);
    }
  }

  /** On every guess free of the two sentinels this is the reference evaluation. */
  method CalculateSessionResult(guess: string, target: string) returns (statuses: seq<Status>)
    ensures |statuses| == |guess|
    ensures forall i | 0 <= i < |guess| :: statuses[i] == SentinelMark(guess, target, i)
    ensures '#' !in guess && '*' !in guess ==> statuses == MarksOf(guess, target)
  {
    var result := new Status[|guess|](_ => Absent);
    var targetArr := new char[|target|](j requires 0 <= j < |target| => target[j]);
    var guessArr := new char[|guess|](j requires 0 <= j < |guess| => guess[j]);
    MarkCorrect(result, guessArr, targetArr, guess, target);
    MarkPresent(result, guessArr, targetArr, guess, target);
    statuses := result[..];
    assert forall i | 0 <= i < |guess| :: guess[i] in guess;
  }

  /** The sentinels do differ: a `#` finds the letter just matched, and a `*` is never looked for. */
  lemma SentinelsDiffer()
    ensures SentinelMark("a#", "ab", 1) == Present && Mark("a#", "ab", 1) == Absent
    ensures SentinelMark("*a", "b*", 0) == Absent && Mark("*a", "b*", 0) == Present
  {
    var g, t := "a#", "ab";
    assert Match(g, t, 0) && AnyMatch(g, t) && HashFound(g, t, 1);
    assert Unmatched(t, g, t, 0, '#') == Unmatched(t, g, t, 1, '#') == Unmatched(t, g, t, 2, '#') == 0;
    assert Available(g, t, '#') == 0;
    var h, u := "*a", "b*";
    assert Unmatched(u, h, u, 1, '*') == 0 && Unmatched(u, h, u, 2, '*') == 1;
    assert Available(h, u, '*') == 1 && Unmatched(h, h, u, 0, '*') == 0;
  }
}
