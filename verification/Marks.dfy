/**
  What a row of Wordle marks means, independently of any algorithm that computes it.

  A letter is `Correct` where guess and target agree.  Every other letter `c` of the guess is
  `Present` as long as fewer unmatched `c`s stand to its left than the target has unmatched
  `c`s, and `Absent` afterwards.  The two words may have different lengths; positions beyond
  the shorter word never match.
 */
module Marks {
  import opened Counting

  datatype Status = Correct | Present | Absent

  predicate Match(guess: string, target: string, i: nat) {
    i < |guess| && i < |target| && guess[i] == target[i]
  }

  /** Occurrences of `c` among the first `n` letters of `w`, at positions where the words differ. */
  function Unmatched(w: string, guess: string, target: string, n: nat, c: char): nat
    requires n <= |w|
  {
    if n == 0 then 0 else
      Unmatched(w, guess, target, n - 1, c) +
      if w[n - 1] == c && !Match(guess, target, n - 1) then 1 else 0
  }

  /** Copies of `c` in the target that no exact match has claimed. */
  function Available(guess: string, target: string, c: char): nat {
    Unmatched(target, guess, target, |target|, c)
  }

  function Mark(guess: string, target: string, i: nat): Status
    requires i < |guess|
  {
    if Match(guess, target, i) then Correct
    else if Unmatched(guess, guess, target, i, guess[i]) < Available(guess, target, guess[i]) then Present
    else Absent
  }

  /** The reference evaluation that every evaluator of the repository is proved against. */
  function MarksOf(guess: string, target: string): (s: seq<Status>)
    ensures |s| == |guess|
  {
    seq(|guess|, i requires 0 <= i < |guess| => Mark(guess, target, i))
  }

  function Min(a: int, b: int): int {
    if a < b then a else b
  }

  /** Copies of `c` among the first `n` letters of the guess that a row of marks reveals. */
  function Revealed(guess: string, s: seq<Status>, n: nat, c: char): nat
    requires n <= |guess| && n <= |s|
  {
    if n == 0 then 0 else
      Revealed(guess, s, n - 1, c) + if guess[n - 1] == c && s[n - 1] != Absent then 1 else 0
  }

  /** The three laws a player reads off a row of marks. */
  ghost predicate Lawful(guess: string, target: string, s: seq<Status>) {
    && |s| == |guess|
    && (forall i | 0 <= i < |s| :: s[i] == Correct <==> Match(guess, target, i))
    && (forall c: char :: Revealed(guess, s, |guess|, c) == Min(Count(guess, c), Count(target, c)))
    && (forall i, j | 0 <= i < j < |s| && guess[i] == guess[j] && s[i] != Correct && s[j] == Present ::
          s[i] == Present)
  }

  // ---------------------------------------------------------------- counting

  /** Exact matches on `c` among the first `n` positions. */
  function Matched(guess: string, target: string, n: nat, c: char): nat {
    if n == 0 then 0 else
      Matched(guess, target, n - 1, c) +
      if Match(guess, target, n - 1) && guess[n - 1] == c then 1 else 0
  }

  lemma {:induction false} CountSplits(w: string, guess: string, target: string, n: nat, c: char)
    requires n <= |w|
    requires w == guess || w == target
    ensures Count(w[..n], c) == Matched(guess, target, n, c) + Unmatched(w, guess, target, n, c)
  {
    if n == 0 {
    } else {
      CountSplits(w, guess, target, n - 1, c);
      assert w[..n][..n - 1] == w[..n - 1];
    }
  }

  lemma {:induction false} NoMatchBeyond(guess: string, target: string, n: nat, m: nat, c: char)
    requires n <= m
    requires n >= |guess| || n >= |target|
    ensures Matched(guess, target, m, c) == Matched(guess, target, n, c)
  {
    if n == m {
    } else {
      NoMatchBeyond(guess, target, n, m - 1, c);
    }
  }

  /** Whole-word form: both words contain the same number of exact matches on `c`. */
  lemma CountsShareMatches(guess: string, target: string, c: char) returns (m: nat)
    ensures Count(guess, c) == m + Unmatched(guess, guess, target, |guess|, c)
    ensures Count(target, c) == m + Available(guess, target, c)
    ensures m == Matched(guess, target, |guess|, c)
  {
    m := Matched(guess, target, |guess|, c);
    CountSplits(guess, guess, target, |guess|, c);
    CountSplits(target, guess, target, |target|, c);
    assert guess[..|guess|] == guess && target[..|target|] == target;
    if |guess| <= |target| {
      NoMatchBeyond(guess, target, |guess|, |target|, c);
    } else {
      NoMatchBeyond(guess, target, |target|, |guess|, c);
    }
  }

  lemma {:induction false} RevealedPrefix(guess: string, target: string, n: nat, c: char)
    requires n <= |guess|
    ensures Revealed(guess, MarksOf(guess, target), n, c)
            == Matched(guess, target, n, c)
               + Min(Unmatched(guess, guess, target, n, c), Available(guess, target, c))
  {
    if n == 0 {
    } else {
      RevealedPrefix(guess, target, n - 1, c);
    }
  }

  /** For every letter, the marks reveal exactly as many copies as both words have. */
  lemma RevealedIsMinimum(guess: string, target: string, c: char)
    ensures Revealed(guess, MarksOf(guess, target), |guess|, c) == Min(Count(guess, c), Count(target, c))
  {
    var _ := CountsShareMatches(guess, target, c);
    RevealedPrefix(guess, target, |guess|, c);
  }

  lemma {:induction false} UnmatchedGrows(guess: string, target: string, n: nat, m: nat, c: char)
    requires n <= m <= |guess|
    ensures Unmatched(guess, guess, target, n, c) <= Unmatched(guess, guess, target, m, c)
  {
    if n == m {
    } else {
      UnmatchedGrows(guess, target, n, m - 1, c);
    }
  }

  // ---------------------------------------------------------------- the second pass

  /** Copies of `c` still claimable when a left-to-right pass reaches position `i`. */
  function Remaining(guess: string, target: string, i: nat, c: char): nat
    requires i <= |guess|
  {
    Available(guess, target, c) - Min(Unmatched(guess, guess, target, i, c), Available(guess, target, c))
  }

  lemma RemainingStep(guess: string, target: string, i: nat, c: char)
    requires i < |guess|
    ensures Remaining(guess, target, i + 1, c)
            == Remaining(guess, target, i, c) - if Claims(guess, target, i) && c == guess[i] then 1 else 0
  {
  }

  /** Whether the pass takes a copy of the letter at `i`. */
  predicate Claims(guess: string, target: string, i: nat)
    requires i < |guess|
  {
    !Match(guess, target, i) && Remaining(guess, target, i, guess[i]) > 0
  }

  lemma MarkByClaim(guess: string, target: string, i: nat)
    requires i < |guess|
    ensures Mark(guess, target, i)
            == if Match(guess, target, i) then Correct else if Claims(guess, target, i) then Present else Absent
  {
  }

  /** The row as the first pass leaves it: exact matches only. */
  predicate FirstPassRow(guess: string, target: string, s: seq<Status>, from: nat) {
    && |s| == |guess|
    && forall k | from <= k < |s| :: s[k] == if Match(guess, target, k) then Correct else Absent
  }

  // ---------------------------------------------------------------- the laws determine the marks

  lemma MarksAreLawful(guess: string, target: string)
    ensures Lawful(guess, target, MarksOf(guess, target))
  {
    var s := MarksOf(guess, target);
    forall c: char ensures Revealed(guess, s, |guess|, c) == Min(Count(guess, c), Count(target, c)) {
      RevealedIsMinimum(guess, target, c);
    }
    forall i, j | 0 <= i < j < |s| && guess[i] == guess[j] && s[i] != Correct && s[j] == Present
      ensures s[i] == Present
    {
      UnmatchedGrows(guess, target, i, j, guess[i]);
    }
  }

  /** When the marks obey the leftmost rule, those before a `Present` on `c` reveal every `c`. */
  lemma {:induction false} AllRevealedBefore(guess: string, target: string, s: seq<Status>, i: nat, n: nat)
    requires Lawful(guess, target, s)
    requires n <= i < |s| && s[i] == Present
    ensures Revealed(guess, s, n, guess[i])
            == Matched(guess, target, n, guess[i]) + Unmatched(guess, guess, target, n, guess[i])
  {
    if n == 0 {
    } else {
      AllRevealedBefore(guess, target, s, i, n - 1);
    }
  }

  /** ... and those after an `Absent` on `c` reveal only exact matches. */
  lemma {:induction false} OnlyMatchesAfter(guess: string, target: string, s: seq<Status>, i: nat, n: nat)
    requires Lawful(guess, target, s)
    requires i < n <= |s| && s[i] == Absent
    ensures Revealed(guess, s, n, guess[i])
            <= Matched(guess, target, n, guess[i]) + Unmatched(guess, guess, target, i, guess[i])
  {
    if n == i + 1 {
      RevealedBound(guess, target, s, i, guess[i]);
    } else {
      OnlyMatchesAfter(guess, target, s, i, n - 1);
    }
  }

  lemma {:induction false} RevealedBound(guess: string, target: string, s: seq<Status>, n: nat, c: char)
    requires Lawful(guess, target, s) && n <= |s|
    ensures Matched(guess, target, n, c)
            <= Revealed(guess, s, n, c)
            <= Matched(guess, target, n, c) + Unmatched(guess, guess, target, n, c)
  {
    if n == 0 {
    } else {
      RevealedBound(guess, target, s, n - 1, c);
    }
  }

  lemma {:induction false} RevealedGap(guess: string, target: string, s: seq<Status>, n: nat, m: nat, c: char)
    requires Lawful(guess, target, s) && n <= m <= |s|
    ensures Revealed(guess, s, m, c) - Revealed(guess, s, n, c)
            >= Matched(guess, target, m, c) - Matched(guess, target, n, c)
  {
    if n == m {
    } else {
      RevealedGap(guess, target, s, n, m - 1, c);
    }
  }

  lemma PresentIsForced(guess: string, target: string, s: seq<Status>, i: nat)
    requires Lawful(guess, target, s) && i < |s| && s[i] == Present
    ensures Unmatched(guess, guess, target, i, guess[i]) < Available(guess, target, guess[i])
  {
    var c := guess[i];
    var m := CountsShareMatches(guess, target, c);
    AllRevealedBefore(guess, target, s, i, i);
    RevealedGap(guess, target, s, i + 1, |s|, c);
    assert Revealed(guess, s, i + 1, c) == Revealed(guess, s, i, c) + 1;
    assert Revealed(guess, s, |guess|, c) <= m + Available(guess, target, c);
  }

  lemma AbsentIsForced(guess: string, target: string, s: seq<Status>, i: nat)
    requires Lawful(guess, target, s) && i < |s| && s[i] == Absent
    ensures Unmatched(guess, guess, target, i, guess[i]) >= Available(guess, target, guess[i])
  {
    var c := guess[i];
    var m := CountsShareMatches(guess, target, c);
    OnlyMatchesAfter(guess, target, s, i, |s|);
    UnmatchedGrows(guess, target, i + 1, |guess|, c);
    assert Unmatched(guess, guess, target, i + 1, c) == Unmatched(guess, guess, target, i, c) + 1;
    assert Revealed(guess, s, |guess|, c) == Min(Count(guess, c), Count(target, c));
  }

  /** A row of marks obeys the three laws exactly when it is the reference evaluation. */
  lemma LawsDetermineMarks(guess: string, target: string, s: seq<Status>)
    ensures Lawful(guess, target, s) <==> s == MarksOf(guess, target)
  {
    MarksAreLawful(guess, target);
    if Lawful(guess, target, s) {
      forall i | 0 <= i < |s| ensures s[i] == Mark(guess, target, i) {
        if s[i] == Present {
          PresentIsForced(guess, target, s, i);
        } else if s[i] == Absent {
          AbsentIsForced(guess, target, s, i);
        }
      }
    }
  }

  /** All marks are `Correct` exactly when the guess is a prefix of the target. */
  lemma AllCorrectIffPrefix(guess: string, target: string)
    ensures (forall i | 0 <= i < |guess| :: MarksOf(guess, target)[i] == Correct) <==> guess <= target
  {
    if |guess| > |target| {
      assert MarksOf(guess, target)[|target|] != Correct;
    } else if forall i | 0 <= i < |guess| :: MarksOf(guess, target)[i] == Correct {
      forall i | 0 <= i < |guess| ensures i < |target| && guess[i] == target[i] {
        assert MarksOf(guess, target)[i] == Correct;
      }
    }
  }

  /** For words of one length that means: exactly when the guess is the target. */
  lemma AllCorrectIffEqual(guess: string, target: string)
    requires |guess| == |target|
    ensures (forall i | 0 <= i < |guess| :: MarksOf(guess, target)[i] == Correct) <==> guess == target
  {
    AllCorrectIffPrefix(guess, target);
  }
}
