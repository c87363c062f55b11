/** The frontend evaluator (used flags) and the hard-mode validator fed by it. */
module WordValidation {
  import opened Numbers
  import opened Options
  import opened Counting
  import opened Marks

  // ---------------------------------------------------------------- calculateLetterStatuses

  /** Copies of `c` among the first `n` target letters whose flag is still down. */
  function Unused(target: string, used: seq<bool>, n: nat, c: char): nat
    requires n <= |target| == |used|
  {
    if n == 0 then 0 else
      Unused(target, used, n - 1, c) + if target[n - 1] == c && !used[n - 1] then 1 else 0
  }

  lemma {:induction false} UnusedAfterMatches(guess: string, target: string, used: seq<bool>, n: nat, c: char)
    requires n <= |target| == |used|
    requires forall j | 0 <= j < |target| :: used[j] == Match(guess, target, j)
    ensures Unused(target, used, n, c) == Unmatched(target, guess, target, n, c)
  {
    if n == 0 {
    } else {
      UnusedAfterMatches(guess, target, used, n - 1, c);
    }
  }

  lemma {:induction false} UnusedRaise(target: string, used: seq<bool>, j: nat, n: nat, c: char)
    requires n <= |target| == |used| && j < |target| && !used[j]
    ensures Unused(target, used[j := true], n, c)
            == Unused(target, used, n, c) - if j < n && target[j] == c then 1 else 0
  {
    if n == 0 {
    } else {
      UnusedRaise(target, used, j, n - 1, c);
    }
  }

  lemma {:induction false} UnusedZero(target: string, used: seq<bool>, n: nat, c: char)
    requires n <= |target| == |used|
    ensures Unused(target, used, n, c) == 0 <==> forall k | 0 <= k < n :: used[k] || target[k] != c
  {
    if n == 0 {
    } else {
      UnusedZero(target, used, n - 1, c);
    }
  }

  /** Copy `j` of `letter` is free, and every copy before it is taken. */
  ghost predicate FirstFree(target: string, used: seq<bool>, letter: char, j: int)
    requires |used| == |target|
  {
    0 <= j < |target| && target[j] == letter && !used[j] && forall k | 0 <= k < j :: used[k] || target[k] != letter
  }

  /** The inner loop: claims the first free copy of `letter`, if there is one. */
  method ClaimFirstFree(target: string, used: array<bool>, letter: char) returns (found: bool)
    requires used.Length == |target|
    modifies used
    ensures found <==> old(Unused(target, used[..], |target|, letter)) > 0
    ensures found ==> exists j :: old(FirstFree(target, used[..], letter, j)) && used[..] == old(used[..])[j := true]
    ensures !found ==> used[..] == old(used[..])
    ensures forall c: char :: Unused(target, used[..], |target|, c)
                              == old(Unused(target, used[..], |target|, c)) - if found && c == letter then 1 else 0
  {
    UnusedZero(target, used[..], |target|, letter);
    ghost var before := used[..];
    found := false;
    for j := 0 to |target|
      invariant used[..] == before
      invariant forall k | 0 <= k < j :: used[k] || target[k] != letter
    {
      if !used[j] && letter == target[j] {
        used[j] := true;
        assert FirstFree(target, before, letter, j) && used[..] == before[j := true];
        forall c: char ensures Unused(target, used[..], |target|, c)
          == Unused(target, before, |target|, c) - if c == letter then 1 else 0
        {
          UnusedRaise(target, before, j, |target|, c);
        }
        found := true;
        break;
      }
    }
  }

  /** The flags still down are the copies claimable at position `i`. */
  ghost predicate FlagsLeft(used: seq<bool>, guess: string, target: string, i: nat)
    requires i <= |guess| && |used| == |target|
  {
    forall c: char :: Unused(target, used, |target|, c) == Remaining(guess, target, i, c)
  }

  /** First pass: exact matches are marked and their flags raised. */
  method MarkCorrect(result: array<Status>, used: array<bool>, guess: string, target: string)
    requires result.Length == |guess| && forall k | 0 <= k < |guess| :: result[k] == Absent
    requires used.Length == |target| && forall j | 0 <= j < |target| :: !used[j]
    modifies result, used
    ensures FirstPassRow(guess, target, result[..], 0)
    ensures FlagsLeft(used[..], guess, target, 0)
  {
    for i := 0 to |guess|
      invariant forall k | 0 <= k < |guess| ::
                  result[k] == if k < i && Match(guess, target, k) then Correct else Absent
      invariant forall j | 0 <= j < |target| :: used[j] == (j < i && Match(guess, target, j))
    {
      if i < |target| && guess[i] == target[i] {
        result[i] := Correct;
        used[i] := true;
      }
    }
    forall c: char ensures Unused(target, used[..], |target|, c) == Available(guess, target, c) {
      UnusedAfterMatches(guess, target, used[..], |target|, c);
    }
  }

  /** The loop state of the second pass at position `i`. */
  ghost predicate MarkedTo(result: seq<Status>, used: seq<bool>, guess: string, target: string, i: nat)
    requires i <= |guess| && |used| == |target|
  {
    MarksTo(result, guess, target, i) && FlagsLeft(used, guess, target, i)
  }

  ghost predicate MarksTo(result: seq<Status>, guess: string, target: string, i: nat)
    requires i <= |guess|
  {
    FirstPassRow(guess, target, result, i) && forall k | 0 <= k < i :: result[k] == Mark(guess, target, k)
  }

  lemma MarksStep(result: seq<Status>, claimed: bool, guess: string, target: string, i: nat)
    requires i < |guess| && MarksTo(result, guess, target, i)
    requires claimed <==> Claims(guess, target, i)
    ensures MarksTo(if claimed then result[i := Present] else result, guess, target, i + 1)
  {
    MarkByClaim(guess, target, i);
  }

  /** Claiming at position `i` as far as copies are left gives its mark. */
  lemma MarkedStep(result: seq<Status>, used: seq<bool>, after: seq<bool>, found: bool,
                   guess: string, target: string, i: nat)
    requires i < |guess| && |used| == |after| == |target| && MarkedTo(result, used, guess, target, i)
    requires found <==> !Match(guess, target, i) && Unused(target, used, |target|, guess[i]) > 0
    requires forall c: char :: Unused(target, after, |target|, c)
                               == Unused(target, used, |target|, c) - if found && c == guess[i] then 1 else 0
    ensures MarkedTo(if found then result[i := Present] else result, after, guess, target, i + 1)
  {
    assert Unused(target, used, |target|, guess[i]) == Remaining(guess, target, i, guess[i]);
    MarksStep(result, found, guess, target, i);
    FlagsStep(used, after, found, guess, target, i);
  }

  lemma FlagsStep(used: seq<bool>, after: seq<bool>, claimed: bool, guess: string, target: string, i: nat)
    requires i < |guess| && |used| == |after| == |target| && FlagsLeft(used, guess, target, i)
    requires claimed <==> Claims(guess, target, i)
    requires forall c: char :: Unused(target, after, |target|, c)
                               == Unused(target, used, |target|, c) - if claimed && c == guess[i] then 1 else 0
    ensures FlagsLeft(after, guess, target, i + 1)
  {
    forall c: char ensures Unused(target, after, |target|, c) == Remaining(guess, target, i + 1, c) {
      RemainingStep(guess, target, i, c);
      assert Unused(target, used, |target|, c) == Remaining(guess, target, i, c);
    }
  }

  /** One turn of the second pass. */
  method MarkLetter(result: array<Status>, used: array<bool>, guess: string, target: string, i: nat)
    requires i < |guess| && used.Length == |target| && MarkedTo(result[..], used[..], guess, target, i)
    modifies result, used
    ensures MarkedTo(result[..], used[..], guess, target, i + 1)
  {
    ghost var marks, flags := result[..], used[..];
    assert marks[i] == result[i];
    var found := false;
    if result[i] != Correct {
      found := ClaimFirstFree(target, used, guess[i]);
      if found {
        result[i] := Present;
      }
    }
    assert result[..] == if found then marks[i := Present] else marks;
    MarkedStep(marks, flags, used[..], found, guess, target, i);
  }

  /** Second pass: each remaining letter raises the first free flag of its kind. */
  method MarkPresent(result: array<Status>, used: array<bool>, guess: string, target: string)
    requires FirstPassRow(guess, target, result[..], 0)
    requires used.Length == |target| && FlagsLeft(used[..], guess, target, 0)
    modifies result, used
    ensures result[..] == MarksOf(guess, target)
  {
    for i := 0 to |guess|
      invariant MarkedTo(result[..], used[..], guess, target, i)
    {
      MarkLetter(result, used, guess, target, i);
    }
    assert forall k | 0 <= k < |guess| :: result[..][k] == Mark(guess, target, k);
  }

  method CalculateLetterStatuses(guess: string, targetWord: string) returns (statuses: seq<Status>)
    ensures statuses == MarksOf(guess, targetWord)
  {
    var result := new Status[|guess|](_ => Absent);
    var used := new bool[|targetWord|](_ => false);
    MarkCorrect(result, used, guess, targetWord);
    MarkPresent(result, used, guess, targetWord);
    statuses := result[..];
  }

  // ---------------------------------------------------------------- validateHardModeGuess

  datatype EvaluatedGuess = EvaluatedGuess(guess: string, statuses: seq<Status>)

  datatype Verdict =
    | Valid
    | WrongLetter(position: nat, expected: Option<char>)
    | MissingLetter(letter: char, count: nat)

  /** Reading past the end of a word gives `None`. */
  function At(word: string, i: nat): Option<char> {
    if i < |word| then Some(word[i]) else None
  }

  /** Copies of `c` that one evaluated guess revealed. */
  function RevealedIn(e: EvaluatedGuess, c: char): nat {
    Revealed(e.guess, e.statuses, Min(|e.guess|, |e.statuses|), c)
  }

  predicate FixedAt(guess: string, e: EvaluatedGuess, i: nat)
    requires i < |e.statuses|
  {
    e.statuses[i] == Correct ==> At(guess, i) == At(e.guess, i)
  }

  ghost predicate KeepsFixed(guess: string, e: EvaluatedGuess) {
    forall i | 0 <= i < |e.statuses| :: FixedAt(guess, e, i)
  }

  ghost predicate KeepsRevealed(guess: string, e: EvaluatedGuess) {
    forall c: char :: RevealedIn(e, c) <= Count(guess, c)
  }

  ghost predicate HardModeAccepts(guess: string, previous: seq<EvaluatedGuess>) {
    forall e | e in previous :: KeepsFixed(guess, e) && KeepsRevealed(guess, e)
  }

  /** A map with the insertion order of its keys. */
  predicate Ordered(m: map<char, nat>, order: seq<char>) {
    && (forall c | c in order :: c in m)
    && (forall c | c in m :: c in order)
  }

  /** `order` followed by the letters that are new in `letters`, each once. */
  function Absorb(order: seq<char>, letters: seq<char>): seq<char> {
    if letters == [] then order else
      var before, last := Absorb(order, letters[..|letters| - 1]), letters[|letters| - 1];
      if last in before then before else before + [last]
  }

  lemma AbsorbOne(order: seq<char>, letters: seq<char>, letter: char)
    ensures var before := Absorb(order, letters);
            Absorb(order, letters + [letter]) == if letter in before then before else before + [letter]
  {
    assert (letters + [letter])[..|letters|] == letters;
  }

  lemma {:induction false} AbsorbHas(order: seq<char>, letters: seq<char>)
    ensures forall c :: c in Absorb(order, letters) <==> c in order || c in letters
  {
    if letters == [] {
    } else {
      AbsorbHas(order, letters[..|letters| - 1]);
      assert letters == letters[..|letters| - 1] + [letters[|letters| - 1]];
    }
  }

  /** Absorbing letters in order of their first occurrence is absorbing the letters. */
  lemma {:induction false} AbsorbFirsts(order: seq<char>, letters: seq<char>)
    ensures Absorb(order, Absorb([], letters)) == Absorb(order, letters)
  {
    if letters == [] {
    } else {
      var before, last := letters[..|letters| - 1], letters[|letters| - 1];
      AbsorbFirsts(order, before);
      AbsorbHas(order, before);
      AbsorbHas([], before);
      var firsts := Absorb([], before);
      if last !in firsts {
        assert (firsts + [last])[..|firsts|] == firsts;
      }
    }
  }

  lemma {:induction false} AbsorbConcat(order: seq<char>, first: seq<char>, second: seq<char>)
    ensures Absorb(order, first + second) == Absorb(Absorb(order, first), second)
    decreases |second|
  {
    if second == [] {
      assert first + second == first;
    } else {
      assert (first + second)[..|first + second| - 1] == first + second[..|second| - 1];
      AbsorbConcat(order, first, second[..|second| - 1]);
    }
  }

  /** Each letter of the order has a first occurrence, after those of the letters before it in the order. */
  lemma {:induction false} FirstOccurrence(letters: seq<char>, k: nat)
    requires k < |Absorb([], letters)|
    ensures exists p: nat :: OccursFirst(letters, k, p)
  {
    var before := letters[..|letters| - 1];
    var order := Absorb([], before);
    if k < |order| {
      FirstOccurrence(before, k);
      var p: nat :| OccursFirst(before, k, p);
      assert Absorb([], letters)[..k] == order[..k];
      assert OccursFirst(letters, k, p);
    } else {
      AbsorbHas([], before);
      assert Absorb([], letters)[..k] == order;
      assert OccursFirst(letters, k, |letters| - 1);
    }
  }

  /** Letter `k` of the order occurs at `p`, after none but letters before it in the order. */
  ghost predicate OccursFirst(letters: seq<char>, k: nat, p: nat) {
    && k < |Absorb([], letters)| && p < |letters| && letters[p] == Absorb([], letters)[k]
    && forall q | 0 <= q < p :: letters[q] in Absorb([], letters)[..k]
  }

  predicate Reveals(e: EvaluatedGuess, i: nat) {
    i < |e.statuses| && (e.statuses[i] == Correct || e.statuses[i] == Present)
  }

  /** The letters one earlier guess revealed among its first `n`, left to right. */
  function Shown(e: EvaluatedGuess, n: nat): seq<char>
    requires n <= |e.guess|
  {
    if n == 0 then []
    else if Reveals(e, n - 1) then Shown(e, n - 1) + [e.guess[n - 1]]
    else Shown(e, n - 1)
  }

  /** All revealed letters in the order they were revealed. */
  function AllShown(previous: seq<EvaluatedGuess>): seq<char> {
    if previous == [] then [] else
      AllShown(previous[..|previous| - 1]) + Shown(previous[|previous| - 1], |previous[|previous| - 1].guess|)
  }

  function Get(m: map<char, nat>, c: char): nat {
    if c in m then m[c] else 0
  }

  /** Setting a key keeps its place in the order, or gives it the last one. */
  method Set(m: map<char, nat>, order: seq<char>, letter: char, n: nat)
    returns (after: map<char, nat>, afterOrder: seq<char>)
    requires Ordered(m, order)
    ensures after == m[letter := n] && afterOrder == (if letter in m then order else order + [letter])
    ensures Ordered(after, afterOrder)
  {
    afterOrder := if letter in m then order else order + [letter];
    after := m[letter := n];
  }

  /** The map counts what the first `i` letters of one earlier guess revealed. */
  ghost predicate Counted(e: EvaluatedGuess, i: nat, counts: map<char, nat>)
    requires i <= |e.guess|
  {
    forall c: char :: Get(counts, c) == Revealed(e.guess, e.statuses, Min(i, |e.statuses|), c)
  }

  lemma CountedStep(e: EvaluatedGuess, i: nat, counts: map<char, nat>)
    requires i < |e.guess| && Counted(e, i, counts)
    ensures Counted(e, i + 1, if Reveals(e, i) then counts[e.guess[i] := Get(counts, e.guess[i]) + 1] else counts)
  {
    var next := if Reveals(e, i) then counts[e.guess[i] := Get(counts, e.guess[i]) + 1] else counts;
    forall c: char ensures Get(next, c) == Revealed(e.guess, e.statuses, Min(i + 1, |e.statuses|), c) {
      assert Get(counts, c) == Revealed(e.guess, e.statuses, Min(i, |e.statuses|), c);
    }
  }

  /** A letter revealed at `i` comes last in the order, if it is new. */
  lemma OrderStep(e: EvaluatedGuess, i: nat, order: seq<char>)
    requires i < |e.guess| && order == Absorb([], Shown(e, i))
    ensures Absorb([], Shown(e, i + 1)) == if Reveals(e, i) && e.guess[i] !in order then order + [e.guess[i]] else order
  {
    AbsorbOne([], Shown(e, i), e.guess[i]);
  }

  /** What the map of the source holds after `i` letters: the counts, and their keys in order. */
  ghost predicate Tallied(e: EvaluatedGuess, i: nat, counts: map<char, nat>, order: seq<char>)
    requires i <= |e.guess|
  {
    Ordered(counts, order) && order == Absorb([], Shown(e, i)) && Counted(e, i, counts)
  }

  /** One letter of `forEach`. */
  method TallyLetter(e: EvaluatedGuess, i: nat, counts: map<char, nat>, order: seq<char>)
    returns (after: map<char, nat>, afterOrder: seq<char>)
    requires i < |e.guess| && Tallied(e, i, counts, order)
    ensures Tallied(e, i + 1, after, afterOrder)
  {
    CountedStep(e, i, counts);
    OrderStep(e, i, order);
    after, afterOrder := counts, order;
    if Reveals(e, i) {
      after, afterOrder := Set(counts, order, e.guess[i], Get(counts, e.guess[i]) + 1);
    }
  }

  /** The `counts` map of one earlier guess. */
  method CountRevealed(e: EvaluatedGuess) returns (counts: map<char, nat>, order: seq<char>)
    ensures Tallied(e, |e.guess|, counts, order)
  {
    counts, order := map[], [];
    for i := 0 to |e.guess|
      invariant Tallied(e, i, counts, order)
    {
      counts, order := TallyLetter(e, i, counts, order);
    }
  }

  /** The requirements after the first `k` letters of `countOrder` were taken in. */
  ghost predicate RaisedTo(raised: map<char, nat>, raisedOrder: seq<char>, required: map<char, nat>, order: seq<char>,
                           counts: map<char, nat>, countOrder: seq<char>, k: nat)
    requires k <= |countOrder|
  {
    && Ordered(raised, raisedOrder)
    && raisedOrder == Absorb(order, countOrder[..k])
    && forall c: char :: Get(raised, c) == Max(Get(required, c), if c in countOrder[..k] then Get(counts, c) else 0)
  }

  /** One letter of the loop over `counts`. */
  method RaiseLetter(raised: map<char, nat>, raisedOrder: seq<char>, counts: map<char, nat>, countOrder: seq<char>,
                     k: nat, ghost required: map<char, nat>, ghost order: seq<char>)
    returns (after: map<char, nat>, afterOrder: seq<char>)
    requires k < |countOrder| && Ordered(counts, countOrder)
    requires RaisedTo(raised, raisedOrder, required, order, counts, countOrder, k)
    ensures RaisedTo(after, afterOrder, required, order, counts, countOrder, k + 1)
  {
    var letter := countOrder[k];
    assert countOrder[..k + 1] == countOrder[..k] + [letter];
    AbsorbOne(order, countOrder[..k], letter);
    after, afterOrder := Set(raised, raisedOrder, letter, Max(Get(raised, letter), counts[letter]));
  }

  /** Raises every requirement to what one earlier guess revealed. */
  method RaiseRequired(required: map<char, nat>, order: seq<char>, counts: map<char, nat>, countOrder: seq<char>)
    returns (raised: map<char, nat>, raisedOrder: seq<char>)
    requires Ordered(required, order) && Ordered(counts, countOrder)
    ensures Ordered(raised, raisedOrder) && raisedOrder == Absorb(order, countOrder)
    ensures forall c: char :: Get(raised, c) == Max(Get(required, c), Get(counts, c))
  {
    raised, raisedOrder := required, order;
    for k := 0 to |countOrder|
      invariant RaisedTo(raised, raisedOrder, required, order, counts, countOrder, k)
    {
      raised, raisedOrder := RaiseLetter(raised, raisedOrder, counts, countOrder, k, required, order);
    }
    assert countOrder[..|countOrder|] == countOrder;
  }

  /** The strictest requirement on `c` among the earlier guesses. */
  function Required(previous: seq<EvaluatedGuess>, c: char): nat {
    if previous == [] then 0
    else Max(Required(previous[..|previous| - 1], c), RevealedIn(previous[|previous| - 1], c))
  }

  lemma {:induction false} RequiredMet(previous: seq<EvaluatedGuess>, c: char, bound: nat)
    ensures Required(previous, c) <= bound <==> forall e | e in previous :: RevealedIn(e, c) <= bound
  {
    if previous == [] {
    } else {
      var last := |previous| - 1;
      RequiredMet(previous[..last], c, bound);
      assert previous == previous[..last] + [previous[last]];
    }
  }

  method BuildRequired(previous: seq<EvaluatedGuess>) returns (required: map<char, nat>, order: seq<char>)
    ensures Ordered(required, order) && order == Absorb([], AllShown(previous))
    ensures forall c: char :: Get(required, c) == Required(previous, c)
  {
    required, order := map[], [];
    for k := 0 to |previous|
      invariant Ordered(required, order) && order == Absorb([], AllShown(previous[..k]))
      invariant forall c: char :: Get(required, c) == Required(previous[..k], c)
    {
      var counts, countOrder := CountRevealed(previous[k]);
      required, order := RaiseRequired(required, order, counts, countOrder);
      assert previous[..k + 1][..k] == previous[..k];
      assert forall c: char :: Get(counts, c) == RevealedIn(previous[k], c);
      ghost var shown, more := AllShown(previous[..k]), Shown(previous[k], |previous[k].guess|);
      AbsorbFirsts(Absorb([], shown), more);
      AbsorbConcat([], shown, more);
    }
    assert previous[..|previous|] == previous;
  }

  /** `letters.filter(l => l === letter).length` */
  method CountLetter(letters: string, letter: char) returns (used: nat)
    ensures used == Count(letters, letter)
  {
    used := 0;
    for i := 0 to |letters|
      invariant used == Count(letters[..i], letter)
    {
      assert letters[..i + 1][..i] == letters[..i];
      if letters[i] == letter {
        used := used + 1;
      }
    }
    assert letters[..|letters|] == letters;
  }

  method CheckFixed(guess: string, previous: seq<EvaluatedGuess>) returns (v: Verdict)
    ensures v == Valid || v.WrongLetter?
    ensures v == Valid <==> forall e | e in previous :: KeepsFixed(guess, e)
    ensures v.WrongLetter? ==> exists k :: 0 <= k < |previous| && FirstWrongLetter(guess, previous, k, v)
  {
    for k := 0 to |previous|
      invariant forall e | e in previous[..k] :: KeepsFixed(guess, e)
    {
      var e := previous[k];
      for i := 0 to |e.statuses|
        invariant forall j | 0 <= j < i :: FixedAt(guess, e, j)
      {
        if e.statuses[i] == Correct && At(guess, i) != At(e.guess, i) {
          v := WrongLetter(i, At(e.guess, i));
          assert FirstWrongLetter(guess, previous, k, v);
          assert !FixedAt(guess, e, i) && e in previous;
          return;
        }
      }
    }
    v := Valid;
  }

  /** The complaint names the first displaced letter of the first guess that has one. */
  ghost predicate FirstWrongLetter(guess: string, previous: seq<EvaluatedGuess>, k: nat, v: Verdict)
    requires v.WrongLetter? && k < |previous|
  {
    var e := previous[k];
    && (forall earlier | earlier in previous[..k] :: KeepsFixed(guess, earlier))
    && v.position < |e.statuses|
    && (forall j | 0 <= j < v.position :: FixedAt(guess, e, j))
    && !FixedAt(guess, e, v.position)
    && v.expected == At(e.guess, v.position)
  }

  /** The complaint names the letter that was revealed first among those the guess has too few of. */
  ghost predicate FirstMissingLetter(guess: string, previous: seq<EvaluatedGuess>, p: int, v: Verdict)
    requires v.MissingLetter?
  {
    && 0 <= p < |AllShown(previous)| && AllShown(previous)[p] == v.letter
    && v.count == Required(previous, v.letter) > Count(guess, v.letter)
    && forall q | 0 <= q < p :: Required(previous, AllShown(previous)[q]) <= Count(guess, AllShown(previous)[q])
  }

  method ValidateHardModeGuess(guess: string, previous: seq<EvaluatedGuess>) returns (v: Verdict)
    ensures v == Valid <==> HardModeAccepts(guess, previous)
    ensures v.WrongLetter? <==> exists e :: e in previous && !KeepsFixed(guess, e)
    ensures v.WrongLetter? ==> exists k :: 0 <= k < |previous| && FirstWrongLetter(guess, previous, k, v)
    ensures v.MissingLetter? ==> exists p :: FirstMissingLetter(guess, previous, p, v)
  {
    v := CheckFixed(guess, previous);
    if v != Valid {
      return;
    }
    v := CheckRequired(guess, previous);
  }

  ghost predicate KeepsRequired(guess: string, previous: seq<EvaluatedGuess>) {
    forall c: char :: Required(previous, c) <= Count(guess, c)
  }

  lemma RequiredIsRevealed(guess: string, previous: seq<EvaluatedGuess>)
    ensures KeepsRequired(guess, previous) <==> forall e | e in previous :: KeepsRevealed(guess, e)
  {
    if KeepsRequired(guess, previous) {
      forall e | e in previous ensures KeepsRevealed(guess, e) {
        forall c: char ensures RevealedIn(e, c) <= Count(guess, c) {
          RequiredMet(previous, c, Count(guess, c));
        }
      }
    }
    if forall e | e in previous :: KeepsRevealed(guess, e) {
      forall c: char ensures Required(previous, c) <= Count(guess, c) {
        RequiredMet(previous, c, Count(guess, c));
        assert forall e | e in previous :: KeepsRevealed(guess, e) && RevealedIn(e, c) <= Count(guess, c);
      }
    }
  }

  lemma NamesFirstMissing(guess: string, previous: seq<EvaluatedGuess>, order: seq<char>, k: nat, v: Verdict)
    requires order == Absorb([], AllShown(previous)) && k < |order|
    requires forall c | c in order[..k] :: Required(previous, c) <= Count(guess, c)
    requires v.MissingLetter? && v.letter == order[k]
    requires v.count == Required(previous, v.letter) > Count(guess, v.letter)
    ensures exists p :: FirstMissingLetter(guess, previous, p, v)
  {
    FirstOccurrence(AllShown(previous), k);
    var p: nat :| OccursFirst(AllShown(previous), k, p);
    assert FirstMissingLetter(guess, previous, p, v);
  }

  method CheckRequired(guess: string, previous: seq<EvaluatedGuess>) returns (v: Verdict)
    ensures v == Valid || v.MissingLetter?
    ensures v == Valid <==> forall e | e in previous :: KeepsRevealed(guess, e)
    ensures v.MissingLetter? ==> exists p :: FirstMissingLetter(guess, previous, p, v)
  {
    var required, order := BuildRequired(previous);
    RequiredIsRevealed(guess, previous);
    for k := 0 to |order|
      invariant forall c | c in order[..k] :: Required(previous, c) <= Count(guess, c)
    {
      var letter := order[k];
      assert required[letter] == Get(required, letter) == Required(previous, letter);
      var used := CountLetter(guess, letter);
      if used < required[letter] {
        v := MissingLetter(letter, required[letter]);
        NamesFirstMissing(guess, previous, order, k, v);
        return;
      }
    }
    v := Valid;
    assert order[..|order|] == order;
    forall c: char ensures Required(previous, c) <= Count(guess, c) {
      assert Get(required, c) == Required(previous, c);
    }
  }

  // ---------------------------------------------------------------- what hard mode guarantees

  /** `w`, taken as the target, explains every recorded row. */
  ghost predicate Explains(w: string, previous: seq<EvaluatedGuess>) {
    forall e | e in previous :: e.statuses == MarksOf(e.guess, w)
  }

  /** Hard mode never rejects a word that could still be the target; so never the target itself. */
  lemma HardModeKeepsPossibleAnswers(w: string, previous: seq<EvaluatedGuess>)
    requires Explains(w, previous)
    ensures HardModeAccepts(w, previous)
  {
    forall e | e in previous ensures KeepsFixed(w, e) && KeepsRevealed(w, e) {
      forall c: char ensures RevealedIn(e, c) <= Count(w, c) {
        RevealedIsMinimum(e.guess, w, c);
      }
      forall i | 0 <= i < |e.statuses| ensures FixedAt(w, e, i) {
        assert e.statuses[i] == Mark(e.guess, w, i);
      }
    }
  }

  /** The clues hard mode ignores: letters ruled out at a position, and letters whose number is known. */
  ghost predicate RespectsAbsence(w: string, e: EvaluatedGuess)
    requires |e.statuses| == |e.guess|
  {
    forall i | 0 <= i < |e.guess| ::
      && (e.statuses[i] != Correct ==> !Match(e.guess, w, i))
      && (e.statuses[i] == Absent ==> Count(w, e.guess[i]) <= RevealedIn(e, e.guess[i]))
  }

  /**
    Exactly what separates an accepted guess from a possible answer: for rows recorded against some
    real target, a word explains all of them if and only if hard mode accepts it and it also
    respects the two clues above.
   */
  lemma PossibleAnswersAreAcceptedAndRespectAbsence(w: string, target: string, previous: seq<EvaluatedGuess>)
    requires Explains(target, previous)
    ensures Explains(w, previous)
            <==> HardModeAccepts(w, previous) && forall e | e in previous :: RespectsAbsence(w, e)
  {
    if Explains(w, previous) {
      HardModeKeepsPossibleAnswers(w, previous);
      forall e | e in previous ensures RespectsAbsence(w, e) {
        PossibleAnswerRespectsAbsence(w, e);
      }
    }
    if HardModeAccepts(w, previous) && forall e | e in previous :: RespectsAbsence(w, e) {
      forall e | e in previous ensures e.statuses == MarksOf(e.guess, w) {
        AcceptedAndRespectfulExplains(w, target, e);
      }
    }
  }

  lemma PossibleAnswerRespectsAbsence(w: string, e: EvaluatedGuess)
    requires e.statuses == MarksOf(e.guess, w)
    ensures RespectsAbsence(w, e)
  {
    forall i | 0 <= i < |e.guess| && e.statuses[i] == Absent
      ensures Count(w, e.guess[i]) <= RevealedIn(e, e.guess[i])
    {
      var c := e.guess[i];
      var _ := CountsShareMatches(e.guess, w, c);
      RevealedPrefix(e.guess, w, |e.guess|, c);
      UnmatchedGrows(e.guess, w, i, |e.guess|, c);
    }
  }

  lemma {:induction false} AllRevealed(e: EvaluatedGuess, n: nat, c: char)
    requires |e.statuses| == |e.guess| && n <= |e.guess|
    requires forall i | 0 <= i < n && e.guess[i] == c :: e.statuses[i] != Absent
    ensures Revealed(e.guess, e.statuses, n, c) == Count(e.guess[..n], c)
  {
    if n == 0 {
    } else {
      AllRevealed(e, n - 1, c);
      assert e.guess[..n][..n - 1] == e.guess[..n - 1];
    }
  }

  lemma AcceptedAndRespectfulExplains(w: string, target: string, e: EvaluatedGuess)
    requires e.statuses == MarksOf(e.guess, target)
    requires KeepsFixed(w, e) && KeepsRevealed(w, e) && RespectsAbsence(w, e)
    ensures e.statuses == MarksOf(e.guess, w)
  {
    MarksAreLawful(e.guess, target);
    forall i | 0 <= i < |e.guess| ensures e.statuses[i] == Correct <==> Match(e.guess, w, i) {
      assert FixedAt(w, e, i);
    }
    forall c: char ensures Revealed(e.guess, e.statuses, |e.guess|, c) == Min(Count(e.guess, c), Count(w, c)) {
      RevealedIsMinimum(e.guess, target, c);
      assert RevealedIn(e, c) <= Count(w, c);
      if !exists i :: 0 <= i < |e.guess| && e.guess[i] == c && e.statuses[i] == Absent {
        AllRevealed(e, |e.guess|, c);
        assert e.guess[..|e.guess|] == e.guess;
      }
    }
    LawsDetermineMarks(e.guess, w, e.statuses);
  }

  /** The two extra clues are needed: hard mode lets a player repeat a letter known to be absent. */
  lemma HardModeAcceptsImpossibleAnswers()
    ensures var previous := [EvaluatedGuess("A", MarksOf("A", "B"))];
            HardModeAccepts("A", previous) && !Explains("A", previous)
  {
    var e := EvaluatedGuess("A", MarksOf("A", "B"));
    assert Unmatched("B", "A", "B", 1, 'A') == 0;
    assert e.statuses[0] == Absent;
    assert MarksOf("A", "A")[0] == Correct;
    assert e in [e];
    assert forall c: char :: Revealed("A", e.statuses, 1, c) == 0;
  }
}
