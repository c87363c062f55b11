/**
  Daily streaks, computed three ways in the repository: a scan over the sorted win days, a walk
  backwards from today, and a running update for each finished game.  Days are day numbers, so
  yesterday is `today - 1`.
 */
module Streaks {
  import opened Numbers
  import opened Options

  // ---------------------------------------------------------------- what a streak is

  /** `n` days in a row, the last of them `last`. */
  ghost predicate Consecutive(days: set<int>, last: int, n: nat) {
    forall d | last - n < d <= last :: d in days
  }

  /** The run of days that ends at `last` has length `n`. */
  ghost predicate RunAt(days: set<int>, last: int, n: nat) {
    Consecutive(days, last, n) && last - n !in days
  }

  /** The longest run of consecutive days has length `n`. */
  ghost predicate Longest(days: set<int>, n: nat) {
    && (exists last :: Consecutive(days, last, n))
    && forall last, m: nat :: Consecutive(days, last, m) ==> m <= n
  }

  lemma RunIsUnique(days: set<int>, last: int, n: nat, m: nat)
    requires RunAt(days, last, n) && RunAt(days, last, m)
    ensures n == m
  {
    assert n < m ==> last - n in days;
    assert m < n ==> last - m in days;
  }

  lemma LongestIsUnique(days: set<int>, n: nat, m: nat)
    requires Longest(days, n) && Longest(days, m)
    ensures n == m
  {
    var a :| Consecutive(days, a, n);
    var b :| Consecutive(days, b, m);
  }

  lemma NoDays(days: set<int>)
    requires days == {}
    ensures Longest(days, 0)
  {
    assert Consecutive(days, 0, 0);
    forall last, m: nat | Consecutive(days, last, m) ensures m <= 0 {
      assert m > 0 ==> last in days;
    }
  }

  /** The run that a new latest day ends. */
  function Extend(run: nat, previous: int, day: int): nat {
    if day == previous + 1 then run + 1 else 1
  }

  lemma FirstDay(days: set<int>, day: int)
    requires days == {day}
    ensures RunAt(days, day, 1) && Longest(days, 1)
  {
    assert Consecutive(days, day, 1);
    forall last, m: nat | Consecutive(days, last, m) ensures m <= 1 {
      assert m > 0 ==> last in days;
      assert m > 1 ==> last - 1 in days;
    }
  }

  lemma NewDayEndsRun(days: set<int>, previous: int, run: nat, day: int)
    requires previous < day && previous in days && forall d | d in days :: d <= previous
    requires RunAt(days, previous, run)
    ensures RunAt(days + {day}, day, Extend(run, previous, day))
  {
    if day == previous + 1 {
      assert day - (run + 1) == previous - run;
    } else {
      assert day - 1 !in days;
    }
  }

  /** A new latest day extends the run that ends the day before, and only that run. */
  lemma NewDay(days: set<int>, previous: int, run: nat, longest: nat, day: int)
    requires previous < day && previous in days && forall d | d in days :: d <= previous
    requires RunAt(days, previous, run) && Longest(days, longest)
    ensures RunAt(days + {day}, day, Extend(run, previous, day))
    ensures Longest(days + {day}, Max(longest, Extend(run, previous, day)))
  {
    NewDayEndsRun(days, previous, run, day);
    var more, ending := days + {day}, Extend(run, previous, day);
    var n := Max(longest, ending);
    if n == ending {
      assert Consecutive(more, day, n);
    } else {
      var last :| Consecutive(days, last, longest);
      assert Consecutive(more, last, n);
    }
    forall last, m: nat | Consecutive(more, last, m) ensures m <= n {
      assert m > 0 ==> last in more;
      if last == day {
        assert m > ending ==> day - ending in more;
      } else {
        assert Consecutive(days, last, m);
      }
    }
  }

  // ---------------------------------------------------------------- the sorted scan

  datatype GameRecord = GameRecord(day: int, won: bool, guesses: int)

  function WinDays(records: seq<GameRecord>): set<int> {
    set r | r in records && r.won :: r.day
  }

  function DaysOf(days: seq<int>): set<int> {
    set d | d in days
  }

  ghost predicate Ascending(days: seq<int>) {
    forall i, j | 0 <= i < j < |days| :: days[i] < days[j]
  }

  ghost predicate IsLeast(days: set<int>, day: int) {
    day in days && forall d | d in days :: day <= d
  }

  lemma {:induction false} HasLeast(days: set<int>)
    requires days != {}
    ensures exists first :: IsLeast(days, first)
    decreases |days|
  {
    assert exists d :: d in days by {
      assert (forall d :: d !in days) ==> days == {};
    }
    var any :| any in days;
    var rest := days - {any};
    assert forall d | d in days :: d == any || d in rest;
    if rest == {} {
      assert IsLeast(days, any);
    } else {
      HasLeast(rest);
      var other :| IsLeast(rest, other);
      assert IsLeast(days, if any < other then any else other);
    }
  }

  lemma AscendingAppend(sorted: seq<int>, day: int)
    requires Ascending(sorted) && forall s | s in sorted :: s < day
    ensures Ascending(sorted + [day])
  {
    assert forall i | 0 <= i < |sorted| :: sorted[i] in sorted;
  }

  /** The distinct days in ascending order. */
  method Sort(days: set<int>) returns (sorted: seq<int>)
    ensures Ascending(sorted) && DaysOf(sorted) == days
  {
    sorted := [];
    var rest := days;
    while rest != {}
      invariant Ascending(sorted)
      invariant forall d :: d in days <==> d in sorted || d in rest
      invariant forall s, d | s in sorted && d in rest :: s < d
      decreases |rest|
    {
      HasLeast(rest);
      ghost var first :| IsLeast(rest, first);
      var least :| least in rest && forall d | d in rest :: least <= d;
      AscendingAppend(sorted, least);
      sorted := sorted + [least];
      rest := rest - {least};
    }
    assert forall d :: d in DaysOf(sorted) <==> d in days;
  }

  /** What `current` promises: the run at the latest win, while that win is no older than yesterday. */
  ghost predicate IsCurrent(days: set<int>, today: int, current: nat) {
    if days == {} then current == 0 else
      forall latest | latest in days && (forall d | d in days :: d <= latest) ::
        if today - latest <= 1 then RunAt(days, latest, current) else current == 0
  }

  /** The scan's variables after the first `i` days. */
  ghost predicate Scanned(winDays: seq<int>, i: nat, run: nat, max: nat)
    requires i <= |winDays|
  {
    && Longest(DaysOf(winDays[..i]), max)
    && (i > 0 ==> RunAt(DaysOf(winDays[..i]), winDays[i - 1], run))
  }

  lemma ScanStep(winDays: seq<int>, i: nat, run: nat, max: nat)
    requires Ascending(winDays) && i < |winDays| && Scanned(winDays, i, run, max)
    ensures var ending := if i > 0 then Extend(run, winDays[i - 1], winDays[i]) else 1;
            Scanned(winDays, i + 1, ending, Max(max, ending))
  {
    PrefixGrows(winDays, i);
    if i == 0 {
      FirstDay(DaysOf(winDays[..1]), winDays[0]);
      NoDays(DaysOf(winDays[..0]));
      LongestIsUnique(DaysOf(winDays[..0]), 0, max);
    } else {
      NewDay(DaysOf(winDays[..i]), winDays[i - 1], run, max, winDays[i]);
    }
  }

  method ScanRuns(winDays: seq<int>) returns (run: nat, max: nat)
    requires Ascending(winDays)
    ensures Scanned(winDays, |winDays|, run, max)
  {
    max := 0;
    run := 0;
    var previous := 0;
    NoDays(DaysOf(winDays[..0]));
    for i := 0 to |winDays|
      invariant Scanned(winDays, i, run, max)
      invariant i > 0 ==> previous == winDays[i - 1]
    {
      var d := winDays[i];
      ScanStep(winDays, i, run, max);
      run := if i > 0 && d == previous + 1 then run + 1 else 1;
      max := Max(max, run);
      previous := d;
    }
  }

  method CalculateStreaks(records: seq<GameRecord>, today: int) returns (current: nat, max: nat)
    ensures Longest(WinDays(records), max)
    ensures IsCurrent(WinDays(records), today, current)
  {
    var winDays := Sort(WinDays(records));
    var run;
    run, max := ScanRuns(winDays);
    assert winDays[..|winDays|] == winDays;
    if |winDays| == 0 {
      current := 0;
    } else {
      var latest := winDays[|winDays| - 1];
      LastIsLatest(winDays);
      current := if today - latest <= 1 then run else 0;
    }
  }

  lemma PrefixGrows(days: seq<int>, i: nat)
    requires Ascending(days) && i < |days|
    ensures DaysOf(days[..i + 1]) == DaysOf(days[..i]) + {days[i]}
    ensures i == 0 ==> DaysOf(days[..i]) == {}
    ensures i > 0 ==> days[i - 1] in DaysOf(days[..i]) && days[i - 1] < days[i]
    ensures i > 0 ==> forall d | d in DaysOf(days[..i]) :: d <= days[i - 1]
  {
    assert days[..i + 1] == days[..i] + [days[i]];
    assert i > 0 ==> days[..i][i - 1] in days[..i];
  }

  lemma LastIsLatest(days: seq<int>)
    requires Ascending(days) && days != []
    ensures days[|days| - 1] in DaysOf(days) && forall d | d in DaysOf(days) :: d <= days[|days| - 1]
  {
  }

  // ---------------------------------------------------------------- the backward walk

  /** The day the walk starts from. */
  function StartOfWalk(days: set<int>, today: int): int {
    if today in days then today else today - 1
  }

  method ComputeStreak(playedDays: seq<int>, today: int) returns (streak: nat)
    ensures RunAt(DaysOf(playedDays), StartOfWalk(DaysOf(playedDays), today), streak)
  {
    var days := DaysOf(playedDays);
    var cursor := if today in days then today else today - 1;
    ghost var start := cursor;
    streak := 0;
    while cursor in days
      invariant cursor == start - streak
      invariant Consecutive(days, start, streak)
      decreases set d | d in days && d <= cursor
    {
      ghost var ahead, day := (set d | d in days && d <= cursor), cursor;
      streak := streak + 1;
      cursor := cursor - 1;
      assert (set d | d in days && d <= cursor) == ahead - {day};
    }
  }

  /** With no win after today, the sorted scan and the backward walk mean the same number. */
  lemma BatchStreaksAgree(days: set<int>, today: int, n: nat)
    requires forall d | d in days :: d <= today
    ensures IsCurrent(days, today, n) <==> RunAt(days, StartOfWalk(days, today), n)
  {
    if days == {} {
      NothingBefore(days, today - 1, n);
    } else {
      HasGreatest(days);
      var latest :| IsGreatest(days, latest);
      if today - latest <= 1 {
        assert StartOfWalk(days, today) == latest;
      } else {
        NothingBefore(days, today - 1, n);
        assert StartOfWalk(days, today) == today - 1;
      }
    }
  }

  lemma NothingBefore(days: set<int>, last: int, n: nat)
    requires last !in days
    ensures RunAt(days, last, n) <==> n == 0
  {
    assert n > 0 && Consecutive(days, last, n) ==> last in days;
  }

  ghost predicate IsGreatest(days: set<int>, day: int) {
    day in days && forall d | d in days :: d <= day
  }

  lemma {:induction false} HasGreatest(days: set<int>)
    requires days != {}
    ensures exists latest :: IsGreatest(days, latest)
    decreases |days|
  {
    assert exists d :: d in days by {
      assert (forall d :: d !in days) ==> days == {};
    }
    var any :| any in days;
    var rest := days - {any};
    assert forall d | d in days :: d == any || d in rest;
    if rest == {} {
      assert IsGreatest(days, any);
    } else {
      HasGreatest(rest);
      var other :| IsGreatest(rest, other);
      assert IsGreatest(days, if other < any then any else other);
    }
  }

  /** The sorted scan and the backward walk allow the same numbers. */
  ghost predicate Agree(days: set<int>, today: int) {
    forall n: nat :: IsCurrent(days, today, n) <==> RunAt(days, StartOfWalk(days, today), n)
  }

  /**
    Given only the wins dated after today, agreement can be promised, whatever was won up to today,
    if and only if there are none.
   */
  lemma AgreeExactlyWithoutFutureWins(future: set<int>, today: int)
    requires forall d | d in future :: d > today
    ensures (forall past: set<int> | (forall d | d in past :: d <= today) :: Agree(past + future, today))
            <==> future == {}
  {
    forall past: set<int> | future == {} && forall d | d in past :: d <= today
      ensures Agree(past + future, today)
    {
      assert past + future == past;
      forall n: nat {
        BatchStreaksAgree(past, today, n);
      }
    }
    if future != {} {
      var past: set<int> := {};
      assert past + future == future;
      NothingBefore(future, today - 1, 0);
      HasGreatest(future);
      var latest :| IsGreatest(future, latest);
      assert !IsCurrent(future, today, 0) by {
        assert !RunAt(future, latest, 0);
      }
      assert RunAt(future, StartOfWalk(future, today), 0);
      assert !Agree(past + future, today);
    }
  }

  /** Not every future win tells the two apart: a gap after today can hide it. */
  lemma FutureWinMayCoincide(today: int)
    ensures var days := {today, today + 2};
            IsCurrent(days, today, 1) && RunAt(days, StartOfWalk(days, today), 1)
  {
    assert RunAt({today, today + 2}, today + 2, 1) && RunAt({today, today + 2}, today, 1);
  }

  /** Wins today and tomorrow and none later always make the two differ, by one. */
  lemma FutureWinDisagrees(days: set<int>, today: int, n: nat)
    requires today in days && today + 1 in days && forall d | d in days :: d <= today + 1
    ensures IsCurrent(days, today, n + 1) <==> RunAt(days, StartOfWalk(days, today), n)
    ensures !(IsCurrent(days, today, n) && RunAt(days, StartOfWalk(days, today), n))
  {
    LatestDecides(days, today + 1, today, n + 1);
    LatestDecides(days, today + 1, today, n);
    RunGrowsByOne(days, today, n);
    assert RunAt(days, today + 1, n + 1) ==> today + 1 - n in days;
  }

  /** While the latest win is recent, the current streak is the run it ends. */
  lemma LatestDecides(days: set<int>, latest: int, today: int, n: nat)
    requires latest in days && (forall d | d in days :: d <= latest) && today - latest <= 1
    ensures IsCurrent(days, today, n) <==> RunAt(days, latest, n)
  {
    assert forall other | other in days && (forall d | d in days :: d <= other) :: other == latest;
  }

  lemma RunGrowsByOne(days: set<int>, last: int, n: nat)
    requires last + 1 in days
    ensures RunAt(days, last, n) <==> RunAt(days, last + 1, n + 1)
  {
    assert last - n == last + 1 - (n + 1);
    assert Consecutive(days, last + 1, n + 1) ==> Consecutive(days, last, n);
  }

  // ---------------------------------------------------------------- what a loss does

  /** A lost game, wherever it stands among the records, changes neither streak. */
  lemma LossesChangeNothing(before: seq<GameRecord>, loss: GameRecord, after: seq<GameRecord>, today: int, n: nat)
    requires !loss.won
    ensures var with, without := WinDays(before + [loss] + after), WinDays(before + after);
            && (Longest(with, n) <==> Longest(without, n))
            && (IsCurrent(with, today, n) <==> IsCurrent(without, today, n))
  {
    var with, without := WinDays(before + [loss] + after), WinDays(before + after);
    forall d ensures d in with <==> d in without {
      if d in with {
        var r :| r in before + [loss] + after && r.won && r.day == d;
        assert r in before + after;
      }
      if d in without {
        var r :| r in before + after && r.won && r.day == d;
        assert r in before + [loss] + after;
      }
    }
    assert with == without;
  }

  /**
    A day that ends without a win ends the streak the day after; on the day itself the streak is gone
    if and only if the day before has no win either, lost games or not.
   */
  lemma DayWithoutWin(records: seq<GameRecord>, today: int)
    requires forall r | r in records && r.won :: r.day < today
    ensures IsCurrent(WinDays(records), today, 0) <==> today - 1 !in WinDays(records)
    ensures IsCurrent(WinDays(records), today + 1, 0)
  {
    BatchStreaksAgree(WinDays(records), today, 0);
    BatchStreaksAgree(WinDays(records), today + 1, 0);
  }

  /** Won yesterday, lost today: the current streak is still 1. */
  lemma LossTodayKeepsStreak(today: int, guesses: int)
    ensures IsCurrent(WinDays([GameRecord(today - 1, true, guesses), GameRecord(today, false, guesses)]), today, 1)
  {
    var records := [GameRecord(today - 1, true, guesses), GameRecord(today, false, guesses)];
    assert records[0] in records;
    assert WinDays(records) == {today - 1};
    assert RunAt({today - 1}, today - 1, 1);
  }

  // ---------------------------------------------------------------- the running update

  datatype Stats = Stats(
    points: int,
    wins: nat,
    totalGamesPlayed: nat,
    currentStreak: nat,
    longestStreak: nat,
    lastPlayedDay: int)

  datatype Game = Game(points: int, won: bool, day: int)

  function Update(before: Option<Stats>, g: Game): Stats {
    match before
    case None => Stats(g.points, if g.won then 1 else 0, 1, 1, 1, g.day)
    case Some(s) =>
      var current := if s.lastPlayedDay == g.day then s.currentStreak
                     else Extend(s.currentStreak, s.lastPlayedDay, g.day);
      Stats(s.points + g.points, s.wins + if g.won then 1 else 0, s.totalGamesPlayed + 1,
            current, Max(s.longestStreak, current), g.day)
  }

  class UserGameStats {
    var stats: Option<Stats>

    constructor ()
      ensures stats == None
    {
      stats := None;
    }

    method UpdateStats(earnedPoints: int, won: bool, today: int)
      modifies this
      ensures stats == Some(Update(old(stats), Game(earnedPoints, won, today)))
    {
      if stats == None {
        stats := Some(Stats(earnedPoints, if won then 1 else 0, 1, 1, 1, today));
        return;
      }
      var s := stats.value;
      s := s.(points := s.points + earnedPoints,
              wins := s.wins + if won then 1 else 0,
              totalGamesPlayed := s.totalGamesPlayed + 1);
      if s.lastPlayedDay == today {
      } else if s.lastPlayedDay == today - 1 {
        s := s.(currentStreak := s.currentStreak + 1);
      } else {
        s := s.(currentStreak := 1);
      }
      if s.currentStreak > s.longestStreak {
        s := s.(longestStreak := s.currentStreak);
      }
      stats := Some(s.(lastPlayedDay := today));
    }
  }

  function Fold(games: seq<Game>): Option<Stats> {
    if games == [] then None else Some(Update(Fold(games[..|games| - 1]), games[|games| - 1]))
  }

  function PlayedDays(games: seq<Game>): set<int> {
    set g | g in games :: g.day
  }

  ghost predicate Chronological(games: seq<Game>) {
    forall i, j | 0 <= i < j < |games| :: games[i].day <= games[j].day
  }

  lemma ChronologicalPrefix(games: seq<Game>, g: Game)
    requires Chronological(games + [g]) && games != []
    ensures Chronological(games) && games[|games| - 1].day <= g.day
  {
    var longer := games + [g];
    assert forall i | 0 <= i < |games| :: longer[i] == games[i];
    assert longer[|games|] == g && longer[|games| - 1].day <= longer[|games|].day;
  }

  /** The stored streaks are those of the days played so far. */
  ghost predicate Tracks(days: set<int>, s: Stats) {
    && s.lastPlayedDay in days && (forall d | d in days :: d <= s.lastPlayedDay)
    && RunAt(days, s.lastPlayedDay, s.currentStreak)
    && Longest(days, s.longestStreak)
  }

  lemma UpdateTracks(days: set<int>, s: Stats, g: Game)
    requires Tracks(days, s) && s.lastPlayedDay <= g.day
    ensures Tracks(days + {g.day}, Update(Some(s), g))
  {
    if s.lastPlayedDay == g.day {
      assert days + {g.day} == days;
      RunWithinLongest(days, s.lastPlayedDay, s.currentStreak, s.longestStreak);
    } else {
      NewDay(days, s.lastPlayedDay, s.currentStreak, s.longestStreak, g.day);
    }
  }

  lemma FirstGameTracks(days: set<int>, g: Game)
    requires days == {g.day}
    ensures Tracks(days, Update(None, g))
  {
    FirstDay(days, g.day);
  }

  lemma DaysGrow(games: seq<Game>, g: Game)
    ensures PlayedDays(games + [g]) == PlayedDays(games) + {g.day}
  {
  }

  /** The stored statistics after `games` are those of the played days. */
  ghost predicate Keeps(games: seq<Game>) {
    games != [] ==>
      var s := Fold(games).value;
      && s.lastPlayedDay == games[|games| - 1].day
      && Tracks(PlayedDays(games), s)
  }

  function PointsOf(games: seq<Game>): int {
    if games == [] then 0 else PointsOf(games[..|games| - 1]) + games[|games| - 1].points
  }

  function GamesWon(games: seq<Game>): nat {
    if games == [] then 0 else GamesWon(games[..|games| - 1]) + if games[|games| - 1].won then 1 else 0
  }

  /** In any order of days, the row counts the games, the won games and the points. */
  lemma {:induction false} FoldCounts(games: seq<Game>)
    requires games != []
    ensures var s := Fold(games).value;
            s.totalGamesPlayed == |games| && s.points == PointsOf(games) && s.wins == GamesWon(games)
  {
    var before := games[..|games| - 1];
    if before == [] {
    } else {
      FoldCounts(before);
    }
  }

  lemma OneMoreGame(before: seq<Game>, g: Game)
    requires Chronological(before + [g]) && Keeps(before)
    ensures Keeps(before + [g])
  {
    assert (before + [g])[..|before|] == before;
    DaysGrow(before, g);
    if before == [] {
      FirstGameTracks(PlayedDays(before + [g]), g);
    } else {
      ChronologicalPrefix(before, g);
      UpdateTracks(PlayedDays(before), Fold(before).value, g);
    }
  }

  /**
    After any games on nondecreasing days, the stored streaks are those of the set of played days:
    the run that ends at the last day, and the longest run.
   */
  lemma {:induction false} FoldKeepsStreaks(games: seq<Game>)
    requires Chronological(games)
    ensures Keeps(games)
  {
    if games == [] {
    } else {
      var before, g := games[..|games| - 1], games[|games| - 1];
      FoldKeepsStreaks(before);
      assert games == before + [g];
      OneMoreGame(before, g);
    }
  }

  lemma RunWithinLongest(days: set<int>, last: int, run: nat, longest: nat)
    requires RunAt(days, last, run) && Longest(days, longest)
    ensures run <= longest
  {
    assert Consecutive(days, last, run);
  }

  /** So on the days played all three agree: the stored streaks are what the scan and the walk compute. */
  lemma AllThreeAgree(games: seq<Game>)
    requires games != [] && Chronological(games)
    ensures var s, days := Fold(games).value, PlayedDays(games);
            && Longest(days, s.longestStreak)
            && IsCurrent(days, s.lastPlayedDay, s.currentStreak)
            && RunAt(days, StartOfWalk(days, s.lastPlayedDay), s.currentStreak)
  {
    FoldKeepsStreaks(games);
    var s, days := Fold(games).value, PlayedDays(games);
    LatestDecides(days, s.lastPlayedDay, s.lastPlayedDay, s.currentStreak);
  }

  // ---------------------------------------------------------------- the guess distribution

  const MAX_GUESSES: nat := 6

  /** A win in `n` guesses belongs to bucket `n - 1`; the first and the last bucket take what lies outside. */
  predicate FallsInto(guesses: int, bucket: nat) {
    || guesses == bucket + 1
    || (bucket == 0 && guesses < 1)
    || (bucket == 5 && guesses > 6)
  }

  /** `Math.min(Math.max(guesses, 1), MAX_GUESSES) - 1` */
  function Bucket(guesses: int): (bucket: nat)
    ensures bucket < MAX_GUESSES
    ensures forall k: nat | k < MAX_GUESSES :: FallsInto(guesses, k) <==> k == bucket
  {
    if guesses <= 1 then 0 else if guesses >= MAX_GUESSES then MAX_GUESSES - 1 else guesses - 1
  }

  function WinsIn(records: seq<GameRecord>, bucket: nat): nat {
    if records == [] then 0 else
      var r := records[|records| - 1];
      WinsIn(records[..|records| - 1], bucket) + if r.won && FallsInto(r.guesses, bucket) then 1 else 0
  }

  function Wins(records: seq<GameRecord>): nat {
    if records == [] then 0 else
      Wins(records[..|records| - 1]) + if records[|records| - 1].won then 1 else 0
  }

  /** Every win falls into exactly one bucket. */
  lemma {:induction false} DistributionCountsEveryWin(records: seq<GameRecord>)
    ensures WinsIn(records, 0) + WinsIn(records, 1) + WinsIn(records, 2)
            + WinsIn(records, 3) + WinsIn(records, 4) + WinsIn(records, 5) == Wins(records)
  {
    if records == [] {
    } else {
      DistributionCountsEveryWin(records[..|records| - 1]);
    }
  }

  method BuildGuessDistribution(records: seq<GameRecord>) returns (buckets: seq<nat>, max: nat)
    ensures |buckets| == MAX_GUESSES
    ensures forall k | 0 <= k < MAX_GUESSES :: buckets[k] == WinsIn(records, k) <= max
    ensures max == 0 || max in buckets
    ensures buckets[0] + buckets[1] + buckets[2] + buckets[3] + buckets[4] + buckets[5] == Wins(records)
  {
    DistributionCountsEveryWin(records);
    var counts := new nat[MAX_GUESSES](_ => 0);
    for i := 0 to |records|
      invariant forall k | 0 <= k < MAX_GUESSES :: counts[k] == WinsIn(records[..i], k)
    {
      assert records[..i + 1][..i] == records[..i];
      var r := records[i];
      if r.won {
        var index := Bucket(r.guesses);
        counts[index] := counts[index] + 1;
      }
    }
    assert records[..|records|] == records;
    buckets := counts[..];
    max := Largest(buckets);
  }

  /** `Math.max(0, ...numbers)` */
  method Largest(numbers: seq<nat>) returns (max: nat)
    ensures max == 0 || max in numbers
    ensures forall k | 0 <= k < |numbers| :: numbers[k] <= max
  {
    max := 0;
    for k := 0 to |numbers|
      invariant max == 0 || max in numbers
      invariant forall j | 0 <= j < k :: numbers[j] <= max
    {
      max := Max(max, numbers[k]);
    }
  }
}
