/**
  Daily-challenge streaks. The incremental form is `applyDailySolve` of
  src/lib/daily-challenge.ts, the batch form the scans over day cells in
  services/analytics-python/app/queries.py. Instants are integer milliseconds since
  the epoch; a UTC day is a block of 86400000 of them.
 */
module Streaks {
  import opened Wrappers

  const DAY_MS := 86400000

  function DayOf(t: int): int { t / DAY_MS }

  function ToUtcDayStart(t: int): int { DayOf(t) * DAY_MS }

  function DaysBetweenUtc(a: int, b: int): int { (ToUtcDayStart(b) - ToUtcDayStart(a)) / DAY_MS }

  datatype StreakState = StreakState(currentStreak: nat, longestStreak: nat, lastSolvedDate: Option<int>)

  const NO_STREAK := StreakState(0, 0, None)

  function Max(a: nat, b: nat): nat { if a < b then b else a }

  /** The new state, and whether the solve advanced the streak. */
  function ApplyDailySolve(prev: StreakState, solvedAt: int): (StreakState, bool) {
    var today := ToUtcDayStart(solvedAt);
    if prev.lastSolvedDate.None? then
      (StreakState(1, Max(1, prev.longestStreak), Some(today)), true)
    else
      var last := ToUtcDayStart(prev.lastSolvedDate.value);
      var gap := DaysBetweenUtc(last, today);
      if gap <= 0 then (prev.(lastSolvedDate := Some(last)), false)
      else
        var next := if gap == 1 then prev.currentStreak + 1 else 1;
        (StreakState(next, Max(prev.longestStreak, next), Some(today)), true)
  }

  predicate IsStreakActive(s: StreakState, now: int) {
    s.lastSolvedDate.Some? && s.currentStreak > 0
    && var gap := DaysBetweenUtc(s.lastSolvedDate.value, now); gap == 0 || gap == 1
  }

  function EffectiveCurrentStreak(s: StreakState, now: int): nat {
    if IsStreakActive(s, now) then s.currentStreak else 0
  }

  function Front<T>(s: seq<T>): seq<T>
    requires s != []
  {
    s[..|s| - 1]
  }

  /** The state after solving at each of the given instants. */
  function Fold(solves: seq<int>): StreakState {
    if solves == [] then NO_STREAK else ApplyDailySolve(Fold(Front(solves)), solves[|solves| - 1]).0
  }

  // ---- the scans over day cells ----

  predicate Solid(cells: seq<nat>, i: int, j: int) {
    0 <= i <= j <= |cells| && forall k :: i <= k < j ==> cells[k] > 0
  }

  ghost predicate IsLongest(cells: seq<nat>, n: nat) {
    && (exists i, j :: Solid(cells, i, j) && j - i == n)
    && (forall i, j :: Solid(cells, i, j) ==> j - i <= n)
  }

  predicate IsTrailing(cells: seq<nat>, n: nat) {
    n <= |cells| && Solid(cells, |cells| - n, |cells|) && (n < |cells| ==> cells[|cells| - n - 1] == 0)
  }

  /** Runs ending at `n` are no longer than the trailing one. */
  lemma RunsUpTo(cells: seq<nat>, n: nat, cur: nat, longest: nat)
    requires 1 <= n <= |cells| && cur <= n && cur <= longest
    requires cur < n ==> cells[n - cur - 1] == 0
    requires forall i, j :: Solid(cells, i, j) && j <= n - 1 ==> j - i <= longest
    ensures forall i, j :: Solid(cells, i, j) && j <= n ==> j - i <= longest
  {
  }

  method CurrentStreak(cells: seq<nat>) returns (streak: nat)
    ensures IsTrailing(cells, streak)
  {
    streak := 0;
    while streak < |cells|
      invariant streak <= |cells| && Solid(cells, |cells| - streak, |cells|)
    {
      if cells[|cells| - 1 - streak] > 0 {
        streak := streak + 1;
      } else {
        break;
      }
    }
  }

  method LongestStreak(cells: seq<nat>) returns (longest: nat)
    ensures IsLongest(cells, longest)
  {
    longest := 0;
    var cur := 0;
    assert Solid(cells, 0, 0);
    for n := 0 to |cells|
      invariant cur <= n && Solid(cells, n - cur, n) && (cur < n ==> cells[n - cur - 1] == 0)
      invariant exists i, j :: Solid(cells, i, j) && j <= n && j - i == longest
      invariant forall i, j :: Solid(cells, i, j) && j <= n ==> j - i <= longest
    {
      if cells[n] > 0 {
        cur := cur + 1;
        assert Solid(cells, n + 1 - cur, n + 1);
        longest := if longest < cur then cur else longest;
        RunsUpTo(cells, n + 1, cur, longest);
      } else {
        cur := 0;
        RunsUpTo(cells, n + 1, cur, longest);
      }
    }
  }

  // ---- runs of days ----

  /** Every day from `lo` up to, but not including, `hi`. */
  ghost predicate AllIn(days: set<int>, lo: int, hi: int) {
    forall d :: lo <= d < hi ==> d in days
  }

  /** Consecutive days of `days` ending just before `end`, none before `start`. */
  function Trailing(days: set<int>, start: int, end: int): (n: nat)
    ensures start <= end ==> n <= end - start
    decreases end - start
  {
    if start < end && end - 1 in days then 1 + Trailing(days, start, end - 1) else 0
  }

  /** The longest run of consecutive days of `days` from `start` up to, but not including, `end`. */
  function Longest(days: set<int>, start: int, end: int): nat
    decreases end - start
  {
    if end <= start then 0 else Max(Longest(days, start, end - 1), Trailing(days, start, end))
  }

  function DaysOf(solves: seq<int>): set<int> {
    set t | t in solves :: DayOf(t)
  }

  function SolvesOn(solves: seq<int>, day: int): nat {
    if solves == [] then 0 else (if DayOf(solves[0]) == day then 1 else 0) + SolvesOn(solves[1..], day)
  }

  /** The dense array: solves per day from day `start` up to, but not including, day `end`. */
  function Cells(solves: seq<int>, start: int, end: int): (cells: seq<nat>)
    requires start <= end
    ensures |cells| == end - start
    ensures forall i :: 0 <= i < |cells| ==> cells[i] == SolvesOn(solves, start + i)
    decreases end - start
  {
    if start == end then [] else Cells(solves, start, end - 1) + [SolvesOn(solves, end - 1)]
  }

  lemma {:induction false} SolvesOnPositive(solves: seq<int>, day: int)
    ensures SolvesOn(solves, day) > 0 <==> day in DaysOf(solves)
  {
    if solves != [] {
      SolvesOnPositive(solves[1..], day);
      assert solves == [solves[0]] + solves[1..];
      assert DaysOf(solves) == {DayOf(solves[0])} + DaysOf(solves[1..]);
    }
  }

  lemma CellPositive(solves: seq<int>, start: int, end: int)
    requires start <= end
    ensures forall i :: 0 <= i < end - start ==> (Cells(solves, start, end)[i] > 0 <==> start + i in DaysOf(solves))
  {
    forall i | 0 <= i < end - start ensures Cells(solves, start, end)[i] > 0 <==> start + i in DaysOf(solves) {
      SolvesOnPositive(solves, start + i);
    }
  }

  lemma SolidIsRun(solves: seq<int>, start: int, end: int, i: nat, j: nat)
    requires start <= end && i <= j <= end - start
    ensures Solid(Cells(solves, start, end), i, j) <==> AllIn(DaysOf(solves), start + i, start + j)
  {
    CellPositive(solves, start, end);
    var cells, days := Cells(solves, start, end), DaysOf(solves);
    if Solid(cells, i, j) {
      forall d | start + i <= d < start + j ensures d in days {
        assert cells[d - start] > 0;
      }
    }
  }

  lemma {:induction false} TrailingIs(days: set<int>, start: int, end: int)
    requires start <= end
    ensures AllIn(days, end - Trailing(days, start, end), end)
    ensures Trailing(days, start, end) < end - start ==> end - Trailing(days, start, end) - 1 !in days
    decreases end - start
  {
    if start < end && end - 1 in days {
      TrailingIs(days, start, end - 1);
    }
  }

  /** The scan from the end finds the trailing run of days. */
  lemma TrailingUnique(solves: seq<int>, start: int, end: int, streak: nat)
    requires start <= end && IsTrailing(Cells(solves, start, end), streak)
    ensures streak == Trailing(DaysOf(solves), start, end)
  {
    var days, cells := DaysOf(solves), Cells(solves, start, end);
    CellPositive(solves, start, end);
    TrailingIs(days, start, end);
    SolidIsRun(solves, start, end, |cells| - streak, |cells|);
    assert streak < |cells| ==> start + (|cells| - streak - 1) == end - streak - 1;
  }

  lemma {:induction false} LongestIs(days: set<int>, start: int, end: int) returns (lo: int, hi: int)
    requires start <= end
    ensures start <= lo <= hi <= end && hi - lo == Longest(days, start, end) && AllIn(days, lo, hi)
    ensures forall a, b :: start <= a <= b <= end && AllIn(days, a, b) ==> b - a <= Longest(days, start, end)
    decreases end - start
  {
    if start == end {
      lo, hi := start, start;
    } else {
      lo, hi := LongestIs(days, start, end - 1);
      TrailingIs(days, start, end);
      var t := Trailing(days, start, end);
      if Longest(days, start, end - 1) < t {
        lo, hi := end - t, end;
      }
      forall a, b | start <= a <= b <= end && AllIn(days, a, b) ensures b - a <= Longest(days, start, end) {
        assert a <= end - t - 1 < b ==> end - t - 1 in days;
      }
    }
  }

  /** The scan for the longest run finds the longest run of days. */
  lemma LongestUnique(solves: seq<int>, start: int, end: int, longest: nat)
    requires start <= end && IsLongest(Cells(solves, start, end), longest)
    ensures longest == Longest(DaysOf(solves), start, end)
  {
    var days, cells := DaysOf(solves), Cells(solves, start, end);
    var lo, hi := LongestIs(days, start, end);
    SolidIsRun(solves, start, end, lo - start, hi - start);
    assert Solid(cells, lo - start, hi - start);
    var a, b :| Solid(cells, a, b) && b - a == longest;
    SolidIsRun(solves, start, end, a, b);
    assert AllIn(days, start + a, start + b);
  }

  // ---- the incremental form equals the batch form ----

  ghost predicate Chronological(solves: seq<int>) {
    forall i, j :: 0 <= i < j < |solves| ==> solves[i] <= solves[j]
  }

  lemma {:induction false} IgnoresLater(days: set<int>, d: int, start: int, end: int)
    requires d >= end
    ensures Trailing(days + {d}, start, end) == Trailing(days, start, end)
    ensures Longest(days + {d}, start, end) == Longest(days, start, end)
    decreases end - start
  {
    if start < end {
      IgnoresLater(days, d, start, end - 1);
    }
  }

  lemma {:induction false} LongestExtends(days: set<int>, start: int, end: int, later: int)
    requires end <= later && forall d | d in days :: d < end
    ensures Longest(days, start, later) == Longest(days, start, end)
    decreases later - end
  {
    if end < later {
      LongestExtends(days, start, end, later - 1);
      assert later - 1 !in days;
    }
  }

  lemma DaysOfSnoc(solves: seq<int>)
    requires solves != []
    ensures DaysOf(solves) == DaysOf(Front(solves)) + {DayOf(solves[|solves| - 1])}
  {
    assert solves == Front(solves) + [solves[|solves| - 1]];
  }

  lemma DaysBetweenExact(a: int, b: int)
    ensures DaysBetweenUtc(a, b) == DayOf(b) - DayOf(a)
    ensures DayOf(ToUtcDayStart(a)) == DayOf(a)
  {
  }

  /** `last` is the day of the latest solve and `state` what the solves up to it amount to. */
  ghost predicate StateIs(state: StreakState, days: set<int>, start: int, last: int) {
    && start <= last && last in days
    && (forall d | d in days :: d <= last)
    && state == StreakState(Trailing(days, start, last + 1), Longest(days, start, last + 1), Some(last * DAY_MS))
  }

  lemma ApplyToEmpty(t: int, start: int)
    requires start <= DayOf(t)
    ensures StateIs(ApplyDailySolve(NO_STREAK, t).0, {DayOf(t)}, start, DayOf(t))
  {
    var d := DayOf(t);
    assert {} + {d} == {d};
    LongestExtends({}, start, start, d);
    IgnoresLater({}, d, start, d);
  }

  lemma ApplyToRun(state: StreakState, days: set<int>, start: int, last: int, t: int)
    requires StateIs(state, days, start, last) && last <= DayOf(t)
    ensures StateIs(ApplyDailySolve(state, t).0, days + {DayOf(t)}, start, DayOf(t))
    ensures ApplyDailySolve(state, t).1 <==> DayOf(t) !in days
  {
    var d := DayOf(t);
    DaysBetweenExact(last * DAY_MS, d * DAY_MS);
    if d == last {
      assert days + {d} == days;
    } else {
      IgnoresLater(days, d, start, d);
      LongestExtends(days, start, last + 1, d);
      assert d - 1 == last || d - 1 !in days;
    }
  }

  /** What the folded state is, in terms of the set of solved days. */
  lemma {:induction false} FoldIsRuns(solves: seq<int>, start: int)
    requires Chronological(solves) && solves != [] && start <= DayOf(solves[0])
    ensures StateIs(Fold(solves), DaysOf(solves), start, DayOf(solves[|solves| - 1]))
    decreases |solves|
  {
    var before, t := Front(solves), solves[|solves| - 1];
    DaysOfSnoc(solves);
    if before == [] {
      assert DaysOf(before) == {};
      assert Fold(solves) == ApplyDailySolve(NO_STREAK, t).0;
      ApplyToEmpty(t, start);
      assert DaysOf(solves) == {DayOf(t)};
    } else {
      FoldIsRuns(before, start);
      ApplyToRun(Fold(before), DaysOf(before), start, DayOf(before[|before| - 1]), t);
    }
  }

  /**
    For solves in chronological order: the folded `longestStreak` is what the scan finds in any
    cells that cover all the solves, and `currentStreak` what the scan finds in cells that end
    with the last solved day.
   */
  lemma FoldMatchesScans(solves: seq<int>, start: int, end: int, current: nat, longest: nat)
    requires Chronological(solves) && solves != []
    requires start <= DayOf(solves[0]) && start <= DayOf(solves[|solves| - 1]) < end
    requires IsTrailing(Cells(solves, start, DayOf(solves[|solves| - 1]) + 1), current)
    requires IsLongest(Cells(solves, start, end), longest)
    ensures Fold(solves).currentStreak == current && Fold(solves).longestStreak == longest
  {
    var last := DayOf(solves[|solves| - 1]);
    FoldIsRuns(solves, start);
    TrailingUnique(solves, start, last + 1, current);
    LongestUnique(solves, start, end, longest);
    LongestExtends(DaysOf(solves), start, last + 1, end);
  }

  lemma NoSolvesNoStreak(start: int, end: int, current: nat, longest: nat)
    requires start <= end
    requires IsTrailing(Cells([], start, end), current) && IsLongest(Cells([], start, end), longest)
    ensures Fold([]).currentStreak == current && Fold([]).longestStreak == longest
  {
    TrailingUnique([], start, end, current);
    LongestUnique([], start, end, longest);
    assert DaysOf([]) == {};
    LongestExtends({}, start, start, end);
  }

  /** A day starts at a multiple of 24 hours and lasts as long. */
  lemma DayStartMeaning(t: int)
    ensures ToUtcDayStart(t) <= t < ToUtcDayStart(t) + 24 * 60 * 60 * 1000
    ensures ToUtcDayStart(t) % (24 * 60 * 60 * 1000) == 0
  {
  }

  /** A solve on a day before the last one, as on the same day, advances nothing and breaks nothing. */
  lemma EarlierSolveIgnored(state: StreakState, solvedAt: int)
    requires state.lastSolvedDate.Some? && DayOf(solvedAt) <= DayOf(state.lastSolvedDate.value)
    ensures var (state', advanced) := ApplyDailySolve(state, solvedAt);
            && !advanced
            && state'.currentStreak == state.currentStreak && state'.longestStreak == state.longestStreak
            && state'.lastSolvedDate.Some?
            && DayOf(state'.lastSolvedDate.value) == DayOf(state.lastSolvedDate.value)
  {
    var last := state.lastSolvedDate.value;
    DaysBetweenExact(ToUtcDayStart(last), ToUtcDayStart(solvedAt));
    DaysBetweenExact(last, solvedAt);
  }

  /** The streak shown to the user is the folded one if the last solve was today or yesterday, and 0 otherwise. */
  lemma EffectiveMeaning(solves: seq<int>, start: int, now: int)
    requires Chronological(solves) && solves != [] && start <= DayOf(solves[0])
    ensures var last := DayOf(solves[|solves| - 1]);
            EffectiveCurrentStreak(Fold(solves), now)
            == if last <= DayOf(now) <= last + 1 then Trailing(DaysOf(solves), start, last + 1) else 0
  {
    var last := DayOf(solves[|solves| - 1]);
    FoldIsRuns(solves, start);
    DaysBetweenExact(last * DAY_MS, now);
    assert DayOf(last * DAY_MS) == last;
    assert Trailing(DaysOf(solves), start, last + 1) >= 1;
  }

  /**
    The streak shown to the user agrees with the scan of cells that end today, except when the
    last solve was yesterday: then the scan already says 0.
   */
  lemma EffectiveMatchesScan(solves: seq<int>, start: int, now: int, streak: nat)
    requires Chronological(solves) && solves != [] && start <= DayOf(solves[0])
    requires solves[|solves| - 1] <= now && start <= DayOf(now)
    requires IsTrailing(Cells(solves, start, DayOf(now) + 1), streak)
    ensures EffectiveCurrentStreak(Fold(solves), now) == streak
       <==> DayOf(now) != DayOf(solves[|solves| - 1]) + 1
  {
    var last := DayOf(solves[|solves| - 1]);
    FoldIsRuns(solves, start);
    DaysBetweenExact(last * DAY_MS, now);
    assert DayOf(last * DAY_MS) == last;
    TrailingUnique(solves, start, DayOf(now) + 1, streak);
    assert Trailing(DaysOf(solves), start, last + 1) >= 1;
  }

  /** Solves that advanced the streak. */
  function Advances(solves: seq<int>): nat {
    if solves == [] then 0
    else Advances(Front(solves)) + if ApplyDailySolve(Fold(Front(solves)), solves[|solves| - 1]).1 then 1 else 0
  }

  /** Each distinct day advances the streak exactly once. */
  lemma {:induction false} AdvancesOncePerDay(solves: seq<int>)
    requires Chronological(solves)
    ensures Advances(solves) == |DaysOf(solves)|
    decreases |solves|
  {
    if solves == [] {
      assert DaysOf(solves) == {};
    } else {
      var before, t := Front(solves), solves[|solves| - 1];
      AdvancesOncePerDay(before);
      DaysOfSnoc(solves);
      if before == [] {
        assert DaysOf(before) == {};
        assert Fold(before) == NO_STREAK;
      } else {
        FoldIsRuns(before, DayOf(before[0]));
        ApplyToRun(Fold(before), DaysOf(before), DayOf(before[0]), DayOf(before[|before| - 1]), t);
        if DayOf(t) in DaysOf(before) {
          assert DaysOf(solves) == DaysOf(before);
        }
      }
    }
  }
}
