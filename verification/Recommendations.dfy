/**
  Problem recommendations, src/lib/recommendations.ts. Scores are integers,
  acceptance rates exact reals and times integer milliseconds.
 */
module Recommendations {
  import opened Wrappers
  import opened Sums
  import opened Sorting

  datatype Difficulty = Easy | Medium | Hard

  datatype Problem = Problem(
    id: string, difficulty: Difficulty, acceptanceRate: Option<real>, tagSlugs: seq<string>, createdAt: int)

  datatype Solve = Solve(problemId: string, difficulty: Difficulty, tagSlugs: seq<string>)

  datatype History = History(solved: set<string>, recentSolves: seq<Solve>, recentlyShown: set<string>)

  const FRESHNESS_WINDOW_MS := 2592000000

  function RankOf(d: Difficulty): nat {
    match d case Easy => 0 case Medium => 1 case Hard => 2
  }

  // ---- median difficulty ----

  function Ranks(solves: seq<Solve>): (r: seq<nat>)
    ensures |r| == |solves|
    ensures forall x | x in r :: x <= 2
  {
    if solves == [] then [] else [RankOf(solves[0].difficulty)] + Ranks(solves[1..])
  }

  function AtMost(): (nat, nat) -> bool { (a: nat, b: nat) => a <= b }

  /** The middle of sorted ranks; of two middle ranks the mean, a half rounded up. */
  function Middle(ranks: seq<nat>): nat
    requires ranks != []
  {
    var mid := |ranks| / 2;
    if |ranks| % 2 == 0 then (ranks[mid - 1] + ranks[mid] + 1) / 2 else ranks[mid]
  }

  function MedianRank(solves: seq<Solve>): nat
    requires solves != []
  {
    Middle(Sort(Ranks(solves), AtMost()))
  }

  function MedianDifficulty(solves: seq<Solve>): Difficulty {
    if solves == [] then Easy
    else if MedianRank(solves) == 0 then Easy
    else if MedianRank(solves) == 1 then Medium
    else Hard
  }

  function BelowRank(r: nat): nat -> nat { (x: nat) => if x < r then 1 else 0 }
  function AboveRank(r: nat): nat -> nat { (x: nat) => if x > r then 1 else 0 }

  lemma {:induction false} SumAtMostOnes<T>(s: seq<T>, f: T -> nat)
    requires forall x | x in s :: f(x) <= 1
    ensures Sum(s, f) <= |s|
  {
    if s != [] {
      SumAtMostOnes(s[1..], f);
    }
  }

  lemma FewBelow(ranks: seq<nat>, r: nat, lo: nat)
    requires lo <= |ranks| && forall i :: lo <= i < |ranks| ==> ranks[i] >= r
    ensures Sum(ranks, BelowRank(r)) <= lo
  {
    var front, back := ranks[..lo], ranks[lo..];
    assert ranks == front + back;
    SumAppend(front, back, BelowRank(r));
    SumZero(back, BelowRank(r));
    SumAtMostOnes(front, BelowRank(r));
  }

  lemma FewAbove(ranks: seq<nat>, r: nat, hi: nat)
    requires hi <= |ranks| && forall i :: 0 <= i < hi ==> ranks[i] <= r
    ensures Sum(ranks, AboveRank(r)) <= |ranks| - hi
  {
    var front, back := ranks[..hi], ranks[hi..];
    assert ranks == front + back;
    SumAppend(front, back, AboveRank(r));
    SumZero(front, AboveRank(r));
    SumAtMostOnes(back, AboveRank(r));
  }

  lemma MiddleSplits(ranks: seq<nat>)
    requires Sorted(ranks, AtMost()) && ranks != []
    ensures 2 * Sum(ranks, BelowRank(Middle(ranks))) <= |ranks| && 2 * Sum(ranks, AboveRank(Middle(ranks))) <= |ranks|
  {
    var n, mid, r := |ranks|, |ranks| / 2, Middle(ranks);
    assert forall i, j :: 0 <= i < j < n ==> AtMost()(ranks[i], ranks[j]);
    FewBelow(ranks, r, mid);
    FewAbove(ranks, r, if n % 2 == 0 then mid else mid + 1);
  }

  /** At most half of the recent solves are easier than the median and at most half are harder. */
  lemma MedianSplits(solves: seq<Solve>)
    requires solves != []
    ensures var r := RankOf(MedianDifficulty(solves));
            && 2 * Sum(Ranks(solves), BelowRank(r)) <= |solves|
            && 2 * Sum(Ranks(solves), AboveRank(r)) <= |solves|
  {
    var raw := Ranks(solves);
    var ranks := Sort(raw, AtMost());
    SortSorts(raw, AtMost());
    MiddleSplits(ranks);
    MedianRankSmall(solves);
    var r := MedianRank(solves);
    SumPermutation(ranks, raw, BelowRank(r));
    SumPermutation(ranks, raw, AboveRank(r));
  }

  lemma MedianRankSmall(solves: seq<Solve>)
    requires solves != []
    ensures MedianRank(solves) <= 2 && RankOf(MedianDifficulty(solves)) == MedianRank(solves)
  {
    var ranks := Sort(Ranks(solves), AtMost());
    SortSorts(Ranks(solves), AtMost());
    forall i | 0 <= i < |ranks| ensures ranks[i] <= 2 {
      assert ranks[i] in multiset(ranks);
      assert ranks[i] in Ranks(solves);
    }
  }

  // ---- the score ----

  function RecentTags(solves: seq<Solve>, n: nat): set<string> {
    if solves == [] || n == 0 then {}
    else (set t | t in solves[0].tagSlugs) + RecentTags(solves[1..], n - 1)
  }

  function Overlap(slugs: seq<string>, tags: set<string>): nat {
    if slugs == [] then 0 else (if slugs[0] in tags then 1 else 0) + Overlap(slugs[1..], tags)
  }

  /** Whole numbers, as all weights in use are. */
  datatype Weights = Weights(
    base: int,
    sameDifficulty: int,
    oneStepUp: int,
    twoStepUp: int,
    oneStepDown: int,
    tagOverlapPer: int,
    tagOverlapMax: int,
    acceptanceSweetSpot: int,
    acceptanceTooHard: int,
    freshnessRecent: int,
    recentlyShown: int)

  const DEFAULT_WEIGHTS := Weights(50, 15, 20, -25, 5, 7, 21, 8, -6, 5, -15)

  function DifficultyBoost(p: Problem, h: History, w: Weights): int {
    if h.recentSolves == [] then 0
    else
      var delta := RankOf(p.difficulty) as int - RankOf(MedianDifficulty(h.recentSolves));
      if delta == 0 then w.sameDifficulty
      else if delta == 1 then w.oneStepUp
      else if delta == 2 then w.twoStepUp
      else if delta == -1 then w.oneStepDown
      else 0
  }

  function Min(a: int, b: int): int { if a < b then a else b }

  function TagBoost(p: Problem, h: History, w: Weights): int {
    if h.recentSolves == [] || p.tagSlugs == [] then 0
    else Min(w.tagOverlapMax, Overlap(p.tagSlugs, RecentTags(h.recentSolves, 10)) * w.tagOverlapPer)
  }

  function AcceptanceBoost(p: Problem, w: Weights): int {
    if p.acceptanceRate.None? then 0
    else if 0.4 <= p.acceptanceRate.value <= 0.7 then w.acceptanceSweetSpot
    else if p.acceptanceRate.value < 0.2 then w.acceptanceTooHard
    else 0
  }

  predicate IsFresh(p: Problem, now: int) {
    now - p.createdAt < FRESHNESS_WINDOW_MS
  }

  function Clamp(x: int): int {
    if x < 0 then 0 else if x > 100 then 100 else x
  }

  function ScoreWith(p: Problem, h: History, now: int, w: Weights): int {
    if p.id in h.solved then 0
    else Clamp(w.base + DifficultyBoost(p, h, w) + TagBoost(p, h, w) + AcceptanceBoost(p, w)
               + (if IsFresh(p, now) then w.freshnessRecent else 0)
               + (if p.id in h.recentlyShown then w.recentlyShown else 0))
  }

  function Score(p: Problem, h: History, now: int): int {
    ScoreWith(p, h, now, DEFAULT_WEIGHTS)
  }

  lemma {:induction false} RecentTagsSnoc(solves: seq<Solve>, n: nat, i: nat)
    requires i < |solves| && i < n
    ensures RecentTags(solves[..i + 1], n) == RecentTags(solves[..i], n) + set t | t in solves[i].tagSlugs
    decreases i
  {
    if i > 0 {
      assert solves[..i + 1][1..] == solves[1..][..i] && solves[..i][1..] == solves[1..][..i - 1];
      RecentTagsSnoc(solves[1..], n - 1, i - 1);
    } else {
      assert solves[..1][1..] == [];
    }
  }

  lemma {:induction false} RecentTagsPrefix(solves: seq<Solve>, n: nat)
    ensures RecentTags(solves, n) == RecentTags(solves[..if |solves| < n then |solves| else n], n)
    decreases n
  {
    if solves != [] && n > 0 {
      var k := if |solves| < n then |solves| else n;
      assert solves[..k][1..] == solves[1..][..k - 1];
      RecentTagsPrefix(solves[1..], n - 1);
    }
  }

  lemma {:induction false} OverlapSnoc(slugs: seq<string>, t: string, tags: set<string>)
    ensures Overlap(slugs + [t], tags) == Overlap(slugs, tags) + if t in tags then 1 else 0
  {
    if slugs != [] {
      assert (slugs + [t])[1..] == slugs[1..] + [t];
      OverlapSnoc(slugs[1..], t, tags);
    }
  }

  /** The tags of the first `n` recent solves. */
  lemma {:induction false} RecentTagsMeaning(solves: seq<Solve>, n: nat, t: string)
    ensures t in RecentTags(solves, n) <==> exists i :: 0 <= i < |solves| && i < n && t in solves[i].tagSlugs
    decreases n
  {
    if solves != [] && n > 0 {
      RecentTagsMeaning(solves[1..], n - 1, t);
      if t in RecentTags(solves[1..], n - 1) {
        var i :| 0 <= i < |solves[1..]| && i < n - 1 && t in solves[1..][i].tagSlugs;
        assert t in solves[i + 1].tagSlugs;
      }
      if i :| 0 <= i < |solves| && i < n && t in solves[i].tagSlugs {
        assert i > 0 ==> t in solves[1..][i - 1].tagSlugs;
      }
    }
  }

  /** One for each of the problem's tags that is among them. */
  lemma {:induction false} OverlapMeaning(slugs: seq<string>, tags: set<string>)
    ensures Overlap(slugs, tags) == Sum(slugs, (t: string) => if t in tags then 1 else 0)
  {
    if slugs != [] {
      OverlapMeaning(slugs[1..], tags);
    }
  }

  /** The two tag loops of `scoreProblem`. */
  method CountOverlap(slugs: seq<string>, recentSolves: seq<Solve>) returns (overlap: nat)
    ensures overlap == Overlap(slugs, RecentTags(recentSolves, 10))
  {
    var recentTagSet: set<string> := {};
    var last := if |recentSolves| < 10 then |recentSolves| else 10;
    for i := 0 to last
      invariant recentTagSet == RecentTags(recentSolves[..i], 10)
    {
      RecentTagsSnoc(recentSolves, 10, i);
      recentTagSet := recentTagSet + set t | t in recentSolves[i].tagSlugs;
    }
    RecentTagsPrefix(recentSolves, 10);
    overlap := 0;
    for i := 0 to |slugs|
      invariant overlap == Overlap(slugs[..i], recentTagSet)
    {
      assert slugs[..i + 1] == slugs[..i] + [slugs[i]];
      OverlapSnoc(slugs[..i], slugs[i], recentTagSet);
      if slugs[i] in recentTagSet {
        overlap := overlap + 1;
      }
    }
    assert slugs[..|slugs|] == slugs;
  }

  method ScoreProblem(p: Problem, h: History, now: int, weights: Weights) returns (score: int)
    ensures score == ScoreWith(p, h, now, weights)
    ensures 0 <= score <= 100
    ensures p.id in h.solved ==> score == 0
  {
    if p.id in h.solved {
      return 0;
    }
    score := weights.base;
    if h.recentSolves != [] {
      var median := MedianDifficulty(h.recentSolves);
      var delta := RankOf(p.difficulty) as int - RankOf(median);
      if delta == 0 {
        score := score + weights.sameDifficulty;
      } else if delta == 1 {
        score := score + weights.oneStepUp;
      } else if delta == 2 {
        score := score + weights.twoStepUp;
      } else if delta == -1 {
        score := score + weights.oneStepDown;
      }
    }
    if h.recentSolves != [] && p.tagSlugs != [] {
      var overlap := CountOverlap(p.tagSlugs, h.recentSolves);
      score := score + Min(weights.tagOverlapMax, overlap * weights.tagOverlapPer);
    }
    if p.acceptanceRate.Some? {
      var ar := p.acceptanceRate.value;
      if ar >= 0.4 && ar <= 0.7 {
        score := score + weights.acceptanceSweetSpot;
      } else if ar < 0.2 {
        score := score + weights.acceptanceTooHard;
      }
    }
    if now - p.createdAt < FRESHNESS_WINDOW_MS {
      score := score + weights.freshnessRecent;
    }
    if p.id in h.recentlyShown {
      score := score + weights.recentlyShown;
    }
    score := Clamp(score);
  }

  /** The default weights keep every unsolved problem at 4 or more: a score of zero means solved. */
  lemma ZeroMeansSolved(p: Problem, h: History, now: int)
    ensures 0 <= Score(p, h, now) <= 100
    ensures Score(p, h, now) == 0 <==> p.id in h.solved
    ensures p.id !in h.solved ==> Score(p, h, now) >= 4
  {
  }

  // ---- the ranking ----

  datatype Reason = SameTopic(tag: string) | NextStepUp | Freshness | Trending | General

  datatype Scored = Scored(problem: Problem, score: int)

  datatype Recommendation = Recommendation(problem: Problem, score: int, reason: Reason)

  /** `localeCompare` as a strict total order: only equal ids compare as 0. */
  ghost predicate StrictTotal(cmp: (string, string) -> int) {
    && (forall a, b :: cmp(a, b) == 0 <==> a == b)
    && (forall a, b :: cmp(a, b) < 0 <==> cmp(b, a) > 0)
    && (forall a, b, c :: cmp(a, b) < 0 && cmp(b, c) < 0 ==> cmp(a, c) < 0)
  }

  function RateOrZero(p: Problem): real {
    if p.acceptanceRate.Some? then p.acceptanceRate.value else 0.0
  }

  /** The comparator returns at most 0. */
  function Precedes(cmp: (string, string) -> int): (Scored, Scored) -> bool {
    (a: Scored, b: Scored) =>
      if b.score != a.score then b.score - a.score <= 0
      else if RateOrZero(b.problem) != RateOrZero(a.problem) then RateOrZero(b.problem) - RateOrZero(a.problem) <= 0.0
      else cmp(a.problem.id, b.problem.id) <= 0
  }

  /** The two filters and the map: unsolved candidates with a positive score. */
  function Eligible(candidates: seq<Problem>, h: History, now: int): seq<Scored> {
    if candidates == [] then []
    else
      var p := candidates[0];
      (if p.id !in h.solved && Score(p, h, now) > 0 then [Scored(p, Score(p, h, now))] else [])
      + Eligible(candidates[1..], h, now)
  }

  /** `slice(0, limit)`, which counts a negative limit from the end. */
  function Slice<T>(s: seq<T>, limit: int): seq<T> {
    if limit >= |s| then s
    else if limit >= 0 then s[..limit]
    else if |s| + limit >= 0 then s[..|s| + limit]
    else []
  }

  function Top(candidates: seq<Problem>, h: History, limit: int, now: int, cmp: (string, string) -> int): seq<Scored> {
    Slice(Sort(Eligible(candidates, h, now), Precedes(cmp)), limit)
  }

  function FirstIn(slugs: seq<string>, tags: set<string>): Option<string> {
    if slugs == [] then None else if slugs[0] in tags then Some(slugs[0]) else FirstIn(slugs[1..], tags)
  }

  function ReasonFor(p: Problem, h: History, now: int): Reason {
    var overlap := FirstIn(p.tagSlugs, RecentTags(h.recentSolves, 10));
    if overlap.Some? && overlap.value != "" then SameTopic(overlap.value)
    else if h.recentSolves != [] && RankOf(p.difficulty) == RankOf(MedianDifficulty(h.recentSolves)) + 1 then NextStepUp
    else if IsFresh(p, now) then Freshness
    else if h.recentSolves == [] then Trending
    else General
  }

  function WithReasons(scored: seq<Scored>, h: History, now: int): seq<Recommendation> {
    if scored == [] then []
    else [Recommendation(scored[0].problem, scored[0].score, ReasonFor(scored[0].problem, h, now))]
         + WithReasons(scored[1..], h, now)
  }

  function RankRecommendations(candidates: seq<Problem>, h: History, limit: int, now: int,
                               cmp: (string, string) -> int): seq<Recommendation>
  {
    WithReasons(Top(candidates, h, limit, now, cmp), h, now)
  }

  predicate DistinctIds(candidates: seq<Problem>) {
    forall i, j :: 0 <= i < j < |candidates| ==> candidates[i].id != candidates[j].id
  }

  lemma AtMostTransitive(cmp: (string, string) -> int, a: string, b: string, c: string)
    requires StrictTotal(cmp)
    ensures cmp(a, b) <= 0 || cmp(b, a) <= 0
    ensures cmp(a, b) <= 0 && cmp(b, c) <= 0 ==> cmp(a, c) <= 0
  {
    assert cmp(a, b) == 0 <==> a == b;
    assert cmp(b, c) == 0 <==> b == c;
  }

  lemma PrecedesTotal(cmp: (string, string) -> int)
    requires StrictTotal(cmp)
    ensures TotalPreorder(Precedes(cmp))
  {
    var le := Precedes(cmp);
    forall a, b ensures le(a, b) || le(b, a) {
      AtMostTransitive(cmp, a.problem.id, b.problem.id, a.problem.id);
    }
    forall a, b, c | le(a, b) && le(b, c) ensures le(a, c) {
      AtMostTransitive(cmp, a.problem.id, b.problem.id, c.problem.id);
    }
  }

  /** How often a scored problem is eligible: as often as the problem is a candidate. */
  lemma {:induction false} EligibleCount(candidates: seq<Problem>, h: History, now: int, x: Scored)
    ensures multiset(Eligible(candidates, h, now))[x]
         == if IsScored(x, h, now) then multiset(candidates)[x.problem] else 0
  {
    if candidates != [] {
      var y := Scored(candidates[0], Score(candidates[0], h, now));
      EligibleCount(candidates[1..], h, now, x);
      EligibleCons(candidates, h, now);
      CountCons(candidates[0], candidates[1..], x.problem);
      assert candidates == [candidates[0]] + candidates[1..];
      if IsScored(y, h, now) {
        CountCons(y, Eligible(candidates[1..], h, now), x);
      }
      assert IsScored(x, h, now) ==> (x == y <==> x.problem == candidates[0]);
      assert !IsScored(y, h, now) ==> [] + Eligible(candidates[1..], h, now) == Eligible(candidates[1..], h, now);
    }
  }

  predicate IsScored(x: Scored, h: History, now: int) {
    x.problem.id !in h.solved && x.score == Score(x.problem, h, now)
  }

  lemma EligibleCons(candidates: seq<Problem>, h: History, now: int)
    requires candidates != []
    ensures var x := Scored(candidates[0], Score(candidates[0], h, now));
            Eligible(candidates, h, now)
            == (if IsScored(x, h, now) then [x] else []) + Eligible(candidates[1..], h, now)
  {
    ZeroMeansSolved(candidates[0], h, now);
  }

  lemma EligibleMembers(candidates: seq<Problem>, h: History, now: int)
    ensures forall x :: x in Eligible(candidates, h, now) <==>
              x.problem in candidates && x.problem.id !in h.solved && x.score == Score(x.problem, h, now)
  {
    forall x
      ensures x in Eligible(candidates, h, now) <==>
                x.problem in candidates && x.problem.id !in h.solved && x.score == Score(x.problem, h, now)
    {
      EligibleCount(candidates, h, now, x);
      assert x in Eligible(candidates, h, now) <==> multiset(Eligible(candidates, h, now))[x] > 0;
      assert x.problem in candidates <==> multiset(candidates)[x.problem] > 0;
    }
  }

  lemma TiesAreEqual(candidates: seq<Problem>, h: History, now: int, cmp: (string, string) -> int, x: Scored, y: Scored)
    requires DistinctIds(candidates) && StrictTotal(cmp)
    requires x in Eligible(candidates, h, now) && y in Eligible(candidates, h, now)
    requires Precedes(cmp)(x, y) && Precedes(cmp)(y, x)
    ensures x == y
  {
    EligibleMembers(candidates, h, now);
    assert cmp(x.problem.id, y.problem.id) == 0;
    var i :| 0 <= i < |candidates| && candidates[i] == x.problem;
    var j :| 0 <= j < |candidates| && candidates[j] == y.problem;
    assert i == j;
  }

  /** The list does not depend on the order of the candidates. */
  lemma RankingDeterministic(a: seq<Problem>, b: seq<Problem>, h: History, limit: int, now: int,
                             cmp: (string, string) -> int)
    requires StrictTotal(cmp) && DistinctIds(a) && multiset(a) == multiset(b)
    ensures RankRecommendations(a, h, limit, now, cmp) == RankRecommendations(b, h, limit, now, cmp)
  {
    var ea, eb := Eligible(a, h, now), Eligible(b, h, now);
    forall x ensures multiset(ea)[x] == multiset(eb)[x] {
      EligibleCount(a, h, now, x);
      EligibleCount(b, h, now, x);
    }
    assert multiset(ea) == multiset(eb);
    PrecedesTotal(cmp);
    var le := Precedes(cmp);
    SortSorts(ea, le);
    SortSorts(eb, le);
    var sa, sb := Sort(ea, le), Sort(eb, le);
    forall x, y | x in sa && y in sa && le(x, y) && le(y, x) ensures x == y {
      assert x in multiset(sa) && y in multiset(sa);
      TiesAreEqual(a, h, now, cmp, x, y);
    }
    SortedUnique(sa, sb, le);
  }

  function Unsolved(candidates: seq<Problem>, h: History): nat {
    if candidates == [] then 0 else (if candidates[0].id !in h.solved then 1 else 0) + Unsolved(candidates[1..], h)
  }

  lemma {:induction false} EligibleLength(candidates: seq<Problem>, h: History, now: int)
    ensures |Eligible(candidates, h, now)| == Unsolved(candidates, h)
  {
    if candidates != [] {
      ZeroMeansSolved(candidates[0], h, now);
      EligibleLength(candidates[1..], h, now);
    }
  }

  lemma {:induction false} ReasonsKeep(scored: seq<Scored>, h: History, now: int)
    ensures var out := WithReasons(scored, h, now);
            |out| == |scored| && forall i :: 0 <= i < |out| ==>
              out[i] == Recommendation(scored[i].problem, scored[i].score, ReasonFor(scored[i].problem, h, now))
  {
    if scored != [] {
      ReasonsKeep(scored[1..], h, now);
    }
  }

  lemma SliceFacts<T>(s: seq<T>, limit: nat)
    ensures |Slice(s, limit)| == (if limit < |s| then limit else |s|)
    ensures forall i :: 0 <= i < |Slice(s, limit)| ==> Slice(s, limit)[i] == s[i]
  {
  }

  /** A negative limit leaves out that many from the end. */
  lemma NegativeLimit<T>(s: seq<T>, limit: int)
    requires limit < 0
    ensures Slice(s, limit) == if |s| + limit > 0 then s[..|s| + limit] else []
  {
  }

  /** `top[i]` with its reason is entry `i` of the list, and the sorted eligible problems start with `top`. */
  lemma RankingFromTop(candidates: seq<Problem>, h: History, limit: nat, now: int, cmp: (string, string) -> int)
    returns (sorted: seq<Scored>)
    requires StrictTotal(cmp)
    ensures sorted == Sort(Eligible(candidates, h, now), Precedes(cmp)) && Sorted(sorted, Precedes(cmp))
    ensures multiset(sorted) == multiset(Eligible(candidates, h, now))
    ensures var out := RankRecommendations(candidates, h, limit, now, cmp);
            && |out| == (if limit < |sorted| then limit else |sorted|)
            && forall i :: 0 <= i < |out| ==> out[i].problem == sorted[i].problem && out[i].score == sorted[i].score
  {
    PrecedesTotal(cmp);
    sorted := Sort(Eligible(candidates, h, now), Precedes(cmp));
    SortSorts(Eligible(candidates, h, now), Precedes(cmp));
    SliceFacts(sorted, limit);
    ReasonsKeep(Slice(sorted, limit), h, now);
  }

  /**
    The list has `min(limit, unsolved)` entries, and each is an unsolved candidate with its
    score, which is in 1..100.
   */
  lemma RankingEntries(candidates: seq<Problem>, h: History, limit: nat, now: int, cmp: (string, string) -> int)
    requires StrictTotal(cmp)
    ensures var out := RankRecommendations(candidates, h, limit, now, cmp);
            && |out| == (if limit < Unsolved(candidates, h) then limit else Unsolved(candidates, h))
            && (forall r | r in out :: r.problem in candidates && r.problem.id !in h.solved
                                       && 1 <= r.score == Score(r.problem, h, now) <= 100)
  {
    var sorted := RankingFromTop(candidates, h, limit, now, cmp);
    var out := RankRecommendations(candidates, h, limit, now, cmp);
    EligibleLength(candidates, h, now);
    EligibleMembers(candidates, h, now);
    forall r | r in out
      ensures r.problem in candidates && r.problem.id !in h.solved && 1 <= r.score == Score(r.problem, h, now) <= 100
    {
      var i :| 0 <= i < |out| && out[i] == r;
      assert sorted[i] in multiset(sorted);
      assert sorted[i] in Eligible(candidates, h, now);
      ZeroMeansSolved(r.problem, h, now);
    }
  }

  /** Ranked ahead: by higher score, then higher acceptance rate, an unknown one counting 0, then id. */
  predicate Ahead(cmp: (string, string) -> int, p: Problem, pScore: int, q: Problem, qScore: int) {
    var pRate := if p.acceptanceRate.Some? then p.acceptanceRate.value else 0.0;
    var qRate := if q.acceptanceRate.Some? then q.acceptanceRate.value else 0.0;
    || pScore > qScore
    || (pScore == qScore && pRate > qRate)
    || (pScore == qScore && pRate == qRate && cmp(p.id, q.id) <= 0)
  }

  lemma PrecedesIsAhead(cmp: (string, string) -> int, x: Scored, y: Scored)
    requires Precedes(cmp)(x, y)
    ensures Ahead(cmp, x.problem, x.score, y.problem, y.score)
  {
    var xRate, yRate := RateOrZero(x.problem), RateOrZero(y.problem);
    if x.score == y.score && xRate != yRate {
      assert yRate - xRate <= 0.0;
    } else if x.score == y.score {
      assert cmp(x.problem.id, y.problem.id) <= 0;
    }
  }

  /** The list is in order, and every unsolved candidate left out ranks behind all of its entries. */
  lemma RankingBest(candidates: seq<Problem>, h: History, limit: nat, now: int, cmp: (string, string) -> int)
    requires StrictTotal(cmp)
    ensures var out := RankRecommendations(candidates, h, limit, now, cmp);
            && (forall i, j :: 0 <= i < j < |out| ==>
                  Ahead(cmp, out[i].problem, out[i].score, out[j].problem, out[j].score))
            && (forall p, r | p in candidates && p.id !in h.solved && r in out ::
                  (exists q :: q in out && q.problem == p)
                  || Ahead(cmp, r.problem, r.score, p, Score(p, h, now)))
  {
    var sorted := RankingFromTop(candidates, h, limit, now, cmp);
    var out := RankRecommendations(candidates, h, limit, now, cmp);
    EligibleMembers(candidates, h, now);
    forall i, j | 0 <= i < j < |out|
      ensures Ahead(cmp, out[i].problem, out[i].score, out[j].problem, out[j].score)
    {
      PrecedesIsAhead(cmp, sorted[i], sorted[j]);
    }
    forall p, r | p in candidates && p.id !in h.solved && r in out
      ensures (exists q :: q in out && q.problem == p) || Ahead(cmp, r.problem, r.score, p, Score(p, h, now))
    {
      OmittedBehind(sorted, out, cmp, r, Scored(p, Score(p, h, now)));
    }
  }

  lemma OmittedBehind(
      sorted: seq<Scored>, out: seq<Recommendation>, cmp: (string, string) -> int, r: Recommendation, x: Scored)
    requires Sorted(sorted, Precedes(cmp)) && |out| <= |sorted|
    requires forall i :: 0 <= i < |out| ==> out[i].problem == sorted[i].problem && out[i].score == sorted[i].score
    requires x in multiset(sorted) && r in out
    ensures (exists q :: q in out && q.problem == x.problem)
            || Ahead(cmp, r.problem, r.score, x.problem, x.score)
  {
    var k :| 0 <= k < |sorted| && sorted[k] == x;
    var i :| 0 <= i < |out| && out[i] == r;
    if k < |out| {
      assert out[k] in out && out[k].problem == x.problem;
    } else {
      PrecedesIsAhead(cmp, sorted[i], sorted[k]);
    }
  }

  // ---- what the signals and the reasons are ----

  /** The weights in use: which signal adds or costs how much. */
  lemma DefaultSignals(p: Problem, h: History, now: int)
    requires p.id !in h.solved
    ensures var median := RankOf(MedianDifficulty(h.recentSolves)) as int; var rank := RankOf(p.difficulty) as int;
            var overlap := Overlap(p.tagSlugs, RecentTags(h.recentSolves, 10)) as int;
            var total := 50
              + (if h.recentSolves == [] then 0
                 else if rank == median then 15
                 else if rank == median + 1 then 20
                 else if rank == median + 2 then -25
                 else if rank == median - 1 then 5
                 else 0)
              + (if h.recentSolves == [] then 0 else if overlap >= 3 then 21 else 7 * overlap)
              + (if p.acceptanceRate.None? then 0
                 else if 0.4 <= p.acceptanceRate.value <= 0.7 then 8
                 else if p.acceptanceRate.value < 0.2 then -6
                 else 0)
              + (if now - p.createdAt < 30 * 24 * 60 * 60 * 1000 then 5 else 0)
              - (if p.id in h.recentlyShown then 15 else 0);
            Score(p, h, now) == if total > 100 then 100 else total
  {
  }

  /** Of an even number of recent solves the median is the mean of the two middle ranks, a half rounded up. */
  lemma MedianOfMiddles(solves: seq<Solve>)
    requires solves != []
    ensures var ranks := Sort(Ranks(solves), AtMost()); var n := |solves|; var r := RankOf(MedianDifficulty(solves));
            if n % 2 == 1 then r == ranks[n / 2]
            else ranks[n / 2 - 1] + ranks[n / 2] <= 2 * r <= ranks[n / 2 - 1] + ranks[n / 2] + 1
  {
    MedianRankSmall(solves);
  }

  lemma {:induction false} FirstInIs(slugs: seq<string>, tags: set<string>)
    ensures FirstIn(slugs, tags).None? <==> forall t | t in slugs :: t !in tags
    ensures FirstIn(slugs, tags).Some? ==>
              exists i :: 0 <= i < |slugs| && slugs[i] == FirstIn(slugs, tags).value && slugs[i] in tags
                          && forall j :: 0 <= j < i ==> slugs[j] !in tags
  {
    if slugs != [] {
      FirstInIs(slugs[1..], tags);
      assert forall t | t in slugs :: t == slugs[0] || t in slugs[1..];
      if slugs[0] !in tags && FirstIn(slugs, tags).Some? {
        var i :| 0 <= i < |slugs[1..]| && slugs[1..][i] == FirstIn(slugs, tags).value && slugs[1..][i] in tags
                 && forall j :: 0 <= j < i ==> slugs[1..][j] !in tags;
        assert forall j :: 0 < j < i + 1 ==> slugs[j] == slugs[1..][j - 1];
        assert slugs[i + 1] == FirstIn(slugs, tags).value;
      }
    }
  }

  /** `t` is the first of the problem's tags that a recent solve shares. */
  ghost predicate FirstShared(p: Problem, h: History, t: string) {
    exists i :: 0 <= i < |p.tagSlugs| && p.tagSlugs[i] == t && t in RecentTags(h.recentSolves, 10)
                && forall j :: 0 <= j < i ==> p.tagSlugs[j] !in RecentTags(h.recentSolves, 10)
  }

  lemma FirstSharedIs(p: Problem, h: History, t: string)
    ensures FirstShared(p, h, t) <==> FirstIn(p.tagSlugs, RecentTags(h.recentSolves, 10)) == Some(t)
  {
    var tags := RecentTags(h.recentSolves, 10);
    FirstInIs(p.tagSlugs, tags);
    if i :| 0 <= i < |p.tagSlugs| && p.tagSlugs[i] == t && t in tags
            && forall j :: 0 <= j < i ==> p.tagSlugs[j] !in tags
    {
      var k :| 0 <= k < |p.tagSlugs| && p.tagSlugs[k] == FirstIn(p.tagSlugs, tags).value && p.tagSlugs[k] in tags
               && forall j :: 0 <= j < k ==> p.tagSlugs[j] !in tags;
      assert i == k;
    }
  }

  ghost predicate ReasonFits(reason: Reason, p: Problem, h: History, now: int) {
    var shares := exists t :: FirstShared(p, h, t) && t != "";
    var stepUp := h.recentSolves != [] && RankOf(p.difficulty) == RankOf(MedianDifficulty(h.recentSolves)) + 1;
    var recent := now - p.createdAt < 30 * 24 * 60 * 60 * 1000;
    && (reason.SameTopic? <==> shares)
    && (reason.SameTopic? ==> FirstShared(p, h, reason.tag) && reason.tag != "")
    && (reason.NextStepUp? <==> !shares && stepUp)
    && (reason.Freshness? <==> !shares && !stepUp && recent)
    && (reason.Trending? <==> !shares && !stepUp && !recent && h.recentSolves == [])
    && (reason.General? <==> !shares && !stepUp && !recent && h.recentSolves != [])
  }

  /** Every entry carries the first reason that applies to it. */
  lemma ReasonMeaning(candidates: seq<Problem>, h: History, limit: nat, now: int, cmp: (string, string) -> int)
    requires StrictTotal(cmp)
    ensures forall r | r in RankRecommendations(candidates, h, limit, now, cmp) ::
              ReasonFits(r.reason, r.problem, h, now)
  {
    var top := Top(candidates, h, limit, now, cmp);
    ReasonsKeep(top, h, now);
    forall p ensures ReasonFits(ReasonFor(p, h, now), p, h, now) {
      forall t ensures FirstShared(p, h, t) <==> FirstIn(p.tagSlugs, RecentTags(h.recentSolves, 10)) == Some(t) {
        FirstSharedIs(p, h, t);
      }
    }
  }
}
