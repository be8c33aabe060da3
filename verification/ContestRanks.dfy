/**
  Contest ranks and rank deltas, `contest_deltas` of
  services/analytics-python/app/queries.py, from the fetched rows on.
 */
module ContestRanks {
  import opened Wrappers
  import opened Sums
  import opened Sorting

  datatype Row = Row(username: string, score: int, at: int)

  datatype Standing = Standing(username: string, score: int)

  datatype Delta = Delta(username: string, previousRank: Option<nat>, currentRank: Option<nat>, delta: Option<int>)

  // ---- ranks of one snapshot ----

  /** `key=lambda x: -x[1]`. */
  function ByScore(): (Standing, Standing) -> bool {
    (a: Standing, b: Standing) => -a.score <= -b.score
  }

  predicate UniqueUsers(s: seq<Standing>) {
    forall i, j :: 0 <= i < j < |s| ==> s[i].username != s[j].username
  }

  function Users(s: seq<Standing>): set<string> {
    set x | x in s :: x.username
  }

  /** The dictionary `{u: i + 1}` over an enumeration. */
  function Enumerated(s: seq<Standing>): map<string, nat> {
    if s == [] then map[] else Enumerated(s[..|s| - 1])[s[|s| - 1].username := |s|]
  }

  function Ranks(snapshot: seq<Standing>): map<string, nat> {
    Enumerated(Sort(snapshot, ByScore()))
  }

  method RankSnapshot(snapshot: seq<Standing>) returns (ranks: map<string, nat>)
    ensures ranks == Ranks(snapshot)
  {
    var sortedUsers := Sort(snapshot, ByScore());
    ranks := map[];
    for i := 0 to |sortedUsers|
      invariant ranks == Enumerated(sortedUsers[..i])
    {
      assert sortedUsers[..i + 1][..i] == sortedUsers[..i];
      ranks := ranks[sortedUsers[i].username := i + 1];
    }
    assert sortedUsers[..|sortedUsers|] == sortedUsers;
  }

  /** `ranks` numbers the entries of `s` from 1. */
  ghost predicate Numbers(s: seq<Standing>, ranks: map<string, nat>) {
    && ranks.Keys == Users(s)
    && forall i :: 0 <= i < |s| ==> s[i].username in ranks && ranks[s[i].username] == i + 1
  }

  lemma NumbersOneMore(s: seq<Standing>, x: Standing, ranks: map<string, nat>)
    requires Numbers(s, ranks) && UniqueUsers(s + [x])
    ensures Numbers(s + [x], ranks[x.username := |s| + 1])
  {
    var s' := s + [x];
    assert Users(s') == Users(s) + {x.username};
    forall i | 0 <= i < |s| ensures s'[i].username in ranks && s'[i].username != s'[|s|].username {
      assert s'[i] == s[i];
    }
  }

  lemma {:induction false} EnumeratedIs(s: seq<Standing>)
    requires UniqueUsers(s)
    ensures Numbers(s, Enumerated(s))
    decreases |s|
  {
    if s != [] {
      var front := s[..|s| - 1];
      EnumeratedIs(front);
      assert s == front + [s[|s| - 1]];
      NumbersOneMore(front, s[|s| - 1], Enumerated(front));
    }
  }

  /** A permutation of a snapshot lists the same users, each once. */
  lemma UniqueAfterSort(a: seq<Standing>, b: seq<Standing>)
    requires UniqueUsers(a) && multiset(a) == multiset(b)
    ensures UniqueUsers(b) && Users(b) == Users(a)
  {
    assert forall x :: x in a <==> x in multiset(a);
    assert forall x :: x in b <==> x in multiset(b);
    forall i, j | 0 <= i < j < |b| ensures b[i].username != b[j].username {
      assert b[i] in a && b[j] in a;
      if b[i].username == b[j].username {
        assert b[i] == b[j];
        AtLeastTwice(b, i, j);
        AtMostOnce(a, b[i]);
      }
    }
  }

  /** Standings of `s` that precede nothing else matter only by score: ties keep their order. */
  lemma SortedSnapshot(snapshot: seq<Standing>) returns (s: seq<Standing>)
    requires UniqueUsers(snapshot)
    ensures s == Sort(snapshot, ByScore()) && Sorted(s, ByScore()) && multiset(s) == multiset(snapshot)
    ensures UniqueUsers(s) && Users(s) == Users(snapshot) && |s| == |snapshot|
    ensures Ranks(snapshot).Keys == Users(snapshot) && Numbers(s, Ranks(snapshot))
  {
    assert TotalPreorder(ByScore());
    s := Sort(snapshot, ByScore());
    SortSorts(snapshot, ByScore());
    UniqueAfterSort(snapshot, s);
    EnumeratedIs(s);
  }

  ghost predicate Taken(ranks: map<string, nat>, r: nat) {
    exists u :: u in ranks && ranks[u] == r
  }

  lemma NumberingIsBijection(s: seq<Standing>, ranks: map<string, nat>)
    requires Numbers(s, ranks)
    ensures forall u | u in ranks :: 1 <= ranks[u] <= |s|
    ensures forall u, v | u in ranks && v in ranks && ranks[u] == ranks[v] :: u == v
    ensures forall r: nat | 1 <= r <= |s| :: Taken(ranks, r)
  {
    forall u | u in ranks ensures exists i :: 0 <= i < |s| && s[i].username == u && ranks[u] == i + 1 {
      assert u in Users(s);
      var x :| x in s && x.username == u;
      var i :| 0 <= i < |s| && s[i] == x;
    }
    forall r: nat | 1 <= r <= |s| ensures Taken(ranks, r) {
      assert s[r - 1].username in ranks && ranks[s[r - 1].username] == r;
    }
  }

  /** Every user has a rank in 1..n and every rank in 1..n has exactly one user. */
  lemma RanksAreBijection(snapshot: seq<Standing>)
    requires UniqueUsers(snapshot)
    ensures var ranks := Ranks(snapshot);
            && ranks.Keys == Users(snapshot)
            && (forall u | u in ranks :: 1 <= ranks[u] <= |snapshot|)
            && (forall u, v | u in ranks && v in ranks && ranks[u] == ranks[v] :: u == v)
            && (forall r: nat | 1 <= r <= |snapshot| :: Taken(ranks, r))
  {
    var s := SortedSnapshot(snapshot);
    NumberingIsBijection(s, Ranks(snapshot));
  }

  lemma NumberingFollowsOrder(s: seq<Standing>, ranks: map<string, nat>, x: Standing, y: Standing)
    requires Numbers(s, ranks) && Sorted(s, ByScore()) && x in s && y in s && x.score > y.score
    ensures x.username in ranks && y.username in ranks && ranks[x.username] < ranks[y.username]
  {
    var i :| 0 <= i < |s| && s[i] == x;
    var j :| 0 <= j < |s| && s[j] == y;
    assert i > j ==> ByScore()(s[j], s[i]);
  }

  /** A higher score has a better rank; equal scores keep the order of the rows. */
  lemma RanksFollowScores(snapshot: seq<Standing>, x: Standing, y: Standing)
    requires UniqueUsers(snapshot) && x in snapshot && y in snapshot && x.score > y.score
    ensures var ranks := Ranks(snapshot);
            x.username in ranks && y.username in ranks && ranks[x.username] < ranks[y.username]
    ensures Ties(Sort(snapshot, ByScore()), x, ByScore()) == Ties(snapshot, x, ByScore())
  {
    var s := SortedSnapshot(snapshot);
    assert x in multiset(snapshot) && y in multiset(snapshot);
    assert x in s && y in s;
    NumberingFollowsOrder(s, Ranks(snapshot), x, y);
    assert TotalPreorder(ByScore());
    SortStable(snapshot, ByScore(), x);
  }

  // ---- deltas between two snapshots ----

  function RankIn(ranks: map<string, nat>, u: string): Option<nat> {
    if u in ranks then Some(ranks[u]) else None
  }

  function DeltaFor(prev: map<string, nat>, cur: map<string, nat>, u: string): Delta {
    var p, c := RankIn(prev, u), RankIn(cur, u);
    Delta(u, p, c, if p.Some? && c.Some? then Some(p.value - c.value) else None)
  }

  /** `key=lambda d: (d["current_rank"] is None, d["current_rank"] or 0)`. */
  function ByCurrentRank(): (Delta, Delta) -> bool {
    (a: Delta, b: Delta) =>
      if a.currentRank.None? then b.currentRank.None?
      else b.currentRank.None? || a.currentRank.value <= b.currentRank.value
  }

  function DeltaUsers(deltas: seq<Delta>): set<string> {
    set d | d in deltas :: d.username
  }

  /** The ranks of one user in both snapshots, and by how many places the user rose. */
  predicate IsDelta(d: Delta, prev: map<string, nat>, cur: map<string, nat>) {
    && (if d.username in prev then d.previousRank == Some(prev[d.username]) else d.previousRank.None?)
    && (if d.username in cur then d.currentRank == Some(cur[d.username]) else d.currentRank.None?)
    && (d.delta.Some? <==> d.username in prev && d.username in cur)
    && (d.delta.Some? ==> d.delta.value == d.previousRank.value - d.currentRank.value)
  }

  /** The better current rank first, users without one last. */
  predicate InRankOrder(deltas: seq<Delta>) {
    forall i, j :: 0 <= i < j < |deltas| && deltas[j].currentRank.Some? ==>
      deltas[i].currentRank.Some? && deltas[i].currentRank.value <= deltas[j].currentRank.value
  }

  /** One delta for each user of either snapshot, in rank order. */
  ghost predicate AreDeltas(deltas: seq<Delta>, prev: map<string, nat>, cur: map<string, nat>) {
    && (forall d | d in deltas :: IsDelta(d, prev, cur))
    && (forall i, j :: 0 <= i < j < |deltas| ==> deltas[i].username != deltas[j].username)
    && DeltaUsers(deltas) == prev.Keys + cur.Keys
    && InRankOrder(deltas)
  }

  lemma SortedInRankOrder(deltas: seq<Delta>)
    requires Sorted(deltas, ByCurrentRank())
    ensures InRankOrder(deltas)
  {
    forall i, j | 0 <= i < j < |deltas| && deltas[j].currentRank.Some?
      ensures deltas[i].currentRank.Some? && deltas[i].currentRank.value <= deltas[j].currentRank.value
    {
      assert ByCurrentRank()(deltas[i], deltas[j]);
    }
  }

  ghost predicate Collected(deltas: seq<Delta>, left: set<string>, prev: map<string, nat>, cur: map<string, nat>) {
    && (forall d | d in deltas :: d == DeltaFor(prev, cur, d.username))
    && (forall i, j :: 0 <= i < j < |deltas| ==> deltas[i].username != deltas[j].username)
    && DeltaUsers(deltas) !! left
    && DeltaUsers(deltas) + left == prev.Keys + cur.Keys
  }

  lemma CollectOne(deltas: seq<Delta>, left: set<string>, u: string, prev: map<string, nat>, cur: map<string, nat>)
    requires Collected(deltas, left, prev, cur) && u in left
    ensures Collected(deltas + [DeltaFor(prev, cur, u)], left - {u}, prev, cur)
  {
    var more := deltas + [DeltaFor(prev, cur, u)];
    assert DeltaUsers(more) == DeltaUsers(deltas) + {u};
    forall i, j | 0 <= i < j < |more| ensures more[i].username != more[j].username {
      assert more[i] in deltas;
      assert more[i].username in DeltaUsers(deltas);
    }
  }

  lemma KeepsDeltas(a: seq<Delta>, b: seq<Delta>)
    requires multiset(a) == multiset(b)
    requires forall i, j :: 0 <= i < j < |a| ==> a[i].username != a[j].username
    ensures forall d :: d in a <==> d in b
    ensures forall i, j :: 0 <= i < j < |b| ==> b[i].username != b[j].username
    ensures DeltaUsers(b) == DeltaUsers(a)
  {
    assert forall d :: d in a <==> d in multiset(a);
    assert forall d :: d in b <==> d in multiset(b);
    forall i, j | 0 <= i < j < |b| ensures b[i].username != b[j].username {
      if b[i].username == b[j].username {
        assert b[i] in a && b[j] in a;
        assert b[i] == b[j];
        AtLeastTwice(b, i, j);
        AtMostOnce(a, b[i]);
      }
    }
  }

  lemma DeltaForIs(prev: map<string, nat>, cur: map<string, nat>, u: string)
    ensures IsDelta(DeltaFor(prev, cur, u), prev, cur)
  {
  }

  lemma CollectedSorted(collected: seq<Delta>, deltas: seq<Delta>, prev: map<string, nat>, cur: map<string, nat>)
    requires Collected(collected, {}, prev, cur)
    requires multiset(deltas) == multiset(collected) && Sorted(deltas, ByCurrentRank())
    ensures AreDeltas(deltas, prev, cur)
  {
    KeepsDeltas(collected, deltas);
    SortedInRankOrder(deltas);
    forall d | d in deltas ensures IsDelta(d, prev, cur) {
      DeltaForIs(prev, cur, d.username);
    }
  }

  method DeltasBetween(prev: map<string, nat>, cur: map<string, nat>) returns (deltas: seq<Delta>)
    ensures AreDeltas(deltas, prev, cur)
  {
    var left := prev.Keys + cur.Keys;
    deltas := [];
    while left != {}
      invariant Collected(deltas, left, prev, cur)
    {
      var u :| u in left;
      CollectOne(deltas, left, u, prev, cur);
      deltas := deltas + [DeltaFor(prev, cur, u)];
      left := left - {u};
    }
    ghost var collected := deltas;
    SortSorts(deltas, ByCurrentRank());
    deltas := Sort(deltas, ByCurrentRank());
    CollectedSorted(collected, deltas, prev, cur);
  }

  function TotalDelta(deltas: seq<Delta>): int {
    if deltas == [] then 0
    else (if deltas[0].delta.Some? then deltas[0].delta.value else 0) + TotalDelta(deltas[1..])
  }

  function Names(s: seq<Standing>): seq<string> {
    if s == [] then [] else Names(s[..|s| - 1]) + [s[|s| - 1].username]
  }

  function DeltaNames(deltas: seq<Delta>): (names: seq<string>)
    ensures |names| == |deltas| && forall i :: 0 <= i < |names| ==> names[i] == deltas[i].username
  {
    if deltas == [] then [] else [deltas[0].username] + DeltaNames(deltas[1..])
  }

  function RankWeight(ranks: map<string, nat>): string -> nat {
    u => if u in ranks then ranks[u] else 0
  }

  lemma {:induction false} TotalDeltaIs(deltas: seq<Delta>, prev: map<string, nat>, cur: map<string, nat>)
    requires forall d | d in deltas :: IsDelta(d, prev, cur) && d.username in prev && d.username in cur
    ensures TotalDelta(deltas) == Sum(DeltaNames(deltas), RankWeight(prev)) - Sum(DeltaNames(deltas), RankWeight(cur))
  {
    if deltas != [] {
      assert deltas[0] in deltas;
      TotalDeltaIs(deltas[1..], prev, cur);
    }
  }

  function Triangle(n: nat): nat {
    if n == 0 then 0 else Triangle(n - 1) + n
  }

  lemma {:induction false} NamesOf(s: seq<Standing>)
    ensures |Names(s)| == |s| && forall i :: 0 <= i < |s| ==> Names(s)[i] == s[i].username
    decreases |s|
  {
    if s != [] {
      NamesOf(s[..|s| - 1]);
    }
  }

  lemma {:induction false} RankSum(s: seq<Standing>, ranks: map<string, nat>)
    requires forall i :: 0 <= i < |s| ==> s[i].username in ranks && ranks[s[i].username] == i + 1
    ensures Sum(Names(s), RankWeight(ranks)) == Triangle(|s|)
    decreases |s|
  {
    if s != [] {
      var front := s[..|s| - 1];
      assert forall i :: 0 <= i < |front| ==> front[i] == s[i];
      RankSum(front, ranks);
      SumPush(Names(front), s[|s| - 1].username, RankWeight(ranks));
    }
  }

  /** Two lists without repetition of the same names are permutations of each other. */
  lemma SameNames(a: seq<string>, b: seq<string>)
    requires forall i, j :: 0 <= i < j < |a| ==> a[i] != a[j]
    requires forall i, j :: 0 <= i < j < |b| ==> b[i] != b[j]
    requires forall x :: x in a <==> x in b
    ensures multiset(a) == multiset(b)
  {
    forall x ensures multiset(a)[x] == multiset(b)[x] {
      AtMostOnce(a, x);
      AtMostOnce(b, x);
      assert x in a <==> x in multiset(a);
      assert x in b <==> x in multiset(b);
    }
  }

  lemma NamesAreUsers(s: seq<Standing>, x: string)
    ensures x in Names(s) <==> x in Users(s)
  {
    NamesOf(s);
    if x in Users(s) {
      var y :| y in s && y.username == x;
      var i :| 0 <= i < |s| && s[i] == y;
      assert Names(s)[i] == x;
    }
    if x in Names(s) {
      var i :| 0 <= i < |s| && Names(s)[i] == x;
      assert s[i] in s && s[i].username == x;
    }
  }

  /** The ranks of all users of a snapshot, in whatever order, add up to 1 + ... + n. */
  lemma RanksAddUp(snapshot: seq<Standing>, names: seq<string>)
    requires UniqueUsers(snapshot)
    requires forall i, j :: 0 <= i < j < |names| ==> names[i] != names[j]
    requires forall x :: x in names <==> x in Users(snapshot)
    ensures Sum(names, RankWeight(Ranks(snapshot))) == Triangle(|snapshot|)
  {
    var s := SortedSnapshot(snapshot);
    RankSum(s, Ranks(snapshot));
    forall x ensures x in names <==> x in Names(s) {
      NamesAreUsers(s, x);
    }
    NamesOf(s);
    SameNames(names, Names(s));
    SumPermutation(names, Names(s), RankWeight(Ranks(snapshot)));
  }

  lemma {:induction false} UserCount(s: seq<Standing>)
    requires UniqueUsers(s)
    ensures |Users(s)| == |s|
  {
    if s == [] {
      assert Users(s) == {};
    } else {
      UserCount(s[1..]);
      assert s == [s[0]] + s[1..];
      assert Users(s) == {s[0].username} + Users(s[1..]);
      assert s[0].username !in Users(s[1..]);
    }
  }

  lemma DeltaNamesAreUsers(deltas: seq<Delta>, x: string)
    ensures x in DeltaNames(deltas) <==> x in DeltaUsers(deltas)
  {
    var names := DeltaNames(deltas);
    if x in DeltaUsers(deltas) {
      var d :| d in deltas && d.username == x;
      var i :| 0 <= i < |deltas| && deltas[i] == d;
      assert names[i] == x;
    }
    if x in names {
      var i :| 0 <= i < |names| && names[i] == x;
      assert deltas[i] in deltas;
    }
  }

  /** When both snapshots have the same users, what some users gain in rank others lose. */
  lemma DeltasSumToZero(previous: seq<Standing>, current: seq<Standing>, deltas: seq<Delta>)
    requires UniqueUsers(previous) && UniqueUsers(current) && Users(previous) == Users(current)
    requires AreDeltas(deltas, Ranks(previous), Ranks(current))
    ensures TotalDelta(deltas) == 0
  {
    RanksAreBijection(previous);
    RanksAreBijection(current);
    forall d | d in deltas ensures d.username in Ranks(previous) && d.username in Ranks(current) {
      assert d.username in DeltaUsers(deltas);
      assert d.username in Users(previous);
    }
    TotalDeltaIs(deltas, Ranks(previous), Ranks(current));
    forall x ensures x in DeltaNames(deltas) <==> x in Users(previous) {
      DeltaNamesAreUsers(deltas, x);
    }
    RanksAddUp(previous, DeltaNames(deltas));
    RanksAddUp(current, DeltaNames(deltas));
    UserCount(previous);
    UserCount(current);
  }

  // ---- the whole query ----

  function SnapshotAt(rows: seq<Row>, at: int): seq<Standing> {
    if rows == [] then []
    else SnapshotAt(rows[..|rows| - 1], at)
         + if rows[|rows| - 1].at == at then [Standing(rows[|rows| - 1].username, rows[|rows| - 1].score)] else []
  }

  function Times(rows: seq<Row>): set<int> {
    set r | r in rows :: r.at
  }

  predicate DistinctTimes(times: seq<int>) {
    forall i, j :: 0 <= i < j < |times| ==> times[i] != times[j]
  }

  lemma SnapshotOneMore(rows: seq<Row>, r: Row, at: int)
    ensures SnapshotAt(rows + [r], at)
         == SnapshotAt(rows, at) + if r.at == at then [Standing(r.username, r.score)] else []
  {
    assert (rows + [r])[..|rows|] == rows;
  }

  ghost predicate Grouped(snapshots: map<int, seq<Standing>>, rows: seq<Row>) {
    && snapshots.Keys == Times(rows)
    && forall at | at in snapshots :: snapshots[at] == SnapshotAt(rows, at)
  }

  lemma {:induction false} NoRowsNoSnapshot(rows: seq<Row>, at: int)
    requires at !in Times(rows)
    ensures SnapshotAt(rows, at) == []
    decreases |rows|
  {
    if rows != [] {
      var n := |rows| - 1;
      assert rows[n] in rows;
      assert forall r | r in rows[..n] :: r in rows;
      NoRowsNoSnapshot(rows[..n], at);
    }
  }

  lemma GroupOneMore(snapshots: map<int, seq<Standing>>, rows: seq<Row>, r: Row)
    requires Grouped(snapshots, rows)
    ensures var group := if r.at in snapshots then snapshots[r.at] else [];
            Grouped(snapshots[r.at := group + [Standing(r.username, r.score)]], rows + [r])
  {
    assert Times(rows + [r]) == Times(rows) + {r.at};
    forall at
      ensures SnapshotAt(rows + [r], at)
           == SnapshotAt(rows, at) + if r.at == at then [Standing(r.username, r.score)] else []
    {
      SnapshotOneMore(rows, r, at);
    }
    if r.at !in snapshots {
      NoRowsNoSnapshot(rows, r.at);
    }
  }

  /** `snapshots.setdefault(at, []).append(...)` over the rows; `keys` are the keys in insertion order. */
  method GroupRows(rows: seq<Row>) returns (snapshots: map<int, seq<Standing>>, keys: seq<int>)
    ensures Grouped(snapshots, rows)
    ensures DistinctTimes(keys) && forall at :: at in keys <==> at in Times(rows)
  {
    snapshots, keys := map[], [];
    for i := 0 to |rows|
      invariant Grouped(snapshots, rows[..i])
      invariant DistinctTimes(keys) && forall at :: at in keys <==> at in snapshots
    {
      var r := rows[i];
      GroupOneMore(snapshots, rows[..i], r);
      assert rows[..i + 1] == rows[..i] + [r];
      if r.at in snapshots {
        snapshots := snapshots[r.at := snapshots[r.at] + [Standing(r.username, r.score)]];
      } else {
        keys := keys + [r.at];
        snapshots := snapshots[r.at := [] + [Standing(r.username, r.score)]];
      }
    }
    assert rows[..|rows|] == rows;
  }

  /** `prev` and `cur` are the two latest snapshot times. */
  ghost predicate LatestTwo(times: set<int>, prev: int, cur: int) {
    && prev in times && cur in times && prev < cur
    && (forall t | t in times :: t <= cur)
    && (forall t | t in times && t != cur :: t <= prev)
  }

  function Earlier(): (int, int) -> bool { (a: int, b: int) => a <= b }

  /** Sorting distinct times gives increasing times. */
  lemma Increasing(keys: seq<int>, sorted: seq<int>, i: nat, j: nat)
    requires DistinctTimes(keys) && multiset(sorted) == multiset(keys) && Sorted(sorted, Earlier())
    requires i < j < |sorted|
    ensures sorted[i] < sorted[j]
  {
    assert Earlier()(sorted[i], sorted[j]);
    if sorted[i] == sorted[j] {
      AtLeastTwice(sorted, i, j);
      AtMostOnce(keys, sorted[i]);
    }
  }

  lemma LastTwoAreLatest(times: set<int>, keys: seq<int>, sorted: seq<int>, prev: int, cur: int)
    requires forall t :: t in sorted <==> t in times
    requires DistinctTimes(keys) && multiset(sorted) == multiset(keys) && Sorted(sorted, Earlier())
    requires LatestTwo(times, prev, cur)
    ensures |sorted| >= 2 && sorted[|sorted| - 2] == prev && sorted[|sorted| - 1] == cur
  {
    forall a, b | 0 <= a < b < |sorted| ensures sorted[a] < sorted[b] {
      Increasing(keys, sorted, a, b);
    }
    assert forall a :: 0 <= a < |sorted| ==> sorted[a] in times;
    var i :| 0 <= i < |sorted| && sorted[i] == cur;
    var j :| 0 <= j < |sorted| && sorted[j] == prev;
    assert i == |sorted| - 1;
    assert sorted[|sorted| - 2] <= prev;
  }

  /** `sorted(snapshots)`. */
  method OrderTimes(ghost times: set<int>, keys: seq<int>) returns (tsList: seq<int>)
    requires DistinctTimes(keys) && forall t :: t in keys <==> t in times
    ensures forall k :: 0 <= k < |tsList| ==> tsList[k] in times
    ensures |tsList| >= 2 ==> exists t, u :: t in times && u in times && t != u
    ensures forall prev, cur | LatestTwo(times, prev, cur) ::
              |tsList| >= 2 && tsList[|tsList| - 2] == prev && tsList[|tsList| - 1] == cur
  {
    tsList := Sort(keys, Earlier());
    SortSorts(keys, Earlier());
    LatestAreLast(times, keys, tsList);
  }

  /** The loop that ranks every snapshot, oldest first. */
  method RankAll(rows: seq<Row>, snapshots: map<int, seq<Standing>>, tsList: seq<int>)
    returns (ranksPerTs: seq<map<string, nat>>)
    requires Grouped(snapshots, rows) && forall k :: 0 <= k < |tsList| ==> tsList[k] in snapshots
    ensures |ranksPerTs| == |tsList|
    ensures forall k :: 0 <= k < |tsList| ==> ranksPerTs[k] == Ranks(SnapshotAt(rows, tsList[k]))
  {
    ranksPerTs := [];
    for i := 0 to |tsList|
      invariant |ranksPerTs| == i
      invariant forall k :: 0 <= k < i ==> ranksPerTs[k] == Ranks(SnapshotAt(rows, tsList[k]))
    {
      var ranks := RankSnapshot(snapshots[tsList[i]]);
      ranksPerTs := ranksPerTs + [ranks];
    }
  }

  method LastDeltas(ghost rows: seq<Row>, ghost tsList: seq<int>, ranksPerTs: seq<map<string, nat>>)
    returns (deltas: seq<Delta>)
    requires |ranksPerTs| == |tsList| >= 2
    requires forall k :: 0 <= k < |tsList| ==> ranksPerTs[k] == Ranks(SnapshotAt(rows, tsList[k]))
    ensures DeltasAt(deltas, rows, tsList[|tsList| - 2], tsList[|tsList| - 1])
  {
    deltas := DeltasBetween(ranksPerTs[|ranksPerTs| - 2], ranksPerTs[|ranksPerTs| - 1]);
  }

  /** The deltas between the snapshots at two times. */
  ghost predicate DeltasAt(deltas: seq<Delta>, rows: seq<Row>, prev: int, cur: int) {
    AreDeltas(deltas, Ranks(SnapshotAt(rows, prev)), Ranks(SnapshotAt(rows, cur)))
  }

  /** No deltas before there are two snapshots; then the deltas between the latest two. */
  method ContestDeltas(rows: seq<Row>) returns (deltas: seq<Delta>)
    ensures (forall t, u | t in Times(rows) && u in Times(rows) :: t == u) ==> deltas == []
    ensures forall prev, cur | LatestTwo(Times(rows), prev, cur) :: DeltasAt(deltas, rows, prev, cur)
  {
    var snapshots, keys := GroupRows(rows);
    var tsList := OrderTimes(Times(rows), keys);
    var ranksPerTs := RankAll(rows, snapshots, tsList);
    deltas := [];
    if |ranksPerTs| >= 2 {
      deltas := LastDeltas(rows, tsList, ranksPerTs);
    }
  }

  lemma LatestAreLast(times: set<int>, keys: seq<int>, sorted: seq<int>)
    requires forall t :: t in keys <==> t in times
    requires DistinctTimes(keys) && multiset(sorted) == multiset(keys) && Sorted(sorted, Earlier())
    ensures forall k :: 0 <= k < |sorted| ==> sorted[k] in times
    ensures |sorted| >= 2 ==> exists t, u :: t in times && u in times && t != u
    ensures forall prev, cur | LatestTwo(times, prev, cur) ::
              |sorted| >= 2 && sorted[|sorted| - 2] == prev && sorted[|sorted| - 1] == cur
  {
    SameTimes(keys, sorted);
    if |sorted| >= 2 {
      TwoTimes(keys, sorted);
    }
    forall prev, cur | LatestTwo(times, prev, cur)
      ensures |sorted| >= 2 && sorted[|sorted| - 2] == prev && sorted[|sorted| - 1] == cur
    {
      LastTwoAreLatest(times, keys, sorted, prev, cur);
    }
  }

  lemma SameTimes(keys: seq<int>, sorted: seq<int>)
    requires multiset(sorted) == multiset(keys)
    ensures forall t :: t in keys <==> t in sorted
  {
    assert forall t :: t in sorted <==> t in multiset(sorted);
    assert forall t :: t in keys <==> t in multiset(keys);
  }

  lemma TwoTimes(keys: seq<int>, sorted: seq<int>)
    requires DistinctTimes(keys) && multiset(sorted) == multiset(keys) && |sorted| >= 2
    ensures exists t, u :: t in keys && u in keys && t != u
  {
    assert |multiset(sorted)| == |sorted| && |multiset(keys)| == |keys|;
    assert keys[0] in keys && keys[1] in keys;
  }

  ghost predicate UniqueRows(rows: seq<Row>) {
    forall i, j :: 0 <= i < j < |rows| ==> rows[i].at != rows[j].at || rows[i].username != rows[j].username
  }

  /** Rows with one score per user and time give snapshots without repeated users. */
  lemma {:induction false} SnapshotsUnique(rows: seq<Row>, at: int)
    requires UniqueRows(rows)
    ensures UniqueUsers(SnapshotAt(rows, at))
    ensures forall x | x in SnapshotAt(rows, at) ::
              exists i :: 0 <= i < |rows| && rows[i] == Row(x.username, x.score, at)
    decreases |rows|
  {
    if rows != [] {
      var n := |rows| - 1;
      var front := rows[..n];
      SnapshotsUnique(front, at);
      forall x | x in SnapshotAt(rows, at)
        ensures exists i :: 0 <= i < |rows| && rows[i] == Row(x.username, x.score, at)
      {
        if x in SnapshotAt(front, at) {
          var i :| 0 <= i < |front| && front[i] == Row(x.username, x.score, at);
          assert rows[i] == front[i];
        } else {
          assert rows[n] == Row(x.username, x.score, at);
        }
      }
      if rows[n].at == at {
        forall x | x in SnapshotAt(front, at) ensures x.username != rows[n].username {
          var i :| 0 <= i < |front| && front[i] == Row(x.username, x.score, at);
          assert rows[i] == front[i];
        }
        var s := SnapshotAt(front, at);
        assert forall i :: 0 <= i < |s| ==> s[i] in s;
      }
    }
  }
}
