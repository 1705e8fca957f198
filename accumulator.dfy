/**
 * The standings accumulator: `update_standings` adds one game to the
 * `defaultdict(int)` that maps each team to its points. A win is worth 3
 * points, a draw 1 to each side, a loss nothing, and both teams become keys
 * whatever the outcome.
 */
module Accumulator {
  import opened LineParser

  /** One `(team, points)` pair of `standings.items()`. */
  datatype Entry = Entry(team: string, points: int)

  const WinPoints := 3
  const DrawPoints := 1

  /** `standings[team]` on a `defaultdict(int)`: 0 for a team not seen yet. */
  function Get(points: map<string, int>, team: string): int {
    if team in points then points[team] else 0
  }

  /** The points a side that scored `own` against `other` earns. */
  function Gain(own: int, other: int): (k: nat)
    ensures k == WinPoints || k == DrawPoints || k == 0
    ensures (k == DrawPoints) == (own == other)
  {
    if own > other then WinPoints else if own == other then DrawPoints else 0
  }

  /** The points `team` earns from game `g` (both gains when a team plays itself). */
  function Earned(g: GameResult, team: string): nat {
    (if team == g.team1 then Gain(g.score1, g.score2) else 0) + (if team == g.team2 then Gain(g.score2, g.score1) else 0)
  }

  lemma MapsEqualByGet(a: map<string, int>, b: map<string, int>)
    requires a.Keys == b.Keys
    requires forall t :: Get(a, t) == Get(b, t)
    ensures a == b
  {
    forall t | t in a ensures a[t] == b[t] {
      assert Get(a, t) == Get(b, t);
    }
  }

  /** The totals after `standings[team] += k` on a `defaultdict(int)`. */
  function AddPoints(points: map<string, int>, team: string, k: int): (r: map<string, int>)
    ensures r.Keys == points.Keys + {team}
    ensures forall t :: Get(r, t) == Get(points, t) + (if t == team then k else 0)
  {
    points[team := Get(points, team) + k]
  }

  /**
   * The totals after one game (the specification of `update_standings`):
   * both teams are keys afterwards, each team gains exactly what it earned,
   * and no other team's total changes.
   */
  function Scored(points: map<string, int>, g: GameResult): (r: map<string, int>)
    ensures r.Keys == points.Keys + {g.team1, g.team2}
    ensures forall t :: Get(r, t) == Get(points, t) + Earned(g, t)
    ensures forall t :: t != g.team1 && t != g.team2 ==> Get(r, t) == Get(points, t)
    ensures forall t :: Get(r, t) >= Get(points, t)
    ensures g.team1 != g.team2 && g.score1 > g.score2 ==>
      r[g.team1] == Get(points, g.team1) + 3 && r[g.team2] == Get(points, g.team2)
    ensures g.team1 != g.team2 && g.score1 < g.score2 ==>
      r[g.team1] == Get(points, g.team1) && r[g.team2] == Get(points, g.team2) + 3
    ensures g.team1 != g.team2 && g.score1 == g.score2 ==>
      r[g.team1] == Get(points, g.team1) + 1 && r[g.team2] == Get(points, g.team2) + 1
    ensures g.team1 == g.team2 ==>
      r[g.team1] == Get(points, g.team1) + (if g.score1 == g.score2 then 2 else 3)
  {
    var r := AddPoints(AddPoints(points, g.team1, Gain(g.score1, g.score2)), g.team2, Gain(g.score2, g.score1));
    assert Get(r, g.team1) == r[g.team1] && Get(r, g.team2) == r[g.team2];
    r
  }

  /** The win example of the unit tests. */
  lemma ScoredExampleWin()
    ensures Scored(map["Lions" := 0, "Snakes" := 0], GameResult("Lions", 3, "Snakes", 1)) == map["Lions" := 3, "Snakes" := 0]
  {
    var r := Scored(map["Lions" := 0, "Snakes" := 0], GameResult("Lions", 3, "Snakes", 1));
    assert r.Keys == {"Lions", "Snakes"};
  }

  /** The draw example of the unit tests. */
  lemma ScoredExampleDraw()
    ensures Scored(map["Lions" := 0, "Snakes" := 0], GameResult("Lions", 2, "Snakes", 2)) == map["Lions" := 1, "Snakes" := 1]
  {
    var r := Scored(map["Lions" := 0, "Snakes" := 0], GameResult("Lions", 2, "Snakes", 2));
    assert r.Keys == {"Lions", "Snakes"};
  }

  /** Two games can be added in either order. */
  lemma ScoredCommute(points: map<string, int>, a: GameResult, b: GameResult)
    ensures Scored(Scored(points, a), b) == Scored(Scored(points, b), a)
  {
    var ab, ba := Scored(Scored(points, a), b), Scored(Scored(points, b), a);
    forall t ensures Get(ab, t) == Get(ba, t) {
      ScoredTwice(points, a, b, t);
      ScoredTwice(points, b, a, t);
    }
    MapsEqualByGet(ab, ba);
  }

  lemma ScoredTwice(points: map<string, int>, a: GameResult, b: GameResult, t: string)
    ensures Scored(Scored(points, a), b).Keys == points.Keys + {a.team1, a.team2, b.team1, b.team2}
    ensures Get(Scored(Scored(points, a), b), t) == Get(points, t) + Earned(a, t) + Earned(b, t)
  {
  }

  // ---------------------------------------------------------------------------
  // Total points
  // ---------------------------------------------------------------------------

  ghost function Pick(points: map<string, int>): (t: string)
    requires points != map[]
    ensures t in points
  {
    var t :| t in points; t
  }

  /** The sum of all totals in the standings. */
  ghost function Total(points: map<string, int>): int
    decreases |points|
  {
    if points == map[] then 0
    else
      var t := Pick(points);
      assert |points - {t}| < |points| by {
        assert (points - {t}).Keys == points.Keys - {t};
      }
      points[t] + Total(points - {t})
  }

  lemma {:induction false} TotalWithout(points: map<string, int>, t: string)
    requires t in points
    ensures Total(points) == points[t] + Total(points - {t})
    decreases |points|
  {
    var u := Pick(points);
    if u != t {
      var rest := points - {u};
      assert (points - {u}).Keys == points.Keys - {u};
      assert (points - {t}).Keys == points.Keys - {t};
      TotalWithout(rest, t);
      TotalWithout(points - {t}, u);
      assert rest - {t} == (points - {t}) - {u};
    }
  }

  /** `standings[team] += k` raises the sum of all totals by exactly `k`. */
  lemma TotalAddPoints(points: map<string, int>, team: string, k: int)
    ensures Total(AddPoints(points, team, k)) == Total(points) + k
  {
    var r := AddPoints(points, team, k);
    assert r[team] == Get(points, team) + k;
    TotalWithout(r, team);
    if team in points {
      TotalWithout(points, team);
      assert r - {team} == points - {team};
    } else {
      assert r - {team} == points;
    }
  }

  /** A decisive game adds exactly 3 points to the league, a draw exactly 2. */
  lemma TotalScored(points: map<string, int>, g: GameResult)
    ensures Total(Scored(points, g)) == Total(points) + (if g.score1 == g.score2 then 2 else 3)
  {
    var once := AddPoints(points, g.team1, Gain(g.score1, g.score2));
    TotalAddPoints(points, g.team1, Gain(g.score1, g.score2));
    TotalAddPoints(once, g.team2, Gain(g.score2, g.score1));
  }

  // ---------------------------------------------------------------------------
  // The accumulation over a sequence of games
  // ---------------------------------------------------------------------------

  /** Every team named in the games. */
  function TeamsOf(results: seq<GameResult>): set<string> {
    if results == [] then {}
    else TeamsOf(results[..|results| - 1]) + {results[|results| - 1].team1, results[|results| - 1].team2}
  }

  /** The totals after adding the games in order (the loop in `main`). */
  function PointsAfter(points: map<string, int>, results: seq<GameResult>): (r: map<string, int>)
    ensures r.Keys == points.Keys + TeamsOf(results)
  {
    if results == [] then points
    else Scored(PointsAfter(points, results[..|results| - 1]), results[|results| - 1])
  }

  /** The points `team` earned across the games. */
  function EarnedIn(results: seq<GameResult>, team: string): nat {
    if results == [] then 0
    else EarnedIn(results[..|results| - 1], team) + Earned(results[|results| - 1], team)
  }

  /** Each team's total is what it started with plus what it earned in the games. */
  lemma {:induction false} PointsAfterGet(points: map<string, int>, results: seq<GameResult>, team: string)
    ensures Get(PointsAfter(points, results), team) == Get(points, team) + EarnedIn(results, team)
  {
    if results != [] {
      PointsAfterGet(points, results[..|results| - 1], team);
    }
  }

  /** The points a league of these games hands out: 3 for each decisive game, 2 for each draw. */
  function PointsHandedOut(results: seq<GameResult>): nat {
    if results == [] then 0
    else
      var last := results[|results| - 1];
      PointsHandedOut(results[..|results| - 1]) + (if last.score1 == last.score2 then 2 else 3)
  }

  /** Adding games raises the sum of all totals by exactly the points they hand out. */
  lemma {:induction false} TotalPointsAfter(points: map<string, int>, results: seq<GameResult>)
    ensures Total(PointsAfter(points, results)) == Total(points) + PointsHandedOut(results)
  {
    if results != [] {
      var init := results[..|results| - 1];
      TotalPointsAfter(points, init);
      TotalScored(PointsAfter(points, init), results[|results| - 1]);
    }
  }

  lemma PointsAfterSnoc(points: map<string, int>, s: seq<GameResult>, x: GameResult)
    ensures PointsAfter(points, s + [x]) == Scored(PointsAfter(points, s), x)
  {
    assert (s + [x])[..|s|] == s;
  }

  lemma {:induction false} PointsAfterMoveToEnd(points: map<string, int>, xs: seq<GameResult>, a: GameResult, ys: seq<GameResult>)
    ensures PointsAfter(points, xs + [a] + ys) == Scored(PointsAfter(points, xs + ys), a)
    decreases |ys|
  {
    if ys == [] {
      assert xs + [a] + ys == xs + [a];
      assert xs + ys == xs;
      PointsAfterSnoc(points, xs, a);
    } else {
      var y, init := ys[|ys| - 1], ys[..|ys| - 1];
      assert xs + [a] + ys == (xs + [a] + init) + [y];
      assert xs + ys == (xs + init) + [y];
      PointsAfterSnoc(points, xs + [a] + init, y);
      PointsAfterMoveToEnd(points, xs, a, init);
      ScoredCommute(PointsAfter(points, xs + init), a, y);
      PointsAfterSnoc(points, xs + init, y);
    }
  }

  /** The totals do not depend on the order in which the games are added. */
  lemma {:induction false} PointsAfterPermutation(points: map<string, int>, p: seq<GameResult>, q: seq<GameResult>)
    requires multiset(p) == multiset(q)
    ensures PointsAfter(points, p) == PointsAfter(points, q)
    decreases |p|
  {
    if p == [] {
      assert |q| == |multiset(q)| == 0;
    } else {
      var a, init := p[|p| - 1], p[..|p| - 1];
      assert p == init + [a];
      assert a in multiset(q);
      var i :| 0 <= i < |q| && q[i] == a;
      var rest := q[..i] + q[i + 1..];
      RemoveAt(q, i);
      assert multiset(init) == multiset(p) - multiset{a};
      PointsAfterPermutation(points, init, rest);
      PointsAfterMoveToEnd(points, q[..i], a, q[i + 1..]);
    }
  }

  /** Taking out the element at `i` takes one copy of it out of the multiset. */
  lemma RemoveAt<T>(q: seq<T>, i: int)
    requires 0 <= i < |q|
    ensures q == q[..i] + [q[i]] + q[i + 1..]
    ensures multiset(q[..i] + q[i + 1..]) == multiset(q) - multiset{q[i]}
  {
    assert q == q[..i] + [q[i]] + q[i + 1..];
    assert multiset(q) == multiset(q[..i]) + multiset{q[i]} + multiset(q[i + 1..]);
  }

  // ---------------------------------------------------------------------------
  // The dictionary with its insertion order
  // ---------------------------------------------------------------------------

  predicate DistinctTeams(teams: seq<string>) {
    forall i, j :: 0 <= i < j < |teams| ==> teams[i] != teams[j]
  }

  /** A dictionary value: its keys, once each, in insertion order, and the totals they map to. */
  ghost predicate TableValid(teams: seq<string>, points: map<string, int>) {
    DistinctTeams(teams) && forall t :: t in points <==> t in teams
  }

  /** The key order after `standings[team]` is touched: a new key goes last. */
  function Enroll(teams: seq<string>, team: string): (r: seq<string>)
    ensures forall t :: t in r <==> t in teams || t == team
    ensures DistinctTeams(teams) ==> DistinctTeams(r)
  {
    if team in teams then teams else teams + [team]
  }

  /** The key order after the games are added in order. */
  function TeamsAfter(teams: seq<string>, results: seq<GameResult>): (r: seq<string>)
    ensures forall t :: t in r <==> t in teams || t in TeamsOf(results)
    ensures DistinctTeams(teams) ==> DistinctTeams(r)
  {
    if results == [] then teams
    else
      var last := results[|results| - 1];
      Enroll(Enroll(TeamsAfter(teams, results[..|results| - 1]), last.team1), last.team2)
  }

  /** Adding games in order keeps keys and totals consistent. */
  lemma AfterValid(teams: seq<string>, points: map<string, int>, results: seq<GameResult>)
    requires TableValid(teams, points)
    ensures TableValid(TeamsAfter(teams, results), PointsAfter(points, results))
  {
  }

  /** `standings.items()`: the entries in key order. */
  function ItemsOf(teams: seq<string>, points: map<string, int>): (r: seq<Entry>)
    requires forall k :: 0 <= k < |teams| ==> teams[k] in points
    ensures |r| == |teams|
    ensures forall k :: 0 <= k < |r| ==> r[k] == Entry(teams[k], points[teams[k]])
  {
    seq(|teams|, k requires 0 <= k < |teams| => Entry(teams[k], points[teams[k]]))
  }

  /** Of a consistent dictionary, `items()` holds one entry per key, and each entry is a key with its total. */
  lemma ItemsOfTable(teams: seq<string>, points: map<string, int>)
    requires TableValid(teams, points)
    ensures forall x :: x in ItemsOf(teams, points) <==> x.team in points && x.points == points[x.team]
    ensures forall i, j :: 0 <= i < j < |ItemsOf(teams, points)| ==> ItemsOf(teams, points)[i].team != ItemsOf(teams, points)[j].team
  {
    var items := ItemsOf(teams, points);
    forall x ensures x in items <==> x.team in points && x.points == points[x.team] {
      if x.team in points && x.points == points[x.team] {
        var k :| 0 <= k < |teams| && teams[k] == x.team;
        assert items[k] == x;
      }
    }
  }

  /** The standings dictionary, updated in place. */
  class Standings {
    /** The keys, in the order they were inserted (the order `items()` lists them in). */
    var teams: seq<string>
    var points: map<string, int>

    ghost predicate Valid()
      reads this
    {
      TableValid(teams, points)
    }

    /** `defaultdict(int)`: an empty dictionary. */
    constructor ()
      ensures Valid() && teams == [] && points == map[]
    {
      teams := [];
      points := map[];
    }

    /** `standings[team] += k`: a missing team is first inserted with 0, then its total grows by `k`. */
    method Add(team: string, k: int)
      requires Valid()
      modifies this
      ensures Valid()
      ensures points == AddPoints(old(points), team, k)
      ensures teams == Enroll(old(teams), team)
    {
      if team !in points {
        teams := teams + [team];
        points := points[team := 0];
      }
      points := points[team := points[team] + k];
    }

    /** `update_standings`: enter both teams, then credit the winner 3 or each side 1 for a draw. */
    method Update(team1: string, score1: int, team2: string, score2: int)
      requires Valid()
      modifies this
      ensures Valid()
      ensures points == Scored(old(points), GameResult(team1, score1, team2, score2))
      ensures teams == Enroll(Enroll(old(teams), team1), team2)
    {
      ghost var before := points;
      Add(team1, 0);
      Add(team2, 0);
      if score1 > score2 {
        Add(team1, 3);
      } else if score1 < score2 {
        Add(team2, 3);
      } else {
        Add(team1, 1);
        Add(team2, 1);
      }
      MapsEqualByGet(points, Scored(before, GameResult(team1, score1, team2, score2)));
    }
  }
}
