/**
 * The ranking order: `get_sorted_standings` sorts the dictionary's entries by
 * the key `(-points, team)`, so more points come first and equal points are
 * broken by the team name in ascending order.
 */
module Ranker {
  import opened Accumulator

  /** Python's `<` on `str`: code point by code point, a proper prefix first. */
  predicate StrLess(a: string, b: string) {
    if |a| == 0 then |b| > 0
    else if |b| == 0 then false
    else if a[0] != b[0] then a[0] < b[0]
    else StrLess(a[1..], b[1..])
  }

  lemma {:induction false} StrLessIrreflexive(a: string)
    ensures !StrLess(a, a)
  {
    if |a| > 0 {
      StrLessIrreflexive(a[1..]);
    }
  }

  lemma {:induction false} StrLessTransitive(a: string, b: string, c: string)
    requires StrLess(a, b) && StrLess(b, c)
    ensures StrLess(a, c)
  {
    if |a| > 0 && |b| > 0 && |c| > 0 && a[0] == b[0] && b[0] == c[0] {
      StrLessTransitive(a[1..], b[1..], c[1..]);
    }
  }

  lemma {:induction false} StrLessTotal(a: string, b: string)
    requires a != b
    ensures StrLess(a, b) || StrLess(b, a)
  {
    if |a| > 0 && |b| > 0 && a[0] == b[0] {
      assert a == [a[0]] + a[1..] && b == [b[0]] + b[1..];
      StrLessTotal(a[1..], b[1..]);
    }
  }

  lemma StrLessAsymmetric(a: string, b: string)
    requires StrLess(a, b)
    ensures !StrLess(b, a)
  {
    if StrLess(b, a) {
      StrLessTransitive(a, b, a);
      StrLessIrreflexive(a);
    }
  }

  /** `x` sorts before `y` under the key `(-points, team)`. */
  predicate Before(x: Entry, y: Entry) {
    x.points > y.points || (x.points == y.points && StrLess(x.team, y.team))
  }

  /** The key order is a strict total order on entries. */
  lemma BeforeIrreflexive(x: Entry)
    ensures !Before(x, x)
  {
    StrLessIrreflexive(x.team);
  }

  lemma BeforeTransitive(x: Entry, y: Entry, z: Entry)
    requires Before(x, y) && Before(y, z)
    ensures Before(x, z)
  {
    if x.points == y.points == z.points {
      StrLessTransitive(x.team, y.team, z.team);
    }
  }

  lemma BeforeTotal(x: Entry, y: Entry)
    requires x != y
    ensures Before(x, y) || Before(y, x)
  {
    if x.points == y.points {
      StrLessTotal(x.team, y.team);
    }
  }

  lemma BeforeAsymmetric(x: Entry, y: Entry)
    requires Before(x, y)
    ensures !Before(y, x)
  {
    if x.points == y.points {
      StrLessAsymmetric(x.team, y.team);
    }
  }

  /** No later entry sorts before an earlier one. */
  predicate Sorted(s: seq<Entry>) {
    forall i, j :: 0 <= i < j < |s| ==> !Before(s[j], s[i])
  }

  /** Every earlier entry sorts before every later one. */
  predicate StrictlySorted(s: seq<Entry>) {
    forall i, j :: 0 <= i < j < |s| ==> Before(s[i], s[j])
  }

  /** No two entries name the same team. */
  predicate DistinctNames(s: seq<Entry>) {
    forall i, j :: 0 <= i < j < |s| ==> s[i].team != s[j].team
  }

  /** Insert `e` into a sorted sequence at its place. */
  function Insert(e: Entry, s: seq<Entry>): (r: seq<Entry>)
    requires Sorted(s)
    ensures Sorted(r)
    ensures multiset(r) == multiset(s) + multiset{e}
    ensures forall x :: x in r <==> x == e || x in s
  {
    if s == [] then [e]
    else if Before(s[0], e) then
      var rest := Insert(e, s[1..]);
      InsertAfterHead(s, e, rest);
      [s[0]] + rest
    else
      InsertAtFront(e, s);
      [e] + s
  }

  lemma InsertAfterHead(s: seq<Entry>, e: Entry, rest: seq<Entry>)
    requires Sorted(s) && |s| > 0 && Before(s[0], e) && Sorted(rest)
    requires multiset(rest) == multiset(s[1..]) + multiset{e}
    requires forall x :: x in rest <==> x == e || x in s[1..]
    ensures Sorted([s[0]] + rest)
    ensures multiset([s[0]] + rest) == multiset(s) + multiset{e}
    ensures forall x :: x in [s[0]] + rest <==> x == e || x in s
  {
    assert s == [s[0]] + s[1..];
    BeforeAsymmetric(s[0], e);
    var r := [s[0]] + rest;
    forall i, j | 0 <= i < j < |r| ensures !Before(r[j], r[i]) {
      if i > 0 {
        assert r[i] == rest[i - 1] && r[j] == rest[j - 1];
      } else {
        assert r[j] in rest;
        if r[j] != e {
          var k :| 1 <= k < |s| && s[k] == r[j];
        }
      }
    }
  }

  lemma InsertAtFront(e: Entry, s: seq<Entry>)
    requires Sorted(s) && |s| > 0 && !Before(s[0], e)
    ensures Sorted([e] + s)
  {
    forall j | 0 <= j < |s| ensures !Before(s[j], e) {
      if Before(s[j], e) {
        if s[j] == s[0] {
        } else {
          BeforeTotal(s[0], s[j]);
          BeforeTransitive(s[0], s[j], e);
        }
      }
    }
    var r := [e] + s;
    forall i, j | 0 <= i < j < |r| ensures !Before(r[j], r[i]) {
      if i > 0 {
        assert r[i] == s[i - 1] && r[j] == s[j - 1];
      } else {
        assert r[j] == s[j - 1];
      }
    }
  }

  /** Inserting an entry whose team is new keeps the names distinct. */
  lemma {:induction false} InsertDistinct(e: Entry, s: seq<Entry>)
    requires Sorted(s) && DistinctNames(s)
    requires forall k :: 0 <= k < |s| ==> s[k].team != e.team
    ensures DistinctNames(Insert(e, s))
  {
    if s != [] && Before(s[0], e) {
      var rest := Insert(e, s[1..]);
      InsertDistinct(e, s[1..]);
      var r := [s[0]] + rest;
      forall i, j | 0 <= i < j < |r| ensures r[i].team != r[j].team {
        if i > 0 {
          assert r[i] == rest[i - 1] && r[j] == rest[j - 1];
        } else {
          assert r[j] in rest;
          if r[j] != e {
            var k :| 1 <= k < |s| && s[k] == r[j];
          }
        }
      }
    } else if s != [] {
      var r := [e] + s;
      forall i, j | 0 <= i < j < |r| ensures r[i].team != r[j].team {
        if i > 0 {
          assert r[i] == s[i - 1] && r[j] == s[j - 1];
        } else {
          assert r[j] == s[j - 1];
        }
      }
    }
  }

  /** Insertion sort under the key order. */
  function SortEntries(s: seq<Entry>): (r: seq<Entry>)
    ensures Sorted(r)
    ensures multiset(r) == multiset(s)
    ensures forall x :: x in r <==> x in s
  {
    if s == [] then []
    else
      var rest := SortEntries(s[1..]);
      assert s == [s[0]] + s[1..];
      Insert(s[0], rest)
  }

  /** Sorting keeps the names distinct. */
  lemma {:induction false} SortDistinct(s: seq<Entry>)
    requires DistinctNames(s)
    ensures DistinctNames(SortEntries(s))
  {
    if s != [] {
      var rest := SortEntries(s[1..]);
      SortDistinct(s[1..]);
      forall k | 0 <= k < |rest| ensures rest[k].team != s[0].team {
        assert rest[k] in s[1..];
        var m :| 1 <= m < |s| && s[m] == rest[k];
      }
      InsertDistinct(s[0], rest);
    }
  }

  /** A sorted sequence without repeated names is sorted strictly. */
  lemma SortedDistinctIsStrict(s: seq<Entry>)
    requires Sorted(s) && DistinctNames(s)
    ensures StrictlySorted(s)
  {
    forall i, j | 0 <= i < j < |s| ensures Before(s[i], s[j]) {
      BeforeTotal(s[i], s[j]);
    }
  }

  /** Two strictly sorted sequences holding the same entries are equal. */
  lemma {:induction false} StrictlySortedUnique(a: seq<Entry>, b: seq<Entry>)
    requires StrictlySorted(a) && StrictlySorted(b)
    requires forall x :: x in a <==> x in b
    ensures a == b
    decreases |a|
  {
    if b != [] {
      assert b[0] in a;
    }
    if a != [] {
      assert a[0] in b;
      assert b[0] in a;
      if a[0] != b[0] {
        var k :| 0 <= k < |b| && b[k] == a[0];
        var m :| 0 <= m < |a| && a[m] == b[0];
        BeforeAsymmetric(a[0], b[0]);
      }
      forall x ensures x in a[1..] <==> x in b[1..] {
        if x in a[1..] {
          var m :| 1 <= m < |a| && a[m] == x;
          assert Before(a[0], a[m]);
          BeforeIrreflexive(a[0]);
          assert x in a;
          var k :| 0 <= k < |b| && b[k] == x;
          assert b[1..][k - 1] == x;
        }
        if x in b[1..] {
          var m :| 1 <= m < |b| && b[m] == x;
          assert Before(b[0], b[m]);
          BeforeIrreflexive(b[0]);
          assert x in b;
          var k :| 0 <= k < |a| && a[k] == x;
          assert a[1..][k - 1] == x;
        }
      }
      StrictlySortedUnique(a[1..], b[1..]);
      assert a == [a[0]] + a[1..] && b == [b[0]] + b[1..];
    }
  }

  /**
   * `get_sorted_standings`: the dictionary's entries, one per key, with the
   * points never increasing and equal points in strictly ascending name order.
   */
  function GetSortedStandings(teams: seq<string>, points: map<string, int>): (r: seq<Entry>)
    requires TableValid(teams, points)
    ensures multiset(r) == multiset(ItemsOf(teams, points))
    ensures forall x :: x in r <==> x.team in points && x.points == points[x.team]
    ensures DistinctNames(r)
    ensures forall i, j :: 0 <= i < j < |r| ==>
      r[i].points > r[j].points || (r[i].points == r[j].points && StrLess(r[i].team, r[j].team))
  {
    var items := ItemsOf(teams, points);
    var r := SortEntries(items);
    ItemsOfTable(teams, points);
    SortDistinct(items);
    SortedDistinctIsStrict(r);
    r
  }

  /** The sorted standings depend on the totals alone, not on the order the teams were first seen in. */
  lemma SortedStandingsIgnoreInsertionOrder(teams1: seq<string>, teams2: seq<string>, points: map<string, int>)
    requires TableValid(teams1, points) && TableValid(teams2, points)
    ensures GetSortedStandings(teams1, points) == GetSortedStandings(teams2, points)
  {
    var a, b := GetSortedStandings(teams1, points), GetSortedStandings(teams2, points);
    StrictlySortedUnique(a, b);
  }

  /** The example of the unit tests. */
  lemma SortedStandingsExample()
    ensures GetSortedStandings(ExampleTeams(), ExamplePoints()) == ExampleSorted()
  {
    var r := GetSortedStandings(ExampleTeams(), ExamplePoints());
    ExampleSortedHoldsTheTable();
    StrictlySortedUnique(r, ExampleSorted());
  }

  function ExampleTeams(): seq<string> {
    ["Lions", "Snakes", "Tarantulas", "Grouches"]
  }

  function ExamplePoints(): map<string, int> {
    map["Lions" := 3, "Snakes" := 1, "Tarantulas" := 6, "Grouches" := 0]
  }

  function ExampleSorted(): seq<Entry> {
    [Entry("Tarantulas", 6), Entry("Lions", 3), Entry("Snakes", 1), Entry("Grouches", 0)]
  }

  lemma ExampleSortedHoldsTheTable()
    ensures TableValid(ExampleTeams(), ExamplePoints())
    ensures StrictlySorted(ExampleSorted())
    ensures forall x :: x in ExampleSorted() <==> x.team in ExamplePoints() && x.points == ExamplePoints()[x.team]
  {
  }
}
