/**
 * The report: `format_standings` numbers the sorted entries with competition
 * ranks (tied entries share a rank, and the next entry's rank is its
 * position) and writes one "<rank>. <team>, <points> pt[s]" line per entry.
 */
module Formatter {
  import opened Wrappers
  import opened PyStrings
  import opened Accumulator
  import opened Ranker

  /** The rank of entry `i`: its position `i + 1` when its points differ from the previous entry's, else the previous rank. */
  function RankAt(s: seq<Entry>, i: nat): (r: nat)
    requires i < |s|
    ensures 1 <= r <= i + 1
  {
    if i == 0 || s[i].points != s[i - 1].points then i + 1 else RankAt(s, i - 1)
  }

  /** "pts" for every total but 1, which gets "pt". */
  function Unit(points: int): string {
    "pt" + (if points != 1 then "s" else "")
  }

  /** The line the f-string writes for one entry. */
  function StandingLine(rank: int, e: Entry): string {
    IntToString(rank) + ". " + e.team + ", " + IntToString(e.points) + " " + Unit(e.points)
  }

  /** The lines of the report, one per entry, each with the rank of its entry. */
  function StandingLines(s: seq<Entry>): (r: seq<string>)
    ensures |r| == |s|
    ensures forall i :: 0 <= i < |s| ==> r[i] == StandingLine(RankAt(s, i), s[i])
  {
    seq(|s|, i requires 0 <= i < |s| => StandingLine(RankAt(s, i), s[i]))
  }

  /** `format_standings`: the lines of the report joined by newlines, without a trailing one. */
  method FormatStandings(sortedStandings: seq<Entry>) returns (out: string)
    ensures out == Join(StandingLines(sortedStandings), "\n")
  {
    var output: seq<string> := [];
    var rank := 1;
    var prevPoints: Option<int> := None;
    for i := 0 to |sortedStandings|
      invariant output == StandingLines(sortedStandings)[..i]
      invariant RankTracked(sortedStandings, i, rank, prevPoints)
    {
      var entry := sortedStandings[i];
      NextRank(sortedStandings, i, rank, prevPoints);
      if prevPoints != Some(entry.points) {
        rank := i + 1;
      }
      prevPoints := Some(entry.points);
      LinesExtend(sortedStandings, i, rank);
      output := output + [StandingLine(rank, entry)];
    }
    LinesAll(sortedStandings);
    out := Join(output, "\n");
  }

  /** What the loop keeps about `rank` and `prev_points` after `i` entries: the rank and the total of the last one. */
  ghost predicate RankTracked(s: seq<Entry>, i: nat, rank: int, prevPoints: Option<int>) {
    && i <= |s|
    && (i == 0 ==> prevPoints == None)
    && (0 < i ==> prevPoints == Some(s[i - 1].points) && rank == RankAt(s, i - 1))
  }

  /** The loop's rank update: a new total starts a rank at the position, a repeated one keeps the rank. */
  lemma NextRank(s: seq<Entry>, i: nat, rank: int, prevPoints: Option<int>)
    requires i < |s| && RankTracked(s, i, rank, prevPoints)
    ensures RankTracked(s, i + 1, if prevPoints != Some(s[i].points) then i + 1 else rank, Some(s[i].points))
  {
  }

  lemma LinesExtend(s: seq<Entry>, i: nat, rank: int)
    requires i < |s| && rank == RankAt(s, i)
    ensures StandingLines(s)[..i + 1] == StandingLines(s)[..i] + [StandingLine(rank, s[i])]
  {
    PrefixExtend(StandingLines(s), i);
  }

  lemma LinesAll(s: seq<Entry>)
    ensures StandingLines(s)[..|s|] == StandingLines(s)
  {
  }

  lemma PrefixExtend<T>(s: seq<T>, i: nat)
    requires i < |s|
    ensures s[..i + 1] == s[..i] + [s[i]]
  {
  }

  // ---------------------------------------------------------------------------
  // Ranks
  // ---------------------------------------------------------------------------

  /** The points never increase along the sequence. */
  predicate Nonincreasing(s: seq<Entry>) {
    forall i, j :: 0 <= i < j < |s| ==> s[i].points >= s[j].points
  }

  /** Entry `i`'s rank is one more than the index where its run of equal points starts. */
  lemma {:induction false} RankStartsRun(s: seq<Entry>, i: nat)
    requires i < |s|
    ensures forall m :: RankAt(s, i) - 1 <= m <= i ==> s[m].points == s[i].points
    ensures RankAt(s, i) == 1 || s[RankAt(s, i) - 2].points != s[i].points
    decreases i
  {
    if i > 0 && s[i].points == s[i - 1].points {
      RankStartsRun(s, i - 1);
    }
  }

  /** How many entries have more than `p` points. */
  function CountAbove(s: seq<Entry>, p: int): (n: nat)
    ensures n <= |s|
  {
    if s == [] then 0 else (if s[0].points > p then 1 else 0) + CountAbove(s[1..], p)
  }

  lemma {:induction false} CountAboveAppend(a: seq<Entry>, b: seq<Entry>, p: int)
    ensures CountAbove(a + b, p) == CountAbove(a, p) + CountAbove(b, p)
    decreases |a|
  {
    if a != [] {
      assert (a + b)[1..] == a[1..] + b;
      CountAboveAppend(a[1..], b, p);
    } else {
      assert a + b == b;
    }
  }

  lemma {:induction false} CountAboveAll(s: seq<Entry>, p: int)
    requires forall k :: 0 <= k < |s| ==> s[k].points > p
    ensures CountAbove(s, p) == |s|
    decreases |s|
  {
    if s != [] {
      CountAboveAll(s[1..], p);
    }
  }

  lemma {:induction false} CountAboveNone(s: seq<Entry>, p: int)
    requires forall k :: 0 <= k < |s| ==> s[k].points <= p
    ensures CountAbove(s, p) == 0
    decreases |s|
  {
    if s != [] {
      CountAboveNone(s[1..], p);
    }
  }

  /** On sorted standings the rank is competition ranking: one more than the number of entries with more points. */
  lemma RankCountsBetterEntries(s: seq<Entry>, i: nat)
    requires Nonincreasing(s) && i < |s|
    ensures RankAt(s, i) == 1 + CountAbove(s, s[i].points)
  {
    RankStartsRun(s, i);
    CountAboveRun(s, s[i].points, RankAt(s, i) - 1, i);
  }

  /** In sorted entries, the entries above a run of `p` points are exactly those before it. */
  lemma CountAboveRun(s: seq<Entry>, p: int, start: nat, i: nat)
    requires Nonincreasing(s) && start <= i < |s| && s[i].points == p
    requires s[start].points == p
    requires start == 0 || s[start - 1].points != p
    ensures CountAbove(s, p) == start
  {
    CountOnEachSide(s, p, start, i);
    CountAboveAppend(s[..start], s[start..], p);
    assert s == s[..start] + s[start..];
  }

  lemma CountOnEachSide(s: seq<Entry>, p: int, start: nat, i: nat)
    requires Nonincreasing(s) && start <= i < |s| && s[i].points == p
    requires s[start].points == p
    requires start == 0 || s[start - 1].points != p
    ensures CountAbove(s[..start], p) == start && CountAbove(s[start..], p) == 0
  {
    AboveAndRest(s, p, start, i);
    CountAboveAll(s[..start], p);
    CountAboveNone(s[start..], p);
  }

  /** The sorted entries before a run of `p` points have more, those from it on at most `p`. */
  lemma AboveAndRest(s: seq<Entry>, p: int, start: nat, i: nat)
    requires Nonincreasing(s) && start <= i < |s| && s[i].points == p
    requires s[start].points == p
    requires start == 0 || s[start - 1].points != p
    ensures forall k :: 0 <= k < |s[..start]| ==> s[..start][k].points > p
    ensures forall k :: 0 <= k < |s[start..]| ==> s[start..][k].points <= p
  {
    forall k | 0 <= k < start ensures s[k].points > p {
      assert s[k].points >= s[start - 1].points;
      assert s[start - 1].points >= s[start].points;
    }
    forall k | start <= k < |s| ensures s[k].points <= p {
      if k > start {
        assert s[start].points >= s[k].points;
      }
    }
  }

  /** On sorted standings two entries share a rank exactly when they have the same points. */
  lemma SameRankIffSamePoints(s: seq<Entry>, i: nat, j: nat)
    requires Nonincreasing(s) && i < |s| && j < |s|
    ensures RankAt(s, i) == RankAt(s, j) <==> s[i].points == s[j].points
  {
    RankCountsBetterEntries(s, i);
    RankCountsBetterEntries(s, j);
    if RankAt(s, i) == RankAt(s, j) {
      RankStartsRun(s, i);
      RankStartsRun(s, j);
      var r := RankAt(s, i);
      assert s[r - 1].points == s[i].points && s[r - 1].points == s[j].points;
    }
  }

  // ---------------------------------------------------------------------------
  // Lines
  // ---------------------------------------------------------------------------

  predicate EndsWith(s: string, suffix: string) {
    |suffix| <= |s| && s[|s| - |suffix|..] == suffix
  }

  /** A line ends in " 1 pt" for a single point, and in " pts" for every other total, 0 included. */
  lemma StandingLineUnit(rank: int, e: Entry)
    ensures e.points == 1 ==> EndsWith(StandingLine(rank, e), " 1 pt")
    ensures e.points != 1 ==> EndsWith(StandingLine(rank, e), " pts")
  {
    var l := StandingLine(rank, e);
    var head := IntToString(rank) + ". " + e.team + ", ";
    if e.points == 1 {
      assert IntToString(1) == "1";
      assert l == head + " 1 pt"[1..];
    } else {
      assert l == (head + IntToString(e.points)) + " pts";
    }
  }

  /** The text before a line's first '.' is the rank, and `int()` reads it back. */
  lemma StandingLineRank(rank: int, e: Entry)
    ensures Split(StandingLine(rank, e), '.')[0] == IntToString(rank)
    ensures ParseInt(Split(StandingLine(rank, e), '.')[0]) == Some(rank)
  {
    var a := IntToString(rank);
    var b := " " + e.team + ", " + IntToString(e.points) + " " + Unit(e.points);
    IntToStringDigits(rank);
    assert '.' !in a;
    assert StandingLine(rank, e) == a + ['.'] + b;
    SplitAtFirstSep(a, b, '.');
  }

  /** A line holds a newline only where its team name does. */
  lemma StandingLineOneLine(rank: int, e: Entry)
    requires '\n' !in e.team
    ensures '\n' !in StandingLine(rank, e)
  {
    IntToStringPlain(rank);
    IntToStringPlain(e.points);
    var marks := " " + Unit(e.points);
    assert '\n' !in marks;
    assert StandingLine(rank, e) == IntToString(rank) + ". " + e.team + ", " + IntToString(e.points) + marks;
  }

  /** The report of a non-empty list splits back into exactly one line per entry, whenever no team name holds a newline. */
  lemma FormatOneLinePerEntry(s: seq<Entry>)
    requires |s| > 0
    requires forall k :: 0 <= k < |s| ==> '\n' !in s[k].team
    ensures Split(Join(StandingLines(s), "\n"), '\n') == StandingLines(s)
    ensures |Split(Join(StandingLines(s), "\n"), '\n')| == |s|
  {
    var lines := StandingLines(s);
    forall k | 0 <= k < |lines| ensures '\n' !in lines[k] {
      StandingLineOneLine(RankAt(s, k), s[k]);
    }
    SplitJoin(lines, '\n');
  }

  /** No entries give the empty report. */
  lemma FormatEmpty()
    ensures Join(StandingLines([]), "\n") == ""
  {
  }

  // ---------------------------------------------------------------------------
  // Examples
  // ---------------------------------------------------------------------------

  lemma IntToStringSmall()
    ensures IntToString(0) == "0" && IntToString(1) == "1" && IntToString(2) == "2"
    ensures IntToString(3) == "3" && IntToString(4) == "4" && IntToString(5) == "5"
    ensures IntToString(6) == "6"
  {
  }

  lemma ExampleLine1()
    ensures StandingLine(1, Entry("Tarantulas", 6)) == "1. Tarantulas, 6 pts"
  {
    IntToStringSmall();
  }

  lemma ExampleLine2()
    ensures StandingLine(2, Entry("Lions", 3)) == "2. Lions, 3 pts"
  {
    IntToStringSmall();
  }

  lemma ExampleLine3()
    ensures StandingLine(3, Entry("Snakes", 1)) == "3. Snakes, 1 pt"
  {
    IntToStringSmall();
  }

  lemma ExampleLine4()
    ensures StandingLine(4, Entry("Grouches", 0)) == "4. Grouches, 0 pts"
  {
    IntToStringSmall();
  }

  lemma ExampleRanks()
    ensures RankAt(ExampleSorted(), 0) == 1 && RankAt(ExampleSorted(), 1) == 2
    ensures RankAt(ExampleSorted(), 2) == 3 && RankAt(ExampleSorted(), 3) == 4
  {
  }

  lemma ExampleLines()
    ensures StandingLines(ExampleSorted())
         == ["1. Tarantulas, 6 pts", "2. Lions, 3 pts", "3. Snakes, 1 pt", "4. Grouches, 0 pts"]
  {
    ExampleRanks();
    ExampleLine1();
    ExampleLine2();
    ExampleLine3();
    ExampleLine4();
  }

  /** The example of the unit tests: one line per entry, "pt" only for the single point. */
  lemma FormatExample()
    ensures Join(StandingLines(ExampleSorted()), "\n")
         == "1. Tarantulas, 6 pts" + "\n" + "2. Lions, 3 pts" + "\n" + "3. Snakes, 1 pt" + "\n" + "4. Grouches, 0 pts"
  {
    ExampleLines();
    JoinFour("1. Tarantulas, 6 pts", "2. Lions, 3 pts", "3. Snakes, 1 pt", "4. Grouches, 0 pts");
  }

  lemma JoinFour(a: string, b: string, c: string, d: string)
    ensures Join([a, b, c, d], "\n") == a + "\n" + b + "\n" + c + "\n" + d
  {
    assert [c, d][1..] == [d];
    assert Join([c, d], "\n") == c + "\n" + d;
    assert [b, c, d][1..] == [c, d];
    assert Join([b, c, d], "\n") == b + "\n" + (c + "\n" + d);
    assert [a, b, c, d][1..] == [b, c, d];
    assert Join([a, b, c, d], "\n") == a + "\n" + (b + "\n" + (c + "\n" + d));
  }

  /** Tied entries share a rank and the next entry takes its position: 6, 3, 3, 1 points rank 1, 2, 2, 4. */
  lemma RankExampleWithTie()
    ensures var s := [Entry("A", 6), Entry("B", 3), Entry("C", 3), Entry("D", 1)];
      RankAt(s, 0) == 1 && RankAt(s, 1) == 2 && RankAt(s, 2) == 2 && RankAt(s, 3) == 4
  {
  }
}
