/**
 * The driver: `main` parses every line and adds each game to the standings,
 * then sorts and formats them. The first line that does not parse stops the
 * run with its error, and nothing is reported.
 */
module Driver {
  import opened Wrappers
  import opened PyStrings
  import opened LineParser
  import opened Accumulator
  import opened Ranker
  import opened Formatter

  /** `[f(x) for x in s]`. */
  function MapSeq<A, B>(f: A -> B, s: seq<A>): (r: seq<B>)
    ensures |r| == |s|
    ensures forall i :: 0 <= i < |s| ==> r[i] == f(s[i])
  {
    seq(|s|, i requires 0 <= i < |s| => f(s[i]))
  }

  lemma MapSeqSnoc<A, B>(f: A -> B, s: seq<A>, x: A)
    ensures MapSeq(f, s + [x]) == MapSeq(f, s) + [f(x)]
  {
  }

  lemma MapSeqAppend<A, B>(f: A -> B, a: seq<A>, b: seq<A>)
    ensures MapSeq(f, a + b) == MapSeq(f, a) + MapSeq(f, b)
  {
  }

  /** The games in order, or the first error: the exception stops the loop at the first line that does not parse. */
  function Collect(outcomes: seq<Result<GameResult, string>>): Result<seq<GameResult>, string> {
    if outcomes == [] then Ok([])
    else
      match Collect(outcomes[..|outcomes| - 1])
      case Err(e) => Err(e)
      case Ok(results) =>
        match outcomes[|outcomes| - 1]
        case Err(e) => Err(e)
        case Ok(g) => Ok(results + [g])
  }

  /** The games of the lines in order, or the error of the first line that does not parse. */
  function ParseAll(lines: seq<string>): Result<seq<GameResult>, string> {
    Collect(MapSeq(ParseResult, lines))
  }

  /** The sorted standings after the games, starting from an empty dictionary. */
  function Ranking(results: seq<GameResult>): seq<Entry> {
    AfterValid([], map[], results);
    GetSortedStandings(TeamsAfter([], results), PointsAfter(map[], results))
  }

  /** What `main` prints for the lines, or the error it raises. */
  function Report(lines: seq<string>): Result<string, string> {
    match ParseAll(lines)
    case Err(e) => Err(e)
    case Ok(results) => Ok(Join(StandingLines(Ranking(results)), "\n"))
  }

  /** `main` without the printing: the loop over the lines, then sorting and formatting. */
  method Run(inputLines: seq<string>) returns (r: Result<string, string>)
    ensures r == Report(inputLines)
  {
    var standings := new Standings();
    var failure := AddAll(standings, inputLines);
    if failure.Some? {
      return Err(failure.value);
    }
    var sortedStandings := GetSortedStandings(standings.teams, standings.points);
    var out := FormatStandings(sortedStandings);
    r := Ok(out);
  }

  /**
   * The loop of `main`: parse each line and add its game to the standings.
   * The first line that does not parse stops the loop with its error, and
   * nothing is reported for the games before it.
   */
  method AddAll(standings: Standings, inputLines: seq<string>) returns (failure: Option<string>)
    requires standings.Valid()
    modifies standings
    ensures standings.Valid()
    ensures ParseAll(inputLines).Err? <==> failure.Some?
    ensures ParseAll(inputLines).Err? ==> failure.value == ParseAll(inputLines).error
    ensures ParseAll(inputLines).Ok? ==>
      && standings.teams == TeamsAfter(old(standings.teams), ParseAll(inputLines).value)
      && standings.points == PointsAfter(old(standings.points), ParseAll(inputLines).value)
  {
    ghost var outcomes := MapSeq(ParseResult, inputLines);
    ghost var results: seq<GameResult> := [];
    for i := 0 to |inputLines|
      invariant Collect(outcomes[..i]) == Ok(results)
      invariant standings.Valid()
      invariant standings.teams == TeamsAfter(old(standings.teams), results)
      invariant standings.points == PointsAfter(old(standings.points), results)
    {
      var parsed := ParseResult(inputLines[i]);
      assert outcomes[i] == parsed;
      CollectStep(outcomes, i, results);
      if parsed.Err? {
        return Some(parsed.error);
      }
      var g := parsed.value;
      standings.Update(g.team1, g.score1, g.team2, g.score2);
      AfterSnoc(old(standings.teams), old(standings.points), results, g);
      results := results + [g];
    }
    assert outcomes[..|inputLines|] == outcomes;
    failure := None;
  }

  /** One more line: an error ends the run with it, a game extends the games so far. */
  lemma CollectStep(outcomes: seq<Result<GameResult, string>>, i: nat, results: seq<GameResult>)
    requires i < |outcomes| && Collect(outcomes[..i]) == Ok(results)
    ensures outcomes[i].Err? ==> Collect(outcomes) == Err(outcomes[i].error)
    ensures outcomes[i].Ok? ==> Collect(outcomes[..i + 1]) == Ok(results + [outcomes[i].value])
  {
    PrefixExtend(outcomes, i);
    CollectSnoc(outcomes[..i], outcomes[i]);
    if outcomes[i].Err? {
      ErrorStops(outcomes, i + 1);
    }
  }

  /** One more game enrolls its teams and scores it. */
  lemma AfterSnoc(teams: seq<string>, points: map<string, int>, results: seq<GameResult>, g: GameResult)
    ensures TeamsAfter(teams, results + [g]) == Enroll(Enroll(TeamsAfter(teams, results), g.team1), g.team2)
    ensures PointsAfter(points, results + [g]) == Scored(PointsAfter(points, results), g)
  {
    assert (results + [g])[..|results|] == results;
  }

  // ---------------------------------------------------------------------------
  // Parsing all lines
  // ---------------------------------------------------------------------------

  lemma CollectSnoc(outcomes: seq<Result<GameResult, string>>, o: Result<GameResult, string>)
    ensures Collect(outcomes + [o])
         == match Collect(outcomes)
            case Err(e) => Err(e)
            case Ok(results) => (match o case Err(e) => Err(e) case Ok(g) => Ok(results + [g]))
  {
    assert (outcomes + [o])[..|outcomes|] == outcomes;
  }

  /** Once a prefix of the outcomes holds an error, the whole run fails with it. */
  lemma {:induction false} ErrorStops(outcomes: seq<Result<GameResult, string>>, k: nat)
    requires k <= |outcomes| && Collect(outcomes[..k]).Err?
    ensures Collect(outcomes) == Collect(outcomes[..k])
    decreases |outcomes| - k
  {
    if k < |outcomes| {
      assert outcomes[..k + 1][..k] == outcomes[..k];
      ErrorStops(outcomes, k + 1);
    } else {
      assert outcomes[..k] == outcomes;
    }
  }

  /** A failed run carries the error of the first outcome that is one. */
  lemma {:induction false} CollectFails(outcomes: seq<Result<GameResult, string>>) returns (first: nat)
    requires Collect(outcomes).Err?
    ensures first < |outcomes|
    ensures outcomes[first] == Err(Collect(outcomes).error)
    ensures forall j :: 0 <= j < first ==> outcomes[j].Ok?
  {
    var init := outcomes[..|outcomes| - 1];
    if Collect(init).Err? {
      first := CollectFails(init);
      assert init[first] == outcomes[first];
      assert forall j :: 0 <= j < first ==> init[j] == outcomes[j];
    } else {
      first := |outcomes| - 1;
      CollectSucceeds(init);
    }
  }

  /** A successful run holds every game, at its own position. */
  lemma {:induction false} CollectSucceeds(outcomes: seq<Result<GameResult, string>>)
    requires Collect(outcomes).Ok?
    ensures |Collect(outcomes).value| == |outcomes|
    ensures forall j :: 0 <= j < |outcomes| ==> outcomes[j] == Ok(Collect(outcomes).value[j])
  {
    if outcomes != [] {
      var init := outcomes[..|outcomes| - 1];
      CollectSucceeds(init);
      assert forall j :: 0 <= j < |init| ==> init[j] == outcomes[j];
    }
  }

  /** A run without an error outcome succeeds. */
  lemma {:induction false} CollectWithoutErrors(outcomes: seq<Result<GameResult, string>>)
    requires forall j :: 0 <= j < |outcomes| ==> outcomes[j].Ok?
    ensures Collect(outcomes).Ok?
  {
    if outcomes != [] {
      var init := outcomes[..|outcomes| - 1];
      assert forall j :: 0 <= j < |init| ==> init[j] == outcomes[j];
      CollectWithoutErrors(init);
    }
  }

  /** `main` fails exactly when some line does not parse, and then with the error of the first such line. */
  lemma ParseAllFails(lines: seq<string>) returns (first: nat)
    requires ParseAll(lines).Err?
    ensures first < |lines|
    ensures ParseResult(lines[first]) == Err(ParseAll(lines).error)
    ensures forall j :: 0 <= j < first ==> ParseResult(lines[j]).Ok?
  {
    first := CollectFails(MapSeq(ParseResult, lines));
  }

  /** When `main` does not fail, every line parses, to the game at its own position. */
  lemma ParseAllSucceeds(lines: seq<string>)
    requires ParseAll(lines).Ok?
    ensures |ParseAll(lines).value| == |lines|
    ensures forall j :: 0 <= j < |lines| ==> ParseResult(lines[j]) == Ok(ParseAll(lines).value[j])
  {
    CollectSucceeds(MapSeq(ParseResult, lines));
  }

  /** If every line parses, `main` does not fail. */
  lemma ParseAllWhenEveryLineParses(lines: seq<string>)
    requires forall j :: 0 <= j < |lines| ==> ParseResult(lines[j]).Ok?
    ensures ParseAll(lines).Ok?
  {
    CollectWithoutErrors(MapSeq(ParseResult, lines));
  }

  // ---------------------------------------------------------------------------
  // The report
  // ---------------------------------------------------------------------------

  /** Every team named in the games is ranked exactly once, with its total. */
  lemma RankingListsEveryTeamOnce(results: seq<GameResult>)
    ensures DistinctNames(Ranking(results))
    ensures forall k :: 0 <= k < |Ranking(results)| ==> Ranking(results)[k].team in TeamsOf(results)
    ensures forall k :: 0 <= k < |Ranking(results)| ==>
      Ranking(results)[k].points == Get(PointsAfter(map[], results), Ranking(results)[k].team)
    ensures forall t :: t in TeamsOf(results) ==> Entry(t, Get(PointsAfter(map[], results), t)) in Ranking(results)
  {
    var r := Ranking(results);
    forall k | 0 <= k < |r| ensures r[k].team in TeamsOf(results) {
      assert r[k] in r;
    }
  }

  /** The ranking does not depend on the order of the games. */
  lemma RankingIgnoresOrder(p: seq<GameResult>, q: seq<GameResult>)
    requires multiset(p) == multiset(q)
    ensures Ranking(p) == Ranking(q)
  {
    PointsAfterPermutation(map[], p, q);
    AfterValid([], map[], p);
    AfterValid([], map[], q);
    SortedStandingsIgnoreInsertionOrder(TeamsAfter([], p), TeamsAfter([], q), PointsAfter(map[], p));
  }

  /** The game a line parses to (an arbitrary one for a line that does not parse). */
  function GameOf(line: string): GameResult {
    match ParseResult(line)
    case Ok(g) => g
    case Err(_) => GameResult("", 0, "", 0)
  }

  /** Mapping a permutation gives a permutation. */
  lemma {:induction false} MapSeqPermutation<A, B>(f: A -> B, p: seq<A>, q: seq<A>)
    requires multiset(p) == multiset(q)
    ensures multiset(MapSeq(f, p)) == multiset(MapSeq(f, q))
    decreases |p|
  {
    if p == [] {
      assert |q| == |multiset(q)| == 0;
    } else {
      var a, init := p[|p| - 1], p[..|p| - 1];
      assert p == init + [a];
      assert a in multiset(q);
      var i :| 0 <= i < |q| && q[i] == a;
      var rest := q[..i] + q[i + 1..];
      assert q == q[..i] + [a] + q[i + 1..];
      assert multiset(init) == multiset(p) - multiset{a};
      assert multiset(rest) == multiset(q) - multiset{a};
      MapSeqPermutation(f, init, rest);
      MapSeqAppend(f, init, [a]);
      MapSeqAppend(f, q[..i], [a]);
      MapSeqAppend(f, q[..i] + [a], q[i + 1..]);
      MapSeqAppend(f, q[..i], q[i + 1..]);
    }
  }

  lemma GamesOfParsedLines(lines: seq<string>)
    requires ParseAll(lines).Ok?
    ensures ParseAll(lines).value == MapSeq(GameOf, lines)
  {
    ParseAllSucceeds(lines);
  }

  /** Reordering the lines of a report that succeeds gives the same report. */
  lemma ReportIgnoresOrder(lines1: seq<string>, lines2: seq<string>)
    requires multiset(lines1) == multiset(lines2)
    requires Report(lines1).Ok?
    ensures Report(lines2) == Report(lines1)
  {
    ParseAllSucceeds(lines1);
    forall j | 0 <= j < |lines2| ensures ParseResult(lines2[j]).Ok? {
      assert lines2[j] in multiset(lines1);
      var k :| 0 <= k < |lines1| && lines1[k] == lines2[j];
    }
    ParseAllWhenEveryLineParses(lines2);
    GamesOfParsedLines(lines1);
    GamesOfParsedLines(lines2);
    MapSeqPermutation(GameOf, lines1, lines2);
    RankingIgnoresOrder(ParseAll(lines1).value, ParseAll(lines2).value);
  }

  /** A report that stops at a line carries that line in its message. */
  lemma ReportNamesTheBadLine(lines: seq<string>) returns (first: nat)
    requires Report(lines).Err?
    ensures first < |lines| && ParseResult(lines[first]).Err?
    ensures Report(lines).error == ErrorMessage(lines[first])
    ensures forall j :: 0 <= j < first ==> ParseResult(lines[j]).Ok?
  {
    first := ParseAllFails(lines);
  }

  // ---------------------------------------------------------------------------
  // The sample league
  // ---------------------------------------------------------------------------

  function LeagueLines(): seq<string> {
    ["Lions 3, Snakes 3", "Tarantulas 1, FC Awesome 0", "Lions 1, FC Awesome 1", "Tarantulas 3, Snakes 1", "Lions 4, Grouches 0"]
  }

  function LeagueGames(): seq<GameResult> {
    [GameResult("Lions", 3, "Snakes", 3), GameResult("Tarantulas", 1, "FC Awesome", 0),
     GameResult("Lions", 1, "FC Awesome", 1), GameResult("Tarantulas", 3, "Snakes", 1),
     GameResult("Lions", 4, "Grouches", 0)]
  }

  function LeagueRanking(): seq<Entry> {
    [Entry("Tarantulas", 6), Entry("Lions", 5), Entry("FC Awesome", 1), Entry("Snakes", 1), Entry("Grouches", 0)]
  }

  lemma LeagueLine0()
    ensures ParseResult("Lions 3, Snakes 3") == Ok(GameResult("Lions", 3, "Snakes", 3))
  {
    assert IntToString(3) == "3";
    assert ResultLine(GameResult("Lions", 3, "Snakes", 3)) == "Lions 3, Snakes 3";
    ParseResultLine(GameResult("Lions", 3, "Snakes", 3));
  }

  lemma LeagueLine1()
    ensures ParseResult("Tarantulas 1, FC Awesome 0") == Ok(GameResult("Tarantulas", 1, "FC Awesome", 0))
  {
    assert IntToString(0) == "0" && IntToString(1) == "1";
    assert ResultLine(GameResult("Tarantulas", 1, "FC Awesome", 0)) == "Tarantulas 1, FC Awesome 0";
    ParseResultLine(GameResult("Tarantulas", 1, "FC Awesome", 0));
  }

  lemma LeagueLine2()
    ensures ParseResult("Lions 1, FC Awesome 1") == Ok(GameResult("Lions", 1, "FC Awesome", 1))
  {
    assert IntToString(1) == "1";
    assert ResultLine(GameResult("Lions", 1, "FC Awesome", 1)) == "Lions 1, FC Awesome 1";
    ParseResultLine(GameResult("Lions", 1, "FC Awesome", 1));
  }

  lemma LeagueLine3()
    ensures ParseResult("Tarantulas 3, Snakes 1") == Ok(GameResult("Tarantulas", 3, "Snakes", 1))
  {
    assert IntToString(1) == "1" && IntToString(3) == "3";
    assert ResultLine(GameResult("Tarantulas", 3, "Snakes", 1)) == "Tarantulas 3, Snakes 1";
    ParseResultLine(GameResult("Tarantulas", 3, "Snakes", 1));
  }

  lemma LeagueLine4()
    ensures ParseResult("Lions 4, Grouches 0") == Ok(GameResult("Lions", 4, "Grouches", 0))
  {
    assert IntToString(0) == "0" && IntToString(4) == "4";
    assert ResultLine(GameResult("Lions", 4, "Grouches", 0)) == "Lions 4, Grouches 0";
    ParseResultLine(GameResult("Lions", 4, "Grouches", 0));
  }

  /** Lines that each parse make a run of their games. */
  lemma {:induction false} CollectParsed(parse: string -> Result<GameResult, string>, lines: seq<string>, results: seq<GameResult>)
    requires |lines| == |results|
    requires forall i :: 0 <= i < |lines| ==> parse(lines[i]) == Ok(results[i])
    ensures Collect(MapSeq(parse, lines)) == Ok(results)
  {
    if lines != [] {
      var n := |lines| - 1;
      CollectParsed(parse, lines[..n], results[..n]);
      MapSeqSnoc(parse, lines[..n], lines[n]);
      assert lines == lines[..n] + [lines[n]];
      assert results == results[..n] + [results[n]];
      CollectSnoc(MapSeq(parse, lines[..n]), parse(lines[n]));
    }
  }

  lemma FiveParsed(parse: string -> Result<GameResult, string>, l0: string, l1: string, l2: string, l3: string, l4: string,
                   g0: GameResult, g1: GameResult, g2: GameResult, g3: GameResult, g4: GameResult)
    requires parse(l0) == Ok(g0) && parse(l1) == Ok(g1) && parse(l2) == Ok(g2)
    requires parse(l3) == Ok(g3) && parse(l4) == Ok(g4)
    ensures Collect(MapSeq(parse, [l0, l1, l2, l3, l4])) == Ok([g0, g1, g2, g3, g4])
  {
    CollectParsed(parse, [l0, l1, l2, l3, l4], [g0, g1, g2, g3, g4]);
  }

  /** The sample lines parse to the sample games. */
  lemma LeagueParses()
    ensures ParseAll(LeagueLines()) == Ok(LeagueGames())
  {
    LeagueLine0();
    LeagueLine1();
    LeagueLine2();
    LeagueLine3();
    LeagueLine4();
    FiveParsed(ParseResult, "Lions 3, Snakes 3", "Tarantulas 1, FC Awesome 0", "Lions 1, FC Awesome 1", "Tarantulas 3, Snakes 1", "Lions 4, Grouches 0",
                 GameResult("Lions", 3, "Snakes", 3), GameResult("Tarantulas", 1, "FC Awesome", 0),
                 GameResult("Lions", 1, "FC Awesome", 1), GameResult("Tarantulas", 3, "Snakes", 1),
                 GameResult("Lions", 4, "Grouches", 0));
  }

  function LeagueTotals(): map<string, int> {
    map["Tarantulas" := 6, "Lions" := 5, "FC Awesome" := 1, "Snakes" := 1, "Grouches" := 0]
  }

  /** What a team earns in five games is the sum of what it earns in each. */
  lemma EarnedInFive(g0: GameResult, g1: GameResult, g2: GameResult, g3: GameResult, g4: GameResult, t: string)
    ensures EarnedIn([g0, g1, g2, g3, g4], t) == Earned(g0, t) + Earned(g1, t) + Earned(g2, t) + Earned(g3, t) + Earned(g4, t)
  {
    assert [g0][..0] == [];
    assert EarnedIn([g0], t) == Earned(g0, t);
    assert [g0, g1][..1] == [g0];
    assert EarnedIn([g0, g1], t) == EarnedIn([g0], t) + Earned(g1, t);
    assert [g0, g1, g2][..2] == [g0, g1];
    assert EarnedIn([g0, g1, g2], t) == EarnedIn([g0, g1], t) + Earned(g2, t);
    assert [g0, g1, g2, g3][..3] == [g0, g1, g2];
    assert EarnedIn([g0, g1, g2, g3], t) == EarnedIn([g0, g1, g2], t) + Earned(g3, t);
    assert [g0, g1, g2, g3, g4][..4] == [g0, g1, g2, g3];
  }

  /** The teams of five games are the ten names they mention. */
  lemma TeamsOfFive(g0: GameResult, g1: GameResult, g2: GameResult, g3: GameResult, g4: GameResult)
    ensures TeamsOf([g0, g1, g2, g3, g4])
         == {g0.team1, g0.team2, g1.team1, g1.team2, g2.team1, g2.team2, g3.team1, g3.team2, g4.team1, g4.team2}
  {
    assert [g0][..0] == [];
    assert TeamsOf([g0]) == {g0.team1, g0.team2};
    assert [g0, g1][..1] == [g0];
    assert TeamsOf([g0, g1]) == TeamsOf([g0]) + {g1.team1, g1.team2};
    assert [g0, g1, g2][..2] == [g0, g1];
    assert TeamsOf([g0, g1, g2]) == TeamsOf([g0, g1]) + {g2.team1, g2.team2};
    assert [g0, g1, g2, g3][..3] == [g0, g1, g2];
    assert TeamsOf([g0, g1, g2, g3]) == TeamsOf([g0, g1, g2]) + {g3.team1, g3.team2};
    assert [g0, g1, g2, g3, g4][..4] == [g0, g1, g2, g3];
  }

  lemma LeagueTotalOf(team: string)
    ensures Get(PointsAfter(map[], LeagueGames()), team) == Get(LeagueTotals(), team)
  {
    var gs := LeagueGames();
    PointsAfterGet(map[], gs, team);
    assert gs == [gs[0], gs[1], gs[2], gs[3], gs[4]];
    EarnedInFive(gs[0], gs[1], gs[2], gs[3], gs[4], team);
    LeagueEarned(team);
  }

  lemma LeagueEarned(team: string)
    ensures var gs := LeagueGames();
      Earned(gs[0], team) + Earned(gs[1], team) + Earned(gs[2], team) + Earned(gs[3], team) + Earned(gs[4], team)
        == Get(LeagueTotals(), team)
  {
    if team !in LeagueTotals() {
      assert team != "Tarantulas" && team != "Lions" && team != "FC Awesome" && team != "Snakes" && team != "Grouches";
    }
  }

  lemma LeagueTeams()
    ensures TeamsOf(LeagueGames()) == LeagueTotals().Keys
  {
    var gs := LeagueGames();
    assert gs == [gs[0], gs[1], gs[2], gs[3], gs[4]];
    TeamsOfFive(gs[0], gs[1], gs[2], gs[3], gs[4]);
  }

  /** The totals of the sample league: Tarantulas 6, Lions 5, FC Awesome 1, Snakes 1, Grouches 0. */
  lemma LeaguePoints()
    ensures PointsAfter(map[], LeagueGames()) == LeagueTotals()
  {
    LeagueTeams();
    forall t ensures Get(PointsAfter(map[], LeagueGames()), t) == Get(LeagueTotals(), t) {
      LeagueTotalOf(t);
    }
    MapsEqualByGet(PointsAfter(map[], LeagueGames()), LeagueTotals());
  }

  lemma LeagueRankingSorted()
    ensures StrictlySorted(LeagueRanking())
  {
    assert StrLess("FC Awesome", "Snakes");
  }

  lemma LeagueRankingMembers()
    ensures forall x :: x in LeagueRanking() <==> x.team in LeagueTotals() && x.points == LeagueTotals()[x.team]
  {
  }

  /** The ranking is the one strictly sorted sequence holding each team with its total. */
  lemma RankingIs(results: seq<GameResult>, totals: map<string, int>, expected: seq<Entry>)
    requires PointsAfter(map[], results) == totals
    requires StrictlySorted(expected)
    requires forall x :: x in expected <==> x.team in totals && x.points == totals[x.team]
    ensures Ranking(results) == expected
  {
    var r := Ranking(results);
    StrictlySortedUnique(r, expected);
  }

  /** The sample league ranks Tarantulas 6, Lions 5, then FC Awesome before Snakes on 1 point, then Grouches. */
  lemma LeagueRanks()
    ensures Ranking(LeagueGames()) == LeagueRanking()
  {
    LeaguePoints();
    LeagueRankingSorted();
    LeagueRankingMembers();
    RankingIs(LeagueGames(), LeagueTotals(), LeagueRanking());
  }

  lemma LeagueRankAt()
    ensures RankAt(LeagueRanking(), 0) == 1 && RankAt(LeagueRanking(), 1) == 2
    ensures RankAt(LeagueRanking(), 2) == 3 && RankAt(LeagueRanking(), 3) == 3
    ensures RankAt(LeagueRanking(), 4) == 5
  {
  }

  lemma LeagueStandingLines()
    ensures StandingLines(LeagueRanking())
         == ["1. Tarantulas, 6 pts", "2. Lions, 5 pts", "3. FC Awesome, 1 pt", "3. Snakes, 1 pt", "5. Grouches, 0 pts"]
  {
    LeagueRankAt();
    ExampleLine1();
    LeagueStanding2();
    LeagueStanding3();
    LeagueStanding4();
    LeagueStanding5();
    FiveLines(LeagueRanking(), "1. Tarantulas, 6 pts", "2. Lions, 5 pts", "3. FC Awesome, 1 pt", "3. Snakes, 1 pt", "5. Grouches, 0 pts");
  }

  lemma FiveLines(s: seq<Entry>, l0: string, l1: string, l2: string, l3: string, l4: string)
    requires |s| == 5
    requires StandingLine(RankAt(s, 0), s[0]) == l0 && StandingLine(RankAt(s, 1), s[1]) == l1
    requires StandingLine(RankAt(s, 2), s[2]) == l2 && StandingLine(RankAt(s, 3), s[3]) == l3
    requires StandingLine(RankAt(s, 4), s[4]) == l4
    ensures StandingLines(s) == [l0, l1, l2, l3, l4]
  {
  }

  lemma LeagueStanding2()
    ensures StandingLine(2, Entry("Lions", 5)) == "2. Lions, 5 pts"
  {
    IntToStringSmall();
  }

  lemma LeagueStanding3()
    ensures StandingLine(3, Entry("FC Awesome", 1)) == "3. FC Awesome, 1 pt"
  {
    IntToStringSmall();
  }

  lemma LeagueStanding4()
    ensures StandingLine(3, Entry("Snakes", 1)) == "3. Snakes, 1 pt"
  {
    IntToStringSmall();
  }

  lemma LeagueStanding5()
    ensures StandingLine(5, Entry("Grouches", 0)) == "5. Grouches, 0 pts"
  {
    IntToStringSmall();
  }

  lemma JoinFive(a: string, b: string, c: string, d: string, e: string)
    ensures Join([a, b, c, d, e], "\n") == a + "\n" + b + "\n" + c + "\n" + d + "\n" + e
  {
    assert [d, e][1..] == [e];
    assert Join([d, e], "\n") == d + "\n" + e;
    assert [c, d, e][1..] == [d, e];
    assert Join([c, d, e], "\n") == c + "\n" + (d + "\n" + e);
    assert [b, c, d, e][1..] == [c, d, e];
    assert Join([b, c, d, e], "\n") == b + "\n" + (c + "\n" + (d + "\n" + e));
    assert [a, b, c, d, e][1..] == [b, c, d, e];
    assert Join([a, b, c, d, e], "\n") == a + "\n" + (b + "\n" + (c + "\n" + (d + "\n" + e)));
  }

  /** The whole sample run: the five result lines give the five-line table, with FC Awesome and Snakes tied at rank 3 and Grouches at rank 5. */
  lemma LeagueReport()
    ensures Report(LeagueLines())
         == Ok("1. Tarantulas, 6 pts" + "\n" + "2. Lions, 5 pts" + "\n" + "3. FC Awesome, 1 pt" + "\n" + "3. Snakes, 1 pt" + "\n" + "5. Grouches, 0 pts")
  {
    LeagueParses();
    LeagueRanks();
    LeagueStandingLines();
    JoinFive("1. Tarantulas, 6 pts", "2. Lions, 5 pts", "3. FC Awesome, 1 pt", "3. Snakes, 1 pt", "5. Grouches, 0 pts");
  }
}
