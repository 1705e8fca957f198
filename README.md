# League ranking, modelled in Dafny

This project models `python/league_ranking.py`. The program reads game-result
lines such as `"Lions 3, Snakes 1"` and prints a table of standings. A win is
worth 3 points, a draw 1 point and a loss nothing. Teams are ordered by points
and then by name. Teams with equal points share a rank, and the next rank
skips ahead to the next position (`1, 2, 2, 4`).

The modules follow the stages of the program:

- `Wrappers` holds `Option` and `Result`.
- `PyStrings` holds the Python string built-ins the program relies on: `str.split`, `str.rsplit(' ', 1)`, `str.strip`, `str.join`, `int()` and `str()`.
- `LineParser` models `parse_result`. It is a pure function. The `ValueError` it raises becomes `Err(ErrorMessage(line))`.
- `Accumulator` models the `defaultdict` standings and `update_standings`.
  - `Standings` is a class. Its `Update` method changes the dictionary in place.
  - `teams` is the dictionary's key insertion order and `points` is its contents.
  - `Scored` and `PointsAfter` are the pure functions those methods are proved against.
- `Ranker` models `get_sorted_standings`. It is a pure sort of `items()` under the key `(-points, name)`.
- `Formatter` models `format_standings`. It is a method with the same loop over `rank` and `prev_points`. The method is proved against `StandingLines` and `RankAt`.
- `Driver` models `main` without the printing.
  - `Run` creates the standings, folds the lines in with `AddAll`, then sorts and formats the result.
  - `Report` is the function `Run` is proved against.
  - The module also proves a five-game sample league end to end.

## Model

| member | source | states |
|---|---|---|
| LineParser.ParseResult | python/league_ranking.py:4-18 | a failure always carries the message "Error parsing result: " followed by the line; the parsed names are stripped and contain no comma |
| LineParser.ErrorMessageNamesTheLine | python/league_ranking.py:18 | the message is "Error parsing result: " followed by the line verbatim, so distinct lines give distinct messages |
| LineParser.ParseShaped | python/league_ranking.py:7-16 | a line "<name1> <token1>,<name2> <token2>[,...]" (no comma inside the pieces, no space in the tokens) parses to the stripped names and the tokens read by `int()`, and whatever follows a second comma is ignored |
| LineParser.ParseSound | python/league_ranking.py:7-16 | conversely, every line that parses has that shape, and the result is exactly the reading of its pieces |
| LineParser.ParseMissingComma | python/league_ranking.py:7-9 | a line without a comma is rejected with the error naming the line |
| LineParser.ParseMissingSpace | python/league_ranking.py:8-9 | a line whose first or second field has no space is rejected with the error naming the line |
| LineParser.ParseBadScore | python/league_ranking.py:11-14 | a well-shaped line whose score token, once stripped, is not an integer literal is rejected with the error naming the line |
| LineParser.ParseResultLine | python/league_ranking.py:4-16 | round trip: writing a game as "<team1> <score1>, <team2> <score2>" and parsing it gives the game back, whenever the names are stripped and free of commas |
| LineParser.ParseExampleSingleWords | python/test_league_ranking.py:10 | "Lions 3, Snakes 1" parses to ("Lions", 3, "Snakes", 1) |
| LineParser.ParseExampleMultiWord | python/test_league_ranking.py:11 | "Tarantulas 2, FC Awesome 2" keeps the inner space of "FC Awesome" |
| LineParser.ParseExampleMissingComma | python/league_ranking.py:17-18 | "Lions 3 Snakes 1" is rejected with its own text in the message |
| Accumulator.Gain | python/league_ranking.py:31-37 | a side earns 3, 1 or 0 points, and 1 exactly when the scores are equal |
| Accumulator.Scored | python/league_ranking.py:20-37 | both teams become keys; every total grows by what the game earns that team; every other team is unchanged; no total decreases; a win gives the winner 3 and leaves the loser unchanged (both directions); a draw gives each side 1 |
| Accumulator.Standings.constructor | python/league_ranking.py:57 | a fresh `defaultdict(int)` has no keys and no totals |
| Accumulator.MapsEqualByGet | python/league_ranking.py:57 | reading the dictionary through `Get` (0 for a missing key) loses nothing: two dictionaries with the same keys that read alike are equal |
| Accumulator.Standings.Add | python/league_ranking.py:27-28 | `standings[team] += k`: a team not yet present is inserted at the end of the key order, and its total grows by `k` |
| Accumulator.Standings.Update | python/league_ranking.py:20-37 | the dictionary after the call is `Scored` of the dictionary before it; the key order gains team1 and then team2 if they are new |
| Accumulator.ScoredExampleWin | python/test_league_ranking.py:21-24 | Lions beating Snakes 3-1 from zero gives Lions 3 and Snakes 0 |
| Accumulator.ScoredExampleDraw | python/test_league_ranking.py:28-31 | a 2-2 draw from zero gives each side 1 |
| Accumulator.ScoredCommute | python/league_ranking.py:31-37 | scoring two games in either order gives the same standings |
| Accumulator.TotalScored | python/league_ranking.py:31-37 | the sum of all totals grows by exactly 2 for a draw and 3 for a decisive game |
| Accumulator.TotalPointsAfter | python/league_ranking.py:60-62 | after the loop, the sum of all totals is the starting sum plus 3 per decisive game and 2 per draw |
| Accumulator.PointsAfterGet | python/league_ranking.py:60-62 | after the loop, each team's total is its starting total plus what it earned in every game |
| Accumulator.PointsAfterPermutation | python/league_ranking.py:60-62 | the totals the loop builds do not depend on the order of the games |
| Accumulator.TeamsAfter | python/league_ranking.py:27-28 | after the loop, the key order lists the starting keys plus every team named in a game, and lists each once if the starting order did |
| Accumulator.AfterValid | python/league_ranking.py:57-62 | folding the games keeps the key order and the dictionary consistent: each key listed once, and exactly the keys listed |
| Accumulator.ItemsOfTable | python/league_ranking.py:41 | `items()` of a consistent dictionary holds an entry exactly for each key with that key's total, and no key twice |
| Ranker.StrLessIrreflexive | python/league_ranking.py:41 | Python's `<` on names (code point by code point, a proper prefix first) never holds between a name and itself |
| Ranker.StrLessTransitive | python/league_ranking.py:41 | `<` on names is transitive |
| Ranker.StrLessTotal | python/league_ranking.py:41 | of two distinct names one is `<` the other |
| Ranker.StrLessAsymmetric | python/league_ranking.py:41 | no two names are `<` each other both ways |
| Ranker.BeforeIrreflexive | python/league_ranking.py:41 | under the key `(-x[1], x[0])` (more points first, then the smaller name) no entry sorts before itself |
| Ranker.BeforeTransitive | python/league_ranking.py:41 | the key `(-x[1], x[0])` orders entries transitively |
| Ranker.BeforeTotal | python/league_ranking.py:41 | two distinct entries are always ordered one way or the other |
| Ranker.BeforeAsymmetric | python/league_ranking.py:41 | no two entries are ordered both ways |
| Ranker.SortEntries | python/league_ranking.py:41 | `sorted` returns a permutation of its input in key order |
| Ranker.StrictlySortedUnique | python/league_ranking.py:41 | two strictly sorted sequences with the same members are equal, so the key order fixes the result completely |
| Ranker.GetSortedStandings | python/league_ranking.py:39-41 | a permutation of `items()`; it holds exactly the (team, total) pairs of the dictionary, one per team; points never increase, and equal points come in strictly ascending name order |
| Ranker.SortedStandingsIgnoreInsertionOrder | python/league_ranking.py:41 | the sorted standings do not depend on the order the teams were inserted in |
| Ranker.SortedStandingsExample | python/test_league_ranking.py:35-37 | Lions 3, Snakes 1, Tarantulas 6, Grouches 0 sort to Tarantulas, Lions, Snakes, Grouches |
| Formatter.RankAt | python/league_ranking.py:46-51 | the rank of entry `i` is between 1 and `i + 1` |
| Formatter.FormatStandings | python/league_ranking.py:43-53 | the loop over `rank` and `prev_points` returns the lines, each with its entry's rank, joined by newlines |
| Formatter.NextRank | python/league_ranking.py:48-51 | one step of the loop: a new total sets the rank to the position plus one, a repeated total keeps the rank; the loop's rank is then the entry's rank |
| Formatter.RankStartsRun | python/league_ranking.py:46-51 | an entry's rank is the 1-based position where its run of equal totals starts |
| Formatter.RankCountsBetterEntries | python/league_ranking.py:46-51 | in sorted standings, an entry's rank is one more than the number of entries with more points |
| Formatter.SameRankIffSamePoints | python/league_ranking.py:46-51 | in sorted standings, two entries share a rank exactly when they have the same points |
| Formatter.StandingLineUnit | python/league_ranking.py:52 | through `Unit`, a line ends in " 1 pt" exactly for one point, and in " pts" otherwise, 0 included |
| Formatter.StandingLineRank | python/league_ranking.py:52 | in the line `StandingLine` writes, the text before the first "." is `str(rank)` and reads back as the rank |
| Formatter.FormatOneLinePerEntry | python/league_ranking.py:52-53 | for a non-empty list whose team names hold no newline, splitting the report at newlines gives back one line per entry (no entries give `""`, see `Formatter.FormatEmpty`) |
| Formatter.FormatEmpty | python/league_ranking.py:45-53 | no entries give the empty report |
| Formatter.FormatExample | python/test_league_ranking.py:43-45 | the four-entry example gives "1. Tarantulas, 6 pts", "2. Lions, 3 pts", "3. Snakes, 1 pt", "4. Grouches, 0 pts" joined by newlines |
| Formatter.RankExampleWithTie | python/league_ranking.py:49-50 | totals 6, 3, 3, 1 rank 1, 2, 2, 4 |
| Driver.Run | python/league_ranking.py:55-65 | `main` without the print returns `Report` of its lines: the error of the first bad line, or the formatted sorted standings of all the games |
| Driver.AddAll | python/league_ranking.py:60-62 | the loop stops with the error exactly when some line fails to parse, and that error is the first failing line's; otherwise the dictionary is the fold of all the games into the starting one |
| Driver.ParseAllFails | python/league_ranking.py:60-61 | a failing run names a line that does not parse, and every line before it parses |
| Driver.ParseAllSucceeds | python/league_ranking.py:60-61 | a successful run has one game per line, each the parse of its line |
| Driver.ParseAllWhenEveryLineParses | python/league_ranking.py:60-61 | if every line parses, the run succeeds |
| Driver.ReportNamesTheBadLine | python/league_ranking.py:17-18 | a failing report's message is "Error parsing result: " followed by the first line that does not parse, and every earlier line parses |
| Driver.RankingListsEveryTeamOnce | python/league_ranking.py:57-64 | the ranking lists each team that played exactly once, with the total the loop built for it, and no other team |
| Driver.RankingIgnoresOrder | python/league_ranking.py:60-64 | the ranking does not depend on the order of the games |
| Driver.ReportIgnoresOrder | python/league_ranking.py:55-65 | when every line parses, reordering the lines does not change the report |
| Driver.LeagueParses | python/league_ranking.py:60-61 | the five sample lines parse to their five games |
| Driver.LeaguePoints | python/league_ranking.py:60-62 | the sample league ends with Tarantulas 6, Lions 5, FC Awesome 1, Snakes 1, Grouches 0 |
| Driver.LeagueRanks | python/league_ranking.py:64 | the sample ranking is Tarantulas, Lions, FC Awesome, Snakes, Grouches |
| Driver.LeagueReport | python/league_ranking.py:55-65 | the sample run reports "1. Tarantulas, 6 pts", "2. Lions, 5 pts", "3. FC Awesome, 1 pt", "3. Snakes, 1 pt", "5. Grouches, 0 pts" joined by newlines |
| PyStrings.Strip | python/league_ranking.py:11-14 | the result has no `str.isspace()` character at either end and is no longer than the input |
| PyStrings.StripSlice | python/league_ranking.py:11-14 | what `strip()` keeps is a contiguous slice of the input with only whitespace before and after it |
| PyStrings.StripPadded | python/league_ranking.py:11-14 | `strip()` of whitespace, then a stripped text, then whitespace gives the text |
| PyStrings.Split | python/league_ranking.py:7 | the pieces hold no separator, there is at least one piece, and joining them with the separator gives the input back |
| PyStrings.Join | python/league_ranking.py:53 | `"\n".join` of no lines is the empty string, and of one line is that line |
| PyStrings.SplitJoin | python/league_ranking.py:7 | splitting a join of separator-free pieces gives the pieces back |
| PyStrings.RSplitOnce | python/league_ranking.py:8-9 | `rsplit(' ', 1)` gives one piece when there is no space, or two pieces around the last space, with no space in the second |
| PyStrings.RSplitOnceAt | python/league_ranking.py:8-9 | splitting "a b" where `b` has no space gives `a` and `b` |
| PyStrings.ParseInt | python/league_ranking.py:12-14 | `int()` reads nothing from the empty string; without a leading `-` it never reads a negative number, and with one never a positive |
| PyStrings.ParseIntAccepts | python/league_ranking.py:12 | `int()` succeeds exactly on an optional sign followed by one or more ASCII digits |
| PyStrings.IntToString | python/league_ranking.py:52 | `str(n)` reads back as `n` |
| PyStrings.IntToStringPlain | python/league_ranking.py:52 | `str(n)` has no space, comma or newline, and `strip()` leaves it unchanged |

## Left out

- Reading the input and printing: `sys.stdin.read()`, `open(sys.argv[1])`, `splitlines()` and `print(result)` (python/league_ranking.py:66, 68-72) are I/O. `Run` takes the lines as a sequence and returns the report instead of printing it.
- The full grammar of Python's `int()`: underscores between digits (`"1_000"`) and decimal digits outside ASCII (Unicode category Nd, such as `"٣"`) are accepted by Python but not by the model. `ParseInt` accepts an optional `+` or `-` followed by ASCII digits. Other numeric characters such as `"½"` or `"²"` are rejected by both. The whitespace around a score is removed by `Strip` before `ParseInt` sees it, as `.strip()` does in the source.
- Exception types and chaining: `ValueError` and `IndexError` and the `from e` cause collapse into one `Err` carrying the message. The cause is not modelled.
- `sorted` is modelled by an insertion sort. Timsort's internals and its stability are left out. Stability cannot show, because the key `(-points, name)` is a strict total order on entries with distinct names.
- Python integers are unbounded, like Dafny's `int`, so there is no wrap-around to model. Negative scores are accepted, as in the source.
- PyStrings.ParseInt: does not model the limit on the length of integer strings. CPython 3.11 and later (also 3.10.7 and 3.9.14 and later) make `int()` raise `ValueError` for a string of more than 4300 digits, so `parse_result` would reject such a score. `ParseInt` reads a numeral of any length, and `ParseResult` accepts the line.
- PyStrings.IntToString, Formatter.FormatStandings: do not model the same 4300-digit limit in the other direction. CPython 3.11 and later (also 3.10.7 and 3.9.14 and later) make `str(n)` and the f-string `{points}` raise `ValueError` when `n` has more than 4300 decimal digits, so `format_standings` would raise for such a total. The model writes totals of any length, and `IntToString`'s read-back holds for all of them. `main` cannot reach such a total in practice, since each line adds at most 3 points to it, but a direct call to `format_standings` can.
- Lone surrogates: a Python `str` may hold unpaired surrogate code points (for instance from decoding with `surrogateescape`). A Dafny `char` is a Unicode scalar value and cannot hold one, so such lines are outside the model.
- `defaultdict(int)` is modelled as a `map<string, int>` read through `Get`, which gives 0 for a missing key. The key insertion order is kept beside it as a sequence.
- `Driver.GameOf` gives a placeholder game for a line that does not parse. It is only used for lines that do parse.
