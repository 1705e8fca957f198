/**
 * The line parser: `parse_result` turns "<team1> <score1>, <team2> <score2>"
 * into the two names and the two scores, or fails with a `ValueError` whose
 * message repeats the line.
 */
module LineParser {
  import opened Wrappers
  import opened PyStrings

  /** One game, as the tuple `(team1, score1, team2, score2)` that `parse_result` returns. */
  datatype GameResult = GameResult(team1: string, score1: int, team2: string, score2: int)

  /** The message of the `ValueError` raised for a malformed line. */
  function ErrorMessage(line: string): string {
    "Error parsing result: " + line
  }

  /** The message quotes the offending line verbatim after a fixed prefix, so distinct lines give distinct messages. */
  lemma ErrorMessageNamesTheLine(line: string, other: string)
    ensures |ErrorMessage(line)| == 22 + |line|
    ensures ErrorMessage(line)[..22] == "Error parsing result: "
    ensures ErrorMessage(line)[22..] == line
    ensures ErrorMessage(line) == ErrorMessage(other) ==> line == other
  {
    assert ErrorMessage(other)[22..] == other;
  }

  /**
   * `parse_result`: split at the commas and keep the first two fields; split
   * each field at its last single space; strip the name and read the score
   * with `int()`. Every `IndexError` (no comma, no space) and every
   * `ValueError` (a score that is not an integer) becomes the one error.
   */
  function ParseResult(line: string): (r: Result<GameResult, string>)
    ensures r.Err? ==> r.error == ErrorMessage(line)
    ensures r.Ok? ==> IsStripped(r.value.team1) && IsStripped(r.value.team2)
    ensures r.Ok? ==> ',' !in r.value.team1 && ',' !in r.value.team2
  {
    var parts := Split(line, ',');
    if |parts| < 2 then Err(ErrorMessage(line))
    else
      var team1Data := RSplitOnce(parts[0], ' ');
      var team2Data := RSplitOnce(parts[1], ' ');
      if |team1Data| < 2 || |team2Data| < 2 then Err(ErrorMessage(line))
      else
        var score1 := ParseInt(Strip(team1Data[1]));
        var score2 := ParseInt(Strip(team2Data[1]));
        if score1.None? || score2.None? then Err(ErrorMessage(line))
        else
          StripKeepsOnlyCharsOf(team1Data[0]);
          StripKeepsOnlyCharsOf(team2Data[0]);
          Ok(GameResult(Strip(team1Data[0]), score1.value, Strip(team2Data[0]), score2.value))
  }

  /**
   * The shape of a line that `parse_result` can take apart:
   * "<name1> <token1>,<name2> <token2><tail>", where no piece but the tail
   * holds a comma, neither token holds a space, and the tail is empty or
   * starts at the second comma (the fields after it are ignored).
   */
  predicate Shaped(line: string, name1: string, token1: string, name2: string, token2: string, tail: string) {
    && line == (name1 + " " + token1) + "," + (name2 + " " + token2) + tail
    && ',' !in name1 && ',' !in token1 && ',' !in name2 && ',' !in token2
    && ' ' !in token1 && ' ' !in token2
    && (tail == "" || tail[0] == ',')
  }

  /** What a line of that shape parses to: the stripped names and the scores, or the error if a token is no integer. */
  function Reading(line: string, name1: string, token1: string, name2: string, token2: string): Result<GameResult, string> {
    var score1 := ParseInt(Strip(token1));
    var score2 := ParseInt(Strip(token2));
    if score1.Some? && score2.Some? then Ok(GameResult(Strip(name1), score1.value, Strip(name2), score2.value))
    else Err(ErrorMessage(line))
  }

  /** Every line of the expected shape parses to its reading: the name is what precedes the last space, the score what follows it. */
  lemma ParseShaped(line: string, name1: string, token1: string, name2: string, token2: string, tail: string)
    requires Shaped(line, name1, token1, name2, token2, tail)
    ensures ParseResult(line) == Reading(line, name1, token1, name2, token2)
  {
    var half1 := name1 + " " + token1;
    var half2 := name2 + " " + token2;
    assert line == half1 + [','] + (half2 + tail);
    SplitAtFirstSep(half1, half2 + tail, ',');
    if tail == "" {
      assert half2 + tail == half2;
      SplitWithoutSep(half2, ',');
    } else {
      assert half2 + tail == half2 + [','] + tail[1..];
      SplitAtFirstSep(half2, tail[1..], ',');
    }
    assert half1 == name1 + [' '] + token1;
    assert half2 == name2 + [' '] + token2;
    RSplitOnceAt(name1, token1, ' ');
    RSplitOnceAt(name2, token2, ' ');
  }

  /** Conversely, a line that parses has the expected shape, and the result is its reading. */
  lemma ParseSound(line: string, g: GameResult) returns (name1: string, token1: string, name2: string, token2: string, tail: string)
    requires ParseResult(line) == Ok(g)
    ensures Shaped(line, name1, token1, name2, token2, tail)
    ensures Reading(line, name1, token1, name2, token2) == Ok(g)
  {
    var parts := Split(line, ',');
    var d1 := RSplitOnce(parts[0], ' ');
    var d2 := RSplitOnce(parts[1], ' ');
    tail := FirstTwoFields(line, parts);
    Regroup(line, parts[0], parts[1], d1[0], d1[1], d2[0], d2[1], tail);
    name1, token1, name2, token2 := d1[0], d1[1], d2[0], d2[1];
  }

  /** The first two comma-separated fields, followed by the rest of the line from the second comma on. */
  lemma FirstTwoFields(line: string, parts: seq<string>) returns (tail: string)
    requires parts == Split(line, ',') && |parts| >= 2
    ensures line == parts[0] + [','] + (parts[1] + tail)
    ensures tail == "" || tail[0] == ','
  {
    var rest := parts[1..];
    assert line == parts[0] + [','] + Join(rest, [',']);
    if |parts| == 2 {
      tail := "";
      assert Join(rest, [',']) == parts[1] + tail;
    } else {
      tail := [','] + Join(parts[2..], [',']);
      assert rest[1..] == parts[2..];
      assert Join(rest, [',']) == parts[1] + tail;
    }
  }

  lemma Regroup(line: string, p0: string, p1: string, n1: string, t1: string, n2: string, t2: string, tail: string)
    requires line == p0 + [','] + (p1 + tail)
    requires p0 == n1 + [' '] + t1
    requires p1 == n2 + [' '] + t2
    ensures line == (n1 + " " + t1) + "," + (n2 + " " + t2) + tail
  {
  }

  /** A line without a comma is rejected, and the message names it. */
  lemma ParseMissingComma(line: string)
    requires ',' !in line
    ensures ParseResult(line) == Err(ErrorMessage(line))
  {
    SplitWithoutSep(line, ',');
  }

  /** A line whose first or second field has no space is rejected, and the message names it. */
  lemma ParseMissingSpace(line: string, half1: string, half2: string, tail: string)
    requires line == half1 + "," + half2 + tail
    requires ',' !in half1 && ',' !in half2 && (tail == "" || tail[0] == ',')
    requires ' ' !in half1 || ' ' !in half2
    ensures ParseResult(line) == Err(ErrorMessage(line))
  {
    assert line == half1 + [','] + (half2 + tail);
    SplitAtFirstSep(half1, half2 + tail, ',');
    if tail == "" {
      assert half2 + tail == half2;
      SplitWithoutSep(half2, ',');
    } else {
      assert half2 + tail == half2 + [','] + tail[1..];
      SplitAtFirstSep(half2, tail[1..], ',');
    }
  }

  /** A line of the expected shape whose score token is no integer literal is rejected, and the message names it. */
  lemma ParseBadScore(line: string, name1: string, token1: string, name2: string, token2: string, tail: string)
    requires Shaped(line, name1, token1, name2, token2, tail)
    requires !IsIntLiteral(Strip(token1)) || !IsIntLiteral(Strip(token2))
    ensures ParseResult(line) == Err(ErrorMessage(line))
  {
    ParseShaped(line, name1, token1, name2, token2, tail);
    ParseIntAccepts(Strip(token1));
    ParseIntAccepts(Strip(token2));
  }

  /** The line a game result is written as: "<team1> <score1>, <team2> <score2>". */
  function ResultLine(g: GameResult): string {
    g.team1 + " " + IntToString(g.score1) + ", " + g.team2 + " " + IntToString(g.score2)
  }

  /** Parsing a written result gives it back, whenever its names are stripped and free of commas. */
  lemma ParseResultLine(g: GameResult)
    requires IsStripped(g.team1) && IsStripped(g.team2)
    requires ',' !in g.team1 && ',' !in g.team2
    ensures ParseResult(ResultLine(g)) == Ok(g)
  {
    WrittenPieces(g);
    ParseShapedTo(ResultLine(g), g.team1, IntToString(g.score1), " " + g.team2, IntToString(g.score2), "", g);
  }

  /** A written result has the expected shape, and its pieces read back as the names and the scores. */
  lemma WrittenPieces(g: GameResult)
    requires IsStripped(g.team1) && IsStripped(g.team2)
    requires ',' !in g.team1 && ',' !in g.team2
    ensures Shaped(ResultLine(g), g.team1, IntToString(g.score1), " " + g.team2, IntToString(g.score2), "")
    ensures Strip(g.team1) == g.team1 && Strip(" " + g.team2) == g.team2
    ensures ParseInt(Strip(IntToString(g.score1))) == Some(g.score1)
    ensures ParseInt(Strip(IntToString(g.score2))) == Some(g.score2)
  {
    ResultLineShaped(g);
    ReadBackInt(g.score1);
    ReadBackInt(g.score2);
    StripOfStripped(g.team1);
    StripLeftPadded(" ", g.team2);
  }

  lemma ResultLineShaped(g: GameResult)
    requires ',' !in g.team1 && ',' !in g.team2
    ensures Shaped(ResultLine(g), g.team1, IntToString(g.score1), " " + g.team2, IntToString(g.score2), "")
  {
    IntToStringPlain(g.score1);
    IntToStringPlain(g.score2);
    ResultLineShape(g);
    WrittenShape(g.team1, IntToString(g.score1), " " + g.team2, IntToString(g.score2), ResultLine(g));
  }

  lemma WrittenShape(name1: string, token1: string, name2: string, token2: string, line: string)
    requires line == (name1 + " " + token1) + "," + (name2 + " " + token2) + ""
    requires ',' !in name1 && ',' !in name2
    requires ' ' !in token1 && ',' !in token1 && ' ' !in token2 && ',' !in token2
    ensures Shaped(line, name1, token1, name2, token2, "")
  {
  }

  /** A line of the expected shape whose pieces read as `g` parses to `g`. */
  lemma ParseShapedTo(line: string, name1: string, token1: string, name2: string, token2: string, tail: string, g: GameResult)
    requires Shaped(line, name1, token1, name2, token2, tail)
    requires Strip(name1) == g.team1 && Strip(name2) == g.team2
    requires ParseInt(Strip(token1)) == Some(g.score1) && ParseInt(Strip(token2)) == Some(g.score2)
    ensures ParseResult(line) == Ok(g)
  {
    ParseShaped(line, name1, token1, name2, token2, tail);
  }

  lemma ResultLineShape(g: GameResult)
    ensures ResultLine(g)
      == (g.team1 + " " + IntToString(g.score1)) + "," + ((" " + g.team2) + " " + IntToString(g.score2)) + ""
  {
  }

  /** The first example of the unit tests. */
  lemma ParseExampleSingleWords()
    ensures ParseResult("Lions 3, Snakes 1") == Ok(GameResult("Lions", 3, "Snakes", 1))
  {
    var g := GameResult("Lions", 3, "Snakes", 1);
    assert IntToString(3) == "3" && IntToString(1) == "1";
    assert ResultLine(g) == "Lions 3, Snakes 1";
    ParseResultLine(g);
  }

  /** The second example of the unit tests: the name "FC Awesome" keeps its inner space. */
  lemma ParseExampleMultiWord()
    ensures ParseResult("Tarantulas 2, FC Awesome 2") == Ok(GameResult("Tarantulas", 2, "FC Awesome", 2))
  {
    var g := GameResult("Tarantulas", 2, "FC Awesome", 2);
    assert IntToString(2) == "2";
    assert ResultLine(g) == "Tarantulas 2, FC Awesome 2";
    ParseResultLine(g);
  }

  /** A line without its comma is reported verbatim. */
  lemma ParseExampleMissingComma()
    ensures ParseResult("Lions 3 Snakes 1") == Err(ErrorMessage("Lions 3 Snakes 1"))
  {
    ParseMissingComma("Lions 3 Snakes 1");
  }
}
