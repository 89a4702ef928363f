/** The lenient CLI parser (`fetch_any_competition_leaderboard` in
    backend/universal_kaggle_leaderboard.py, lines 55-108): a line whose
    score does not parse is skipped and parsing goes on. The command's
    output is passed in as its return code and stdout. */
module UniversalLeaderboard {
  import opened Wrappers
  import opened Text
  import opened CliTable

  /** The second loop: a row for each line with four fields and a score
      that parses, ranked by the number of rows already parsed. */
  method ParseDataLines(kept: seq<string>, parseFloat: string -> Option<real>) returns (parsed: seq<CliRow>)
    ensures parsed == Numbered(Accepted(Candidates(kept), parseFloat))
  {
    ghost var cs := Candidates(kept);
    parsed := [];
    var i := 0;
    while i < |kept|
      invariant 0 <= i <= |kept|
      invariant parsed == Numbered(Accepted(cs[..i], parseFloat))
    {
      AcceptedOneMore(cs, i, parseFloat);
      var c := LineCandidate(kept, i);
      if c.Some? {
        var x := parseFloat(c.value.scoreText);
        if x.Some? {
          NumberedOneMore(Accepted(cs[..i], parseFloat), c.value, x.value);
          parsed := parsed + [CliRow(|parsed| + 1, c.value.teamId, c.value.teamName, c.value.submissionDate, x.value)];
        }
      }
      i := i + 1;
    }
    assert cs[..i] == cs;
  }

  /** The parse of `fetch_any_competition_leaderboard`: None when the
      command failed without output, when there is no output, or when no
      line is accepted; otherwise the accepted rows numbered from 1. */
  method FetchAnyCompetitionLeaderboard(returnCode: int, stdout: string, parseFloat: string -> Option<real>)
    returns (r: Option<seq<CliRow>>)
    ensures stdout == "" ==> r == None
    ensures stdout != "" ==>
      var rows := Numbered(Accepted(Candidates(KeptLines(Lines(stdout))), parseFloat));
      r == if rows == [] then None else Some(rows)
  {
    if returnCode != 0 && stdout == "" {
      return None;
    }
    if stdout == "" {
      return None;
    }
    var lines := SplitOn(Strip(stdout), '\n');
    var dataLines := FilterDataLines(lines);
    if dataLines == [] {
      return None;
    }
    var parsed := ParseDataLines(dataLines, parseFloat);
    if parsed == [] {
      return None;
    }
    return Some(parsed);
  }

  /** A successful parse: ranks run 1..k with no gaps, at most one row per
      kept line, and each row is the first four fields of a kept line with
      its score parsed. */
  lemma ParsedRowsShape(stdout: string, parseFloat: string -> Option<real>)
    ensures var kept := KeptLines(Lines(stdout));
      var rows := Numbered(Accepted(Candidates(kept), parseFloat));
      && |rows| <= |kept|
      && (forall i :: 0 <= i < |rows| ==> rows[i].rank == i + 1)
      && forall i :: 0 <= i < |rows| ==> RowOfSomeLine(rows[i], kept, parseFloat)
  {
    var kept := KeptLines(Lines(stdout));
    var cs := Candidates(kept);
    var acc := Accepted(cs, parseFloat);
    AcceptedComeFromLines(cs, parseFloat);
    var rows := Numbered(acc);
    forall i | 0 <= i < |rows|
      ensures RowOfSomeLine(rows[i], kept, parseFloat)
    {
      var j :| 0 <= j < |cs| && cs[j] == Some(acc[i].0) && parseFloat(acc[i].0.scoreText) == Some(acc[i].1);
      CandidatesAt(kept, j);
      assert rows[i] == CliRow(i + 1, acc[i].0.teamId, acc[i].0.teamName, acc[i].0.submissionDate, acc[i].1);
      assert RowOfLine(rows[i], kept[j], parseFloat);
    }
  }

  /** The row carries the first four fields of `line`, the score parsed. */
  predicate RowOfLine(row: CliRow, line: string, parseFloat: string -> Option<real>) {
    var c := Candidate(line);
    && c.Some?
    && c.value.teamId == row.teamId && c.value.teamName == row.teamName
    && c.value.submissionDate == row.submissionDate
    && parseFloat(c.value.scoreText) == Some(row.score)
  }

  ghost predicate RowOfSomeLine(row: CliRow, kept: seq<string>, parseFloat: string -> Option<real>) {
    exists j :: 0 <= j < |kept| && RowOfLine(row, kept[j], parseFloat)
  }

  /** A line whose score does not parse leaves no row and no gap: the line
      after it gets the next rank. */
  lemma UnparsableScoreIsSkipped(good1: CliFields, bad: CliFields, good2: CliFields, x: real, y: real,
                                 parseFloat: string -> Option<real>)
    requires parseFloat(good1.scoreText) == Some(x)
    requires parseFloat(bad.scoreText) == None
    requires parseFloat(good2.scoreText) == Some(y)
    ensures Numbered(Accepted([Some(good1), Some(bad), Some(good2)], parseFloat)) ==
      [CliRow(1, good1.teamId, good1.teamName, good1.submissionDate, x),
       CliRow(2, good2.teamId, good2.teamName, good2.submissionDate, y)]
  {
    var cs := [Some(good1), Some(bad), Some(good2)];
    AcceptedOneMore(cs, 0, parseFloat);
    AcceptedOneMore(cs, 1, parseFloat);
    AcceptedOneMore(cs, 2, parseFloat);
    assert cs[..0] == [] && cs[..3] == cs;
  }
}
