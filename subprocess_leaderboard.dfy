/** The strict CLI parser (`fetch_leaderboard_with_subprocess` in
    backend/final_subprocess_leaderboard.py, lines 47-163): a score that
    does not parse raises, and the outer handler turns any exception into
    None. With no parsed row the empty frame has no `Score` column, so the
    statistics raise and the result is None as well. */
module SubprocessLeaderboard {
  import opened Wrappers
  import opened Text
  import opened CliTable

  /** Whether a candidate, if there is one, has a score that parses. */
  predicate ScoreParses(c: Option<CliFields>, parseFloat: string -> Option<real>) {
    c.Some? ==> parseFloat(c.value.scoreText).Some?
  }

  /** Whether every line with four fields has a score that parses. */
  predicate AllScoresParse(cands: seq<Option<CliFields>>, parseFloat: string -> Option<real>) {
    forall j :: 0 <= j < |cands| ==> ScoreParses(cands[j], parseFloat)
  }

  /** The second loop: None as soon as a score fails to parse. */
  method ParseDataLinesStrict(kept: seq<string>, parseFloat: string -> Option<real>) returns (parsed: Option<seq<CliRow>>)
    ensures var cs := Candidates(kept);
      parsed == if AllScoresParse(cs, parseFloat) then Some(Numbered(Accepted(cs, parseFloat))) else None
  {
    ghost var cs := Candidates(kept);
    var rows: seq<CliRow> := [];
    var i := 0;
    while i < |kept|
      invariant 0 <= i <= |kept|
      invariant rows == Numbered(Accepted(cs[..i], parseFloat))
      invariant forall j :: 0 <= j < i ==> ScoreParses(cs[j], parseFloat)
    {
      AcceptedOneMore(cs, i, parseFloat);
      var c := LineCandidate(kept, i);
      if c.Some? {
        var x := parseFloat(c.value.scoreText);
        if x.None? {
          assert !ScoreParses(cs[i], parseFloat);
          return None;
        }
        NumberedOneMore(Accepted(cs[..i], parseFloat), c.value, x.value);
        rows := rows + [CliRow(|rows| + 1, c.value.teamId, c.value.teamName, c.value.submissionDate, x.value)];
      }
      assert ScoreParses(cs[i], parseFloat);
      i := i + 1;
    }
    assert cs[..i] == cs;
    parsed := Some(rows);
  }

  /** The parse of `fetch_leaderboard_with_subprocess`. */
  method FetchLeaderboardWithSubprocess(stdout: string, parseFloat: string -> Option<real>)
    returns (r: Option<seq<CliRow>>)
    ensures stdout == "" ==> r == None
    ensures stdout != "" ==>
      var cs := Candidates(KeptLines(Lines(stdout)));
      var rows := Numbered(Accepted(cs, parseFloat));
      r == if !AllScoresParse(cs, parseFloat) || rows == [] then None else Some(rows)
  {
    if stdout == "" {
      return None;
    }
    var lines := SplitOn(Strip(stdout), '\n');
    var dataLines := FilterDataLines(lines);
    if dataLines == [] {
      return None;
    }
    var parsed := ParseDataLinesStrict(dataLines, parseFloat);
    if parsed.None? || parsed.value == [] {
      return None;
    }
    return parsed;
  }

  /** The number of lines with at least four fields. */
  function CandidateCount(cands: seq<Option<CliFields>>): (n: nat)
    ensures n <= |cands|
    decreases |cands|
  {
    if |cands| == 0 then 0
    else CandidateCount(cands[..|cands| - 1]) + (if cands[|cands| - 1].Some? then 1 else 0)
  }

  /** With every score parsing, the strict parse keeps every line with four
      fields: one row per such line, in order. */
  lemma {:induction false} StrictKeepsEveryCandidate(cands: seq<Option<CliFields>>, parseFloat: string -> Option<real>)
    requires AllScoresParse(cands, parseFloat)
    ensures |Accepted(cands, parseFloat)| == CandidateCount(cands)
    decreases |cands|
  {
    if |cands| > 0 {
      var front := cands[..|cands| - 1];
      assert forall j :: 0 <= j < |front| ==> front[j] == cands[j];
      assert ScoreParses(cands[|cands| - 1], parseFloat);
      StrictKeepsEveryCandidate(front, parseFloat);
    }
  }

  /** One unparsable score among good ones makes the strict parse give
      None, where the lenient one keeps the good rows. */
  lemma OneBadScoreLosesEverything(good: CliFields, bad: CliFields, x: real, parseFloat: string -> Option<real>)
    requires parseFloat(good.scoreText) == Some(x)
    requires parseFloat(bad.scoreText) == None
    ensures !AllScoresParse([Some(good), Some(bad)], parseFloat)
    ensures Numbered(Accepted([Some(good), Some(bad)], parseFloat)) == [CliRow(1, good.teamId, good.teamName, good.submissionDate, x)]
  {
    var cs := [Some(good), Some(bad)];
    assert !ScoreParses(cs[1], parseFloat);
    AcceptedOneMore(cs, 0, parseFloat);
    AcceptedOneMore(cs, 1, parseFloat);
    assert cs[..0] == [] && cs[..2] == cs;
  }
}
