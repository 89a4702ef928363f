/** What the two Kaggle CLI leaderboard parsers share
    (backend/universal_kaggle_leaderboard.py and
    backend/final_subprocess_leaderboard.py): the captured stdout is
    stripped and split into lines, noise lines are dropped, each kept line
    is stripped and split on runs of two or more whitespace characters, and
    a line with at least four fields names a team id, a team name, a
    submission date and a score. Accepted rows are numbered from 1 in the
    order they are accepted. `float(str)` is the parameter `parseFloat`. */
module CliTable {
  import opened Wrappers
  import opened Text
  import opened Subsequences

  /** The lines of the captured output: `stdout.strip().split('\n')`. */
  function Lines(stdout: string): (lines: seq<string>)
    ensures |lines| > 0
  {
    SplitOn(Strip(stdout), '\n')
  }

  /** A warning, header, separator or blank line. The tests are on the
      whole line, so a team name holding `---` makes its line noise too. */
  predicate IsNoiseLine(line: string) {
    || Contains(line, "Warning:")
    || Contains(line, "teamId")
    || Contains(line, "---")
    || Contains(line, "please consider")
    || |Strip(line)| == 0
  }

  /** The kept lines, in order. */
  function KeptLines(lines: seq<string>): (kept: seq<string>)
    ensures |kept| <= |lines|
    decreases |lines|
  {
    if |lines| == 0 then []
    else
      var front := KeptLines(lines[..|lines| - 1]);
      var last := lines[|lines| - 1];
      if IsNoiseLine(last) then front else front + [last]
  }

  /** The kept lines are exactly the lines that are not noise. */
  lemma {:induction false} KeptLinesAreDataLines(lines: seq<string>)
    ensures forall l :: l in KeptLines(lines) <==> l in lines && !IsNoiseLine(l)
    decreases |lines|
  {
    if |lines| > 0 {
      var front := lines[..|lines| - 1];
      KeptLinesAreDataLines(front);
      assert lines == front + [lines[|lines| - 1]];
    }
  }

  /** The first loop of both parsers, collecting `data_lines`. */
  method FilterDataLines(lines: seq<string>) returns (kept: seq<string>)
    ensures kept == KeptLines(lines)
  {
    kept := [];
    var i := 0;
    while i < |lines|
      invariant 0 <= i <= |lines|
      invariant kept == KeptLines(lines[..i])
    {
      assert lines[..i + 1][..i] == lines[..i];
      var line := lines[i];
      if !(Contains(line, "Warning:") || Contains(line, "teamId") || Contains(line, "---")
           || Contains(line, "please consider") || |Strip(line)| == 0) {
        kept := kept + [line];
      }
      i := i + 1;
    }
    assert lines[..i] == lines;
  }

  /** The fields of a kept line: `re.split(r'\s{2,}', line.strip())`. */
  function Fields(line: string): (parts: seq<string>)
    ensures |parts| > 0
  {
    SplitOnSpaceRuns(Strip(line))
  }

  /** The first four fields of a line, each stripped. */
  datatype CliFields = CliFields(teamId: string, teamName: string, submissionDate: string, scoreText: string)

  /** The fields of a line with at least four of them; further fields are
      ignored. */
  function Candidate(line: string): Option<CliFields> {
    var parts := Fields(line);
    if |parts| >= 4 then Some(CliFields(Strip(parts[0]), Strip(parts[1]), Strip(parts[2]), Strip(parts[3])))
    else None
  }

  /** The candidate of each line, in line order. */
  function Candidates(lines: seq<string>): (cs: seq<Option<CliFields>>)
    ensures |cs| == |lines|
    decreases |lines|
  {
    if |lines| == 0 then [] else Candidates(lines[..|lines| - 1]) + [Candidate(lines[|lines| - 1])]
  }

  lemma {:induction false} CandidatesAt(lines: seq<string>, i: nat)
    requires i < |lines|
    ensures Candidates(lines)[i] == Candidate(lines[i])
    decreases |lines|
  {
    if i < |lines| - 1 {
      CandidatesAt(lines[..|lines| - 1], i);
    }
  }

  /** The fields of line `i`, as the parsing loops compute them. */
  method LineCandidate(lines: seq<string>, i: nat) returns (c: Option<CliFields>)
    requires i < |lines|
    ensures c == Candidates(lines)[i]
  {
    var parts := SplitOnSpaceRuns(Strip(lines[i]));
    if |parts| >= 4 {
      c := Some(CliFields(Strip(parts[0]), Strip(parts[1]), Strip(parts[2]), Strip(parts[3])));
    } else {
      c := None;
    }
    CandidatesAt(lines, i);
  }

  /** The candidates whose score parses, with the parsed score, in line
      order. */
  function Accepted(cands: seq<Option<CliFields>>, parseFloat: string -> Option<real>): seq<(CliFields, real)>
    decreases |cands|
  {
    if |cands| == 0 then []
    else
      var acc := Accepted(cands[..|cands| - 1], parseFloat);
      match cands[|cands| - 1]
      case None => acc
      case Some(f) =>
        match parseFloat(f.scoreText)
        case None => acc
        case Some(x) => acc + [(f, x)]
  }

  /** At most one accepted candidate per line, and each is the candidate
      of some line together with its parsed score. */
  lemma {:induction false} AcceptedComeFromLines(cands: seq<Option<CliFields>>, parseFloat: string -> Option<real>)
    ensures |Accepted(cands, parseFloat)| <= |cands|
    ensures forall k :: 0 <= k < |Accepted(cands, parseFloat)| ==>
      exists j :: (0 <= j < |cands| && cands[j] == Some(Accepted(cands, parseFloat)[k].0)
                   && parseFloat(Accepted(cands, parseFloat)[k].0.scoreText) == Some(Accepted(cands, parseFloat)[k].1))
    decreases |cands|
  {
    if |cands| > 0 {
      var front := cands[..|cands| - 1];
      AcceptedComeFromLines(front, parseFloat);
      assert forall j :: 0 <= j < |front| ==> front[j] == cands[j];
    }
  }

  /** The test a candidate must pass to be kept: four fields and a score
      that parses. */
  function HasParsedScore(parseFloat: string -> Option<real>): Option<CliFields> -> bool {
    (c: Option<CliFields>) => c.Some? && parseFloat(c.value.scoreText).Some?
  }

  /** Exactly one accepted row per line with four fields whose score
      parses, in line order, with that score: no such line is lost and no
      other line gives a row. */
  lemma {:induction false} AcceptedKeepsPositions(cands: seq<Option<CliFields>>, parseFloat: string -> Option<real>)
    ensures var idx := Positions(cands, HasParsedScore(parseFloat));
      && |Accepted(cands, parseFloat)| == |idx|
      && forall k :: 0 <= k < |idx| ==>
           Accepted(cands, parseFloat)[k] == (cands[idx[k]].value, parseFloat(cands[idx[k]].value.scoreText).value)
    decreases |cands|
  {
    if |cands| > 0 {
      var front := cands[..|cands| - 1];
      AcceptedKeepsPositions(front, parseFloat);
      PositionsOneMore(cands, HasParsedScore(parseFloat));
      AcceptedOneMore(cands, |cands| - 1, parseFloat);
      assert cands[..|cands|] == cands;
      var idx, fidx := Positions(cands, HasParsedScore(parseFloat)), Positions(front, HasParsedScore(parseFloat));
      var acc, facc := Accepted(cands, parseFloat), Accepted(front, parseFloat);
      forall k | 0 <= k < |idx|
        ensures acc[k] == (cands[idx[k]].value, parseFloat(cands[idx[k]].value.scoreText).value)
      {
        if k < |fidx| {
          assert acc[k] == facc[k] && idx[k] == fidx[k];
          assert cands[idx[k]] == front[idx[k]];
        }
      }
    }
  }

  /** One parsed leaderboard row. */
  datatype CliRow = CliRow(rank: nat, teamId: string, teamName: string, submissionDate: string, score: real)

  /** The accepted candidates numbered 1, 2, ... in order. */
  function Numbered(acc: seq<(CliFields, real)>): (rows: seq<CliRow>)
    ensures |rows| == |acc|
    ensures forall i :: 0 <= i < |acc| ==>
      rows[i] == CliRow(i + 1, acc[i].0.teamId, acc[i].0.teamName, acc[i].0.submissionDate, acc[i].1)
  {
    seq(|acc|, i requires 0 <= i < |acc| =>
      CliRow(i + 1, acc[i].0.teamId, acc[i].0.teamName, acc[i].0.submissionDate, acc[i].1))
  }

  lemma NumberedOneMore(acc: seq<(CliFields, real)>, f: CliFields, x: real)
    ensures Numbered(acc + [(f, x)]) == Numbered(acc) + [CliRow(|acc| + 1, f.teamId, f.teamName, f.submissionDate, x)]
  {
    var l := Numbered(acc + [(f, x)]);
    var r := Numbered(acc) + [CliRow(|acc| + 1, f.teamId, f.teamName, f.submissionDate, x)];
    assert forall k :: 0 <= k < |acc| ==> (acc + [(f, x)])[k] == acc[k];
    assert forall k :: 0 <= k < |l| ==> l[k] == r[k];
  }

  lemma AcceptedOneMore(cands: seq<Option<CliFields>>, i: nat, parseFloat: string -> Option<real>)
    requires i < |cands|
    ensures Accepted(cands[..i + 1], parseFloat) ==
      Accepted(cands[..i], parseFloat) +
      (if cands[i].Some? && parseFloat(cands[i].value.scoreText).Some?
       then [(cands[i].value, parseFloat(cands[i].value.scoreText).value)]
       else [])
  {
    assert cands[..i + 1][..i] == cands[..i];
  }

  /** A data line whose team name holds `---` is taken for a separator
      and dropped. */
  lemma DashedTeamNameDropsItsLine()
    ensures IsNoiseLine("42  Team---X  2024-01-01  0.91")
    ensures KeptLines(["42  Team---X  2024-01-01  0.91"]) == []
  {
    var line := "42  Team---X  2024-01-01  0.91";
    assert line[8] == '-' && line[9] == '-' && line[10] == '-';
    assert line[8..11] == "---";
    assert OccursAt(line, "---", 8);
    assert ["42  Team---X  2024-01-01  0.91"][..0] == [];
  }
}
