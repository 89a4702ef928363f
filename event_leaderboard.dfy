/** The overall leaderboard of an event (backend/test_overall_leaderboard.py,
    lines 23-36): the leaderboard entries of the event's competitions,
    grouped by Kaggle team name, with the summed score and the number of
    distinct competitions per team, ordered by total score from highest to
    lowest, and the first ten shown with positions from 1. */
module EventLeaderboard {
  import opened Competitions
  import opened Subsequences

  /** The fields of a leaderboard entry the query reads. */
  datatype ScoreEntry = ScoreEntry(competition: CompetitionId, kaggleTeamName: string, score: real)

  /** One aggregate row: `kaggle_team_name`, `total_score`,
      `competitions_participated`. */
  datatype TeamRow = TeamRow(kaggleTeamName: string, totalScore: real, competitionsParticipated: nat)

  /** `filter(competition__in=competitions)`. */
  function InEvent(es: seq<ScoreEntry>, comps: set<CompetitionId>): (r: seq<ScoreEntry>)
    ensures forall e :: e in r <==> e in es && e.competition in comps
    decreases |es|
  {
    if |es| == 0 then []
    else
      var front := InEvent(es[..|es| - 1], comps);
      var last := es[|es| - 1];
      assert es == es[..|es| - 1] + [last];
      if last.competition in comps then front + [last] else front
  }

  /** The test `filter(competition__in=competitions)` applies to one entry. */
  function InCompetitions(comps: set<CompetitionId>): ScoreEntry -> bool {
    (e: ScoreEntry) => e.competition in comps
  }

  lemma InEventOneMore(es: seq<ScoreEntry>, comps: set<CompetitionId>)
    requires |es| > 0
    ensures InEvent(es, comps) == InEvent(es[..|es| - 1], comps) + (if es[|es| - 1].competition in comps then [es[|es| - 1]] else [])
  {
  }

  /** The filter keeps one element per entry of the event, duplicates
      included (each one counts in `Sum('score')`), in the original order. */
  lemma {:induction false} InEventKeepsPositions(es: seq<ScoreEntry>, comps: set<CompetitionId>)
    ensures var idx := Positions(es, InCompetitions(comps));
      && |InEvent(es, comps)| == |idx|
      && forall k :: 0 <= k < |idx| ==> InEvent(es, comps)[k] == es[idx[k]]
    decreases |es|
  {
    if |es| > 0 {
      var front := es[..|es| - 1];
      InEventKeepsPositions(front, comps);
      assert forall i :: 0 <= i < |front| ==> front[i] == es[i];
      var last := es[|es| - 1];
      var idx, fidx := Positions(es, InCompetitions(comps)), Positions(front, InCompetitions(comps));
      var r, fr := InEvent(es, comps), InEvent(front, comps);
      PositionsOneMore(es, InCompetitions(comps));
      InEventOneMore(es, comps);
      forall k | 0 <= k < |idx|
        ensures r[k] == es[idx[k]]
      {
        if k < |fidx| {
          assert r[k] == fr[k] && idx[k] == fidx[k];
          assert es[idx[k]] == front[idx[k]];
        }
      }
    }
  }

  /** The distinct team names, in order of first appearance. */
  function TeamsOf(es: seq<ScoreEntry>): (names: seq<string>)
    ensures forall n :: n in names <==> exists e :: e in es && e.kaggleTeamName == n
    ensures forall i, j :: 0 <= i < j < |names| ==> names[i] != names[j]
    decreases |es|
  {
    if |es| == 0 then []
    else
      var front := TeamsOf(es[..|es| - 1]);
      var last := es[|es| - 1];
      assert es == es[..|es| - 1] + [last];
      if last.kaggleTeamName in front then front else front + [last.kaggleTeamName]
  }

  /** `Sum('score')` over one team's entries. */
  function TeamScore(es: seq<ScoreEntry>, team: string): real
    decreases |es|
  {
    if |es| == 0 then 0.0
    else TeamScore(es[..|es| - 1], team) + (if es[|es| - 1].kaggleTeamName == team then es[|es| - 1].score else 0.0)
  }

  /** The competitions among one team's entries. */
  function TeamCompetitions(es: seq<ScoreEntry>, team: string): set<CompetitionId> {
    set e | e in es && e.kaggleTeamName == team :: e.competition
  }

  /** `values('kaggle_team_name').annotate(...)`: one row per team. */
  function Grouped(es: seq<ScoreEntry>): (rows: seq<TeamRow>)
    ensures |rows| == |TeamsOf(es)|
    ensures forall i :: 0 <= i < |rows| ==> rows[i].kaggleTeamName == TeamsOf(es)[i]
  {
    var names := TeamsOf(es);
    seq(|names|, i requires 0 <= i < |names| =>
      TeamRow(names[i], TeamScore(es, names[i]), |TeamCompetitions(es, names[i])|))
  }

  // ----- order_by('-total_score') -----

  predicate TotalsDescending(rows: seq<TeamRow>) {
    forall i, j :: 0 <= i < j < |rows| ==> rows[i].totalScore >= rows[j].totalScore
  }

  /** Places `r` after every row whose total is not smaller. */
  function InsertByTotal(r: TeamRow, s: seq<TeamRow>): (t: seq<TeamRow>)
    ensures |t| == |s| + 1
    decreases |s|
  {
    if |s| == 0 then [r]
    else if r.totalScore > s[0].totalScore then [r] + s
    else [s[0]] + InsertByTotal(r, s[1..])
  }

  function ByTotalDescending(rows: seq<TeamRow>): seq<TeamRow>
    decreases |rows|
  {
    if |rows| == 0 then [] else InsertByTotal(rows[|rows| - 1], ByTotalDescending(rows[..|rows| - 1]))
  }

  lemma {:induction false} InsertByTotalPermutes(r: TeamRow, s: seq<TeamRow>)
    ensures multiset(InsertByTotal(r, s)) == multiset(s) + multiset{r}
    decreases |s|
  {
    if |s| > 0 && r.totalScore <= s[0].totalScore {
      InsertByTotalPermutes(r, s[1..]);
      assert s == [s[0]] + s[1..];
    }
  }

  /** Inserting a row whose total is at most `b` into rows whose totals
      are all at most `b` gives rows whose totals are all at most `b`. */
  lemma {:induction false} InsertByTotalUpperBound(r: TeamRow, s: seq<TeamRow>, b: real)
    requires r.totalScore <= b
    requires forall i :: 0 <= i < |s| ==> s[i].totalScore <= b
    ensures forall i :: 0 <= i < |InsertByTotal(r, s)| ==> InsertByTotal(r, s)[i].totalScore <= b
    decreases |s|
  {
    if |s| > 0 && r.totalScore <= s[0].totalScore {
      InsertByTotalUpperBound(r, s[1..], b);
    }
  }

  lemma {:induction false} InsertByTotalSorted(r: TeamRow, s: seq<TeamRow>)
    requires TotalsDescending(s)
    ensures TotalsDescending(InsertByTotal(r, s))
    decreases |s|
  {
    if |s| > 0 && r.totalScore <= s[0].totalScore {
      var rest := s[1..];
      InsertByTotalSorted(r, rest);
      InsertByTotalUpperBound(r, rest, s[0].totalScore);
      var u := [s[0]] + InsertByTotal(r, rest);
      assert TotalsDescending(u);
    }
  }

  lemma {:induction false} ByTotalDescendingSorted(rows: seq<TeamRow>)
    ensures TotalsDescending(ByTotalDescending(rows))
    decreases |rows|
  {
    if |rows| > 0 {
      var front := rows[..|rows| - 1];
      ByTotalDescendingSorted(front);
      InsertByTotalSorted(rows[|rows| - 1], ByTotalDescending(front));
    }
  }

  lemma {:induction false} ByTotalDescendingPermutes(rows: seq<TeamRow>)
    ensures multiset(ByTotalDescending(rows)) == multiset(rows)
    decreases |rows|
  {
    if |rows| > 0 {
      var front := rows[..|rows| - 1];
      ByTotalDescendingPermutes(front);
      InsertByTotalPermutes(rows[|rows| - 1], ByTotalDescending(front));
      assert rows == front + [rows[|rows| - 1]];
    }
  }

  /** The ordering sorts by total from highest to lowest and keeps exactly
      the rows it was given. */
  lemma ByTotalDescendingSortsAndPermutes(rows: seq<TeamRow>)
    ensures TotalsDescending(ByTotalDescending(rows))
    ensures multiset(ByTotalDescending(rows)) == multiset(rows)
  {
    ByTotalDescendingSorted(rows);
    ByTotalDescendingPermutes(rows);
  }

  // ----- the query -----

  /** The whole aggregation query. */
  function EventStandings(es: seq<ScoreEntry>, comps: set<CompetitionId>): seq<TeamRow> {
    ByTotalDescending(Grouped(InEvent(es, comps)))
  }

  /** How many rows carry the team name `n`. */
  function RowsNamed(rows: seq<TeamRow>, n: string): nat
    decreases |rows|
  {
    if |rows| == 0 then 0 else RowsNamed(rows[..|rows| - 1], n) + (if rows[|rows| - 1].kaggleTeamName == n then 1 else 0)
  }

  lemma {:induction false} RowsNamedOfMultiset(a: seq<TeamRow>, b: seq<TeamRow>, n: string)
    requires multiset(a) == multiset(b)
    ensures RowsNamed(a, n) == RowsNamed(b, n)
    decreases |a|
  {
    if |a| > 0 {
      var x := a[|a| - 1];
      assert x in multiset(b);
      var k :| 0 <= k < |b| && b[k] == x;
      var b' := b[..k] + b[k + 1..];
      assert b == b[..k] + [x] + b[k + 1..];
      assert multiset(b) == multiset(b[..k]) + multiset{x} + multiset(b[k + 1..]);
      assert a == a[..|a| - 1] + [x];
      assert multiset(a) == multiset(a[..|a| - 1]) + multiset{x};
      assert multiset(b') == multiset(b[..k]) + multiset(b[k + 1..]);
      assert multiset(b') == multiset(b) - multiset{x};
      assert multiset(a[..|a| - 1]) == multiset(a) - multiset{x};
      RowsNamedOfMultiset(a[..|a| - 1], b', n);
      RowsNamedSplit(b[..k], x, b[k + 1..], n);
    }
  }

  /** Counting rows around a removed one. */
  lemma {:induction false} RowsNamedSplit(p: seq<TeamRow>, x: TeamRow, q: seq<TeamRow>, n: string)
    ensures RowsNamed(p + [x] + q, n) == RowsNamed(p + q, n) + (if x.kaggleTeamName == n then 1 else 0)
    decreases |q|
  {
    if |q| == 0 {
      assert p + [x] + q == p + [x];
      assert (p + [x])[..|p|] == p;
      assert p + q == p;
    } else {
      var q' := q[..|q| - 1];
      RowsNamedSplit(p, x, q', n);
      assert (p + [x] + q)[..|p + [x] + q| - 1] == p + [x] + q';
      assert (p + q)[..|p + q| - 1] == p + q';
    }
  }

  lemma {:induction false} RowsNamedOfDistinct(rows: seq<TeamRow>, n: string)
    requires forall i, j :: 0 <= i < j < |rows| ==> rows[i].kaggleTeamName != rows[j].kaggleTeamName
    ensures RowsNamed(rows, n) == if exists i :: 0 <= i < |rows| && rows[i].kaggleTeamName == n then 1 else 0
    decreases |rows|
  {
    if |rows| > 0 {
      var front := rows[..|rows| - 1];
      RowsNamedOfDistinct(front, n);
      assert forall i :: 0 <= i < |front| ==> front[i] == rows[i];
      if rows[|rows| - 1].kaggleTeamName == n {
        assert !exists i :: 0 <= i < |front| && front[i].kaggleTeamName == n;
      }
    }
  }

  /** There is exactly one row per team that has an entry in the event, and
      none for any other name. */
  lemma OneRowPerTeam(es: seq<ScoreEntry>, comps: set<CompetitionId>, n: string)
    ensures RowsNamed(EventStandings(es, comps), n) ==
      if exists e :: e in es && e.competition in comps && e.kaggleTeamName == n then 1 else 0
  {
    var f := InEvent(es, comps);
    var g := Grouped(f);
    ByTotalDescendingSortsAndPermutes(g);
    RowsNamedOfMultiset(EventStandings(es, comps), g, n);
    RowsNamedOfDistinct(g, n);
    if exists e :: e in es && e.competition in comps && e.kaggleTeamName == n {
      var e :| e in es && e.competition in comps && e.kaggleTeamName == n;
      assert e in f;
      assert n in TeamsOf(f);
      var i :| 0 <= i < |TeamsOf(f)| && TeamsOf(f)[i] == n;
      assert g[i].kaggleTeamName == n;
    } else {
      forall i | 0 <= i < |g| ensures g[i].kaggleTeamName != n {
        assert TeamsOf(f)[i] in TeamsOf(f);
      }
    }
  }

  /** Every row is a team's aggregate: its total is the sum of the team's
      scores in the event and its count is the number of distinct event
      competitions the team has entries in, which never exceeds the number
      of competitions of the event. The rows run from the highest total to
      the lowest. */
  lemma EventStandingsRows(es: seq<ScoreEntry>, comps: set<CompetitionId>)
    ensures TotalsDescending(EventStandings(es, comps))
    ensures forall r :: r in EventStandings(es, comps) ==>
      && r.totalScore == TeamScore(InEvent(es, comps), r.kaggleTeamName)
      && r.competitionsParticipated == |TeamCompetitions(InEvent(es, comps), r.kaggleTeamName)|
      && r.competitionsParticipated <= |comps|
  {
    var f := InEvent(es, comps);
    var g := Grouped(f);
    ByTotalDescendingSortsAndPermutes(g);
    forall r | r in EventStandings(es, comps)
      ensures r.totalScore == TeamScore(f, r.kaggleTeamName)
      ensures r.competitionsParticipated == |TeamCompetitions(f, r.kaggleTeamName)|
      ensures r.competitionsParticipated <= |comps|
    {
      assert r in multiset(g);
      var i :| 0 <= i < |g| && g[i] == r;
      assert TeamCompetitions(f, r.kaggleTeamName) <= comps;
      SubsetCardinality(TeamCompetitions(f, r.kaggleTeamName), comps);
    }
  }

  lemma {:induction false} SubsetCardinality(a: set<CompetitionId>, b: set<CompetitionId>)
    requires a <= b
    ensures |a| <= |b|
    decreases |b|
  {
    if a != {} {
      var x :| x in a;
      SubsetCardinality(a - {x}, b - {x});
    }
  }

  /** A team's total is the sum over its entries: entries of other teams
      add nothing and each of its own adds its score. */
  lemma TeamScoreOfAppend(es: seq<ScoreEntry>, e: ScoreEntry, team: string)
    ensures TeamScore(es + [e], team) == TeamScore(es, team) + (if e.kaggleTeamName == team then e.score else 0.0)
  {
    assert (es + [e])[..|es|] == es;
  }

  /** One displayed line: position and row. */
  datatype Placed = Placed(position: nat, row: TeamRow)

  /** `enumerate(entries[:10], 1)`: the first ten rows with positions. */
  function TopTen(rows: seq<TeamRow>): (shown: seq<Placed>)
    ensures |shown| == if |rows| < 10 then |rows| else 10
    ensures forall i :: 0 <= i < |shown| ==> shown[i] == Placed(i + 1, rows[i])
  {
    var k := if |rows| < 10 then |rows| else 10;
    seq(k, i requires 0 <= i < k => Placed(i + 1, rows[i]))
  }

  /** Positions are consecutive from 1, so rows with equal totals still get
      distinct positions, and a better-placed row never has a lower total. */
  lemma TopTenPositions(es: seq<ScoreEntry>, comps: set<CompetitionId>)
    ensures var shown := TopTen(EventStandings(es, comps));
      && (forall i, j :: 0 <= i < j < |shown| ==> shown[i].position < shown[j].position)
      && (forall i, j :: 0 <= i < j < |shown| ==> shown[i].row.totalScore >= shown[j].row.totalScore)
  {
    EventStandingsRows(es, comps);
  }
}
