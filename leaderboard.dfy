/** Leaderboard entries (backend/apps/leaderboard/models.py): one entry per
    `(user, competition)`, the field defaults, and `update_best_score`,
    which keeps a new score only when it is strictly better. */
module Leaderboard {
  import opened Wrappers
  import opened Users
  import opened Competitions

  /** The `unique_together` key of an entry. */
  datatype EntryKey = EntryKey(user: UserId, competition: CompetitionId)

  datatype Entry = Entry(bestScore: real, rank: int, submissionsCount: int, lastSubmissionTime: Option<int>)

  /** An entry with every field at its default. */
  function NewEntry(): (e: Entry)
    ensures e.bestScore == 0.0 && e.rank == 0 && e.submissionsCount == 0 && e.lastSubmissionTime.None?
  {
    Entry(0.0, 0, 0, None)
  }

  /** What `update_best_score(s)` returns: whether `s` beats the stored
      best. */
  predicate Improves(e: Entry, s: real) {
    s > e.bestScore
  }

  /** The entry after `update_best_score(s)`. */
  function WithBestScore(e: Entry, s: real): (r: Entry)
    ensures r.bestScore >= e.bestScore && r.bestScore >= s
    ensures r.bestScore == e.bestScore || r.bestScore == s
    ensures r.(bestScore := e.bestScore) == e
  {
    if Improves(e, s) then e.(bestScore := s) else e
  }

  /** The entry changes exactly when the call reports an improvement. */
  lemma UpdateReportsChange(e: Entry, s: real)
    ensures Improves(e, s) <==> WithBestScore(e, s) != e
    ensures !Improves(e, s) ==> WithBestScore(e, s) == e
  {
  }

  /** Repeating the same call changes nothing more and reports no
      improvement. */
  lemma UpdateBestScoreIdempotent(e: Entry, s: real)
    ensures !Improves(WithBestScore(e, s), s)
    ensures WithBestScore(WithBestScore(e, s), s) == WithBestScore(e, s)
  {
  }

  /** A run of calls leaves the largest score seen, the starting best
      included. */
  function BestAfter(e: Entry, scores: seq<real>): Entry
    decreases |scores|
  {
    if |scores| == 0 then e else WithBestScore(BestAfter(e, scores[..|scores| - 1]), scores[|scores| - 1])
  }

  lemma {:induction false} BestAfterIsMaximum(e: Entry, scores: seq<real>)
    ensures BestAfter(e, scores).bestScore >= e.bestScore
    ensures forall i :: 0 <= i < |scores| ==> BestAfter(e, scores).bestScore >= scores[i]
    ensures BestAfter(e, scores).bestScore == e.bestScore
      || exists i :: 0 <= i < |scores| && BestAfter(e, scores).bestScore == scores[i]
    decreases |scores|
  {
    if |scores| > 0 {
      var front := scores[..|scores| - 1];
      BestAfterIsMaximum(e, front);
      assert forall i :: 0 <= i < |front| ==> front[i] == scores[i];
      var b := BestAfter(e, front).bestScore;
      if b != e.bestScore && BestAfter(e, scores).bestScore == b {
        var i :| 0 <= i < |front| && b == front[i];
        assert b == scores[i];
      }
    }
  }

  /** The leaderboard entries table. */
  class LeaderboardTable {
    var entries: map<EntryKey, Entry>

    constructor ()
      ensures entries == map[]
    {
      entries := map[];
    }

    /** `LeaderboardEntry.update_best_score(s)` on the entry under `key`. */
    method UpdateBestScore(key: EntryKey, s: real) returns (improved: bool)
      requires key in entries
      modifies this
      ensures improved <==> s > old(entries)[key].bestScore
      ensures entries == old(entries)[key := WithBestScore(old(entries)[key], s)]
    {
      improved := Improves(entries[key], s);
      if improved {
        entries := entries[key := entries[key].(bestScore := s)];
      }
    }
  }
}
