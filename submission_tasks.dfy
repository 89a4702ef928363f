/** The simple leaderboard fetch (backend/apps/submissions/tasks.py): rows
    fetched from Kaggle are matched to users by username or Kaggle
    username, each match upserts the user's leaderboard entry, bumps its
    submission counter and records a completed submission, all in one
    transaction. */
module SubmissionTasks {
  import opened Wrappers
  import opened Users
  import opened Competitions
  import opened Leaderboard
  import opened TaskQueue
  import opened Subsequences

  /** One row of the fetched leaderboard. */
  datatype KaggleEntry = KaggleEntry(teamName: string, score: real, rank: int)

  /** One row of the submissions table. */
  datatype Submission = Submission(user: UserId, competition: CompetitionId, score: real, status: string)

  class SubmissionTable {
    var rows: seq<Submission>

    constructor ()
      ensures rows == []
    {
      rows := [];
    }
  }

  /** The result of looking a team name up: no user, one user, or several
      users sharing the Kaggle username (`MultipleObjectsReturned`). */
  datatype TeamMatch = NoUser | Found(user: UserId) | Ambiguous

  /** The user a team name is matched to: the user with that username
      first, else the one user with that Kaggle username. */
  function MatchTeam(users: seq<UserRow>, teamName: string): (m: TeamMatch)
    ensures IdByUsername(users, teamName).Some? ==> m == Found(IdByUsername(users, teamName).value)
    ensures IdByUsername(users, teamName).None? ==>
      var ks := KaggleUsernameMatches(users, teamName);
      && (m.NoUser? <==> |ks| == 0)
      && (m.Found? <==> |ks| == 1)
      && (m.Found? ==> m.user == ks[0].id && ks[0].kaggleUsername == Some(teamName))
  {
    match IdByUsername(users, teamName)
    case Some(id) => Found(id)
    case None =>
      var ks := KaggleUsernameMatches(users, teamName);
      if |ks| == 0 then NoUser
      else if |ks| == 1 then assert ks[0] in ks; Found(ks[0].id)
      else Ambiguous
  }

  /** The matched rows with their users, in fetch order; unmatched rows are
      skipped. */
  function Matches(users: seq<UserRow>, data: seq<KaggleEntry>): seq<(KaggleEntry, UserId)>
    decreases |data|
  {
    if |data| == 0 then []
    else
      var front := Matches(users, data[..|data| - 1]);
      var last := data[|data| - 1];
      match MatchTeam(users, last.teamName)
      case Found(u) => front + [(last, u)]
      case _ => front
  }

  /** Every matched row comes from the fetched data, with the user it
      matches, and the unmatched rows are dropped. */
  lemma {:induction false} MatchesAreMatched(users: seq<UserRow>, data: seq<KaggleEntry>)
    ensures |Matches(users, data)| <= |data|
    ensures forall k :: 0 <= k < |Matches(users, data)| ==>
      Matches(users, data)[k].0 in data && MatchTeam(users, Matches(users, data)[k].0.teamName) == Found(Matches(users, data)[k].1)
    decreases |data|
  {
    if |data| > 0 {
      var front := data[..|data| - 1];
      MatchesAreMatched(users, front);
      var fm := Matches(users, front);
      assert forall k :: 0 <= k < |fm| ==> fm[k].0 in data by {
        forall k | 0 <= k < |fm| ensures fm[k].0 in data {
          assert fm[k].0 in front;
        }
      }
    }
  }

  /** The test a fetched row must pass to be applied: its team name finds
      exactly one user. */
  function FindsUser(users: seq<UserRow>): KaggleEntry -> bool {
    (row: KaggleEntry) => MatchTeam(users, row.teamName).Found?
  }

  /** One match per fetched row that finds a user, in fetch order, paired
      with that user: no such row is lost and no other row is matched. */
  lemma {:induction false} MatchesKeepPositions(users: seq<UserRow>, data: seq<KaggleEntry>)
    ensures var idx := Positions(data, FindsUser(users));
      && |Matches(users, data)| == |idx|
      && forall k :: 0 <= k < |idx| ==>
           Matches(users, data)[k] == (data[idx[k]], MatchTeam(users, data[idx[k]].teamName).user)
    decreases |data|
  {
    if |data| > 0 {
      var front := data[..|data| - 1];
      MatchesKeepPositions(users, front);
      PositionsOneMore(data, FindsUser(users));
      var idx, fidx := Positions(data, FindsUser(users)), Positions(front, FindsUser(users));
      var ms, fms := Matches(users, data), Matches(users, front);
      forall k | 0 <= k < |idx|
        ensures ms[k] == (data[idx[k]], MatchTeam(users, data[idx[k]].teamName).user)
      {
        if k < |fidx| {
          assert ms[k] == fms[k] && idx[k] == fidx[k];
          assert data[idx[k]] == front[idx[k]];
        }
      }
    }
  }

  /** Whether some row matches several users, which raises inside the
      transaction. */
  predicate AnyAmbiguous(users: seq<UserRow>, data: seq<KaggleEntry>) {
    exists i :: 0 <= i < |data| && MatchTeam(users, data[i].teamName).Ambiguous?
  }

  /** One `update_or_create` plus the counter update: a new entry starts
      with the row's score and rank and a count of 1; an existing one takes
      the row's score and rank (overwritten, not maximised) and its count
      rises by 1. */
  function UpsertOne(m: map<EntryKey, Entry>, key: EntryKey, row: KaggleEntry): map<EntryKey, Entry> {
    if key in m then m[key := m[key].(bestScore := row.score, rank := row.rank, submissionsCount := m[key].submissionsCount + 1)]
    else m[key := NewEntry().(bestScore := row.score, rank := row.rank, submissionsCount := 1)]
  }

  /** What one upsert writes, and that it leaves every other key alone. */
  lemma UpsertOneWrites(m: map<EntryKey, Entry>, key: EntryKey, row: KaggleEntry)
    ensures var r := UpsertOne(m, key, row);
      && r.Keys == m.Keys + {key}
      && r[key].bestScore == row.score && r[key].rank == row.rank
      && r[key].submissionsCount == (if key in m then m[key].submissionsCount else 0) + 1
      && (key in m ==> r[key].lastSubmissionTime == m[key].lastSubmissionTime)
      && forall k :: k in m && k != key ==> r[k] == m[k]
  {
  }

  /** The entries after the matched rows are applied in order. */
  function Applied(m: map<EntryKey, Entry>, comp: CompetitionId, ms: seq<(KaggleEntry, UserId)>): map<EntryKey, Entry>
    decreases |ms|
  {
    if |ms| == 0 then m
    else
      var last := ms[|ms| - 1];
      UpsertOne(Applied(m, comp, ms[..|ms| - 1]), EntryKey(last.1, comp), last.0)
  }

  /** The submissions recorded for the matched rows, one each. */
  function SubmissionsFor(comp: CompetitionId, ms: seq<(KaggleEntry, UserId)>): (ss: seq<Submission>)
    ensures |ss| == |ms|
    decreases |ms|
  {
    if |ms| == 0 then [] else SubmissionsFor(comp, ms[..|ms| - 1]) + [Submission(ms[|ms| - 1].1, comp, ms[|ms| - 1].0.score, "complete")]
  }

  /** Submission `k` is recorded for matched row `k`: its user, the
      competition, the row's score and the status "complete". */
  lemma {:induction false} SubmissionsForAt(comp: CompetitionId, ms: seq<(KaggleEntry, UserId)>, k: nat)
    requires k < |ms|
    ensures SubmissionsFor(comp, ms)[k] == Submission(ms[k].1, comp, ms[k].0.score, "complete")
    decreases |ms|
  {
    if k < |ms| - 1 {
      SubmissionsForAt(comp, ms[..|ms| - 1], k);
    }
  }

  /** How many matched rows belong to `user`. */
  function MatchCount(ms: seq<(KaggleEntry, UserId)>, user: UserId): nat
    decreases |ms|
  {
    if |ms| == 0 then 0 else MatchCount(ms[..|ms| - 1], user) + (if ms[|ms| - 1].1 == user then 1 else 0)
  }

  /** Each matched row adds one to its user's counter: after the fetch the
      counter is the old one (0 for a new entry) plus the user's matches. */
  lemma {:induction false} AppliedCountsSubmissions(m: map<EntryKey, Entry>, comp: CompetitionId, ms: seq<(KaggleEntry, UserId)>, user: UserId)
    requires MatchCount(ms, user) > 0 || EntryKey(user, comp) in m
    ensures EntryKey(user, comp) in Applied(m, comp, ms)
    ensures Applied(m, comp, ms)[EntryKey(user, comp)].submissionsCount ==
      (if EntryKey(user, comp) in m then m[EntryKey(user, comp)].submissionsCount else 0) + MatchCount(ms, user)
    decreases |ms|
  {
    if |ms| > 0 {
      var front := ms[..|ms| - 1];
      var key := EntryKey(user, comp);
      UpsertOneWrites(Applied(m, comp, front), EntryKey(ms[|ms| - 1].1, comp), ms[|ms| - 1].0);
      if MatchCount(front, user) > 0 || key in m {
        AppliedCountsSubmissions(m, comp, front, user);
      } else {
        AppliedKeys(m, comp, front, key);
      }
    }
  }

  lemma {:induction false} AppliedKeys(m: map<EntryKey, Entry>, comp: CompetitionId, ms: seq<(KaggleEntry, UserId)>, key: EntryKey)
    requires key.competition == comp
    ensures key in Applied(m, comp, ms) <==> key in m || MatchCount(ms, key.user) > 0
    decreases |ms|
  {
    if |ms| > 0 {
      var front := ms[..|ms| - 1];
      AppliedKeys(m, comp, front, key);
      UpsertOneWrites(Applied(m, comp, front), EntryKey(ms[|ms| - 1].1, comp), ms[|ms| - 1].0);
    }
  }

  /** The stored score and rank are those of the user's last matched row. */
  lemma {:induction false} AppliedLastRowWins(m: map<EntryKey, Entry>, comp: CompetitionId, ms: seq<(KaggleEntry, UserId)>, j: nat)
    requires j < |ms|
    requires forall i :: j < i < |ms| ==> ms[i].1 != ms[j].1
    ensures EntryKey(ms[j].1, comp) in Applied(m, comp, ms)
    ensures Applied(m, comp, ms)[EntryKey(ms[j].1, comp)].bestScore == ms[j].0.score
    ensures Applied(m, comp, ms)[EntryKey(ms[j].1, comp)].rank == ms[j].0.rank
    decreases |ms|
  {
    var front := ms[..|ms| - 1];
    UpsertOneWrites(Applied(m, comp, front), EntryKey(ms[|ms| - 1].1, comp), ms[|ms| - 1].0);
    if j < |ms| - 1 {
      assert forall i :: 0 <= i < |front| ==> front[i] == ms[i];
      AppliedLastRowWins(m, comp, front, j);
    }
  }

  /** A later, lower score replaces an earlier, higher one: the fetch does
      not keep the best. */
  lemma FetchOverwritesBest(m: map<EntryKey, Entry>, comp: CompetitionId, u: UserId, name: string)
    ensures var ms := [(KaggleEntry(name, 10.0, 1), u), (KaggleEntry(name, 5.0, 2), u)];
      Applied(m, comp, ms)[EntryKey(u, comp)].bestScore == 5.0
  {
    var ms := [(KaggleEntry(name, 10.0, 1), u), (KaggleEntry(name, 5.0, 2), u)];
    AppliedLastRowWins(m, comp, ms, 1);
  }

  lemma MatchesOneMore(users: seq<UserRow>, rows: seq<KaggleEntry>, i: nat)
    requires i < |rows|
    ensures MatchTeam(users, rows[i].teamName).Found? ==>
      Matches(users, rows[..i + 1]) == Matches(users, rows[..i]) + [(rows[i], MatchTeam(users, rows[i].teamName).user)]
    ensures !MatchTeam(users, rows[i].teamName).Found? ==> Matches(users, rows[..i + 1]) == Matches(users, rows[..i])
  {
    assert rows[..i + 1][..i] == rows[..i];
  }

  lemma AppliedOneMore(m: map<EntryKey, Entry>, comp: CompetitionId, ms: seq<(KaggleEntry, UserId)>, row: KaggleEntry, u: UserId)
    ensures Applied(m, comp, ms + [(row, u)]) == UpsertOne(Applied(m, comp, ms), EntryKey(u, comp), row)
  {
    assert (ms + [(row, u)])[..|ms|] == ms;
  }

  lemma SubmissionsForOneMore(comp: CompetitionId, ms: seq<(KaggleEntry, UserId)>, row: KaggleEntry, u: UserId)
    ensures SubmissionsFor(comp, ms + [(row, u)]) == SubmissionsFor(comp, ms) + [Submission(u, comp, row.score, "complete")]
  {
    assert (ms + [(row, u)])[..|ms|] == ms;
  }

  /** What `fetch_kaggle_leaderboard` ends with. */
  datatype FetchOutcome =
    | CompetitionNotFound      // Competition.DoesNotExist, logged
    | Inactive                 // not ongoing: nothing fetched
    | NoData                   // the fetch returned nothing
    | RolledBack               // MultipleObjectsReturned: the transaction is undone, the error re-raised
    | Updated(count: nat)

  /** The body of the transaction in `fetch_kaggle_leaderboard`, on
      working copies of the entries and of the new submissions: `ok` is
      false when a row raised `MultipleObjectsReturned`, and then the copies
      are thrown away. */
  method ApplyFetchedRows(entries0: map<EntryKey, Entry>, id: CompetitionId, rows: seq<KaggleEntry>, users: seq<UserRow>)
    returns (ok: bool, entries: map<EntryKey, Entry>, added: seq<Submission>, updatedCount: nat)
    ensures ok <==> !AnyAmbiguous(users, rows)
    ensures ok ==> entries == Applied(entries0, id, Matches(users, rows))
    ensures ok ==> added == SubmissionsFor(id, Matches(users, rows))
    ensures ok ==> updatedCount == |Matches(users, rows)|
  {
    entries := entries0;
    added := [];
    updatedCount := 0;
    ghost var ms: seq<(KaggleEntry, UserId)> := [];
    var i := 0;
    while i < |rows|
      invariant 0 <= i <= |rows|
      invariant forall j :: 0 <= j < i ==> !MatchTeam(users, rows[j].teamName).Ambiguous?
      invariant ms == Matches(users, rows[..i])
      invariant entries == Applied(entries0, id, ms)
      invariant added == SubmissionsFor(id, ms)
      invariant updatedCount == |ms|
    {
      var row := rows[i];
      var m := MatchTeam(users, row.teamName);
      if m.Ambiguous? {
        assert AnyAmbiguous(users, rows);
        return false, entries, added, updatedCount;
      }
      MatchesOneMore(users, rows, i);
      if m.Found? {
        AppliedOneMore(entries0, id, ms, row, m.user);
        SubmissionsForOneMore(id, ms, row, m.user);
        entries := UpsertOne(entries, EntryKey(m.user, id), row);
        added := added + [Submission(m.user, id, row.score, "complete")];
        updatedCount := updatedCount + 1;
        ms := ms + [(row, m.user)];
      }
      i := i + 1;
    }
    assert rows[..i] == rows;
    ok := true;
  }

  /** `fetch_kaggle_leaderboard(id)`, with the competitions and users read
      as they are and the Kaggle response passed in as `data`. The entries
      and submissions change only when the result is Updated, and then by
      the matched rows and nothing else. */
  method FetchKaggleLeaderboard(
    competitions: seq<CompetitionRow>, id: CompetitionId, data: Option<seq<KaggleEntry>>,
    users: seq<UserRow>, board: LeaderboardTable, subs: SubmissionTable)
    returns (outcome: FetchOutcome)
    modifies board, subs
    ensures IndexOfCompetition(competitions, id).None? ==> outcome == CompetitionNotFound
    ensures IndexOfCompetition(competitions, id).Some? && !IsActive(competitions[IndexOfCompetition(competitions, id).value])
      ==> outcome == Inactive
    ensures IndexOfCompetition(competitions, id).Some? && IsActive(competitions[IndexOfCompetition(competitions, id).value])
      ==> if data.None? || data.value == [] then outcome == NoData
          else if AnyAmbiguous(users, data.value) then outcome == RolledBack
          else outcome == Updated(|Matches(users, data.value)|)
    ensures outcome.Updated? ==>
      && board.entries == Applied(old(board.entries), id, Matches(users, data.value))
      && subs.rows == old(subs.rows) + SubmissionsFor(id, Matches(users, data.value))
    ensures !outcome.Updated? ==> board.entries == old(board.entries) && subs.rows == old(subs.rows)
  {
    var ci := IndexOfCompetition(competitions, id);
    if ci.None? {
      return CompetitionNotFound;
    }
    if !IsActive(competitions[ci.value]) {
      return Inactive;
    }
    if data.None? || data.value == [] {
      return NoData;
    }
    var ok, entries, added, updatedCount := ApplyFetchedRows(board.entries, id, data.value, users);
    if !ok {
      return RolledBack;
    }
    board.entries := entries;
    subs.rows := subs.rows + added;
    return Updated(updatedCount);
  }

  /** The competitions `fetch_all_active_competitions` fetches: one fetch
      per ongoing competition, in table order. */
  function ActiveFetches(rows: seq<CompetitionRow>): (ts: seq<QueuedTask>)
    ensures |ts| <= |rows|
    ensures forall t :: t in ts ==> t.FetchLeaderboard?
    decreases |rows|
  {
    if |rows| == 0 then []
    else ActiveFetches(rows[..|rows| - 1]) + (if IsActive(rows[|rows| - 1]) then [FetchLeaderboard(rows[|rows| - 1].id)] else [])
  }

  /** A fetch is queued for a competition exactly when it is ongoing. */
  lemma {:induction false} ActiveFetchesExactlyOngoing(rows: seq<CompetitionRow>, id: CompetitionId)
    ensures FetchLeaderboard(id) in ActiveFetches(rows) <==> exists i :: 0 <= i < |rows| && rows[i].id == id && IsActive(rows[i])
    decreases |rows|
  {
    if |rows| > 0 {
      var front := rows[..|rows| - 1];
      ActiveFetchesExactlyOngoing(front, id);
      assert forall i :: 0 <= i < |front| ==> front[i] == rows[i];
    }
  }

  /** With distinct ids, each competition gets at most one fetch. */
  lemma {:induction false} ActiveFetchesOncePerCompetition(rows: seq<CompetitionRow>, id: CompetitionId)
    requires DistinctIds(rows)
    ensures multiset(ActiveFetches(rows))[FetchLeaderboard(id)] <= 1
    decreases |rows|
  {
    if |rows| > 0 {
      var front := rows[..|rows| - 1];
      var last := rows[|rows| - 1];
      assert DistinctIds(front);
      ActiveFetchesOncePerCompetition(front, id);
      if last.id == id && IsActive(last) {
        ActiveFetchesExactlyOngoing(front, id);
        assert FetchLeaderboard(id) !in ActiveFetches(front);
      }
    }
  }

  /** `fetch_all_active_competitions`: queues the fetches and reports how
      many competitions are active. */
  method FetchAllActiveCompetitions(rows: seq<CompetitionRow>) returns (queued: seq<QueuedTask>, active: nat)
    ensures queued == ActiveFetches(rows)
    ensures active == |queued|
  {
    queued := [];
    var i := 0;
    while i < |rows|
      invariant 0 <= i <= |rows|
      invariant queued == ActiveFetches(rows[..i])
    {
      assert rows[..i + 1][..i] == rows[..i];
      if rows[i].status == Ongoing {
        queued := queued + [FetchLeaderboard(rows[i].id)];
      }
      i := i + 1;
    }
    assert rows[..i] == rows;
    active := |queued|;
  }
}
