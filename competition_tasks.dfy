/** The periodic status pass (backend/apps/competitions/tasks.py): every
    competition's status is recomputed and saved, status changes are
    counted, and a rating calculation is queued for each competition that
    has just ended. Each save also fires the `post_save` receiver of
    backend/apps/competitions/signals.py, so the pass queues the syncs that
    receiver asks for. */
module CompetitionTasks {
  import opened Competitions
  import opened TaskQueue
  import opened Signals

  /** Whether the pass changes the status of `c`. */
  predicate Changes(c: CompetitionRow, now: int) {
    WithStatusAt(c, now).status != c.status
  }

  /** Whether the pass sees `c` go from ongoing to completed. */
  predicate JustEnded(c: CompetitionRow, now: int) {
    c.status == Ongoing && StatusAt(now, c.startDate, c.endDate) == Completed
  }

  /** What the pass queues for one competition: the syncs its save fires,
      then a rating calculation if it has just ended. */
  function TasksFor(c: CompetitionRow, now: int): (ts: seq<QueuedTask>)
    ensures CalculateRatings(c.id) in ts <==> JustEnded(c, now)
    ensures forall t :: t in ts ==> t.competition == c.id
  {
    var d := WithStatusAt(c, now);
    OnCompetitionSaved(d, false) + (if JustEnded(c, now) then [CalculateRatings(c.id)] else [])
  }

  /** The number of competitions whose status the pass changes. */
  function StatusChanges(rows: seq<CompetitionRow>, now: int): (n: nat)
    ensures n <= |rows|
  {
    if |rows| == 0 then 0
    else StatusChanges(rows[..|rows| - 1], now) + (if Changes(rows[|rows| - 1], now) then 1 else 0)
  }

  /** Everything the pass queues, in order. */
  function PassTasks(rows: seq<CompetitionRow>, now: int): seq<QueuedTask> {
    if |rows| == 0 then []
    else PassTasks(rows[..|rows| - 1], now) + TasksFor(rows[|rows| - 1], now)
  }

  /** The rows after the pass. */
  function AfterPass(rows: seq<CompetitionRow>, now: int): (r: seq<CompetitionRow>)
    ensures |r| == |rows|
    ensures forall i :: 0 <= i < |rows| ==> r[i] == WithStatusAt(rows[i], now)
  {
    seq(|rows|, i requires 0 <= i < |rows| => WithStatusAt(rows[i], now))
  }

  /** `update_competition_statuses` with the clock read passed in:
      `update_status` is applied once to every competition, the result is
      the number of statuses that changed, and the queued tasks are those
      of PassTasks. */
  method UpdateCompetitionStatuses(table: CompetitionTable, now: int) returns (count: nat, queued: seq<QueuedTask>)
    modifies table
    ensures table.rows == AfterPass(old(table.rows), now)
    ensures count == StatusChanges(old(table.rows), now)
    ensures queued == PassTasks(old(table.rows), now)
  {
    ghost var rows0 := table.rows;
    count := 0;
    queued := [];
    var i := 0;
    assert rows0[0..] == rows0;
    while i < |table.rows|
      invariant 0 <= i <= |rows0|
      invariant table.rows == AfterPass(rows0[..i], now) + rows0[i..]
      invariant count == StatusChanges(rows0[..i], now)
      invariant queued == PassTasks(rows0[..i], now)
    {
      AfterPassOneMore(rows0, i, now);
      var changed, tasks := UpdateOne(table, i, now);
      if changed {
        count := count + 1;
      }
      queued := queued + tasks;
      PassOneMore(rows0, i, now);
      i := i + 1;
    }
    assert rows0[..i] == rows0;
    assert rows0[i..] == [];
  }

  /** One iteration: save competition `i` with its recomputed status and
      report whether the status changed and what the save queued. */
  method UpdateOne(table: CompetitionTable, i: nat, now: int) returns (changed: bool, tasks: seq<QueuedTask>)
    requires i < |table.rows|
    modifies table
    ensures table.rows == old(table.rows)[i := WithStatusAt(old(table.rows)[i], now)]
    ensures changed == Changes(old(table.rows)[i], now)
    ensures tasks == TasksFor(old(table.rows)[i], now)
  {
    var oldStatus := table.rows[i].status;
    TasksForStep(table.rows[i], now);
    table.UpdateStatus(i, now);
    var c := table.rows[i];
    tasks := OnCompetitionSaved(c, false);
    changed := oldStatus != c.status;
    if changed {
      if c.status == Completed && oldStatus == Ongoing {
        tasks := tasks + [CalculateRatings(c.id)];
      }
    }
  }

  /** Saving row `i` turns the pass's state after `i` rows into its state
      after `i + 1`. */
  lemma AfterPassOneMore(rows: seq<CompetitionRow>, i: nat, now: int)
    requires i < |rows|
    ensures var t := AfterPass(rows[..i], now) + rows[i..];
      && |t| == |rows| && t[i] == rows[i]
      && t[i := WithStatusAt(rows[i], now)] == AfterPass(rows[..i + 1], now) + rows[i + 1..]
  {
    var t := AfterPass(rows[..i], now) + rows[i..];
    var u := AfterPass(rows[..i + 1], now) + rows[i + 1..];
    assert forall k :: 0 <= k < |u| ==> t[i := WithStatusAt(rows[i], now)][k] == u[k];
  }

  /** The tasks of one row in the terms the loop tests: the status before
      and after the save. */
  lemma TasksForStep(c: CompetitionRow, now: int)
    ensures var d := WithStatusAt(c, now);
      && TasksFor(c, now) == OnCompetitionSaved(d, false) +
           (if c.status != d.status && d.status == Completed && c.status == Ongoing then [CalculateRatings(d.id)] else [])
      && (Changes(c, now) <==> c.status != d.status)
  {
  }

  lemma PassOneMore(rows: seq<CompetitionRow>, i: nat, now: int)
    requires i < |rows|
    ensures StatusChanges(rows[..i + 1], now) == StatusChanges(rows[..i], now) + (if Changes(rows[i], now) then 1 else 0)
    ensures PassTasks(rows[..i + 1], now) == PassTasks(rows[..i], now) + TasksFor(rows[i], now)
  {
    assert rows[..i + 1][..i] == rows[..i];
  }

  /** A rating calculation is queued for a competition exactly when the pass
      sees it go from ongoing to completed. */
  lemma {:induction false} RatingQueuedIffJustEnded(rows: seq<CompetitionRow>, now: int, id: CompetitionId)
    ensures CalculateRatings(id) in PassTasks(rows, now) <==>
      exists i :: 0 <= i < |rows| && rows[i].id == id && JustEnded(rows[i], now)
    decreases |rows|
  {
    if |rows| > 0 {
      var front := rows[..|rows| - 1];
      var last := rows[|rows| - 1];
      RatingQueuedIffJustEnded(front, now, id);
      assert PassTasks(rows, now) == PassTasks(front, now) + TasksFor(last, now);
      assert forall i :: 0 <= i < |front| ==> front[i] == rows[i];
      assert CalculateRatings(id) in TasksFor(last, now) <==> last.id == id && JustEnded(last, now);
    }
  }

  /** With distinct ids, a competition gets at most one rating calculation
      per pass. */
  lemma {:induction false} RatingQueuedAtMostOnce(rows: seq<CompetitionRow>, now: int, id: CompetitionId)
    requires DistinctIds(rows)
    ensures multiset(PassTasks(rows, now))[CalculateRatings(id)] <= 1
    decreases |rows|
  {
    if |rows| > 0 {
      var front := rows[..|rows| - 1];
      var last := rows[|rows| - 1];
      assert DistinctIds(front);
      RatingQueuedAtMostOnce(front, now, id);
      assert PassTasks(rows, now) == PassTasks(front, now) + TasksFor(last, now);
      if last.id == id {
        RatingQueuedIffJustEnded(front, now, id);
        assert CalculateRatings(id) !in PassTasks(front, now);
        assert multiset(TasksFor(last, now))[CalculateRatings(id)] <= 1;
      } else {
        assert CalculateRatings(id) !in TasksFor(last, now);
      }
    }
  }

  /** A competition whose status does not change, or that jumps straight
      from upcoming to completed, gets no rating calculation. */
  lemma NoRatingWithoutOngoingEdge(c: CompetitionRow, now: int)
    requires !Changes(c, now) || c.status == Upcoming
    ensures CalculateRatings(c.id) !in TasksFor(c, now)
  {
  }

  /** A second pass at the same instant changes nothing and queues no rating
      calculation. */
  lemma {:induction false} SecondPassIsQuiet(rows: seq<CompetitionRow>, now: int, id: CompetitionId)
    ensures StatusChanges(AfterPass(rows, now), now) == 0
    ensures CalculateRatings(id) !in PassTasks(AfterPass(rows, now), now)
    decreases |rows|
  {
    if |rows| > 0 {
      var front := rows[..|rows| - 1];
      SecondPassIsQuiet(front, now, id);
      var r := AfterPass(rows, now);
      assert r[..|r| - 1] == AfterPass(front, now);
      var last := r[|r| - 1];
      WithStatusAtIdempotent(rows[|rows| - 1], now);
      assert !Changes(last, now);
      NoRatingWithoutOngoingEdge(last, now);
    }
  }

  // ----- the pass as written -----

  /** How the pass as written ends. The receiver imports
      `sync_competition_leaderboard_task` from the competitions tasks
      module, which defines no such task, so the first save that should
      queue a sync raises `ImportError`: that row's status is already
      saved, the pass stops, and what was queued before stays queued. */
  datatype PassOutcome =
    | Finished(count: nat, queued: seq<QueuedTask>)
    | RaisedImportError(saved: nat, queued: seq<QueuedTask>)

  /** The first competition whose save should queue a sync, or `|rows|`. */
  function FirstSyncingSave(rows: seq<CompetitionRow>, now: int): (k: nat)
    ensures k <= |rows|
    ensures k < |rows| ==> |OnCompetitionSaved(WithStatusAt(rows[k], now), false)| == 1
    ensures forall j :: 0 <= j < k ==> OnCompetitionSaved(WithStatusAt(rows[j], now), false) == []
  {
    if |rows| == 0 then 0
    else if |OnCompetitionSaved(WithStatusAt(rows[0], now), false)| == 1 then 0
    else
      var k := FirstSyncingSave(rows[1..], now);
      assert forall j :: 1 <= j < |rows| ==> rows[j] == rows[1..][j - 1];
      1 + k
  }

  function PassAsWritten(rows: seq<CompetitionRow>, now: int): PassOutcome {
    var k := FirstSyncingSave(rows, now);
    if k == |rows| then Finished(StatusChanges(rows, now), PassTasks(rows, now))
    else RaisedImportError(k + 1, PassTasks(rows[..k], now))
  }

  /** The discrepancy: one competition with a Kaggle id that is ongoing at
      `now` makes the pass as written raise, where the intended pass queues
      its sync and finishes. */
  lemma OngoingCompetitionAbortsPass(c: CompetitionRow, now: int)
    requires c.kaggleCompetitionId != "" && StatusAt(now, c.startDate, c.endDate) == Ongoing
    ensures PassAsWritten([c], now) == RaisedImportError(1, [])
    ensures PassTasks([c], now) == [SyncLeaderboard(c.id)]
  {
    assert [c][..0] == [];
    assert PassTasks([c], now) == PassTasks([], now) + TasksFor(c, now);
  }

  /** When no save should queue a sync, the pass as written and the
      intended pass agree. */
  lemma {:induction false} AsWrittenAgreesWithoutSyncs(rows: seq<CompetitionRow>, now: int)
    requires forall i :: 0 <= i < |rows| ==> !ShouldSync(false, rows[i].kaggleCompetitionId, StatusAt(now, rows[i].startDate, rows[i].endDate))
    ensures PassAsWritten(rows, now) == Finished(StatusChanges(rows, now), PassTasks(rows, now))
  {
    assert forall i :: 0 <= i < |rows| ==> OnCompetitionSaved(WithStatusAt(rows[i], now), false) == [];
  }
}
