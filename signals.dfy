/** The `post_save` receiver that starts a Kaggle sync
    (backend/apps/competitions/signals.py). */
module Signals {
  import opened Competitions
  import opened TaskQueue

  /** Whether a save of a competition queues a leaderboard sync: never
      without a Kaggle id; always on creation; otherwise exactly while the
      competition is ongoing. */
  function ShouldSync(created: bool, kaggleCompetitionId: string, status: string): (r: bool)
    ensures kaggleCompetitionId == "" ==> !r
    ensures kaggleCompetitionId != "" && created ==> r
    ensures kaggleCompetitionId != "" && !created ==> (r <==> status == "ongoing")
  {
    if kaggleCompetitionId == "" then false
    else if created then true
    else status == Ongoing
  }

  /** The tasks one save of `c` queues: at most one sync, for `c` itself. */
  function OnCompetitionSaved(c: CompetitionRow, created: bool): (queued: seq<QueuedTask>)
    ensures |queued| <= 1
    ensures |queued| == 1 <==> ShouldSync(created, c.kaggleCompetitionId, c.status)
    ensures forall t :: t in queued ==> t == SyncLeaderboard(c.id)
  {
    if ShouldSync(created, c.kaggleCompetitionId, c.status) then [SyncLeaderboard(c.id)] else []
  }

  /** The rule fires on every save of an ongoing competition, not only on
      the save that made it ongoing: two saves queue two syncs. */
  lemma EverySaveOfOngoingSyncs(c: CompetitionRow)
    requires c.kaggleCompetitionId != "" && c.status == "ongoing"
    ensures OnCompetitionSaved(c, false) + OnCompetitionSaved(c, false) == [SyncLeaderboard(c.id), SyncLeaderboard(c.id)]
  {
  }
}
