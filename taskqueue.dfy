/** Background work the core hands to the task queue. Enqueuing (Celery's
    `.delay`) is modelled as appending one of these to a log; running the
    task is not part of the model. */
module TaskQueue {
  import opened Competitions

  datatype QueuedTask =
    | SyncLeaderboard(competition: CompetitionId)   // sync_competition_leaderboard_task
    | CalculateRatings(competition: CompetitionId)  // calculate_ratings_after_competition
    | FetchLeaderboard(competition: CompetitionId)  // fetch_kaggle_leaderboard
}
