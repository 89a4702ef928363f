# ML-Battle core in Dafny

ML-Battle is a competition platform. Users are ranked on Kaggle-backed competitions, and after each competition an ELO-style rating is recomputed. This project models the platform's core logic and proves properties of it:

- **Score normalisation and CSV leaderboard sync.** A raw Kaggle metric is mapped onto the competition's points scale. Each CSV row is resolved to a registered user, first by its team members and then by its team name. One standing is upserted per `(competition, user)` or `(competition, team name)`.
- **The ELO engine.** This covers the dynamic K-factor, the logistic expected score, the linear rank score, and the rounded, floored new rating. One result record is produced per participant.
- **Rating application after a competition.** It runs only for a completed competition. Entries go to the engine in rank order, then one history row is written per result, and `update_rating` sets each user's rating and running maximum.
- **User and leaderboard-entry state.** This covers field defaults, `update_rating`, `increment_competitions`, the tier ladder, and `update_best_score`, which keeps only a strictly better score.
- **The competition lifecycle.** It has the time-driven three-state status and the periodic pass. The pass counts status changes and queues a rating calculation only on the `ongoing` → `completed` edge. It also includes the save hook's sync decision.
- **The simple Kaggle fetch.** It matches a row by username, then by Kaggle username. It upserts with a submissions counter, appends one submission per matched row, and fans out over ongoing competitions.
- **The event's overall leaderboard.** Entries are grouped by team name. Each group gets its score sum and its count of distinct competitions, and the groups are sorted by total, descending.
- **The two Kaggle CLI table parsers.** Both filter noise lines, split on runs of whitespace and number the accepted rows. The lenient parser skips a bad score; the strict one gives up on it.
- **The front end's pure helpers.** These are the rating-tier table, text truncation, rating-change formatting, the time-remaining countdown, status badge classes and API error messages.

Modelling choices:

- Database tables are Dafny maps keyed by their unique keys, or sequences of rows, held in classes where the code mutates them.
- The clock (`now`) is a parameter.
- Queuing a Celery task is appending a `QueuedTask` to a log.
- Metric and rating arithmetic is over `real`.
- Some operations the code calls are given as parameters, each with only the facts the proofs need: `math.log2` and `math.pow(10, x)`, and Python's `float(str)` (as a partial function).
- Python's `round` is modelled exactly, as round-half-to-even.
- JavaScript's `null`/`undefined` is `None`.

The files, by the part of the repository they follow:

- `wrappers.dfy`, `text.dfy`: Option, and the string operations the core uses (strip, split, join, containment, decimal rendering).
- `subsequences.dfy`: the positions an order-preserving filter keeps, against which the query filters and the skipping loops are characterised.
- `users.dfy`, `leaderboard.dfy`, `competitions.dfy`: the models.
- `signals.dfy`, `taskqueue.dfy`, `competition_tasks.dfy`: the save hook and the status pass.
- `elo.dfy`, `rating_tasks.dfy`: the rating engine and its application.
- `scoring.dfy`: `kaggle_leaderboard_sync.py`.
- `submission_tasks.dfy`: `submissions/tasks.py`.
- `event_leaderboard.dfy`: the overall-leaderboard query.
- `cli_table.dfy`, `universal_leaderboard.dfy`, `subprocess_leaderboard.dfy`: the CLI parsers.
- `rating_tiers.dfy`, `helpers.dfy`: the front-end helpers.

## Model

| member | source | states |
|---|---|---|
| Users.NewUser | backend/apps/users/models.py:10-12 | a new user starts at rating 1500, highest rating 1500, 0 competitions |
| Users.WithRating | backend/apps/users/models.py:31-36 | `update_rating` sets the rating exactly; highest rating becomes max(old highest, new), so it never falls and is at least the rating; competitions count and identity unchanged |
| Users.WithOneMoreCompetition | backend/apps/users/models.py:38-41 | `increment_competitions` adds exactly 1 and leaves both ratings alone |
| Users.RatingTierIsLadder | backend/apps/users/models.py:43-61 | the if-chain equals the tier after as many of the thresholds 1200…2400 as the rating reaches |
| Users.RatingTierMonotone | backend/apps/users/models.py:43-61 | a higher rating never gets a lower tier |
| Users.IdByUsername | backend/apps/submissions/tasks.py:47 | `User.objects.get(username=…)` finds a user exactly when one has that username, and returns its id |
| Users.KaggleUsernameMatches | backend/apps/submissions/tasks.py:50 | the users whose `kaggle_username` is the name, all of them and only them |
| Users.UserTable.UpdateRating | backend/apps/users/models.py:31-36 | the named user's row takes `WithRating`, every other row is unchanged, keys stay unique |
| Users.UserTable.IncrementCompetitions | backend/apps/users/models.py:38-41 | the named user's counter rises by one, every other row is unchanged |
| Leaderboard.NewEntry | backend/apps/leaderboard/models.py:11-14 | defaults: best score 0.0, rank 0, no submissions, no submission time |
| Leaderboard.WithBestScore | backend/apps/leaderboard/models.py:28-35 | the best score becomes max(old, new) and no other field changes |
| Leaderboard.UpdateReportsChange | backend/apps/leaderboard/models.py:28-35 | the call returns True exactly when the entry changes; a score not above the best leaves the entry as it was |
| Leaderboard.UpdateBestScoreIdempotent | backend/apps/leaderboard/models.py:28-35 | repeating the call changes nothing and returns False |
| Leaderboard.BestAfterIsMaximum | backend/apps/leaderboard/models.py:31-32 | after a run of calls the best score is the maximum of the starting best and every score offered |
| Leaderboard.LeaderboardTable.UpdateBestScore | backend/apps/leaderboard/models.py:18-35 | on the one entry of its `(user, competition)` key: returns `new > best` and stores `WithBestScore`, other entries unchanged |
| Competitions.NewCompetition | backend/apps/competitions/models.py:21-26 | defaults: status upcoming, weight 1.0, 5 submissions a day, 0 participants |
| Competitions.StatusAt | backend/apps/competitions/models.py:41-49 | upcoming iff now < start, ongoing iff start ≤ now ≤ end (both inclusive), completed iff now > end and now ≥ start |
| Competitions.StatusAdvancesWithTime | backend/apps/competitions/models.py:41-49 | with start ≤ end, a later `now` never moves the status backwards |
| Competitions.ExactlyOneStatusPredicate | backend/apps/competitions/models.py:52-65 | each status of STATUS_CHOICES makes exactly one of `is_active`, `is_upcoming`, `is_completed` true; any other string makes none true |
| Competitions.DurationDays | backend/apps/competitions/models.py:67-70 | `duration_days` is the floor of `(end − start)` in whole days |
| Competitions.DurationSign | backend/apps/competitions/models.py:67-70 | non-negative when start ≤ end, negative otherwise |
| Competitions.WithStatusAt | backend/apps/competitions/models.py:41-50 | `update_status` sets the status from the clock and writes no other field |
| Competitions.WithStatusAtIdempotent | backend/apps/competitions/models.py:41-50 | a second `update_status` at the same instant changes nothing |
| Competitions.WithOneMoreParticipant | backend/apps/competitions/models.py:72-75 | `increment_participants` adds exactly one and writes no other field |
| Competitions.IndexOfCompetition | backend/apps/ratings/tasks.py:23 | `Competition.objects.get(id=…)` finds the row with that key if there is one |
| Competitions.CompetitionTable.UpdateStatus | backend/apps/competitions/models.py:41-50 | row `i` takes `WithStatusAt`, every other row is unchanged |
| Competitions.CompetitionTable.IncrementParticipants | backend/apps/competitions/models.py:72-75 | row `i` takes `WithOneMoreParticipant`, every other row is unchanged |
| Signals.ShouldSync | backend/apps/competitions/signals.py:24-39 | no Kaggle id: never; created: always; otherwise exactly when the status is `ongoing` |
| Signals.OnCompetitionSaved | backend/apps/competitions/signals.py:41-48 | a save queues at most one task, a sync of that competition, exactly when `ShouldSync` holds |
| Signals.EverySaveOfOngoingSyncs | backend/apps/competitions/signals.py:36-39 | the rule fires on every save of an ongoing competition, not only on the transition |
| CompetitionTasks.TasksFor | backend/apps/competitions/tasks.py:15-24 | one competition queues a rating calculation exactly when it goes from ongoing to completed; every task it queues is about it |
| CompetitionTasks.StatusChanges | backend/apps/competitions/tasks.py:14-19 | the count never exceeds the number of competitions |
| CompetitionTasks.AfterPass | backend/apps/competitions/tasks.py:14-16 | every competition has `update_status` applied exactly once |
| CompetitionTasks.UpdateCompetitionStatuses | backend/apps/competitions/tasks.py:6-26 | the intended pass (see Findings): the loop leaves `AfterPass`, returns the number of rows whose status changed and queues exactly `PassTasks` |
| CompetitionTasks.UpdateOne | backend/apps/competitions/tasks.py:15-24 | one iteration: saves the new status, reports whether it changed, queues that competition's tasks |
| CompetitionTasks.RatingQueuedIffJustEnded | backend/apps/competitions/tasks.py:21-24 | a rating calculation is queued for a competition iff some row with its id moved ongoing → completed in this pass |
| CompetitionTasks.RatingQueuedAtMostOnce | backend/apps/competitions/tasks.py:21-24 | with distinct ids, at most one rating calculation per competition per pass |
| CompetitionTasks.NoRatingWithoutOngoingEdge | backend/apps/competitions/tasks.py:18-22 | an unchanged status, or a jump from upcoming straight to completed, queues no rating calculation |
| CompetitionTasks.SecondPassIsQuiet | backend/apps/competitions/tasks.py:11-24 | a second pass at the same instant changes nothing and queues no rating calculation |
| CompetitionTasks.FirstSyncingSave | backend/apps/competitions/signals.py:41-48 | the first row whose save should queue a sync; no row before it queues anything |
| CompetitionTasks.OngoingCompetitionAbortsPass | backend/apps/competitions/signals.py:45 | as written, one ongoing competition with a Kaggle id makes the pass raise after its save, where the intended pass queues its sync |
| CompetitionTasks.AsWrittenAgreesWithoutSyncs | backend/apps/competitions/signals.py:41-48 | when no save should sync, the pass as written and the intended pass agree |
| EloRating.RoundHalfEven | backend/apps/ratings/elo_calculator.py:89 | Python's `round`: within 0.5 of the argument, an exact tie goes to the even neighbour |
| EloRating.Clamp | backend/apps/ratings/elo_calculator.py:31 | `min(hi, max(lo, x))` lies in `[lo, hi]` and is `x` inside it |
| EloRating.KFactor | backend/apps/ratings/elo_calculator.py:17-31 | K lies in `[16, 64]`; it is 16 for fewer than two participants, otherwise exactly `log2(n)·8` when that lies in `[16, 64]`, 16 below and 64 above |
| EloRating.KFactorPlateaus | backend/apps/ratings/elo_calculator.py:27-31 | K = 16 for n ≤ 4 and K = 64 for n ≥ 256 |
| EloRating.KFactorGrowsWithField | backend/apps/ratings/elo_calculator.py:27-31 | from two participants on, a larger field never gets a smaller K |
| EloRating.ExpectedScore | backend/apps/ratings/elo_calculator.py:34-45 | the expected score lies strictly between 0 and 1 |
| EloRating.ExpectedScoreShape | backend/apps/ratings/elo_calculator.py:45 | 0.5 against an equal opponent, and strictly larger for a stronger player |
| EloRating.ActualScore | backend/apps/ratings/elo_calculator.py:48-65 | 1 for a field of at most one; rank 1 gives 1 and rank n gives 0; in `[0, 1]` for 1 ≤ rank ≤ n |
| EloRating.NewRating | backend/apps/ratings/elo_calculator.py:68-92 | never negative; equals old + round(k·w·(actual − expected)) unless the floor at 0 applies |
| EloRating.ResultFor | backend/apps/ratings/elo_calculator.py:123-157 | a record carries the participant's id, name, rank and old rating, its actual score from the rank, its expected score against the given average, the new rating `NewRating` gives from those with the given K and weight, and `rating_change = new − old` |
| EloRating.CompetitionRatings | backend/apps/ratings/elo_calculator.py:109-157 | one record per participant, in input order, each the `ResultFor` of its participant with the one K of the field size and the one field average |
| EloRating.CalculateCompetitionRatings | backend/apps/ratings/elo_calculator.py:95-169 | the loop returns exactly `CompetitionRatings`; an empty field gives `[]` |
| EloRating.WinnerGainsLastLoses | backend/apps/ratings/elo_calculator.py:116-146 | with non-negative weight and ratings, rank 1 of a contested field never loses rating and rank n never gains |
| EloRating.ResultForEnds | backend/apps/ratings/elo_calculator.py:123-146 | the same for one record |
| EloRating.SingleParticipantGainsEight | backend/apps/ratings/elo_calculator.py:27-92 | a lone participant at 1500 with weight 1 gets K = 16, expected 0.5, actual 1, new rating 1508 |
| EloRating.FloorAtZero | backend/apps/ratings/elo_calculator.py:91-92 | a change that would take the rating below 0 leaves it at 0 |
| RatingTasks.OrderByRankSortsAndPermutes | backend/apps/ratings/tasks.py:30-32 | `order_by('rank')` yields the same entries sorted by ascending rank |
| RatingTasks.ParticipantFor | backend/apps/ratings/tasks.py:40-46 | an entry yields a participant exactly when it has a user that exists, with that user's current rating as old rating and the entry's rank |
| RatingTasks.ParticipantsOfSpec | backend/apps/ratings/tasks.py:39-46 | the list exists exactly when every entry yields a participant, and then it has one per entry, in order |
| RatingTasks.ParticipantsInRankOrder | backend/apps/ratings/tasks.py:30-46 | the participants reach the engine in ascending rank order, each with its user's current rating |
| RatingTasks.HistoryRows | backend/apps/ratings/tasks.py:56-67 | one history row per result, in order, with its old and new rating, change and rank |
| RatingTasks.HistoryPositiveIffGain | backend/apps/ratings/models.py:28-31 | `is_positive` holds exactly when the new rating exceeds the old |
| RatingTasks.ApplyResult | backend/apps/ratings/tasks.py:57-70 | one `update_rating` keeps the table's size |
| RatingTasks.RatingsApplied | backend/apps/ratings/tasks.py:55-70 | applying the results keeps the table's size |
| RatingTasks.RatingsAppliedSameAccounts | backend/apps/ratings/tasks.py:70 | applying results changes ratings only: ids, usernames and counters stay |
| RatingTasks.RatingsAppliedUntouched | backend/apps/ratings/tasks.py:55-70 | a user no result names keeps its row |
| RatingTasks.RatingsAppliedSetsRating | backend/apps/ratings/tasks.py:70 | with one result per user, each participant ends with rating = its `new_rating` and highest = max(old highest, new) |
| RatingTasks.CalculateRatingsAfterCompetition | backend/apps/ratings/tasks.py:14-83 | unknown id: not found; not completed or no entries: nothing written; otherwise the history gains `HistoryRows` and users take `RatingsApplied`, or nothing is written at all |
| RatingTasks.BuildParticipants | backend/apps/ratings/tasks.py:38-46 | the first loop returns exactly `ParticipantsOf` |
| RatingTasks.PrefixFailureIsFinal | backend/apps/ratings/tasks.py:40-45 | once an entry has no usable user the whole list fails |
| RatingTasks.ApplyResults | backend/apps/ratings/tasks.py:55-70 | the transaction appends one history row per result and leaves the users as `RatingsApplied` |
| KaggleLeaderboardSync.NormalizedScore | backend/apps/competitions/kaggle_leaderboard_sync.py:132-157 | never negative, never above the points, 0 when the points are ≤ 0, 0 for a degenerate range or a non-numeric or missing value |
| KaggleLeaderboardSync.ClampToPoints | backend/apps/competitions/kaggle_leaderboard_sync.py:151 | `max(0, min(ps, n))` lies in `[0, ps]` and is `n` inside it |
| KaggleLeaderboardSync.ClampToPointsMonotone | backend/apps/competitions/kaggle_leaderboard_sync.py:151 | the clamp is monotone |
| KaggleLeaderboardSync.NormalizedScoreIsProportional | backend/apps/competitions/kaggle_leaderboard_sync.py:143-151 | inside the range with ps ≥ 0 the score is exactly fraction × points, no clamping |
| KaggleLeaderboardSync.NormalizedScoreEndpoints | backend/apps/competitions/kaggle_leaderboard_sync.py:143-151 | higher-is-better: max gives the points, min gives 0; lower-is-better: the reverse |
| KaggleLeaderboardSync.NormalizedScoreMonotone | backend/apps/competitions/kaggle_leaderboard_sync.py:143-151 | with max > min and ps ≥ 0: non-decreasing in the value when higher is better, non-increasing otherwise |
| KaggleLeaderboardSync.NormalizedScoreOrdered | backend/apps/competitions/kaggle_leaderboard_sync.py:143-151 | a value with the smaller fraction never earns more points |
| KaggleLeaderboardSync.LowerIsBetterScenario | backend/apps/competitions/kaggle_leaderboard_sync.py:147-151 | on [0, 1] worth 100: 0.1, 0.5, 0.9 earn 90, 50, 10 |
| KaggleLeaderboardSync.PyMin | backend/apps/competitions/kaggle_leaderboard_sync.py:151 | Python `min` on two numbers is the smaller one; a NaN second argument returns the first |
| KaggleLeaderboardSync.PyMax | backend/apps/competitions/kaggle_leaderboard_sync.py:151 | Python `max` on two numbers is the larger one; a NaN second argument returns the first |
| KaggleLeaderboardSync.PyClamp | backend/apps/competitions/kaggle_leaderboard_sync.py:151 | the clamp under Python comparisons is the numeric clamp on numbers and `max(0, ps)` on NaN |
| KaggleLeaderboardSync.MissingScoreEarnsFullPoints | backend/apps/competitions/kaggle_leaderboard_sync.py:132-151 | as written, a NaN metric earns the full points; the intended normaliser gives 0 |
| KaggleLeaderboardSync.AsWrittenAgreesOnNumbers | backend/apps/competitions/kaggle_leaderboard_sync.py:132-157 | on every input other than NaN the code as written and the intended normaliser agree |
| KaggleLeaderboardSync.KaggleSlug | backend/apps/competitions/kaggle_leaderboard_sync.py:312-315 | an id not starting with `http` is used unchanged; otherwise the result is the last `/`-free segment of the id with trailing slashes removed |
| KaggleLeaderboardSync.RawScore | backend/apps/competitions/kaggle_leaderboard_sync.py:191 | only a numeric cell gives a finite metric |
| KaggleLeaderboardSync.MemberNames | backend/apps/competitions/kaggle_leaderboard_sync.py:203-206 | a missing or empty cell gives no names, a non-empty one gives at least one |
| KaggleLeaderboardSync.MemberNamesCount | backend/apps/competitions/kaggle_leaderboard_sync.py:205 | a non-empty cell gives one name more than it has commas |
| KaggleLeaderboardSync.MemberNamesArePieces | backend/apps/competitions/kaggle_leaderboard_sync.py:205-206 | the names are the cell's comma-separated pieces in order (joined with `,` they give the cell back), each stripped: no name holds a comma or starts or ends with whitespace |
| KaggleLeaderboardSync.FirstKnownIndex | backend/apps/competitions/kaggle_leaderboard_sync.py:205-211 | the first name that is a username; none before it is |
| KaggleLeaderboardSync.ResolveUserOrder | backend/apps/competitions/kaggle_leaderboard_sync.py:199-221 | the first registered team member wins; the team name is tried only if none is registered; otherwise the row stays unlinked |
| KaggleLeaderboardSync.ResolvedUserHasRowName | backend/apps/competitions/kaggle_leaderboard_sync.py:199-221 | a resolved user's username is one of the row's member names or its team name |
| KaggleLeaderboardSync.KeyOf | backend/apps/competitions/kaggle_leaderboard_sync.py:223-247 | a row is keyed by `(competition, user)` when it resolves, and by `(competition, team name)` with no user otherwise |
| KaggleLeaderboardSync.StandingOf | backend/apps/competitions/kaggle_leaderboard_sync.py:226-247 | the stored score is the corrected normaliser's value (see Findings), the rank is copied verbatim, the date is kept when present |
| KaggleLeaderboardSync.StandingScoreAgainstCode | backend/apps/competitions/kaggle_leaderboard_sync.py:191-196 | the stored score equals the code's own arithmetic on every row whose score cell is not empty; on an empty cell the code stores the full points and the model 0 |
| KaggleLeaderboardSync.FirstFailure | backend/apps/competitions/kaggle_leaderboard_sync.py:187-191 | the first row whose score or date conversion raises; no row before it does |
| KaggleLeaderboardSync.FailsOnlyAtFirstFailure | backend/apps/competitions/kaggle_leaderboard_sync.py:187-191 | up to the first failure, only the first failure fails |
| KaggleLeaderboardSync.UpsertedKeys | backend/apps/competitions/kaggle_leaderboard_sync.py:223-247 | the table has an entry for exactly the keys it had plus those written |
| KaggleLeaderboardSync.UpsertedUntouched | backend/apps/competitions/kaggle_leaderboard_sync.py:223-247 | a key nothing writes keeps its value |
| KaggleLeaderboardSync.UpsertedLastWins | backend/apps/competitions/kaggle_leaderboard_sync.py:223-247 | a key holds the standing of the last row written to it |
| KaggleLeaderboardSync.OneStandingPerKey | backend/apps/competitions/kaggle_leaderboard_sync.py:223-247 | two rows share an entry exactly when they resolve to the same user, or both stay unlinked with the same team name |
| KaggleLeaderboardSync.StandingsTable.ProcessCsvAndUpdateDb | backend/apps/competitions/kaggle_leaderboard_sync.py:159-261 | rows before the first failing one are upserted in order, with `StandingOf` (the corrected score), and stay written; returns the row count on success and 0 on a failure |
| SubmissionTasks.MatchTeam | backend/apps/submissions/tasks.py:45-53 | the username match wins; otherwise exactly one `kaggle_username` match is used, none skips the row, several raise |
| SubmissionTasks.MatchesAreMatched | backend/apps/submissions/tasks.py:42-53 | no more matches than rows; each match is a fetched row with the user it matched |
| SubmissionTasks.MatchesKeepPositions | backend/apps/submissions/tasks.py:42-53 | exactly one match per fetched row that finds a user, in fetch order, paired with that user; no other row is matched, so the reported count is the number of such rows |
| SubmissionTasks.UpsertOneWrites | backend/apps/submissions/tasks.py:56-69 | the entry takes the row's score and rank, its counter becomes 1 when created or rises by 1, other keys untouched |
| SubmissionTasks.SubmissionsForAt | backend/apps/submissions/tasks.py:72-77 | submission `k` belongs to matched row `k`: its user, the competition, the row's score, status `complete` |
| SubmissionTasks.AppliedCountsSubmissions | backend/apps/submissions/tasks.py:65-69 | a user's counter ends at its start (0 for a new entry) plus its number of matched rows |
| SubmissionTasks.AppliedKeys | backend/apps/submissions/tasks.py:56-63 | entries exist for exactly the old keys plus the matched users |
| SubmissionTasks.AppliedLastRowWins | backend/apps/submissions/tasks.py:56-63 | the stored score and rank are the user's last matched row's, overwriting and not keeping the max |
| SubmissionTasks.FetchOverwritesBest | backend/apps/submissions/tasks.py:59-62 | a later, lower score replaces an earlier, higher one |
| SubmissionTasks.ApplyFetchedRows | backend/apps/submissions/tasks.py:40-79 | the transaction leaves `Applied`, appends `SubmissionsFor` and counts the matched rows; an ambiguous match aborts it |
| SubmissionTasks.FetchKaggleLeaderboard | backend/apps/submissions/tasks.py:14-93 | not found, not ongoing or no data: nothing written; otherwise the transaction's writes, all or none |
| SubmissionTasks.ActiveFetches | backend/apps/submissions/tasks.py:101-104 | only fetch tasks, no more than there are competitions |
| SubmissionTasks.ActiveFetchesExactlyOngoing | backend/apps/submissions/tasks.py:101-104 | a fetch is queued for a competition exactly when it is ongoing |
| SubmissionTasks.ActiveFetchesOncePerCompetition | backend/apps/submissions/tasks.py:101-104 | with distinct competition ids, at most one fetch per competition |
| SubmissionTasks.FetchAllActiveCompetitions | backend/apps/submissions/tasks.py:96-106 | queues exactly `ActiveFetches` and reports their number |
| EventLeaderboard.InEvent | backend/test_overall_leaderboard.py:23-24 | an entry occurs in the result exactly when it occurs in the input and its competition belongs to the event |
| EventLeaderboard.InEventKeepsPositions | backend/test_overall_leaderboard.py:23-24 | one element per input entry of the event, duplicates included, in input order; no other entry |
| EventLeaderboard.TeamsOf | backend/test_overall_leaderboard.py:25-26 | every team with an entry, each once |
| EventLeaderboard.Grouped | backend/test_overall_leaderboard.py:25-29 | one aggregate row per distinct team name |
| EventLeaderboard.ByTotalDescendingSorted | backend/test_overall_leaderboard.py:30 | the rows are in non-increasing order of total |
| EventLeaderboard.ByTotalDescendingPermutes | backend/test_overall_leaderboard.py:30 | ordering keeps exactly the same rows |
| EventLeaderboard.ByTotalDescendingSortsAndPermutes | backend/test_overall_leaderboard.py:30 | `order_by('-total_score')` is sorted and a permutation |
| EventLeaderboard.OneRowPerTeam | backend/test_overall_leaderboard.py:23-30 | exactly one row per team with an entry in the event, none for other teams |
| EventLeaderboard.EventStandingsRows | backend/test_overall_leaderboard.py:23-30 | sorted by total; each row's total is the sum of its team's scores and its count is the number of distinct competitions, at most the event's |
| EventLeaderboard.TeamScoreOfAppend | backend/test_overall_leaderboard.py:28 | a team's sum grows by an entry's score exactly when the entry is that team's |
| EventLeaderboard.TopTen | backend/test_overall_leaderboard.py:34 | at most ten rows, positions 1, 2, … over the first rows |
| EventLeaderboard.TopTenPositions | backend/test_overall_leaderboard.py:34-36 | positions are consecutive from 1, so ties get distinct positions |
| CliTable.Lines | backend/universal_kaggle_leaderboard.py:65 | the stripped output split into at least one line |
| CliTable.KeptLinesAreDataLines | backend/universal_kaggle_leaderboard.py:68-77 | a line is kept iff it has no `Warning:`, `teamId`, `---` or `please consider` and is not blank |
| CliTable.FilterDataLines | backend/final_subprocess_leaderboard.py:59-68 | the first loop returns exactly the kept lines, in order |
| CliTable.LineCandidate | backend/universal_kaggle_leaderboard.py:86-92 | a line's stripped first four fields, when it has four, split on runs of ≥ 2 whitespace |
| Text.SplitOnSpaceRunsHasNoRuns | backend/universal_kaggle_leaderboard.py:86 | no piece holds two whitespace characters in a row |
| Text.SplitOnSpaceRunsRebuilds | backend/universal_kaggle_leaderboard.py:86 | `re.split(r'\s{2,}', …)`: one piece more than separators, and the pieces and separators in turn give the line back |
| Text.SpaceRunSeparatorsAreRuns | backend/universal_kaggle_leaderboard.py:86 | every separator cut out is two or more whitespace characters |
| Text.SplitOnSpaceRunsPiecesTrimmed | backend/universal_kaggle_leaderboard.py:86 | each cut run is maximal: a piece after a separator does not start with whitespace, a piece before one does not end with it |
| CliTable.AcceptedComeFromLines | backend/universal_kaggle_leaderboard.py:84-104 | no more rows than lines, and each is the fields of some line with its score parsed |
| CliTable.AcceptedKeepsPositions | backend/universal_kaggle_leaderboard.py:84-104 | exactly one row per line with four fields whose score parses, in line order, with that score: no such line is lost, no other line gives a row |
| CliTable.Numbered | backend/universal_kaggle_leaderboard.py:95-101 | rows are numbered 1, 2, … in order, with the field mapping TeamId, TeamName, SubmissionDate, Score |
| CliTable.DashedTeamNameDropsItsLine | backend/universal_kaggle_leaderboard.py:73 | a team name holding `---` makes its line noise, so it is dropped |
| UniversalLeaderboard.ParseDataLines | backend/universal_kaggle_leaderboard.py:83-104 | the loop returns the accepted candidates numbered from 1; a bad score is skipped |
| UniversalLeaderboard.FetchAnyCompetitionLeaderboard | backend/universal_kaggle_leaderboard.py:55-108 | no output or no accepted line gives None; otherwise the numbered accepted rows |
| UniversalLeaderboard.ParsedRowsShape | backend/universal_kaggle_leaderboard.py:79-104 | ranks run 1..k, there are no more rows than kept lines, each row is some kept line's fields |
| UniversalLeaderboard.UnparsableScoreIsSkipped | backend/universal_kaggle_leaderboard.py:94-104 | a bad score between two good ones leaves no row and no rank gap |
| SubprocessLeaderboard.ParseDataLinesStrict | backend/final_subprocess_leaderboard.py:74-91 | None as soon as a score of a four-field line fails to parse; otherwise all candidates numbered from 1 |
| SubprocessLeaderboard.FetchLeaderboardWithSubprocess | backend/final_subprocess_leaderboard.py:47-163 | empty output, a bad score, or no row gives None; otherwise the numbered rows |
| SubprocessLeaderboard.StrictKeepsEveryCandidate | backend/final_subprocess_leaderboard.py:77-91 | when every score parses, there is one row per line with four fields |
| SubprocessLeaderboard.OneBadScoreLosesEverything | backend/final_subprocess_leaderboard.py:85-91 | one bad score makes the strict parse fail where the lenient parse keeps the good row |
| RatingTiers.GetRatingTier | frontend/src/utils/constants.js:33-42 | the tier is an entry of `RATING_TIERS` |
| RatingTiers.GetRatingTierIsLargestReachedMin | frontend/src/utils/constants.js:17-42 | for a rating ≥ 0 the tier has the largest `min` that the rating reaches |
| RatingTiers.LowRatingsAreNewbie | frontend/src/utils/constants.js:41 | Newbie exactly below 1200, negative ratings included |
| RatingTiers.TierBoundaries | frontend/src/utils/constants.js:34-40 | boundaries are inclusive: 2400 is Grandmaster, 2399 International Master, 1200 Beginner, 1199 Newbie |
| RatingTiers.GetRatingTierMonotone | frontend/src/utils/constants.js:33-42 | a higher rating never maps to a lower tier |
| RatingTiers.GetRatingTierAgreesWithBackend | frontend/src/utils/constants.js:33-42 | the front end's tier name equals the back end's `rating_tier` for every integer rating |
| Helpers.TruncateText | frontend/src/utils/helpers.js:70-74 | missing or empty text gives `''`; text within the length is unchanged; longer text is its first `length` characters plus `...`, `length + 3` in all |
| Helpers.TruncateTextShape | frontend/src/utils/helpers.js:70-74 | the result is the text or a prefix of it plus `...`, never longer than `length + 3` |
| Helpers.FormatRatingChange | frontend/src/utils/helpers.js:116-119 | a missing change gives `''`; a change ≥ 0 gets `+` before its digits; a negative one keeps its `-` |
| Helpers.FormatRatingChangeRoundTrip | frontend/src/utils/helpers.js:116-119 | the shown text reads back as the change, and 0 shows as `+0` |
| Helpers.TimeRemainingMeaning | frontend/src/utils/helpers.js:42-61 | `Ended` iff diff ≤ 0; days and hours are the floors of diff over a day and of the remainder over an hour; the other forms hold the hours and minutes, or the minutes, below one unit of diff |
| Helpers.GetTimeRemaining | frontend/src/utils/helpers.js:42-61 | `''` exactly without an end date; `Ended` exactly when the end is not after now |
| Helpers.PluralUnlessOne | frontend/src/utils/helpers.js:54 | a count's unit takes `s` exactly when the count is not 1 |
| Helpers.StatusBadgeClass | frontend/src/utils/helpers.js:102-109 | the three known statuses give `badge-<status>`; any other gives `badge-default` and only they avoid it |
| Helpers.HandleApiError | frontend/src/utils/helpers.js:144-180 | 400 with a body joins its messages with `. `; any status other than 400, 401, 403, 404 and 500 gives a truthy `data.message`, else a truthy `data.detail`, else `An error occurred.`, and a 400 without a body gives that last message too; no response with a request gives the no-connection message; no response and no request gives the error's own message, or the generic one when it is empty |
| Helpers.KnownStatusMessages | frontend/src/utils/helpers.js:154-168 | 401, 403, 404 and 500 give their fixed messages; a 400 without body falls through to the generic message |
| Helpers.ValidationErrorShowsEachMessage | frontend/src/utils/helpers.js:149-152 | every validation message of a 400 body, lists spread, occurs in the result |
| Helpers.ResponseDecides | frontend/src/utils/helpers.js:144-180 | once a response exists neither the request nor the error message matters; every message except a 400's joined list is non-empty |

## Left out

- Kaggle API and CLI calls, subprocess, zip and CSV reading with pandas, and the CSV file the strict parser writes are outside the model. The CSV rows and the CLI stdout are inputs. An I/O failure while writing that file, which would also make the strict parser return None, is not modelled.
- Console printing in the CLI scripts is left out. This covers the formatted tables, team-name truncation and the pandas score statistics.
- Django persistence, serializers, views, admin, URLs, settings, the Celery beat configuration and the WebSocket consumer are left out. Only the order the queries return rows in is modelled, where it matters. A queued task is an entry in a log of `QueuedTask`s; running it (Celery `.delay`) is not modelled, except for the missing import in the save hook (see Findings).
- The tie order of `order_by('rank')` and `order_by('-total_score')` is left out, because the database does not define it. The model breaks ties stably; the proofs state only sortedness and permutation.
- Floating point is modelled as exact reals. `math.log2` and `10^x` are parameters that carry only the facts the lemmas need, and `float(str)` is a partial function parameter. Overflow, rounding error and infinities are not modelled. NaN appears only where it changes a branch: the normaliser's clamp.
- EloRating.KFactorPlateaus: it relies on the given facts `log2(4) = 2`, `log2(256) = 8` and monotonicity of the `log2` parameter, not on the real logarithm.
- RatingTasks.RatingsAppliedSetsRating: it assumes each user has at most one result. The table's `unique_together` guarantees this, but the model does not derive it.
- The atomic blocks are modelled as all-or-nothing outcomes of the methods. Concurrent transactions are not modelled.
- The schema drift between `leaderboard/models.py` and the sync code is kept as it is. The sync writes `score`, `kaggle_team_name` and `submission_date` to a separate standings table with an optional user; the simple fetch uses the model's fields.
- `getTimeRemaining` on a date that does not parse (NaN arithmetic, which renders `NaN minutes`) is not modelled. The end date is either missing or a millisecond timestamp; `new Date()` is the parameter `now`.
- KaggleLeaderboardSync.StandingOf: stores the corrected normaliser's score, so a row with an empty score cell is stored with 0 where the code stores the full points (first Findings row). StandingScoreAgainstCode states both values.
- KaggleLeaderboardSync.StandingsTable.ProcessCsvAndUpdateDb: writes the standings `StandingOf` gives, so the same empty-cell row differs from the code's table in the same way.
- Helpers.TruncateText: lengths and prefixes are counted in Unicode scalar values. JavaScript's `length` and `substring` count UTF-16 code units, so the two differ on text with characters outside the Basic Multilingual Plane: `truncateText('😀😀', 2)` gives `'😀...'` in JavaScript and the text unchanged in the model.
- The tasks' return values are modelled as counts or outcome values, not as the message strings the code builds from them (`'Updated N competition statuses'` at competitions/tasks.py:26, and the messages at submissions/tasks.py:87 and ratings/tasks.py:77).
- `update_status` reads `timezone.now()` afresh for each competition (competitions/models.py:43). The model's status pass uses one `now` for all competitions, so a pass that straddles a start or end instant is not modelled.
- Helpers.StatusBadgeClass: the plain-object lookup `classes[status]` also finds inherited properties such as `toString`, which return a function instead of `badge-default`. The model treats every unknown string as unknown.
- Helpers.HandleApiError: a response body that is not a JSON object (a string or number `data`), deeper nesting than one list level, and JavaScript's ordering of integer-like keys are not modelled. The body is its `(key, value)` pairs in property order.
- `formatDate`, `formatDateTime`, `formatNumber`, `formatScore` and `debounce` are left out, as is `RatingHistory.__str__`. They are locale formatting, float formatting and timer state.
- The React pages, hooks, the API and auth services, and the performance and cache utilities are left out.

## Findings

| source | as written | input that shows it | evidently intended | confidence | as-written member | corrected member |
|---|---|---|---|---|---|---|
| backend/apps/competitions/kaggle_leaderboard_sync.py:133-151 | a NaN metric survives `float()`; `min(ps, nan)` is `ps` and `max(0.0, ps)` is `ps` | a CSV row with an empty `Score` cell (pandas reads NaN), range [0, 1], 100 points | a missing score earns 0, like a non-numeric one; the modelled sync stores that value | not executed | KaggleLeaderboardSync.MissingScoreEarnsFullPoints | KaggleLeaderboardSync.NormalizedScore |
| backend/apps/competitions/signals.py:45 | the save hook imports `sync_competition_leaderboard_task` from the competitions tasks module, which does not define it, so every save that should sync raises `ImportError` | a periodic status pass over one competition with a Kaggle id that is ongoing at `now` | the save queues one sync and the pass finishes | not executed | CompetitionTasks.OngoingCompetitionAbortsPass | CompetitionTasks.UpdateCompetitionStatuses |
