/** Competitions and their time-driven lifecycle
    (backend/apps/competitions/models.py): field defaults, the three-state
    status rule, the status predicates, the duration in whole days and the
    participants counter. Times are microseconds since an arbitrary epoch. */
module Competitions {
  import opened Wrappers

  type CompetitionId = nat

  const Upcoming: string := "upcoming"
  const Ongoing: string := "ongoing"
  const Completed: string := "completed"

  /** The values of `STATUS_CHOICES`. The column is a plain string, so a row
      may hold something else. */
  const StatusChoices: seq<string> := [Upcoming, Ongoing, Completed]

  /** One row of the competitions table; only the fields the core reads or
      writes. */
  datatype CompetitionRow = CompetitionRow(
    id: CompetitionId,
    kaggleCompetitionId: string,
    startDate: int,
    endDate: int,
    status: string,
    ratingWeight: real,
    maxSubmissionsPerDay: int,
    participantsCount: int)

  /** A competition as created with every defaulted field left to its
      default. */
  function NewCompetition(id: CompetitionId, kaggleId: string, start: int, end: int): (c: CompetitionRow)
    ensures c.id == id && c.kaggleCompetitionId == kaggleId && c.startDate == start && c.endDate == end
    ensures c.status == "upcoming" && c.ratingWeight == 1.0
    ensures c.maxSubmissionsPerDay == 5 && c.participantsCount == 0
  {
    CompetitionRow(id, kaggleId, start, end, Upcoming, 1.0, 5, 0)
  }

  /** The status `update_status` assigns at time `now`. */
  function StatusAt(now: int, start: int, end: int): (s: string)
    ensures s in StatusChoices
    ensures s == "upcoming" <==> now < start
    ensures s == "ongoing" <==> start <= now <= end
    ensures s == "completed" <==> start <= now && end < now
  {
    if now < start then Upcoming
    else if start <= now <= end then Ongoing
    else Completed
  }

  /** The position of a status along the lifecycle. */
  function Stage(s: string): nat {
    if s == Upcoming then 0 else if s == Ongoing then 1 else 2
  }

  /** Time only moves a competition forward: upcoming, then ongoing, then
      completed, never back. */
  lemma StatusAdvancesWithTime(t1: int, t2: int, start: int, end: int)
    requires t1 <= t2
    ensures Stage(StatusAt(t1, start, end)) <= Stage(StatusAt(t2, start, end))
  {
  }

  /** `is_active`, `is_upcoming` and `is_completed`. */
  predicate IsActive(c: CompetitionRow) { c.status == Ongoing }
  predicate IsUpcoming(c: CompetitionRow) { c.status == Upcoming }
  predicate IsCompleted(c: CompetitionRow) { c.status == Completed }

  /** Competition ids are distinct, as the primary key makes them. */
  ghost predicate DistinctIds(rows: seq<CompetitionRow>) {
    forall i, j :: 0 <= i < j < |rows| ==> rows[i].id != rows[j].id
  }

  /** Each status of STATUS_CHOICES satisfies exactly one of the three
      predicates, and any other string satisfies none. */
  lemma ExactlyOneStatusPredicate(c: CompetitionRow)
    ensures c.status in StatusChoices ==>
      (if IsActive(c) then 1 else 0) + (if IsUpcoming(c) then 1 else 0) + (if IsCompleted(c) then 1 else 0) == 1
    ensures c.status !in StatusChoices ==> !IsActive(c) && !IsUpcoming(c) && !IsCompleted(c)
  {
  }

  const MicrosecondsPerDay: int := 86_400_000_000

  /** `duration_days`: `timedelta.days`, the whole days in `end - start`
      rounded towards minus infinity. */
  function DurationDays(start: int, end: int): (d: int)
    ensures d * MicrosecondsPerDay <= end - start < (d + 1) * MicrosecondsPerDay
  {
    (end - start) / MicrosecondsPerDay
  }

  /** A competition that ends before it starts lasts a negative number of
      days. */
  lemma DurationSign(start: int, end: int)
    ensures start <= end ==> DurationDays(start, end) >= 0
    ensures end < start ==> DurationDays(start, end) < 0
  {
  }

  /** The row after `update_status()` at time `now`. */
  function WithStatusAt(c: CompetitionRow, now: int): (d: CompetitionRow)
    ensures d.status == StatusAt(now, c.startDate, c.endDate)
    ensures d.(status := c.status) == c
  {
    c.(status := StatusAt(now, c.startDate, c.endDate))
  }

  /** `update_status` is idempotent for a fixed `now`. */
  lemma WithStatusAtIdempotent(c: CompetitionRow, now: int)
    ensures WithStatusAt(WithStatusAt(c, now), now) == WithStatusAt(c, now)
  {
  }

  /** The row after `increment_participants()`. */
  function WithOneMoreParticipant(c: CompetitionRow): (d: CompetitionRow)
    ensures d.participantsCount == c.participantsCount + 1
    ensures d.(participantsCount := c.participantsCount) == c
  {
    c.(participantsCount := c.participantsCount + 1)
  }

  /** The position of the competition with primary key `id`
      (`Competition.objects.get(id=...)`); None where `DoesNotExist` is
      raised. */
  function IndexOfCompetition(rows: seq<CompetitionRow>, id: CompetitionId): (r: Option<nat>)
    ensures r.Some? ==> r.value < |rows| && rows[r.value].id == id
    ensures r.None? ==> forall j :: 0 <= j < |rows| ==> rows[j].id != id
  {
    if |rows| == 0 then None
    else if rows[0].id == id then Some(0)
    else match IndexOfCompetition(rows[1..], id)
      case None => None
      case Some(k) => Some(k + 1)
  }

  /** The competitions table, in the order a full scan returns it. */
  class CompetitionTable {
    var rows: seq<CompetitionRow>

    constructor (rows0: seq<CompetitionRow>)
      ensures rows == rows0
    {
      rows := rows0;
    }

    /** `Competition.update_status()` on row `i`, with the clock read passed
        in: only that row's status changes. */
    method UpdateStatus(i: nat, now: int)
      requires i < |rows|
      modifies this
      ensures rows == old(rows)[i := WithStatusAt(old(rows)[i], now)]
    {
      rows := rows[i := WithStatusAt(rows[i], now)];
    }

    /** `Competition.increment_participants()` on row `i`. */
    method IncrementParticipants(i: nat)
      requires i < |rows|
      modifies this
      ensures rows == old(rows)[i := WithOneMoreParticipant(old(rows)[i])]
    {
      rows := rows[i := WithOneMoreParticipant(rows[i])];
    }
  }
}
