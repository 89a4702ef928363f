/** The rating pass after a competition (backend/apps/ratings/tasks.py):
    the competition's leaderboard entries are read in rank order, each is
    turned into a participant carrying the user's current rating, the ELO
    engine rates the field, and then, in one transaction, one rating-history
    row is recorded and `update_rating` is applied per result. The rating
    history rows are those of backend/apps/ratings/models.py. */
module RatingTasks {
  import opened Wrappers
  import opened Users
  import opened Competitions
  import opened EloRating

  // ----- the entries and their order -----

  /** A leaderboard entry of the competition as the task reads it: the
      linked user, which may be missing, and the stored rank. */
  datatype RankedEntry = RankedEntry(user: Option<UserId>, rank: int)

  predicate SortedByRank(s: seq<RankedEntry>) {
    forall i, j :: 0 <= i < j < |s| ==> s[i].rank <= s[j].rank
  }

  /** Places `e` after every entry of `s` whose rank is not greater. */
  function InsertByRank(e: RankedEntry, s: seq<RankedEntry>): (r: seq<RankedEntry>)
    ensures |r| == |s| + 1
    decreases |s|
  {
    if |s| == 0 then [e]
    else if e.rank < s[0].rank then [e] + s
    else [s[0]] + InsertByRank(e, s[1..])
  }

  /** `order_by('rank')`: the entries by ascending rank, entries of equal
      rank in the order the table holds them. */
  function OrderByRank(es: seq<RankedEntry>): seq<RankedEntry>
    decreases |es|
  {
    if |es| == 0 then [] else InsertByRank(es[|es| - 1], OrderByRank(es[..|es| - 1]))
  }

  lemma {:induction false} InsertByRankPermutes(e: RankedEntry, s: seq<RankedEntry>)
    ensures multiset(InsertByRank(e, s)) == multiset(s) + multiset{e}
    decreases |s|
  {
    if |s| > 0 && e.rank >= s[0].rank {
      InsertByRankPermutes(e, s[1..]);
      assert s == [s[0]] + s[1..];
    }
  }

  /** Inserting an entry ranked at least `b` among entries all ranked at
      least `b` gives entries all ranked at least `b`. */
  lemma {:induction false} InsertByRankLowerBound(e: RankedEntry, s: seq<RankedEntry>, b: int)
    requires e.rank >= b
    requires forall i :: 0 <= i < |s| ==> s[i].rank >= b
    ensures forall i :: 0 <= i < |InsertByRank(e, s)| ==> InsertByRank(e, s)[i].rank >= b
    decreases |s|
  {
    if |s| > 0 && e.rank >= s[0].rank {
      InsertByRankLowerBound(e, s[1..], b);
    }
  }

  lemma {:induction false} InsertByRankSorted(e: RankedEntry, s: seq<RankedEntry>)
    requires SortedByRank(s)
    ensures SortedByRank(InsertByRank(e, s))
    decreases |s|
  {
    if |s| > 0 && e.rank >= s[0].rank {
      var rest := s[1..];
      InsertByRankSorted(e, rest);
      InsertByRankLowerBound(e, rest, s[0].rank);
      var u := [s[0]] + InsertByRank(e, rest);
      assert SortedByRank(u);
    }
  }

  /** The ordered entries are sorted by rank and are the entries read,
      neither more nor fewer. */
  lemma {:induction false} OrderByRankSortsAndPermutes(es: seq<RankedEntry>)
    ensures SortedByRank(OrderByRank(es))
    ensures multiset(OrderByRank(es)) == multiset(es)
    ensures |OrderByRank(es)| == |es|
    decreases |es|
  {
    if |es| > 0 {
      var front := es[..|es| - 1];
      OrderByRankSortsAndPermutes(front);
      InsertByRankSorted(es[|es| - 1], OrderByRank(front));
      InsertByRankPermutes(es[|es| - 1], OrderByRank(front));
      assert es == front + [es[|es| - 1]];
    }
  }

  // ----- the participants -----

  /** The participant record built from one entry with the user's current
      row; None where `entry.user` is missing and `.id` raises. */
  function ParticipantFor(rows: seq<UserRow>, e: RankedEntry): (p: Option<Participant>)
    ensures p.Some? <==> e.user.Some? && IndexOfId(rows, e.user.value).Some?
    ensures p.Some? ==>
      var u := rows[IndexOfId(rows, e.user.value).value];
      p.value == Participant(u.id, u.username, u.eloRating, e.rank)
  {
    match e.user
    case None => None
    case Some(id) =>
      match IndexOfId(rows, id)
      case None => None
      case Some(i) => Some(Participant(rows[i].id, rows[i].username, rows[i].eloRating, e.rank))
  }

  /** The participants list the first loop builds, None when some entry has
      no user. */
  function ParticipantsOf(rows: seq<UserRow>, es: seq<RankedEntry>): Option<seq<Participant>>
    decreases |es|
  {
    if |es| == 0 then Some([])
    else match ParticipantsOf(rows, es[..|es| - 1])
      case None => None
      case Some(ps) =>
        match ParticipantFor(rows, es[|es| - 1])
        case None => None
        case Some(p) => Some(ps + [p])
  }

  /** The list exists exactly when every entry yields a participant, and
      then it holds one participant per entry, in entry order. */
  lemma {:induction false} ParticipantsOfSpec(rows: seq<UserRow>, es: seq<RankedEntry>)
    ensures ParticipantsOf(rows, es).Some? <==> forall i :: 0 <= i < |es| ==> ParticipantFor(rows, es[i]).Some?
    ensures ParticipantsOf(rows, es).Some? ==>
      && |ParticipantsOf(rows, es).value| == |es|
      && forall i :: 0 <= i < |es| ==> ParticipantsOf(rows, es).value[i] == ParticipantFor(rows, es[i]).value
    decreases |es|
  {
    if |es| > 0 {
      var front := es[..|es| - 1];
      ParticipantsOfSpec(rows, front);
      assert forall i :: 0 <= i < |front| ==> front[i] == es[i];
    }
  }

  /** The participants reach the engine in ascending rank order, each with
      the user's rating as it stands before the pass. */
  lemma ParticipantsInRankOrder(rows: seq<UserRow>, es: seq<RankedEntry>)
    requires ParticipantsOf(rows, OrderByRank(es)).Some?
    ensures var ps := ParticipantsOf(rows, OrderByRank(es)).value;
      && |ps| == |es|
      && (forall i, j :: 0 <= i < j < |ps| ==> ps[i].rank <= ps[j].rank)
      && forall i :: 0 <= i < |ps| ==>
           exists k :: 0 <= k < |rows| && rows[k].id == ps[i].userId && rows[k].eloRating == ps[i].oldRating
  {
    var os := OrderByRank(es);
    OrderByRankSortsAndPermutes(es);
    ParticipantsOfSpec(rows, os);
    var ps := ParticipantsOf(rows, os).value;
    forall i | 0 <= i < |ps|
      ensures ps[i].rank == os[i].rank
      ensures exists k :: 0 <= k < |rows| && rows[k].id == ps[i].userId && rows[k].eloRating == ps[i].oldRating
    {
      assert ps[i] == ParticipantFor(rows, os[i]).value;
      var k := IndexOfId(rows, os[i].user.value).value;
      assert rows[k].id == ps[i].userId && rows[k].eloRating == ps[i].oldRating;
    }
    assert SortedByRank(os);
  }

  // ----- the rating history -----

  /** One row of the rating history. */
  datatype HistoryRow = HistoryRow(
    user: UserId, competition: CompetitionId, oldRating: int, newRating: int, ratingChange: int, rank: int)

  /** `RatingHistory.is_positive`. */
  predicate IsPositive(h: HistoryRow) {
    h.ratingChange > 0
  }

  /** The history rows recorded for the results, one each, in result order. */
  function HistoryRows(comp: CompetitionId, rs: seq<RatingResult>): (hs: seq<HistoryRow>)
    ensures |hs| == |rs|
    ensures forall i :: 0 <= i < |rs| ==>
      hs[i] == HistoryRow(rs[i].userId, comp, rs[i].oldRating, rs[i].newRating, rs[i].ratingChange, rs[i].rank)
  {
    seq(|rs|, i requires 0 <= i < |rs| =>
      HistoryRow(rs[i].userId, comp, rs[i].oldRating, rs[i].newRating, rs[i].ratingChange, rs[i].rank))
  }

  lemma HistoryRowsOneMore(comp: CompetitionId, rs: seq<RatingResult>, i: nat)
    requires i < |rs|
    ensures HistoryRows(comp, rs[..i + 1]) ==
      HistoryRows(comp, rs[..i]) + [HistoryRow(rs[i].userId, comp, rs[i].oldRating, rs[i].newRating, rs[i].ratingChange, rs[i].rank)]
  {
    var l := HistoryRows(comp, rs[..i + 1]);
    var r := HistoryRows(comp, rs[..i]) + [HistoryRow(rs[i].userId, comp, rs[i].oldRating, rs[i].newRating, rs[i].ratingChange, rs[i].rank)];
    assert forall k :: 0 <= k < |l| ==> l[k] == r[k];
  }

  /** A recorded change is positive exactly when the rating went up. */
  lemma HistoryPositiveIffGain(comp: CompetitionId, ps: seq<Participant>, weight: real, log2: real -> real, pow10: real -> Positive, i: nat)
    requires i < |ps|
    ensures var h := HistoryRows(comp, CompetitionRatings(ps, weight, log2, pow10))[i];
      IsPositive(h) <==> h.newRating > h.oldRating
  {
  }

  class RatingHistoryTable {
    var rows: seq<HistoryRow>

    constructor ()
      ensures rows == []
    {
      rows := [];
    }
  }

  // ----- applying the results -----

  /** `update_rating` for one result on the user it names. */
  function ApplyResult(rows: seq<UserRow>, r: RatingResult): (r': seq<UserRow>)
    ensures |r'| == |rows|
  {
    match IndexOfId(rows, r.userId)
    case None => rows
    case Some(i) => rows[i := WithRating(rows[i], r.newRating)]
  }

  /** The users table after the results are applied in order. */
  function RatingsApplied(rows: seq<UserRow>, rs: seq<RatingResult>): (r: seq<UserRow>)
    ensures |r| == |rows|
    decreases |rs|
  {
    if |rs| == 0 then rows else ApplyResult(RatingsApplied(rows, rs[..|rs| - 1]), rs[|rs| - 1])
  }

  lemma RatingsAppliedOneMore(rows: seq<UserRow>, rs: seq<RatingResult>, i: nat)
    requires i < |rs|
    ensures RatingsApplied(rows, rs[..i + 1]) == ApplyResult(RatingsApplied(rows, rs[..i]), rs[i])
  {
    assert rs[..i + 1][..i] == rs[..i];
  }

  /** Two tables holding the same accounts, position by position; only the
      ratings may differ. */
  predicate SameAccounts(a: seq<UserRow>, b: seq<UserRow>) {
    && |a| == |b|
    && forall j :: 0 <= j < |a| ==>
         && a[j].id == b[j].id && a[j].username == b[j].username
         && a[j].kaggleUsername == b[j].kaggleUsername
         && a[j].competitionsParticipated == b[j].competitionsParticipated
  }

  lemma {:induction false} IndexOfIdSameAccounts(a: seq<UserRow>, b: seq<UserRow>, id: UserId)
    requires SameAccounts(a, b)
    ensures IndexOfId(a, id) == IndexOfId(b, id)
    decreases |a|
  {
    if |a| > 0 && a[0].id != id {
      assert SameAccounts(a[1..], b[1..]) by {
        forall j | 0 <= j < |a| - 1 ensures a[1..][j].id == b[1..][j].id {
          assert a[1..][j] == a[j + 1] && b[1..][j] == b[j + 1];
        }
      }
      IndexOfIdSameAccounts(a[1..], b[1..], id);
    }
  }

  /** Applying results changes ratings only. */
  lemma {:induction false} RatingsAppliedSameAccounts(rows: seq<UserRow>, rs: seq<RatingResult>)
    ensures SameAccounts(RatingsApplied(rows, rs), rows)
    decreases |rs|
  {
    if |rs| > 0 {
      RatingsAppliedSameAccounts(rows, rs[..|rs| - 1]);
    }
  }

  /** A user no result names keeps its row. */
  lemma {:induction false} RatingsAppliedUntouched(rows: seq<UserRow>, rs: seq<RatingResult>, k: nat)
    requires k < |rows|
    requires forall j :: 0 <= j < |rs| ==> rs[j].userId != rows[k].id
    ensures k < |RatingsApplied(rows, rs)| && RatingsApplied(rows, rs)[k] == rows[k]
    decreases |rs|
  {
    if |rs| > 0 {
      RatingsAppliedUntouched(rows, rs[..|rs| - 1], k);
      RatingsAppliedSameAccounts(rows, rs[..|rs| - 1]);
    }
  }

  /** Each user is named by at most one result, as `unique_together` on
      leaderboard entries makes it. */
  predicate DistinctUsers(rs: seq<RatingResult>) {
    forall i, j :: 0 <= i < j < |rs| ==> rs[i].userId != rs[j].userId
  }

  /** Once the results are applied, a participant's row is its row before
      the pass after `update_rating(new_rating)`: `elo_rating` is the new
      rating and `highest_rating` the larger of the old highest and the new
      rating. */
  lemma {:induction false} RatingsAppliedSetsRating(rows: seq<UserRow>, rs: seq<RatingResult>, j: nat)
    requires DistinctUsers(rs) && j < |rs| && IndexOfId(rows, rs[j].userId).Some?
    ensures var k := IndexOfId(rows, rs[j].userId).value;
      RatingsApplied(rows, rs)[k] == WithRating(rows[k], rs[j].newRating)
    decreases |rs|
  {
    var k := IndexOfId(rows, rs[j].userId).value;
    RatingsAppliedSameAccounts(rows, rs);
    var front := rs[..|rs| - 1];
    var f := RatingsApplied(rows, front);
    RatingsAppliedSameAccounts(rows, front);
    IndexOfIdSameAccounts(f, rows, rs[j].userId);
    if j == |rs| - 1 {
      assert forall i :: 0 <= i < |front| ==> front[i].userId != rows[k].id by {
        forall i | 0 <= i < |front| ensures front[i].userId != rows[k].id {
          assert front[i] == rs[i];
        }
      }
      RatingsAppliedUntouched(rows, front, k);
    } else {
      assert DistinctUsers(front);
      assert front[j] == rs[j];
      RatingsAppliedSetsRating(rows, front, j);
      var last := rs[|rs| - 1];
      IndexOfIdSameAccounts(f, rows, last.userId);
      assert last.userId != rs[j].userId;
    }
  }

  // ----- the task -----

  /** How `calculate_ratings_after_competition` ends. */
  datatype RatingOutcome =
    | CompetitionNotFound   // Competition.DoesNotExist, logged
    | NotCompleted          // status is not 'completed': nothing computed
    | NoParticipants        // no leaderboard entries
    | Failed                // an entry without a user: the exception is re-raised before any write
    | Rated(count: nat)

  /** `calculate_ratings_after_competition(id)`, with the competitions read
      as they are, `entries` the rows of the leaderboard entries table that
      belong to the competition, and `math.log2` and `10^x` passed in. The
      users and the history change only when the result is Rated, and then
      by exactly the engine's results. */
  method CalculateRatingsAfterCompetition(
    competitions: seq<CompetitionRow>, id: CompetitionId, entries: seq<RankedEntry>,
    users: UserTable, history: RatingHistoryTable, log2: real -> real, pow10: real -> Positive)
    returns (outcome: RatingOutcome)
    requires users.Valid()
    modifies users, history
    ensures users.Valid()
    ensures IndexOfCompetition(competitions, id).None? ==> outcome == CompetitionNotFound
    ensures IndexOfCompetition(competitions, id).Some? ==>
      var c := competitions[IndexOfCompetition(competitions, id).value];
      var ps := ParticipantsOf(old(users.rows), OrderByRank(entries));
      if c.status != Completed then outcome == NotCompleted
      else if entries == [] then outcome == NoParticipants
      else if ps.None? then outcome == Failed
      else
        var rs := CompetitionRatings(ps.value, c.ratingWeight, log2, pow10);
        && outcome == Rated(|rs|)
        && history.rows == old(history.rows) + HistoryRows(id, rs)
        && users.rows == RatingsApplied(old(users.rows), rs)
    ensures !outcome.Rated? ==> users.rows == old(users.rows) && history.rows == old(history.rows)
  {
    var ci := IndexOfCompetition(competitions, id);
    if ci.None? {
      return CompetitionNotFound;
    }
    var c := competitions[ci.value];
    if c.status != Completed {
      return NotCompleted;
    }
    if entries == [] {
      return NoParticipants;
    }
    var ordered := OrderByRank(entries);
    var participants := BuildParticipants(users.rows, ordered);
    if participants.None? {
      return Failed;
    }
    var results := CalculateCompetitionRatings(participants.value, c.ratingWeight, log2, pow10);
    ParticipantsOfSpec(users.rows, ordered);
    assert forall i :: 0 <= i < |results| ==> IndexOfId(users.rows, results[i].userId).Some? by {
      forall i | 0 <= i < |results| ensures IndexOfId(users.rows, results[i].userId).Some? {
        assert results[i].userId == participants.value[i].userId == ordered[i].user.value;
      }
    }
    ApplyResults(id, results, users, history);
    return Rated(|results|);
  }

  /** The first loop: one participant per ordered entry, stopping at the
      first entry without a user. */
  method BuildParticipants(rows: seq<UserRow>, es: seq<RankedEntry>) returns (ps: Option<seq<Participant>>)
    ensures ps == ParticipantsOf(rows, es)
  {
    var acc: seq<Participant> := [];
    var i := 0;
    while i < |es|
      invariant 0 <= i <= |es|
      invariant ParticipantsOf(rows, es[..i]) == Some(acc)
    {
      assert es[..i + 1][..i] == es[..i];
      var p := ParticipantFor(rows, es[i]);
      if p.None? {
        assert ParticipantsOf(rows, es[..i + 1]).None?;
        PrefixFailureIsFinal(rows, es, i + 1);
        return None;
      }
      acc := acc + [p.value];
      i := i + 1;
    }
    assert es[..i] == es;
    ps := Some(acc);
  }

  /** Once a prefix of the entries fails, the whole list does. */
  lemma {:induction false} PrefixFailureIsFinal(rows: seq<UserRow>, es: seq<RankedEntry>, n: nat)
    requires n <= |es| && ParticipantsOf(rows, es[..n]).None?
    ensures ParticipantsOf(rows, es).None?
    decreases |es| - n
  {
    if n < |es| {
      assert es[..n + 1][..n] == es[..n];
      PrefixFailureIsFinal(rows, es, n + 1);
    } else {
      assert es[..n] == es;
    }
  }

  /** The transaction: per result, one history row and `update_rating` on
      its user. */
  method ApplyResults(comp: CompetitionId, rs: seq<RatingResult>, users: UserTable, history: RatingHistoryTable)
    requires users.Valid()
    requires forall i :: 0 <= i < |rs| ==> IndexOfId(users.rows, rs[i].userId).Some?
    modifies users, history
    ensures users.Valid()
    ensures history.rows == old(history.rows) + HistoryRows(comp, rs)
    ensures users.rows == RatingsApplied(old(users.rows), rs)
  {
    ghost var rows0 := users.rows;
    ghost var hist0 := history.rows;
    var i := 0;
    while i < |rs|
      invariant 0 <= i <= |rs|
      invariant users.Valid()
      invariant users.rows == RatingsApplied(rows0, rs[..i])
      invariant history.rows == hist0 + HistoryRows(comp, rs[..i])
    {
      var r := rs[i];
      HistoryRowsOneMore(comp, rs, i);
      RatingsAppliedOneMore(rows0, rs, i);
      history.rows := history.rows + [HistoryRow(r.userId, comp, r.oldRating, r.newRating, r.ratingChange, r.rank)];
      RatingsAppliedSameAccounts(rows0, rs[..i]);
      IndexOfIdSameAccounts(users.rows, rows0, r.userId);
      users.UpdateRating(r.userId, r.newRating);
      i := i + 1;
    }
    assert rs[..i] == rs;
  }
}
