/** The platform's user accounts and their rating state
    (backend/apps/users/models.py): rating defaults, `update_rating`,
    `increment_competitions`, the rating tier ladder, and the lookups the
    tasks perform on the users table. */
module Users {
  import opened Wrappers

  type UserId = nat

  /** One row of the users table; only the fields the core reads or writes. */
  datatype UserRow = UserRow(
    id: UserId,
    username: string,
    kaggleUsername: Option<string>,
    eloRating: int,
    highestRating: int,
    competitionsParticipated: int)

  const DefaultRating: int := 1500

  /** A freshly registered user: the model's field defaults. */
  function NewUser(id: UserId, username: string, kaggleUsername: Option<string>): (u: UserRow)
    ensures u.id == id && u.username == username && u.kaggleUsername == kaggleUsername
    ensures u.eloRating == 1500 && u.highestRating == 1500 && u.competitionsParticipated == 0
  {
    UserRow(id, username, kaggleUsername, DefaultRating, DefaultRating, 0)
  }

  /** The effect of `update_rating(newRating)` on a row. */
  function WithRating(u: UserRow, newRating: int): (v: UserRow)
    ensures v.eloRating == newRating
    ensures v.highestRating >= u.highestRating && v.highestRating >= v.eloRating
    ensures v.highestRating == u.highestRating || v.highestRating == newRating
    ensures v.id == u.id && v.username == u.username && v.kaggleUsername == u.kaggleUsername
    ensures v.competitionsParticipated == u.competitionsParticipated
  {
    u.(eloRating := newRating,
       highestRating := if newRating > u.highestRating then newRating else u.highestRating)
  }

  /** The effect of `increment_competitions()` on a row. */
  function WithOneMoreCompetition(u: UserRow): (v: UserRow)
    ensures v.competitionsParticipated == u.competitionsParticipated + 1
    ensures v.eloRating == u.eloRating && v.highestRating == u.highestRating
    ensures v.id == u.id && v.username == u.username && v.kaggleUsername == u.kaggleUsername
  {
    u.(competitionsParticipated := u.competitionsParticipated + 1)
  }

  /** The tier names from lowest to highest. */
  const TierNames: seq<string> :=
    ["Newbie", "Beginner", "Intermediate", "Advanced", "Expert", "Master", "International Master", "Grandmaster"]

  /** The lowest rating of each tier above Newbie, in the order of TierNames. */
  const TierThresholds: seq<int> := [1200, 1400, 1600, 1800, 2000, 2200, 2400]

  /** The `rating_tier` property: the if-chain over the thresholds. */
  function RatingTier(rating: int): string {
    if rating >= 2400 then "Grandmaster"
    else if rating >= 2200 then "International Master"
    else if rating >= 2000 then "Master"
    else if rating >= 1800 then "Expert"
    else if rating >= 1600 then "Advanced"
    else if rating >= 1400 then "Intermediate"
    else if rating >= 1200 then "Beginner"
    else "Newbie"
  }

  /** How many of the first `k` thresholds `rating` reaches: the reference
      definition of the tier ladder. */
  function ThresholdsReached(rating: int, k: nat): (n: nat)
    requires k <= |TierThresholds|
    ensures n <= k
    decreases k
  {
    if k == 0 then 0
    else ThresholdsReached(rating, k - 1) + (if TierThresholds[k - 1] <= rating then 1 else 0)
  }

  function TierLevel(rating: int): (level: nat)
    ensures level < |TierNames|
  {
    ThresholdsReached(rating, |TierThresholds|)
  }

  /** The if-chain agrees with the ladder: the tier is the one after as many
      thresholds as the rating reaches. */
  lemma RatingTierIsLadder(rating: int)
    ensures RatingTier(rating) == TierNames[TierLevel(rating)]
  {
    assert ThresholdsReached(rating, 1) == (if 1200 <= rating then 1 else 0);
    assert ThresholdsReached(rating, 2) == ThresholdsReached(rating, 1) + (if 1400 <= rating then 1 else 0);
    assert ThresholdsReached(rating, 3) == ThresholdsReached(rating, 2) + (if 1600 <= rating then 1 else 0);
    assert ThresholdsReached(rating, 4) == ThresholdsReached(rating, 3) + (if 1800 <= rating then 1 else 0);
    assert ThresholdsReached(rating, 5) == ThresholdsReached(rating, 4) + (if 2000 <= rating then 1 else 0);
    assert ThresholdsReached(rating, 6) == ThresholdsReached(rating, 5) + (if 2200 <= rating then 1 else 0);
    assert ThresholdsReached(rating, 7) == ThresholdsReached(rating, 6) + (if 2400 <= rating then 1 else 0);
  }

  lemma {:induction false} ThresholdsReachedMonotone(a: int, b: int, k: nat)
    requires a <= b && k <= |TierThresholds|
    ensures ThresholdsReached(a, k) <= ThresholdsReached(b, k)
    decreases k
  {
    if k > 0 {
      ThresholdsReachedMonotone(a, b, k - 1);
    }
  }

  /** A higher rating never maps to a lower tier. */
  lemma RatingTierMonotone(a: int, b: int)
    requires a <= b
    ensures TierLevel(a) <= TierLevel(b)
    ensures RatingTier(a) == TierNames[TierLevel(a)] && RatingTier(b) == TierNames[TierLevel(b)]
  {
    ThresholdsReachedMonotone(a, b, |TierThresholds|);
    RatingTierIsLadder(a);
    RatingTierIsLadder(b);
  }

  // ----- lookups on the users table -----

  /** Primary keys are distinct and usernames are unique, as the database
      enforces. */
  ghost predicate WellFormed(rows: seq<UserRow>) {
    && (forall i, j :: 0 <= i < j < |rows| ==> rows[i].id != rows[j].id)
    && (forall i, j :: 0 <= i < j < |rows| ==> rows[i].username != rows[j].username)
  }

  /** Position of the row with primary key `id` (`User.objects.get(id=...)`). */
  function IndexOfId(rows: seq<UserRow>, id: UserId): (r: Option<nat>)
    ensures r.Some? ==> r.value < |rows| && rows[r.value].id == id
    ensures r.Some? ==> forall j :: 0 <= j < r.value ==> rows[j].id != id
    ensures r.None? ==> forall j :: 0 <= j < |rows| ==> rows[j].id != id
  {
    if |rows| == 0 then None
    else if rows[0].id == id then Some(0)
    else match IndexOfId(rows[1..], id)
      case None => None
      case Some(k) => Some(k + 1)
  }

  /** Position of the row with the given username. */
  function IndexOfUsername(rows: seq<UserRow>, name: string): (r: Option<nat>)
    ensures r.Some? ==> r.value < |rows| && rows[r.value].username == name
    ensures r.None? ==> forall j :: 0 <= j < |rows| ==> rows[j].username != name
  {
    if |rows| == 0 then None
    else if rows[0].username == name then Some(0)
    else match IndexOfUsername(rows[1..], name)
      case None => None
      case Some(k) => Some(k + 1)
  }

  /** `User.objects.get(username=name)`: the id of the one user with that
      username, None where `User.DoesNotExist` is raised. */
  function IdByUsername(rows: seq<UserRow>, name: string): (r: Option<UserId>)
    ensures r.None? <==> forall j :: 0 <= j < |rows| ==> rows[j].username != name
    ensures r.Some? ==> exists j :: 0 <= j < |rows| && rows[j].username == name && rows[j].id == r.value
  {
    match IndexOfUsername(rows, name)
    case None => None
    case Some(i) => Some(rows[i].id)
  }

  /** The rows whose `kaggle_username` is `name`, in table order (the field
      is not unique, so there may be several). */
  function KaggleUsernameMatches(rows: seq<UserRow>, name: string): (r: seq<UserRow>)
    ensures |r| <= |rows|
    ensures forall u :: u in r ==> u in rows && u.kaggleUsername == Some(name)
    ensures forall j :: 0 <= j < |rows| && rows[j].kaggleUsername == Some(name) ==> rows[j] in r
  {
    if |rows| == 0 then []
    else
      var rest := KaggleUsernameMatches(rows[1..], name);
      assert forall j :: 1 <= j < |rows| ==> rows[j] == rows[1..][j - 1];
      if rows[0].kaggleUsername == Some(name) then [rows[0]] + rest else rest
  }

  /** The users table, held as its rows in primary-key order. */
  class UserTable {
    var rows: seq<UserRow>

    ghost predicate Valid()
      reads this
    {
      WellFormed(rows)
    }

    constructor ()
      ensures Valid() && rows == []
    {
      rows := [];
    }

    /** `User.update_rating(newRating)` on the user with primary key `id`:
        that row takes WithRating, every other row stays as it was. */
    method UpdateRating(id: UserId, newRating: int)
      requires Valid() && IndexOfId(rows, id).Some?
      modifies this
      ensures Valid()
      ensures rows == old(rows)[IndexOfId(old(rows), id).value := WithRating(old(rows)[IndexOfId(old(rows), id).value], newRating)]
    {
      var i := IndexOfId(rows, id).value;
      rows := rows[i := WithRating(rows[i], newRating)];
    }

    /** `User.increment_competitions()` on the user with primary key `id`. */
    method IncrementCompetitions(id: UserId)
      requires Valid() && IndexOfId(rows, id).Some?
      modifies this
      ensures Valid()
      ensures rows == old(rows)[IndexOfId(old(rows), id).value := WithOneMoreCompetition(old(rows)[IndexOfId(old(rows), id).value])]
    {
      var i := IndexOfId(rows, id).value;
      rows := rows[i := WithOneMoreCompetition(rows[i])];
    }
  }
}
